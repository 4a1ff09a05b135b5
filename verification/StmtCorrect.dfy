/** Running the bytes of a statement is executing the statement. */
module StmtCorrect {
  import opened Values
  import opened Syntax
  import opened Bytecode
  import opened Codegen
  import opened Machine
  import opened ExprCorrect
  import I = Interpreter

  /** Between statements the stack holds exactly the locals. */
  ghost predicate AtRest(t: Target, sc: Scope, vm: Vm, w: I.World) {
    Settled(sc) && |vm.stack| == |sc.locals| && Mirrors(t, sc, vm, w)
  }

  /** From vm, k steps execute the `size` bytes at vm.pc with outcome r, ending with tables
      sc1. If the interpreter ran out of fuel the machine is still running after at least
      as many steps as there was fuel. */
  ghost predicate Runs(t: Target, sc1: Scope, vm: Vm, size: nat, k: nat, vm1: Vm, r: I.Executed, fuel: nat) {
    match r
    case Done(w) =>
      RunFor(t.fp, t.chunk, Running(vm), k) == Running(vm1) && vm1.pc == vm.pc + size && AtRest(t, sc1, vm1, w)
    case Error(w) =>
      RunFor(t.fp, t.chunk, Running(vm), k) == Crashed(vm1) && CrashMirrors(t, vm1, w)
    case OutOfFuel =>
      RunFor(t.fp, t.chunk, Running(vm), k) == Running(vm1) && k >= fuel
  }

  /** Steps in front of a run. */
  lemma After2(t: Target, sc1: Scope, vm: Vm, a: nat, vm1: Vm, size: nat, k: nat, vm2: Vm, r: I.Executed, fuel: nat)
    requires RunFor(t.fp, t.chunk, Running(vm), a) == Running(vm1) && vm1.pc + size >= vm.pc
    requires Runs(t, sc1, vm1, size, k, vm2, r, fuel)
    ensures Runs(t, sc1, vm, vm1.pc + size - vm.pc, a + k, vm2, r, fuel)
    ensures r.OutOfFuel? ==> Runs(t, sc1, vm, vm1.pc + size - vm.pc, a + k, vm2, r, a + k)
  {
    hide RunFor, AtRest;
    Then(t, vm, a, vm1, k);
  }

  /** Readonly marks do not matter when the code runs. */
  lemma ShapeOnly(t: Target, sc: Scope, sc1: Scope, vm: Vm, w: I.World)
    requires SameShape(sc, sc1) && Settled(sc1) && AtRest(t, sc, vm, w)
    ensures AtRest(t, sc1, vm, w)
  {
    hide SameGlobals, RunFor;
    assert forall x, d :: HasLocal(sc.locals, x, d) ==> HasLocal(sc1.locals, x, d);
  }

  lemma SettledIsOrdered(sc: Scope)
    requires Settled(sc)
    ensures Ordered(sc.locals, sc.depth) && Slots(sc.locals) == |sc.locals|
  {
  }

  // ----- expressions as parts of statements -----

  /** An evaluation whose value is consumed by one more instruction leaves the machine at rest. */
  lemma ExprThenPop(t: Target, e: Expr, sc: Scope, vm: Vm, w: I.World) returns (k: nat, vm1: Vm)
    requires AtRest(t, sc, vm, w)
    requires var g := GenExpr(e, sc);
      Ready(t, g, vm.pc) && CodeAt(t.chunk.code, vm.pc + |g.bytes|, EmitPlain(Pop))
    ensures Runs(t, GenExpr(e, sc).scope, vm, |GenExpr(e, sc).bytes| + 1, k, vm1, I.ExecOpt(t.fp, Some(e), w), 0)
  {
    hide RunFor, SameGlobals, SameLocals, CodeAt, Covers, GenExpr, EmitPlain;
    var g := GenExpr(e, sc);
    SettledIsOrdered(sc);
    k, vm1 := ExprRuns(t, e, sc, vm, w);
    var r := I.Eval(t.fp, e, w);
    if r.Value? {
      vm1 := PopRuns(t, sc, vm, k, vm1, r.w);
      k := k + 1;
    }
  }

  lemma PrintRuns(t: Target, e: Expr, sc: Scope, vm: Vm, w: I.World) returns (k: nat, vm1: Vm)
    requires AtRest(t, sc, vm, w)
    requires var g := GenExpr(e, sc);
      Ready(t, g, vm.pc) && CodeAt(t.chunk.code, vm.pc + |g.bytes|, EmitPlain(Simple.Print))
    ensures Runs(t, GenExpr(e, sc).scope, vm, |GenExpr(e, sc).bytes| + 1,
      k, vm1, I.Execute(t.fp, Stmt.Print(e), w, 0), 0)
  {
    hide RunFor, SameGlobals, CodeAt, Covers, GenExpr, EmitPlain, SameLocals, I.Eval, OneAddress;
    var g := GenExpr(e, sc);
    SettledIsOrdered(sc);
    k, vm1 := ExprRuns(t, e, sc, vm, w);
    var r := I.Eval(t.fp, e, w);
    if r.Value? {
      StepPlain(t.fp, t.chunk, vm1, Simple.Print);
      Then(t, vm, k, vm1, 1);
      var vm2 := vm1.(pc := vm1.pc + 1, stack := vm1.stack[..|vm1.stack| - 1], output := vm1.output + [r.v]);
      SlotsOnly(sc.locals, sc.depth, vm1.stack, vm2.stack, r.w.scopes);
      k, vm1 := k + 1, vm2;
    }
  }

  // ----- declarations -----

  /** While its initializer runs, a local is in the table but not on the stack. */
  lemma Declared(t: Target, sc: Scope, x: string, vm: Vm, w: I.World)
    requires AtRest(t, sc, vm, w) && sc.depth > 0 && DeclareLocal(sc, x).Some?
    ensures var sc1 := DeclareLocal(sc, x).value;
      Slots(sc1.locals) == |sc.locals| && Mirrors(t, sc1, vm, w)
  {
    hide SameGlobals, RunFor, OneAddress;
    var sc1 := DeclareLocal(sc, x).value;
    assert forall y, d :: HasLocal(sc.locals, y, d) ==> HasLocal(sc1.locals, y, d) by {
      forall y, d | HasLocal(sc.locals, y, d)
        ensures HasLocal(sc1.locals, y, d)
      {
        var i :| 1 <= i < |sc.locals| && sc.locals[i].name == y && sc.locals[i].depth == d + 1;
        assert sc1.locals[i] == sc.locals[i];
      }
    }
    assert Ordered(sc1.locals, sc1.depth);
  }

  /** When the value of its initializer is on the stack the local is defined: that stack
      position is its slot. */
  lemma Defined(t: Target, sc: Scope, x: Name, addr: nat, readonly: bool, vm: Vm, w: I.World)
    requires |sc.locals| > 1 && sc.locals[|sc.locals| - 1].name == x && sc.locals[|sc.locals| - 1].depth == -1
    requires sc.depth > 0 && Mirrors(t, sc, vm, w) && |vm.stack| == |sc.locals| && addr < |sc.locals|
    requires Settled(DefineLocal(sc, addr, readonly))
    ensures AtRest(t, DefineLocal(sc, addr, readonly), vm, I.Declare(w, x, vm.stack[|vm.stack| - 1]))
  {
    hide SameGlobals, RunFor, HasLocal;
    var sc1 := DefineLocal(sc, addr, readonly);
    var v := vm.stack[|vm.stack| - 1];
    var w1 := I.Declare(w, x, v);
    var last := |sc.locals| - 1;
    assert sc1.locals[last].name == x && sc1.locals[last].depth == sc.depth;
    assert Keeps(sc.(locals := sc.locals[..last]), sc1);
    forall i | 1 <= i < Slots(sc1.locals)
      ensures var l := sc1.locals[i];
        l.name in w1.scopes[l.depth - 1] && w1.scopes[l.depth - 1][l.name] == vm.stack[i]
    {
      if i < last {
        assert sc1.locals[i].name == sc.locals[i].name && sc1.locals[i].depth == sc.locals[i].depth;
      }
    }
    forall d, y | 0 <= d < |w1.scopes| && y in w1.scopes[d]
      ensures HasLocal(sc1.locals, y, d)
    {
      if !(d == sc.depth - 1 && y == x) {
        assert HasLocal(sc.locals, y, d);
      }
      StillThere(sc, sc1, x, d, y);
    }
  }

  lemma StillThere(sc: Scope, sc1: Scope, x: string, d: int, y: string)
    requires |sc1.locals| == |sc.locals| > 1
    requires forall i :: 0 <= i < |sc.locals| - 1 ==>
      sc1.locals[i].name == sc.locals[i].name && sc1.locals[i].depth == sc.locals[i].depth
    requires var last := |sc.locals| - 1;
      sc.locals[last].depth == -1 && sc1.locals[last].name == x && sc1.locals[last].depth == sc.depth
    requires (d == sc.depth - 1 && y == x) || (d >= 0 && HasLocal(sc.locals, y, d))
    ensures HasLocal(sc1.locals, y, d)
  {
    var i := |sc.locals| - 1;
    if !(d == sc.depth - 1 && y == x) {
      i :| 1 <= i < |sc.locals| && sc.locals[i].name == y && sc.locals[i].depth == d + 1;
    }
    assert sc1.locals[i].name == y && sc1.locals[i].depth == d + 1;
  }

  function EvalInit(fp: Arith, init: Option<Expr>, w: I.World): I.Evaluated {
    if init.Some? then I.Eval(fp, init.value, w) else I.Value(Nil, w)
  }

  lemma InitRuns(t: Target, init: Option<Expr>, sc: Scope, vm: Vm, w: I.World) returns (k: nat, vm1: Vm)
    requires Ready(t, GenInit(init, sc), vm.pc) && Mirrors(t, sc, vm, w)
    ensures Evaluates(t, sc, vm, |GenInit(init, sc).bytes|, k, vm1, EvalInit(t.fp, init, w))
  {
    hide RunFor, SameGlobals, SameLocals, CodeAt, Covers, GenExpr;
    if init.Some? {
      k, vm1 := ExprRuns(t, init.value, sc, vm, w);
    } else {
      PushPlain(t, sc, vm, w, PushNil, Nil);
      k, vm1 := 1, Push(vm, vm.pc + 1, Nil).vm;
    }
  }

  function DeclareInit(r: I.Evaluated, x: Name): I.Executed {
    match r
    case Value(v, w) => I.Done(I.Declare(w, x, v))
    case Failed(w) => I.Error(w)
  }

  lemma LocalVarRuns(t: Target, readonly: bool, x: Name, init: Option<Expr>, sc: Scope, vm: Vm, w: I.World)
      returns (k: nat, vm1: Vm)
    requires AtRest(t, sc, vm, w) && sc.depth > 0 && Ready(t, GenLocalVar(readonly, x, init, sc), vm.pc)
    ensures var g := GenLocalVar(readonly, x, init, sc);
      Runs(t, g.scope, vm, |g.bytes|, k, vm1, DeclareInit(EvalInit(t.fp, init, w), x), 0)
  {
    hide RunFor, SameGlobals, SameLocals, CodeAt, GenInit;
    var sc1 := DeclareLocal(sc, x).value;
    Declared(t, sc, x, vm, w);
    k, vm1 := InitRuns(t, init, sc1, vm, w);
    var r := EvalInit(t.fp, init, w);
    if r.Value? {
      Defined(t, GenInit(init, sc1).scope, x, AddedAddress(sc.locals, x), readonly, vm1, r.w);
    }
  }

  lemma GlobalDefined(names: seq<string>, globals: seq<Option<Value>>, env: I.Env, addr: nat, v: Value)
    requires SameGlobals(names, globals, env) && addr < |names|
    requires Distinct(names)
    ensures var grown := if addr >= |globals| then globals + Undefineds(addr + 1 - |globals|) else globals;
      SameGlobals(names, grown[addr := Some(v)], env[names[addr] := v])
  {
    var grown := if addr >= |globals| then globals + Undefineds(addr + 1 - |globals|) else globals;
    assert SameGlobals(names, grown, env);
    GlobalWritten(names, grown, env, addr, v);
  }

  lemma GlobalVarRuns(t: Target, readonly: bool, x: Name, init: Option<Expr>, sc: Scope, vm: Vm, w: I.World)
      returns (k: nat, vm1: Vm)
    requires AtRest(t, sc, vm, w) && sc.depth == 0 && Ready(t, GenGlobalVar(readonly, x, init, sc), vm.pc)
    ensures var g := GenGlobalVar(readonly, x, init, sc);
      Runs(t, g.scope, vm, |g.bytes|, k, vm1, DeclareInit(EvalInit(t.fp, init, w), x), 0)
  {
    hide RunFor, SameGlobals, SameLocals, CodeAt, GenInit, Covers;
    var addr := GlobalVarReady(t, readonly, x, init, sc, vm);
    var sc1 := sc.(globals := MakeGlobal(sc.globals, x).0);
    var size := |GenInit(init, sc1).bytes|;
    SettledIsOrdered(sc);
    k, vm1 := InitRuns(t, init, sc1, vm, w);
    var r := EvalInit(t.fp, init, w);
    if r.Value? {
      StepAddress(t.fp, t.chunk, vm1, DefineGlobal, addr);
      OperandSurvives(DefineGlobal, addr);
      Then(t, vm, k, vm1, 1);
      vm1 := DefineRuns(t, sc, addr, x, vm1, vm1.pc + |EmitAddress(DefineGlobal, addr)|, r.v, r.w);
      k := k + 1;
    }
  }

  lemma DefineRuns(t: Target, sc: Scope, addr: nat, x: string, vm: Vm, next: nat, v: Value, w: I.World)
      returns (vm1: Vm)
    requires Settled(sc) && sc.depth == 0 && |vm.stack| == |sc.locals| + 1 && Peek(vm, 0) == v
    requires Mirrors(t, sc, vm, w) && addr < |t.names| && t.names[addr] == x && x != "this"
    requires Distinct(t.names)
    ensures ExecAddress(t.chunk.constants, DefineGlobal, addr, next, vm) == Running(vm1) && vm1.pc == next
    ensures AtRest(t, sc, vm1, I.Declare(w, x, v))
  {
    hide RunFor, SameGlobals;
    GlobalDefined(t.names, vm.globals, w.globals, addr, v);
    vm1 := ExecAddress(t.chunk.constants, DefineGlobal, addr, next, vm).vm;
    SettledIsOrdered(sc);
    SlotsOnly(sc.locals, sc.depth, vm.stack, vm1.stack, w.scopes);
  }

  lemma GlobalVarReady(t: Target, readonly: bool, x: Name, init: Option<Expr>, sc: Scope, vm: Vm) returns (addr: nat)
    requires Settled(sc) && Ready(t, GenGlobalVar(readonly, x, init, sc), vm.pc)
    ensures var sc1 := sc.(globals := MakeGlobal(sc.globals, x).0);
      var g := GenInit(init, sc1);
      && Ready(t, g, vm.pc) && FitsOperand(DefineGlobal, addr)
      && addr < |t.names| && t.names[addr] == x && Distinct(t.names)
      && CodeAt(t.chunk.code, vm.pc + |g.bytes|, EmitAddress(DefineGlobal, addr))
      && |GenGlobalVar(readonly, x, init, sc).bytes| == |g.bytes| + |EmitAddress(DefineGlobal, addr)|
  {
    hide RunFor, CodeAt, EmitAddress, GenInit, SymmetricEq;
    var (globals, a) := MakeGlobal(sc.globals, x);
    addr := a;
    var g := GenInit(init, sc.(globals := globals));
    CodeAtSplit(t.chunk.code, vm.pc, g.bytes, EmitAddress(DefineGlobal, addr));
  }

  // ----- scopes -----

  lemma ScopeEntered(t: Target, sc: Scope, vm: Vm, w: I.World)
    requires AtRest(t, sc, vm, w)
    ensures AtRest(t, BeginScope(sc), vm, I.PushScope(w))
  {
    hide SameGlobals, RunFor, SameLocals;
    LocalsEntered(sc.locals, sc.depth, vm.stack, w.scopes);
  }

  lemma LocalsEntered(locals: seq<Local>, depth: nat, stack: seq<Value>, scopes: seq<I.Env>)
    requires SameLocals(locals, depth, stack, scopes)
    ensures SameLocals(locals, depth + 1, stack, scopes + [map[]])
  {
    hide HasLocal;
  }

  lemma ScopeLeft(t: Target, sc: Scope, sc1: Scope, vm: Vm, vm1: Vm, w: I.World)
    requires Settled(sc) && After(BeginScope(sc), sc1) && AtRest(t, sc1, vm, w)
    requires vm1.stack == vm.stack[..|sc.locals|] && vm1.globals == vm.globals && vm1.output == vm.output
    ensures AtRest(t, EndScope(sc1).scope, vm1, I.PopScope(w))
  {
    hide SameGlobals, RunFor, SameLocals;
    ScopeClosed(sc, sc1);
    var sc2 := EndScope(sc1).scope;
    assert sc2.locals == sc1.locals[..|sc.locals|];
    assert |w.scopes| == sc1.depth by { ScopeCount(sc1, vm.stack, w.scopes); }
    LocalsLeft(sc1.locals, sc.depth, |sc.locals|, vm.stack, w.scopes);
    SettledIsOrdered(sc2);
  }

  lemma ScopeCount(sc: Scope, stack: seq<Value>, scopes: seq<I.Env>)
    requires SameLocals(sc.locals, sc.depth, stack, scopes)
    ensures |scopes| == sc.depth
  {
  }

  /** Cutting off the innermost scope on both sides. */
  lemma LocalsLeft(locals: seq<Local>, depth: nat, n: nat, stack: seq<Value>, scopes: seq<I.Env>)
    requires SameLocals(locals, depth + 1, stack, scopes) && 1 <= n <= |locals| == Slots(locals)
    requires forall i :: 1 <= i < n ==> locals[i].depth <= depth
    requires forall i :: n <= i < |locals| ==> locals[i].depth == depth + 1
    ensures SameLocals(locals[..n], depth, stack[..n], scopes[..depth])
  {
    hide HasLocal;
    assert Ordered(locals[..n], depth);
    forall d, x | 0 <= d < depth && x in scopes[d]
      ensures HasLocal(locals[..n], x, d)
    {
      assert HasLocal(locals, x, d);
      OuterLocal(locals, depth, n, x, d);
    }
  }

  lemma OuterLocal(locals: seq<Local>, depth: nat, n: nat, x: string, d: int)
    requires n <= |locals| && HasLocal(locals, x, d) && d < depth
    requires forall i :: n <= i < |locals| ==> locals[i].depth == depth + 1
    ensures HasLocal(locals[..n], x, d)
  {
    var i :| 1 <= i < |locals| && locals[i].name == x && locals[i].depth == d + 1;
    assert locals[..n][i] == locals[i];
  }

  lemma {:induction false} PopsRun(t: Target, vm: Vm, n: nat)
    requires CodeAt(t.chunk.code, vm.pc, Pops(n)) && n <= |vm.stack|
    ensures RunFor(t.fp, t.chunk, Running(vm), n) == Running(vm.(pc := vm.pc + n, stack := vm.stack[..|vm.stack| - n]))
    decreases n
  {
    if n == 0 {
      assert vm.stack[..|vm.stack|] == vm.stack;
    } else {
      hide RunFor;
      CodeAtSplit(t.chunk.code, vm.pc, EmitPlain(Pop), Pops(n - 1));
      StepPlain(t.fp, t.chunk, vm, Pop);
      var vm1 := vm.(pc := vm.pc + 1, stack := vm.stack[..|vm.stack| - 1]);
      PopsRun(t, vm1, n - 1);
      Then(t, vm, 1, vm1, n - 1);
      assert vm1.stack[..|vm1.stack| - (n - 1)] == vm.stack[..|vm.stack| - n];
    }
  }

  lemma {:induction false} PopsLength(n: nat)
    ensures |Pops(n)| == n
    decreases n
  {
    if n > 0 {
      PopsLength(n - 1);
    }
  }

  lemma CoversInside(t: Target, sc: Scope)
    requires sc.depth > 0 && Covers(t, EndScope(sc).scope) && !EndScope(sc).scope.narrowed
    ensures Covers(t, sc) && !sc.narrowed
  {
  }

  /** A run inside a scope, then the pops that leave it. */
  lemma LeaveRuns(t: Target, sc: Scope, sc1: Scope, vm: Vm, size: nat, k: nat, vm1: Vm, r: I.Executed, fuel: nat)
      returns (k2: nat, vm2: Vm)
    requires Settled(sc) && After(BeginScope(sc), sc1) && Runs(t, sc1, vm, size, k, vm1, r, fuel)
    requires CodeAt(t.chunk.code, vm.pc + size, EndScope(sc1).bytes)
    ensures Runs(t, EndScope(sc1).scope, vm, size + |EndScope(sc1).bytes|, k2, vm2, I.LeaveScope(r), fuel)
  {
    hide RunFor, SameGlobals, SameLocals, CodeAt, Outer, Pops;
    k2, vm2 := k, vm1;
    if r.Done? {
      ScopeClosed(sc, sc1);
      var n := |sc1.locals| - |sc.locals|;
      PopsLength(n);
      PopsRun(t, vm1, n);
      Then(t, vm, k, vm1, n);
      vm2 := vm1.(pc := vm1.pc + n, stack := vm1.stack[..|vm1.stack| - n]);
      k2 := k + n;
      ScopeLeft(t, sc, sc1, vm1, vm2, r.w);
    }
  }

  // ----- statements -----

  lemma RestIsSettled(t: Target, sc: Scope, vm: Vm, w: I.World)
    requires AtRest(t, sc, vm, w)
    ensures Settled(sc) && |vm.stack| == |sc.locals| >= 1 && Mirrors(t, sc, vm, w)
  {
  }

  lemma {:induction false} StmtRuns(t: Target, s: Stmt, sc: Scope, vm: Vm, w: I.World, fuel: nat)
      returns (k: nat, vm1: Vm)
    requires AtRest(t, sc, vm, w) && WellFormedStmt(s, true) && Ready(t, GenStmt(s, sc), vm.pc)
    ensures var g := GenStmt(s, sc);
      Runs(t, g.scope, vm, |g.bytes|, k, vm1, I.Execute(t.fp, s, w, fuel), fuel)
    decreases fuel, s, 3
  {
    hide RunFor, AtRest, CodeAt, Covers, GenExpr;
    match s
    case ExprStmt(e) =>
      CodeAtSplit(t.chunk.code, vm.pc, GenExpr(e, sc).bytes, EmitPlain(Pop));
      k, vm1 := ExprThenPop(t, e, sc, vm, w);
    case Print(e) =>
      CodeAtSplit(t.chunk.code, vm.pc, GenExpr(e, sc).bytes, EmitPlain(Simple.Print));
      k, vm1 := PrintRuns(t, e, sc, vm, w);
    case VarDecl(ro, x, init) => k, vm1 := VarRunsStmt(t, ro, x, init, sc, vm, w, fuel);
    case Block(body) => k, vm1 := BlockRuns(t, body, sc, vm, w, fuel);
    case If(c, thn, els) => k, vm1 := IfRuns(t, c, thn, els, sc, vm, w, fuel);
    case While(c, loop) => k, vm1 := LoopRuns(t, s, Some(c), None, loop, sc, vm, w, fuel);
    case For(first, cond, incr, loop) => k, vm1 := ForRuns(t, s, sc, vm, w, fuel);
  }

  lemma VarRunsStmt(t: Target, ro: bool, x: Name, init: Option<Expr>, sc: Scope, vm: Vm, w: I.World, fuel: nat)
      returns (k: nat, vm1: Vm)
    requires AtRest(t, sc, vm, w) && Ready(t, GenVar(ro, x, init, sc), vm.pc)
    ensures var g := GenVar(ro, x, init, sc);
      Runs(t, g.scope, vm, |g.bytes|, k, vm1, I.Execute(t.fp, VarDecl(ro, x, init), w, fuel), fuel)
  {
    hide RunFor, SameGlobals, SameLocals, CodeAt, Covers, GenInit;
    if sc.depth > 0 {
      k, vm1 := LocalVarRuns(t, ro, x, init, sc, vm, w);
    } else {
      k, vm1 := GlobalVarRuns(t, ro, x, init, sc, vm, w);
    }
  }

  lemma {:induction false} BlockRuns(t: Target, body: Stmts, sc: Scope, vm: Vm, w: I.World, fuel: nat)
      returns (k: nat, vm1: Vm)
    requires AtRest(t, sc, vm, w) && WellFormedStmts(body) && Ready(t, GenStmt(Block(body), sc), vm.pc)
    ensures var g := GenStmt(Block(body), sc);
      Runs(t, g.scope, vm, |g.bytes|, k, vm1, I.Execute(t.fp, Block(body), w, fuel), fuel)
    decreases fuel, Block(body), 0
  {
    hide RunFor, AtRest, CodeAt, EndScope, Covers, SymmetricEq, Settled, Keeps, SameShape, OneAddress;
    RestIsSettled(t, sc, vm, w);
    ScopeEntered(t, sc, vm, w);
    RestIsSettled(t, BeginScope(sc), vm, I.PushScope(w));
    var g := GenStmts(body, BeginScope(sc));
    CodeAtSplit(t.chunk.code, vm.pc, g.bytes, EndScope(g.scope).bytes);
    CoversInside(t, g.scope);
    k, vm1 := StmtsRun(t, body, BeginScope(sc), vm, I.PushScope(w), fuel);
    k, vm1 := LeaveRuns(t, sc, g.scope, vm, |g.bytes|, k, vm1, I.ExecuteAll(t.fp, body, I.PushScope(w), fuel), fuel);
  }

  lemma {:induction false} StmtsRun(t: Target, ss: Stmts, sc: Scope, vm: Vm, w: I.World, fuel: nat)
      returns (k: nat, vm1: Vm)
    requires AtRest(t, sc, vm, w) && WellFormedStmts(ss) && Ready(t, GenStmts(ss, sc), vm.pc)
    ensures var g := GenStmts(ss, sc);
      Runs(t, g.scope, vm, |g.bytes|, k, vm1, I.ExecuteAll(t.fp, ss, w, fuel), fuel)
    decreases fuel, ss, 0
  {
    hide RunFor, AtRest, CodeAt, Covers, GenStmt, I.Execute, SymmetricEq, Settled, Keeps, SameShape;
    RestIsSettled(t, sc, vm, w);
    match ss
    case Empty =>
      Start(t, vm);
      k, vm1 := 0, vm;
    case Cons(s, rest) =>
      var g := GenStmt(s, sc);
      var h := GenStmts(rest, g.scope);
      CodeAtSplit(t.chunk.code, vm.pc, g.bytes, h.bytes);
      CoversEarlier(t, g.scope, h.scope);
      k, vm1 := StmtRuns(t, s, sc, vm, w, fuel);
      var r := I.Execute(t.fp, s, w, fuel);
      if r.Done? {
        var k2, vm2 := StmtsRun(t, rest, g.scope, vm1, r.w, fuel);
        After2(t, h.scope, vm, k, vm1, |h.bytes|, k2, vm2, I.ExecuteAll(t.fp, rest, r.w, fuel), fuel);
        k, vm1 := k + k2, vm2;
      }
  }

  lemma {:induction false} OptionalRuns(t: Target, s: Option<Stmt>, sc: Scope, vm: Vm, w: I.World, fuel: nat)
      returns (k: nat, vm1: Vm)
    requires AtRest(t, sc, vm, w) && (s.Some? ==> WellFormedStmt(s.value, true)) && Ready(t, GenOptional(s, sc), vm.pc)
    ensures var g := GenOptional(s, sc);
      Runs(t, g.scope, vm, |g.bytes|, k, vm1, if s.Some? then I.Execute(t.fp, s.value, w, fuel) else I.Done(w), fuel)
    decreases fuel, s, 0
  {
    hide RunFor, AtRest, CodeAt, Covers, GenStmt;
    if s.Some? {
      k, vm1 := StmtRuns(t, s.value, sc, vm, w, fuel);
    } else {
      Start(t, vm);
      k, vm1 := 0, vm;
    }
  }

  lemma IfPlaces(code: seq<Byte>, pc: nat, test: seq<Byte>, yes: seq<Byte>, no: seq<Byte>)
    requires CodeAt(code, pc, IfBytes(test, yes, no))
    ensures CodeAt(code, pc, test)
    ensures var pc1 := pc + |test|;
      && CodeAt(code, pc1, EmitBranch(JumpIfFalse, 1 + |yes| + 3))
      && CodeAt(code, pc1 + 3, EmitPlain(Pop))
      && CodeAt(code, pc1 + 4, yes)
    ensures var pc2 := pc + |test| + 4 + |yes|;
      && CodeAt(code, pc2, EmitBranch(Jump, 1 + |no|))
      && CodeAt(code, pc2 + 3, EmitPlain(Pop))
      && CodeAt(code, pc2 + 4, no)
      && |IfBytes(test, yes, no)| == |test| + |yes| + |no| + 8
  {
    hide CodeAt, EmitBranch, EmitPlain;
    var pc1 := pc + |test|;
    var pc2 := pc1 + 4 + |yes|;
    var skip := EmitBranch(JumpIfFalse, 1 + |yes| + 3);
    var over := EmitBranch(Jump, 1 + |no|);
    var tail := over + (EmitPlain(Pop) + no);
    CodeAtSplit(code, pc, test, skip + (EmitPlain(Pop) + (yes + tail)));
    CodeAtSplit(code, pc1, skip, EmitPlain(Pop) + (yes + tail));
    CodeAtSplit(code, pc1 + 3, EmitPlain(Pop), yes + tail);
    CodeAtSplit(code, pc1 + 4, yes, tail);
    CodeAtSplit(code, pc2, over, EmitPlain(Pop) + no);
    CodeAtSplit(code, pc2 + 3, EmitPlain(Pop), no);
  }

  /** What a compiled `if` is made of. */
  lemma IfShape(c: Expr, thn: Stmt, els: Option<Stmt>, sc: Scope)
    requires Settled(sc) && GenStmt(If(c, thn, els), sc).Code? && WellFormedStmt(If(c, thn, els), false)
    ensures var g := GenStmt(If(c, thn, els), sc);
      var test := GenExpr(c, sc);
      && test.Code? && Grows(sc, test.scope) && SameShape(sc, test.scope) && Settled(test.scope)
      && var yes := GenStmt(thn, test.scope);
      && yes.Code? && Grows(test.scope, yes.scope) && SameShape(test.scope, yes.scope) && Settled(yes.scope)
      && var no := GenOptional(els, yes.scope);
      && no.Code? && Grows(yes.scope, no.scope) && SameShape(yes.scope, no.scope) && Settled(no.scope)
      && IfReach(yes.bytes, no.bytes)
      && (!no.scope.narrowed ==> !yes.scope.narrowed && !test.scope.narrowed)
      && g == Code(IfBytes(test.bytes, yes.bytes, no.bytes), no.scope)
  {
    hide IfBytes, GenOptional, GenExpr;
    var test := GenExpr(c, sc);
    AfterExpr(sc, test.scope);
  }

  /** The test, the jump and the pop at the start of the branch that is taken. */
  lemma IfTested(t: Target, c: Expr, thn: Stmt, els: Option<Stmt>, sc: Scope, vm: Vm, w: I.World)
      returns (k: nat, vm1: Vm)
    requires AtRest(t, sc, vm, w) && WellFormedStmt(If(c, thn, els), false)
        && Ready(t, GenStmt(If(c, thn, els), sc), vm.pc)
    ensures var test := GenExpr(c, sc);
      && test.Code? && Settled(test.scope) && GenStmt(thn, test.scope).Code?
      && match I.Eval(t.fp, c, w)
        case Failed(w1) => RunFor(t.fp, t.chunk, Running(vm), k) == Crashed(vm1) && CrashMirrors(t, vm1, w1)
        case Value(v, w1) =>
          && RunFor(t.fp, t.chunk, Running(vm), k) == Running(vm1)
          && AtRest(t, test.scope, vm1, w1)
          && vm1.pc == vm.pc + |test.bytes| + 4 + if IsFalsey(v) then |GenStmt(thn, test.scope).bytes| + 4 else 0
  {
    hide RunFor, AtRest, CodeAt, Covers, GenStmt, SymmetricEq, GenExpr, GenOptional, IfBytes, EmitPlain, EmitBranch,
        SameShape, SameLocals, SameGlobals, Settled, Grows, I.Eval, Keeps, OneAddress;
    RestIsSettled(t, sc, vm, w);
    IfShape(c, thn, els, sc);
    var test := GenExpr(c, sc);
    var yes := GenStmt(thn, test.scope);
    var no := GenOptional(els, yes.scope);
    IfPlaces(t.chunk.code, vm.pc, test.bytes, yes.bytes, no.bytes);
    CoversEarlier(t, yes.scope, no.scope);
    CoversEarlier(t, test.scope, yes.scope);
    SettledIsOrdered(sc);
    k, vm1 := ExprRuns(t, c, sc, vm, w);
    var r := I.Eval(t.fp, c, w);
    if r.Value? {
      var vm2 := BranchRuns(t, sc, vm, k, vm1, JumpIfFalse, 1 + |yes.bytes| + 3, r.w);
      vm2 := PopRuns(t, sc, vm, k + 1, vm2, r.w);
      Rested(t, sc, vm, vm1, vm2, r.w);
      ShapeOnly(t, sc, test.scope, vm2, r.w);
      k, vm1 := k + 2, vm2;
    }
  }

  lemma {:induction false} IfRuns(t: Target, c: Expr, thn: Stmt, els: Option<Stmt>, sc: Scope, vm: Vm, w: I.World,
      fuel: nat)
      returns (k: nat, vm1: Vm)
    requires AtRest(t, sc, vm, w) && WellFormedStmt(If(c, thn, els), false)
        && Ready(t, GenStmt(If(c, thn, els), sc), vm.pc)
    ensures var g := GenStmt(If(c, thn, els), sc);
      Runs(t, g.scope, vm, |g.bytes|, k, vm1, I.Execute(t.fp, If(c, thn, els), w, fuel), fuel)
    decreases fuel, If(c, thn, els), 2
  {
    hide RunFor, AtRest, GenStmt, GenExpr, Settled, I.Execute, I.Eval, Ready, WellFormedStmt;
    IfMeans(t.fp, c, thn, els, w, fuel);
    RestIsSettled(t, sc, vm, w);
    k, vm1 := IfTested(t, c, thn, els, sc, vm, w);
    var r := I.Eval(t.fp, c, w);
    if r.Value? {
      if IsFalsey(r.v) {
        k, vm1 := ElseRuns(t, c, thn, els, sc, vm, k, vm1, r.w, fuel);
      } else {
        k, vm1 := ThenRuns(t, c, thn, els, sc, vm, k, vm1, r.w, fuel);
      }
    }
  }

  /** The branch for a false test, if there is one. */
  lemma {:induction false} ElseRuns(t: Target, c: Expr, thn: Stmt, els: Option<Stmt>, sc: Scope, vm: Vm, k: nat,
      vm1: Vm,
      w: I.World, fuel: nat) returns (k2: nat, vm2: Vm)
    requires Settled(sc) && WellFormedStmt(If(c, thn, els), false) && Ready(t, GenStmt(If(c, thn, els), sc), vm.pc)
    requires var test := GenExpr(c, sc);
      && test.Code? && Settled(test.scope) && GenStmt(thn, test.scope).Code?
      && RunFor(t.fp, t.chunk, Running(vm), k) == Running(vm1)
      && vm1.pc == vm.pc + |test.bytes| + 4 + |GenStmt(thn, test.scope).bytes| + 4
      && AtRest(t, test.scope, vm1, w)
    ensures var g := GenStmt(If(c, thn, els), sc);
      Runs(t, g.scope, vm, |g.bytes|, k2, vm2, if els.Some? then I.Execute(t.fp, els.value, w, fuel) else I.Done(w),
          fuel)
    decreases fuel, If(c, thn, els), 1
  {
    hide RunFor, AtRest, CodeAt, Covers, GenStmt, SymmetricEq, GenExpr, GenOptional, IfBytes, EmitPlain, EmitBranch,
        SameShape, SameLocals, SameGlobals, Settled, Grows, I.Execute, Keeps, OneAddress;
    IfShape(c, thn, els, sc);
    var test := GenExpr(c, sc);
    var yes := GenStmt(thn, test.scope);
    var no := GenOptional(els, yes.scope);
    IfPlaces(t.chunk.code, vm.pc, test.bytes, yes.bytes, no.bytes);
    ShapeOnly(t, test.scope, yes.scope, vm1, w);
    var k3, vm3 := OptionalRuns(t, els, yes.scope, vm1, w, fuel);
    After2(t, no.scope, vm, k, vm1, |no.bytes|, k3, vm3, if els.Some? then I.Execute(t.fp, els.value, w,
        fuel) else I.Done(w), fuel);
    k2, vm2 := k + k3, vm3;
  }

  /** The taken branch and the jump over the other one. */
  lemma {:induction false} ThenRuns(t: Target, c: Expr, thn: Stmt, els: Option<Stmt>, sc: Scope, vm: Vm, k: nat,
      vm1: Vm,
      w: I.World, fuel: nat) returns (k2: nat, vm2: Vm)
    requires Settled(sc) && WellFormedStmt(If(c, thn, els), false) && Ready(t, GenStmt(If(c, thn, els), sc), vm.pc)
    requires var test := GenExpr(c, sc);
      && test.Code? && RunFor(t.fp, t.chunk, Running(vm), k) == Running(vm1) && vm1.pc == vm.pc + |test.bytes| + 4
      && AtRest(t, test.scope, vm1, w)
    ensures var g := GenStmt(If(c, thn, els), sc);
      Runs(t, g.scope, vm, |g.bytes|, k2, vm2, I.Execute(t.fp, thn, w, fuel), fuel)
    decreases fuel, If(c, thn, els), 1
  {
    hide RunFor, AtRest, CodeAt, Covers, GenStmt, SymmetricEq, GenExpr, GenOptional, IfBytes, EmitPlain, EmitBranch,
        SameShape, SameLocals, SameGlobals, Settled, Grows, I.Execute, Keeps, OneAddress;
    IfShape(c, thn, els, sc);
    var test := GenExpr(c, sc);
    var yes := GenStmt(thn, test.scope);
    var no := GenOptional(els, yes.scope);
    IfPlaces(t.chunk.code, vm.pc, test.bytes, yes.bytes, no.bytes);
    CoversEarlier(t, yes.scope, no.scope);
    var k3, vm3 := StmtRuns(t, thn, test.scope, vm1, w, fuel);
    var r := I.Execute(t.fp, thn, w, fuel);
    After2(t, yes.scope, vm, k, vm1, |yes.bytes|, k3, vm3, r, fuel);
    k2, vm2 := k + k3, vm3;
    if r.Done? {
      RestIsSettled(t, yes.scope, vm2, r.w);
      var vm4 := BranchRuns(t, yes.scope, vm, k2, vm2, Jump, 1 + |no.bytes|, r.w);
      RestAgain(t, yes.scope, vm2, vm4, r.w);
      ShapeOnly(t, yes.scope, no.scope, vm4, r.w);
      k2, vm2 := k2 + 1, vm4;
    }
  }

  lemma IfMeans(fp: Arith, c: Expr, thn: Stmt, els: Option<Stmt>, w: I.World, fuel: nat)
    ensures var r := I.Eval(fp, c, w);
      I.Execute(fp, If(c, thn, els), w, fuel) ==
        if r.Failed? then I.Error(r.w)
        else if !IsFalsey(r.v) then I.Execute(fp, thn, r.w, fuel)
        else if els.Some? then I.Execute(fp, els.value, r.w, fuel)
        else I.Done(r.w)
  {
    hide I.Eval;
  }

  /** The machine is at rest when what an expression left has been dropped. */
  lemma Rested(t: Target, sc: Scope, vm: Vm, vm1: Vm, vm2: Vm, w: I.World)
    requires Settled(sc) && |vm.stack| == |sc.locals| && |vm1.stack| == |vm.stack| + 1
    requires |vm2.stack| == |vm1.stack| - 1 && Mirrors(t, sc, vm2, w)
    ensures AtRest(t, sc, vm2, w)
  {
  }

  lemma RestAgain(t: Target, sc: Scope, vm: Vm, vm1: Vm, w: I.World)
    requires AtRest(t, sc, vm, w) && vm1.stack == vm.stack && Mirrors(t, sc, vm1, w)
    ensures AtRest(t, sc, vm1, w)
  {
  }

  // ----- loops -----

  /** Where the parts of a loop are, for a loop that starts at pc. */
  function BodyPc(pc: nat, test: Option<seq<Byte>>, incr: Option<seq<Byte>>): nat {
    pc + TestSize(test) + IncrSize(incr)
  }

  function ExitPc(pc: nat, test: Option<seq<Byte>>, incr: Option<seq<Byte>>, body: seq<Byte>): nat {
    BodyPc(pc, test, incr) + |body| + 3
  }

  ghost predicate TestAt(code: seq<Byte>, pc: nat, test: seq<Byte>, exit: nat) {
    && CodeAt(code, pc, test)
    && pc + |test| + 3 <= exit
    && CodeAt(code, pc + |test|, EmitBranch(JumpIfFalse, exit - (pc + |test| + 3)))
    && CodeAt(code, pc + |test| + 3, EmitPlain(Pop))
    && CodeAt(code, exit, EmitPlain(Pop))
  }

  /** `pc` is where the jump over the increment is, `start` where the loop starts. */
  ghost predicate IncrAt(code: seq<Byte>, pc: nat, incr: seq<Byte>, start: nat) {
    && start <= pc
    && CodeAt(code, pc, EmitBranch(Jump, |incr| + 4))
    && CodeAt(code, pc + 3, incr)
    && CodeAt(code, pc + 3 + |incr|, EmitPlain(Pop))
    && CodeAt(code, pc + 4 + |incr|, EmitBranch(Loop, pc + 4 + |incr| + 3 - start))
  }

  lemma LoopPlaces(code: seq<Byte>, pc: nat, test: Option<seq<Byte>>, incr: Option<seq<Byte>>, body: seq<Byte>)
    requires CodeAt(code, pc, LoopBytes(test, incr, body))
    ensures test.Some? ==> TestAt(code, pc, test.value, ExitPc(pc, test, incr, body))
    ensures incr.Some? ==> IncrAt(code, pc + TestSize(test), incr.value, pc)
    ensures CodeAt(code, BodyPc(pc, test, incr), body)
    ensures CodeAt(code, BodyPc(pc, test, incr) + |body|, EmitBranch(Loop, BodyBack(test, incr, body)))
    ensures pc + |LoopBytes(test, incr, body)| == ExitPc(pc, test, incr, body) + (if test.Some? then 1 else 0)
  {
    hide CodeAt, EmitBranch, EmitPlain, IncrBytes;
    var inner := IncrBytes(test, incr, body);
    if test.Some? {
      var pc1 := pc + |test.value|;
      var skip := EmitBranch(JumpIfFalse, 1 + IncrSize(incr) + |body| + 3);
      CodeAtSplit(code, pc, test.value, skip + (EmitPlain(Pop) + (inner + EmitPlain(Pop))));
      CodeAtSplit(code, pc1, skip, EmitPlain(Pop) + (inner + EmitPlain(Pop)));
      CodeAtSplit(code, pc1 + 3, EmitPlain(Pop), inner + EmitPlain(Pop));
      CodeAtSplit(code, pc1 + 4, inner, EmitPlain(Pop));
    }
    IncrPlaces(code, pc, test, incr, body);
  }

  lemma IncrPlaces(code: seq<Byte>, pc: nat, test: Option<seq<Byte>>, incr: Option<seq<Byte>>, body: seq<Byte>)
    requires CodeAt(code, pc + TestSize(test), IncrBytes(test, incr, body))
    ensures incr.Some? ==> IncrAt(code, pc + TestSize(test), incr.value, pc)
    ensures CodeAt(code, BodyPc(pc, test, incr), body)
    ensures CodeAt(code, BodyPc(pc, test, incr) + |body|, EmitBranch(Loop, BodyBack(test, incr, body)))
  {
    hide CodeAt, EmitBranch, EmitPlain;
    if incr.Some? {
      var pc1 := pc + TestSize(test);
      var i := incr.value;
      var jump := EmitBranch(Jump, |i| + 1 + 3);
      var back := EmitBranch(Loop, TestSize(test) + IncrSize(incr));
      var rest := BodyBytes(test, incr, body);
      CodeAtSplit(code, pc1, jump, i + (EmitPlain(Pop) + (back + rest)));
      CodeAtSplit(code, pc1 + 3, i, EmitPlain(Pop) + (back + rest));
      CodeAtSplit(code, pc1 + 3 + |i|, EmitPlain(Pop), back + rest);
      CodeAtSplit(code, pc1 + 4 + |i|, back, rest);
    }
    CodeAtSplit(code, BodyPc(pc, test, incr), body, EmitBranch(Loop, BodyBack(test, incr, body)));
  }

  function EvalTest(fp: Arith, cond: Option<Expr>, w: I.World): I.Evaluated {
    if cond.Some? then I.Eval(fp, cond.value, w) else I.Value(Bool(true), w)
  }

  /** The test of a loop: out through the exit, or on to the body. */
  lemma TestRuns(t: Target, cond: Option<Expr>, sc: Scope, vm: Vm, w: I.World, exit: nat) returns (k: nat, vm1: Vm)
    requires AtRest(t, sc, vm, w) && Ready(t, GenOpt(cond, sc), vm.pc)
    requires cond.Some? ==>
      var size := |GenOpt(cond, sc).bytes|;
      TestAt(t.chunk.code, vm.pc, GenOpt(cond, sc).bytes, exit) && Reach(exit - (vm.pc + size + 3))
    ensures match EvalTest(t.fp, cond, w)
      case Failed(w1) => RunFor(t.fp, t.chunk, Running(vm), k) == Crashed(vm1) && CrashMirrors(t, vm1, w1)
      case Value(v, w1) =>
        && RunFor(t.fp, t.chunk, Running(vm), k) == Running(vm1) && AtRest(t, sc, vm1, w1)
        && vm1.pc == if IsFalsey(v) then exit + 1 else vm.pc + (if cond.Some? then |GenOpt(cond, sc).bytes| + 4 else 0)
  {
    hide RunFor, AtRest, CodeAt, Covers, SymmetricEq, GenExpr, EmitPlain, EmitBranch, SameLocals, SameGlobals, Settled;
    if cond.None? {
      Start(t, vm);
      k, vm1 := 0, vm;
    } else {
      RestIsSettled(t, sc, vm, w);
      SettledIsOrdered(sc);
      k, vm1 := ExprRuns(t, cond.value, sc, vm, w);
      var r := I.Eval(t.fp, cond.value, w);
      if r.Value? {
        var vm2 := BranchRuns(t, sc, vm, k, vm1, JumpIfFalse, exit - (vm1.pc + 3), r.w);
        var vm3 := PopRuns(t, sc, vm, k + 1, vm2, r.w);
        Rested(t, sc, vm, vm1, vm3, r.w);
        k, vm1 := k + 2, vm3;
      }
    }
  }

  /** From the end of the body back to the start of the loop, through the increment if any. */
  lemma BackRuns(t: Target, incr: Option<Expr>, sc: Scope, vm: Vm, w: I.World, start: nat, pc: nat, dist: nat)
      returns (k: nat, vm1: Vm)
    requires AtRest(t, sc, vm, w)
    requires incr.Some? ==>
      && Ready(t, GenOpt(incr, sc), pc + 3)
      && IncrAt(t.chunk.code, pc, GenOpt(incr, sc).bytes, start)
      && Reach(pc + 4 + |GenOpt(incr, sc).bytes| + 3 - start)
    requires CodeAt(t.chunk.code, vm.pc, EmitBranch(Loop, dist)) && Reach(dist)
    requires vm.pc + 3 - dist == if incr.Some? then pc + 3 else start
    ensures k >= 1
    ensures match I.ExecOpt(t.fp, incr, w)
      case Done(w1) =>
        RunFor(t.fp, t.chunk, Running(vm), k) == Running(vm1) && vm1.pc == start && AtRest(t, sc, vm1, w1)
      case Error(w1) => RunFor(t.fp, t.chunk, Running(vm), k) == Crashed(vm1) && CrashMirrors(t, vm1, w1)
      case OutOfFuel => false
  {
    hide RunFor, AtRest, CodeAt, Covers, SymmetricEq, GenExpr, EmitPlain, EmitBranch, SameLocals, SameGlobals,
        Settled, Keeps;
    RestIsSettled(t, sc, vm, w);
    Start(t, vm);
    var vm2 := BranchRuns(t, sc, vm, 0, vm, Loop, dist, w);
    RestAgain(t, sc, vm, vm2, w);
    k, vm1 := 1, vm2;
    if incr.Some? {
      var k3, vm3 := ExprThenPop(t, incr.value, sc, vm2, w);
      Then(t, vm, 1, vm2, k3);
      k, vm1 := 1 + k3, vm3;
      var r := I.ExecOpt(t.fp, incr, w);
      if r.Done? {
        var sc1 := GenExpr(incr.value, sc).scope;
        RestIsSettled(t, sc1, vm3, r.w);
        var vm4 := BranchRuns(t, sc1, vm, k, vm3, Loop, pc + 4 + |GenOpt(incr, sc).bytes| + 3 - start, r.w);
        RestAgain(t, sc1, vm3, vm4, r.w);
        RestSame(t, sc1, sc, vm4, r.w);
        k, vm1 := k + 1, vm4;
      }
    }
  }

  lemma RestSame(t: Target, sc: Scope, sc1: Scope, vm: Vm, w: I.World)
    requires AtRest(t, sc, vm, w) && sc.locals == sc1.locals && sc.depth == sc1.depth
    ensures AtRest(t, sc1, vm, w)
  {
  }

  /** What a compiled loop is made of. */
  lemma LoopShape(cond: Option<Expr>, incr: Option<Expr>, loop: Stmt, sc: Scope)
    requires Settled(sc) && GenLoop(cond, incr, loop, sc).Code? && WellFormedStmt(loop, false)
    ensures var test := GenOpt(cond, sc);
      && test.Code? && Grows(sc, test.scope) && test.scope.locals == sc.locals
      && var step := GenOpt(incr, test.scope);
      && step.Code? && Grows(test.scope, step.scope) && step.scope.locals == sc.locals
      && Settled(step.scope)
      && var body := GenStmt(loop, step.scope);
      && body.Code? && Grows(step.scope, body.scope) && SameShape(step.scope, body.scope) && Settled(body.scope)
      && LoopReach(Part(cond, test.bytes), Part(incr, step.bytes), body.bytes)
      && GenLoop(cond, incr, loop, sc)
         == Code(LoopBytes(Part(cond, test.bytes), Part(incr, step.bytes), body.bytes), body.scope)
  {
    hide LoopBytes, GenExpr, LoopReach;
    AfterExpr(sc, GenOpt(incr, GenOpt(cond, sc).scope).scope);
  }

  /** The code of a loop is in place and its jumps reach: what every round needs. */
  ghost predicate LoopReady(t: Target, cond: Option<Expr>, incr: Option<Expr>, loop: Stmt, sc: Scope, pc: nat,
      exit: nat)
    requires Settled(sc)
  {
    var test := GenOpt(cond, sc);
    && test.Code? && Ready(t, test, pc) && test.scope.locals == sc.locals && test.scope.depth == sc.depth
    && var step := GenOpt(incr, test.scope);
    && var pcI := pc + TestSize(Part(cond, test.bytes));
    && step.Code? && Ready(t, step, if incr.Some? then pcI + 3 else pcI)
    && step.scope.locals == sc.locals && step.scope.depth == sc.depth && Settled(step.scope)
    && var body := GenStmt(loop, step.scope);
    && var bodyPc := BodyPc(pc, Part(cond, test.bytes), Part(incr, step.bytes));
    && body.Code? && Ready(t, body, bodyPc) && SameShape(step.scope, body.scope) && Settled(body.scope)
    && exit == bodyPc + |body.bytes| + 3
    && (cond.Some? ==> TestAt(t.chunk.code, pc, test.bytes, exit) && Reach(exit - (pc + |test.bytes| + 3)))
    && (incr.Some? ==> IncrAt(t.chunk.code, pcI, step.bytes, pc) && Reach(|step.bytes| + 4)
                       && Reach(pcI + 4 + |step.bytes| + 3 - pc))
    && var back := bodyPc + |body.bytes| + 3 - (if incr.Some? then pcI + 3 else pc);
    && Reach(back) && CodeAt(t.chunk.code, bodyPc + |body.bytes|, EmitBranch(Loop, back))
  }

  lemma LoopIsReady(t: Target, cond: Option<Expr>, incr: Option<Expr>, loop: Stmt, sc: Scope, pc: nat)
      returns (exit: nat)
    requires Settled(sc) && WellFormedStmt(loop, false) && Ready(t, GenLoop(cond, incr, loop, sc), pc)
    ensures LoopReady(t, cond, incr, loop, sc, pc, exit)
    ensures pc + |GenLoop(cond, incr, loop, sc).bytes| == exit + (if cond.Some? then 1 else 0)
    ensures Grows(sc, GenLoop(cond, incr, loop, sc).scope)
  {
    hide RunFor, CodeAt, Covers, SymmetricEq, GenExpr, GenStmt, GenLoop, LoopBytes, EmitPlain, EmitBranch, SameShape,
        Settled;
    LoopShape(cond, incr, loop, sc);
    var test := GenOpt(cond, sc);
    var step := GenOpt(incr, test.scope);
    var body := GenStmt(loop, step.scope);
    CoversEarlier(t, step.scope, body.scope);
    CoversEarlier(t, test.scope, step.scope);
    LoopPlaces(t.chunk.code, pc, Part(cond, test.bytes), Part(incr, step.bytes), body.bytes);
    exit := ExitPc(pc, Part(cond, test.bytes), Part(incr, step.bytes), body.bytes);
    EmptyAt(t.chunk.code, pc, GenLoop(cond, incr, loop, sc).bytes);
    EmptyAt(t.chunk.code, BodyPc(pc, Part(cond, test.bytes), Part(incr, step.bytes)), body.bytes);
  }

  lemma TestPart(t: Target, cond: Option<Expr>, incr: Option<Expr>, loop: Stmt, sc: Scope, pc: nat, exit: nat)
    requires Settled(sc) && LoopReady(t, cond, incr, loop, sc, pc, exit)
    ensures var test := GenOpt(cond, sc);
      && Ready(t, test, pc) && test.scope.locals == sc.locals && test.scope.depth == sc.depth
      && (cond.Some? ==> TestAt(t.chunk.code, pc, test.bytes, exit) && Reach(exit - (pc + |test.bytes| + 3)))
      && pc + TestSize(Part(cond, test.bytes)) + 3 <= exit
  {
    hide RunFor, CodeAt, Covers, SymmetricEq, GenExpr, GenStmt, EmitPlain, EmitBranch, Settled, SameShape, TestAt,
        IncrAt;
  }

  /** The jump at the end of the body, and the increment it may lead to. */
  function BackDist(cond: Option<Expr>, incr: Option<Expr>, sc: Scope, pc: nat, exit: nat): int
    requires GenOpt(cond, sc).Code?
  {
    exit - (if incr.Some? then pc + TestSize(Part(cond, GenOpt(cond, sc).bytes)) + 3 else pc)
  }

  lemma BackPart(t: Target, cond: Option<Expr>, incr: Option<Expr>, loop: Stmt, sc: Scope, pc: nat, exit: nat)
    requires Settled(sc) && LoopReady(t, cond, incr, loop, sc, pc, exit)
    ensures var test := GenOpt(cond, sc);
      var pcI := pc + TestSize(Part(cond, test.bytes));
      && test.Code?
      && (incr.Some? ==>
        && Ready(t, GenOpt(incr, test.scope), pcI + 3)
        && IncrAt(t.chunk.code, pcI, GenOpt(incr, test.scope).bytes, pc)
        && Reach(pcI + 4 + |GenOpt(incr, test.scope).bytes| + 3 - pc))
      && exit >= 3
      && var back := BackDist(cond, incr, sc, pc, exit);
      && back >= 0 && Reach(back) && CodeAt(t.chunk.code, exit - 3, EmitBranch(Loop, back))
  {
    hide RunFor, CodeAt, Covers, SymmetricEq, GenExpr, GenStmt, EmitPlain, EmitBranch, Settled, SameShape, TestAt,
        IncrAt;
  }

  lemma EmptyAt(code: seq<Byte>, pc: nat, bytes: seq<Byte>)
    requires CodeAt(code, pc, bytes)
    ensures CodeAt(code, pc, [])
  {
  }

  /** The rounds of a loop that starts at vm.pc. Every round takes a step. */
  lemma {:induction false} Rounds(t: Target, s: Stmt, cond: Option<Expr>, incr: Option<Expr>, loop: Stmt, sc: Scope,
      vm: Vm, w: I.World, exit: nat, fuel: nat) returns (k: nat, vm1: Vm)
    requires loop < s && WellFormedStmt(loop, false) && AtRest(t, sc, vm, w)
    requires LoopReady(t, cond, incr, loop, sc, vm.pc, exit)
    ensures Runs(t, sc, vm, exit + (if cond.Some? then 1 else 0) - vm.pc,
      k, vm1, I.Iterate(t.fp, s, cond, incr, loop, w, fuel), fuel)
    decreases fuel, s, 1
  {
    hide RunFor, AtRest, CodeAt, Covers, SymmetricEq, GenOpt, EmitBranch, Settled, TestAt, IncrAt, LoopReady,
        I.Execute, I.Eval, I.ExecOpt, BackDist, SameShape, Keeps, Grows, OneAddress;
    RestIsSettled(t, sc, vm, w);
    TestPart(t, cond, incr, loop, sc, vm.pc, exit);
    var test := GenOpt(cond, sc);
    k, vm1 := TestRuns(t, cond, sc, vm, w, exit);
    var r := EvalTest(t.fp, cond, w);
    if r.Value? && !IsFalsey(r.v) {
      k, vm1 := BodyRuns(t, cond, incr, loop, sc, vm, k, vm1, r.w, exit, fuel);
      var r3 := I.Execute(t.fp, loop, r.w, fuel);
      if r3.Done? {
        var k4, vm4 := NextRuns(t, cond, incr, loop, sc, vm, k, vm1, r3.w, exit);
        k, vm1 := k4, vm4;
        var r4 := I.ExecOpt(t.fp, incr, r3.w);
        if r4.Done? && fuel > 0 {
          var k5, vm5 := Rounds(t, s, cond, incr, loop, sc, vm4, r4.w, exit, fuel - 1);
          Then(t, vm, k, vm4, k5);
          k, vm1 := k + k5, vm5;
        }
      }
    }
  }

  /** From the end of the body to the start of the next round. */
  lemma NextRuns(t: Target, cond: Option<Expr>, incr: Option<Expr>, loop: Stmt, sc: Scope, vm: Vm,
      k: nat, vm1: Vm, w: I.World, exit: nat) returns (k2: nat, vm2: Vm)
    requires Settled(sc) && LoopReady(t, cond, incr, loop, sc, vm.pc, exit)
    requires RunFor(t.fp, t.chunk, Running(vm), k) == Running(vm1)
    requires GenOpt(cond, sc).Code? && vm1.pc == exit - 3 && AtRest(t, GenOpt(cond, sc).scope, vm1, w)
    ensures k2 >= 1
    ensures match I.ExecOpt(t.fp, incr, w)
      case Done(w1) =>
        RunFor(t.fp, t.chunk, Running(vm), k2) == Running(vm2) && vm2.pc == vm.pc && AtRest(t, sc, vm2, w1)
      case Error(w1) => RunFor(t.fp, t.chunk, Running(vm), k2) == Crashed(vm2) && CrashMirrors(t, vm2, w1)
      case OutOfFuel => false
  {
    hide RunFor, AtRest, CodeAt, Covers, SymmetricEq, GenOpt, EmitBranch, Settled, TestAt, IncrAt, LoopReady, I.ExecOpt;
    TestPart(t, cond, incr, loop, sc, vm.pc, exit);
    BackPart(t, cond, incr, loop, sc, vm.pc, exit);
    var test := GenOpt(cond, sc);
    var pcI := vm.pc + TestSize(Part(cond, test.bytes));
    k2, vm2 := BackRuns(t, incr, test.scope, vm1, w, vm.pc, pcI, BackDist(cond, incr, sc, vm.pc, exit));
    Then(t, vm, k, vm1, k2);
    k2 := k + k2;
    var r := I.ExecOpt(t.fp, incr, w);
    if r.Done? {
      RestSame(t, test.scope, sc, vm2, r.w);
    }
  }

  /** From behind the test to the jump back at the end of the body. */
  lemma {:induction false} BodyRuns(t: Target, cond: Option<Expr>, incr: Option<Expr>, loop: Stmt, sc: Scope, vm: Vm,
      k: nat, vm1: Vm, w: I.World, exit: nat, fuel: nat) returns (k3: nat, vm3: Vm)
    requires Settled(sc) && WellFormedStmt(loop, false) && LoopReady(t, cond, incr, loop, sc, vm.pc, exit)
    requires RunFor(t.fp, t.chunk, Running(vm), k) == Running(vm1) && AtRest(t, sc, vm1, w)
    requires vm1.pc == vm.pc + TestSize(Part(cond, GenOpt(cond, sc).bytes))
    ensures match I.Execute(t.fp, loop, w, fuel)
      case Done(w1) =>
        && RunFor(t.fp, t.chunk, Running(vm), k3) == Running(vm3)
        && vm3.pc == exit - 3 && AtRest(t, GenOpt(cond, sc).scope, vm3, w1)
      case Error(w1) => RunFor(t.fp, t.chunk, Running(vm), k3) == Crashed(vm3) && CrashMirrors(t, vm3, w1)
      case OutOfFuel => RunFor(t.fp, t.chunk, Running(vm), k3) == Running(vm3) && k3 >= fuel
    decreases fuel, loop, 4
  {
    hide RunFor, AtRest, CodeAt, Covers, SymmetricEq, GenExpr, GenStmt, EmitPlain, EmitBranch, SameLocals,
        SameGlobals, Settled, SameShape, TestAt, IncrAt, I.Execute, I.Eval, I.ExecOpt;
    var test := GenOpt(cond, sc);
    var step := GenOpt(incr, test.scope);
    var body := GenStmt(loop, step.scope);
    var k2, vm2 := EnterBody(t, incr, step.bytes, sc, vm, k, vm1, w);
    RestSame(t, sc, step.scope, vm2, w);
    k3, vm3 := StmtRuns(t, loop, step.scope, vm2, w, fuel);
    var r3 := I.Execute(t.fp, loop, w, fuel);
    Then(t, vm, k2, vm2, k3);
    k3 := k2 + k3;
    if r3.Done? {
      ShapeBack(t, step.scope, body.scope, vm3, r3.w);
      RestSame(t, step.scope, test.scope, vm3, r3.w);
    }
  }

  /** Over the increment, which stands in front of the body. */
  lemma EnterBody(t: Target, incr: Option<Expr>, step: seq<Byte>, sc: Scope, vm: Vm, k: nat, vm1: Vm, w: I.World)
      returns (k2: nat, vm2: Vm)
    requires RunFor(t.fp, t.chunk, Running(vm), k) == Running(vm1) && AtRest(t, sc, vm1, w)
    requires incr.Some? ==> IncrAt(t.chunk.code, vm1.pc, step, vm.pc) && Reach(|step| + 4)
    ensures RunFor(t.fp, t.chunk, Running(vm), k2) == Running(vm2) && AtRest(t, sc, vm2, w)
    ensures vm2.pc == vm1.pc + IncrSize(Part(incr, step))
  {
    hide RunFor, AtRest, CodeAt, SameLocals, SameGlobals, EmitBranch, EmitPlain;
    k2, vm2 := k, vm1;
    if incr.Some? {
      RestIsSettled(t, sc, vm1, w);
      vm2 := BranchRuns(t, sc, vm, k, vm1, Jump, |step| + 4, w);
      RestAgain(t, sc, vm1, vm2, w);
      k2 := k + 1;
    }
  }

  lemma ShapeBack(t: Target, sc: Scope, sc1: Scope, vm: Vm, w: I.World)
    requires SameShape(sc, sc1) && Settled(sc) && AtRest(t, sc1, vm, w)
    ensures AtRest(t, sc, vm, w)
  {
    hide AtRest, RunFor;
    ShapeOnly(t, sc1, sc, vm, w);
  }

  lemma {:induction false} LoopRuns(t: Target, s: Stmt, cond: Option<Expr>, incr: Option<Expr>, loop: Stmt, sc: Scope,
      vm: Vm, w: I.World, fuel: nat) returns (k: nat, vm1: Vm)
    requires loop < s && WellFormedStmt(loop, false) && AtRest(t, sc, vm, w)
        && Ready(t, GenLoop(cond, incr, loop, sc), vm.pc)
    ensures var g := GenLoop(cond, incr, loop, sc);
      Runs(t, g.scope, vm, |g.bytes|, k, vm1, I.Iterate(t.fp, s, cond, incr, loop, w, fuel), fuel)
    decreases fuel, s, 2, 0
  {
    hide RunFor, AtRest, CodeAt, Covers, SymmetricEq, GenLoop, LoopReady, SameLocals, SameGlobals, Settled, SameShape,
        I.Iterate;
    RestIsSettled(t, sc, vm, w);
    var exit := LoopIsReady(t, cond, incr, loop, sc, vm.pc);
    k, vm1 := Rounds(t, s, cond, incr, loop, sc, vm, w, exit, fuel);
    var r := I.Iterate(t.fp, s, cond, incr, loop, w, fuel);
    if r.Done? {
      ShapeOnly(t, sc, GenLoop(cond, incr, loop, sc).scope, vm1, r.w);
    }
  }

  lemma {:induction false} ForRuns(t: Target, s: Stmt, sc: Scope, vm: Vm, w: I.World, fuel: nat)
      returns (k: nat, vm1: Vm)
    requires s.For? && AtRest(t, sc, vm, w) && WellFormedStmt(s, false) && Ready(t, GenStmt(s, sc), vm.pc)
    ensures var g := GenStmt(s, sc);
      Runs(t, g.scope, vm, |g.bytes|, k, vm1, I.Execute(t.fp, s, w, fuel), fuel)
    decreases fuel, s, 2, 1
  {
    hide RunFor, AtRest, CodeAt, EndScope, Covers, SymmetricEq, Settled, Keeps, SameShape, I.Iterate, GenOptional,
        GenLoop, OneAddress;
    RestIsSettled(t, sc, vm, w);
    ScopeEntered(t, sc, vm, w);
    var sc0 := BeginScope(sc);
    var w0 := I.PushScope(w);
    RestIsSettled(t, sc0, vm, w0);
    var g := GenFor(s.first, s.cond, s.incr, s.loop, sc0);
    var first := GenOptional(s.first, sc0);
    var rest := GenLoop(s.cond, s.incr, s.loop, first.scope);
    CodeAtSplit(t.chunk.code, vm.pc, g.bytes, EndScope(g.scope).bytes);
    CodeAtSplit(t.chunk.code, vm.pc, first.bytes, rest.bytes);
    CoversInside(t, g.scope);
    CoversEarlier(t, first.scope, rest.scope);
    k, vm1 := OptionalRuns(t, s.first, sc0, vm, w0, fuel);
    var r := if s.first.Some? then I.Execute(t.fp, s.first.value, w0, fuel) else I.Done(w0);
    var r2 := r;
    if r.Done? {
      var k2, vm2 := LoopRuns(t, s, s.cond, s.incr, s.loop, first.scope, vm1, r.w, fuel);
      r2 := I.Iterate(t.fp, s, s.cond, s.incr, s.loop, r.w, fuel);
      After2(t, g.scope, vm, k, vm1, |rest.bytes|, k2, vm2, r2, fuel);
      k, vm1 := k + k2, vm2;
    }
    k, vm1 := LeaveRuns(t, sc, g.scope, vm, |g.bytes|, k, vm1, r2, fuel);
  }
}
