/** Running the bytes of an expression is evaluating the expression. */
module ExprCorrect {
  import opened Values
  import opened Syntax
  import opened Bytecode
  import opened Codegen
  import opened Machine
  import I = Interpreter

  /** What the code runs in: the finished chunk and the final global names, by address. */
  datatype Target = Target(fp: Arith, chunk: Chunk, names: seq<string>)

  /** The finished tables extend the tables of an intermediate point of the compilation. */
  ghost predicate Covers(t: Target, sc: Scope) {
    && sc.constants <= t.chunk.constants
    && |sc.globals| <= |t.names|
    && (forall i :: 0 <= i < |sc.globals| ==> t.names[i] == sc.globals[i].name)
    && Distinct(t.names)
  }

  ghost predicate Distinct(names: seq<string>) {
    forall i, j :: 0 <= i < j < |names| ==> names[i] != names[j]
  }

  lemma CoversEarlier(t: Target, sc: Scope, sc1: Scope)
    requires Grows(sc, sc1) && Covers(t, sc1)
    ensures Covers(t, sc)
  {
  }

  // ----- the machine state that mirrors a world -----

  ghost predicate SameGlobals(names: seq<string>, globals: seq<Option<Value>>, env: I.Env) {
    && |globals| <= |names|
    && (forall i :: 0 <= i < |names| ==> (names[i] in env <==> i < |globals| && globals[i].Some?))
    && (forall i :: 0 <= i < |globals| && globals[i].Some? ==> env[names[i]] == globals[i].value)
    && (forall x {:trigger Named(names, x)} :: x in env ==> Named(names, x))
  }

  ghost predicate Named(names: seq<string>, x: string) {
    exists i :: 0 <= i < |names| && names[i] == x
  }

  /** Like Settled, but the last local may still be inside its initializer. */
  ghost predicate Ordered(locals: seq<Local>, depth: nat) {
    && |locals| > 0 && locals[0].name == "this" && locals[0].depth == 0
    && (forall i :: 1 <= i < |locals| ==>
          1 <= locals[i].depth <= depth || (locals[i].depth == -1 && i == |locals| - 1))
    && (forall i, j :: 1 <= i < j < |locals| && locals[j].depth != -1 ==> locals[i].depth <= locals[j].depth)
    && (forall i, j :: 1 <= i < j < |locals| && locals[i].name == locals[j].name ==>
          locals[i].depth != locals[j].depth)
  }

  /** The number of locals that have a value in their slot. */
  function Slots(locals: seq<Local>): nat {
    if locals != [] && locals[|locals| - 1].depth == -1 then |locals| - 1 else |locals|
  }

  /** A local of that name in scope number `d`, counted from the outermost. */
  ghost predicate HasLocal(locals: seq<Local>, x: string, d: int) {
    exists i :: 1 <= i < |locals| && locals[i].name == x && locals[i].depth == d + 1
  }

  ghost predicate SameLocals(locals: seq<Local>, depth: nat, stack: seq<Value>, scopes: seq<I.Env>) {
    && Ordered(locals, depth)
    && |scopes| == depth
    && Slots(locals) <= |stack|
    && (forall i :: 1 <= i < Slots(locals) ==>
          var l := locals[i]; l.name in scopes[l.depth - 1] && scopes[l.depth - 1][l.name] == stack[i])
    && (forall d, x {:trigger HasLocal(locals, x, d)} :: 0 <= d < |scopes| && x in scopes[d] ==> HasLocal(locals, x, d))
  }

  ghost predicate Mirrors(t: Target, sc: Scope, vm: Vm, w: I.World) {
    && Slots(sc.locals) <= |vm.stack|
    && SameLocals(sc.locals, sc.depth, vm.stack, w.scopes)
    && SameGlobals(t.names, vm.globals, w.globals)
    && vm.output == w.output
  }

  /** A run that was stopped by a runtime error has done what the interpreter had done. */
  ghost predicate CrashMirrors(t: Target, vm: Vm, w: I.World) {
    SameGlobals(t.names, vm.globals, w.globals) && vm.output == w.output
  }

  /** From vm, k steps evaluate the `size` bytes at vm.pc with outcome r. */
  ghost predicate Evaluates(t: Target, sc: Scope, vm: Vm, size: nat, k: nat, vm1: Vm, r: I.Evaluated) {
    match r
    case Value(v, w) =>
      && RunFor(t.fp, t.chunk, Running(vm), k) == Running(vm1)
      && vm1.pc == vm.pc + size
      && |vm1.stack| == |vm.stack| + 1 && vm1.stack[|vm.stack|] == v
      && (forall i :: Slots(sc.locals) <= i < |vm.stack| ==> vm1.stack[i] == vm.stack[i])
      && Mirrors(t, sc, vm1, w)
    case Failed(w) =>
      && RunFor(t.fp, t.chunk, Running(vm), k) == Crashed(vm1)
      && CrashMirrors(t, vm1, w)
  }

  /** The generated code is in place at pc and none of its operands was narrowed. */
  ghost predicate Ready(t: Target, g: Gen, pc: nat) {
    && SymmetricEq(t.fp)
    && g.Code? && !g.scope.narrowed && Covers(t, g.scope)
    && CodeAt(t.chunk.code, pc, g.bytes)
  }

  lemma Then(t: Target, vm: Vm, a: nat, vm1: Vm, b: nat)
    requires RunFor(t.fp, t.chunk, Running(vm), a) == Running(vm1)
    ensures RunFor(t.fp, t.chunk, Running(vm), a + b) == RunFor(t.fp, t.chunk, Running(vm1), b)
  {
    RunAdd(t.fp, t.chunk, Running(vm), a, b);
  }

  lemma Start(t: Target, vm: Vm)
    ensures RunFor(t.fp, t.chunk, Running(vm), 0) == Running(vm)
  {
  }

  // ----- names and slots -----

  /** The slot the compiler resolves a name to holds the innermost variable of that name. */
  lemma LocalFound(locals: seq<Local>, depth: nat, stack: seq<Value>, scopes: seq<I.Env>, x: Name)
    requires SameLocals(locals, depth, stack, scopes)
    requires var i := ResolveLocal(locals, x); i.Some? && locals[i.value].depth != -1
    ensures var i := ResolveLocal(locals, x).value;
      && 1 <= i < Slots(locals)
      && I.ScopeOf(scopes, x) == Some(locals[i].depth - 1)
      && scopes[locals[i].depth - 1][x] == stack[i]
  {
    var i := ResolveLocal(locals, x).value;
    assert x in scopes[locals[i].depth - 1];
    assert HasLocal(locals, x, I.ScopeOf(scopes, x).value);
  }

  lemma LocalMissing(locals: seq<Local>, depth: nat, stack: seq<Value>, scopes: seq<I.Env>, x: Name)
    requires SameLocals(locals, depth, stack, scopes)
    requires ResolveLocal(locals, x).None?
    ensures I.ScopeOf(scopes, x) == None
  {
    var r := I.ScopeOf(scopes, x);
    assert r.Some? ==> HasLocal(locals, x, r.value);
  }

  /** Assigning a slot is assigning the variable. */
  lemma LocalWritten(locals: seq<Local>, depth: nat, stack: seq<Value>, scopes: seq<I.Env>, i: nat, v: Value)
    requires SameLocals(locals, depth, stack, scopes) && 1 <= i < Slots(locals)
    ensures var d := locals[i].depth - 1;
      SameLocals(locals, depth, stack[i := v], scopes[d := scopes[d][locals[i].name := v]])
  {
  }

  lemma GlobalWritten(names: seq<string>, globals: seq<Option<Value>>, env: I.Env, addr: nat, v: Value)
    requires SameGlobals(names, globals, env) && addr < |globals|
    requires Distinct(names)
    ensures SameGlobals(names, globals[addr := Some(v)], env[names[addr] := v])
  {
  }

  /** Values above the slots do not matter. */
  lemma SlotsOnly(locals: seq<Local>, depth: nat, stack: seq<Value>, stack1: seq<Value>, scopes: seq<I.Env>)
    requires SameLocals(locals, depth, stack, scopes) && Slots(locals) <= |stack1|
    requires forall i :: 0 <= i < Slots(locals) ==> stack1[i] == stack[i]
    ensures SameLocals(locals, depth, stack1, scopes)
  {
  }

  // ----- single instructions -----

  /** The k steps that led to vm1, then one that replaces the top n values by v, make up
      the evaluation of an expression, if vm1 has n - 1 values more than vm. */
  lemma Replaced(t: Target, sc: Scope, vm: Vm, k: nat, vm1: Vm, n: nat, w: I.World, v: Value, size: nat)
    requires RunFor(t.fp, t.chunk, Running(vm), k) == Running(vm1)
    requires n <= |vm1.stack| && |vm1.stack| - n == |vm.stack|
    requires forall i :: Slots(sc.locals) <= i < |vm.stack| ==> vm1.stack[i] == vm.stack[i]
    requires Slots(sc.locals) <= |vm.stack| && Mirrors(t, sc, vm1, w)
    requires RunFor(t.fp, t.chunk, Running(vm1), 1) == Replace(vm1, vm.pc + size, n, v)
    ensures Evaluates(t, sc, vm, size, k + 1, Replace(vm1, vm.pc + size, n, v).vm, I.Value(v, w))
  {
    hide RunFor;
    Then(t, vm, k, vm1, 1);
    SlotsOnly(sc.locals, sc.depth, vm1.stack, Replace(vm1, vm.pc + size, n, v).vm.stack, w.scopes);
  }

  lemma CrashedAfter(t: Target, sc: Scope, vm: Vm, k: nat, vm1: Vm, w: I.World, size: nat)
    requires RunFor(t.fp, t.chunk, Running(vm), k) == Running(vm1) && Mirrors(t, sc, vm1, w)
    requires RunFor(t.fp, t.chunk, Running(vm1), 1) == Crashed(vm1)
    ensures Evaluates(t, sc, vm, size, k + 1, vm1, I.Failed(w))
  {
    hide RunFor, SameLocals;
    Then(t, vm, k, vm1, 1);
  }

  /** An instruction that only pushes. */
  lemma PushPlain(t: Target, sc: Scope, vm: Vm, w: I.World, s: Simple, v: Value)
    requires CodeAt(t.chunk.code, vm.pc, EmitPlain(s)) && Mirrors(t, sc, vm, w)
    requires ExecPlain(t.fp, s, vm.pc + 1, vm) == Push(vm, vm.pc + 1, v)
    ensures Evaluates(t, sc, vm, 1, 1, Push(vm, vm.pc + 1, v).vm, I.Value(v, w))
  {
    hide RunFor, SameLocals, SameGlobals;
    StepPlain(t.fp, t.chunk, vm, s);
    Start(t, vm);
    Replaced(t, sc, vm, 0, vm, 0, w, v, 1);
  }

  lemma PushAddress(t: Target, sc: Scope, vm: Vm, w: I.World, a: Addressed, addr: nat, v: Value)
    requires CodeAt(t.chunk.code, vm.pc, EmitAddress(a, addr)) && FitsOperand(a, addr) && Mirrors(t, sc, vm, w)
    requires var next := vm.pc + |EmitAddress(a, addr)|;
      ExecAddress(t.chunk.constants, a, addr, next, vm) == Push(vm, next, v)
    ensures var size := |EmitAddress(a, addr)|;
      Evaluates(t, sc, vm, size, 1, Push(vm, vm.pc + size, v).vm, I.Value(v, w))
  {
    hide RunFor, SameLocals, SameGlobals;
    StepAddress(t.fp, t.chunk, vm, a, addr);
    OperandSurvives(a, addr);
    Start(t, vm);
    Replaced(t, sc, vm, 0, vm, 0, w, v, |EmitAddress(a, addr)|);
  }

  // ----- expressions -----

  lemma {:induction false} ExprRuns(t: Target, e: Expr, sc: Scope, vm: Vm, w: I.World) returns (k: nat, vm1: Vm)
    requires Ready(t, GenExpr(e, sc), vm.pc) && Mirrors(t, sc, vm, w)
    ensures Evaluates(t, sc, vm, |GenExpr(e, sc).bytes|, k, vm1, I.Eval(t.fp, e, w))
    decreases e, 1
  {
    hide RunFor, SameLocals, SameGlobals;
    match e
    case NilLit =>
      PushPlain(t, sc, vm, w, PushNil, Nil);
      k, vm1 := 1, Push(vm, vm.pc + 1, Nil).vm;
    case BoolLit(b) =>
      PushPlain(t, sc, vm, w, if b then PushTrue else PushFalse, Bool(b));
      k, vm1 := 1, Push(vm, vm.pc + 1, Bool(b)).vm;
    case NumLit(n) => k, vm1 := ConstantRuns(t, Number(n), sc, vm, w);
    case StrLit(s) => k, vm1 := ConstantRuns(t, Str(s), sc, vm, w);
    case Var(x) => k, vm1 := VarRuns(t, x, sc, vm, w);
    case Assign(x, e1) => k, vm1 := AssignRuns(t, x, e1, sc, vm, w);
    case Unary(op, e1) => k, vm1 := UnaryRuns(t, op, e1, sc, vm, w);
    case Binary(op, l, r) => k, vm1 := BinaryRuns(t, op, l, r, sc, vm, w);
    case And(l, r) => k, vm1 := AndRuns(t, l, r, sc, vm, w);
    case Or(l, r) => k, vm1 := OrRuns(t, l, r, sc, vm, w);
    case Group(e1) => k, vm1 := ExprRuns(t, e1, sc, vm, w);
  }

  lemma ConstantRuns(t: Target, v: Value, sc: Scope, vm: Vm, w: I.World) returns (k: nat, vm1: Vm)
    requires Ready(t, GenConstant(v, sc), vm.pc) && Mirrors(t, sc, vm, w)
    ensures Evaluates(t, sc, vm, |GenConstant(v, sc).bytes|, k, vm1, I.Value(v, w))
  {
    hide RunFor, SameLocals, SameGlobals;
    var addr := |sc.constants|;
    assert t.chunk.constants[addr] == v by {
      assert (sc.constants + [v])[addr] == v;
    }
    PushAddress(t, sc, vm, w, Constant, addr, v);
    k, vm1 := 1, Push(vm, vm.pc + |EmitAddress(Constant, addr)|, v).vm;
  }

  lemma VarRuns(t: Target, x: Name, sc: Scope, vm: Vm, w: I.World) returns (k: nat, vm1: Vm)
    requires Ready(t, GenExpr(Var(x), sc), vm.pc) && Mirrors(t, sc, vm, w)
    ensures Evaluates(t, sc, vm, |GenExpr(Var(x), sc).bytes|, k, vm1, I.Eval(t.fp, Var(x), w))
  {
    hide RunFor, EmitAddress, CodeAt, SameGlobals, OneAddress, SymmetricEq, AddressRead;
    var p := Resolve(sc, x).value;
    if p.isLocal {
      k, vm1 := LocalRuns(t, x, p.addr, sc, vm, w);
    } else {
      LocalMissing(sc.locals, sc.depth, vm.stack, w.scopes, x);
      k, vm1 := GlobalRuns(t, x, p.addr, sc, vm, w);
    }
  }

  lemma LocalRuns(t: Target, x: Name, addr: nat, sc: Scope, vm: Vm, w: I.World) returns (k: nat, vm1: Vm)
    requires CodeAt(t.chunk.code, vm.pc, EmitAddress(GetLocal, addr)) && FitsOperand(GetLocal, addr)
    requires ResolveLocal(sc.locals, x) == Some(addr) && sc.locals[addr].depth != -1 && Mirrors(t, sc, vm, w)
    ensures Evaluates(t, sc, vm, |EmitAddress(GetLocal, addr)|, k, vm1, I.Eval(t.fp, Var(x), w))
  {
    hide RunFor, EmitAddress, CodeAt, SameGlobals;
    LocalFound(sc.locals, sc.depth, vm.stack, w.scopes, x);
    PushAddress(t, sc, vm, w, GetLocal, addr, vm.stack[addr]);
    k, vm1 := 1, Push(vm, vm.pc + |EmitAddress(GetLocal, addr)|, vm.stack[addr]).vm;
  }

  lemma GlobalRuns(t: Target, x: string, addr: nat, sc: Scope, vm: Vm, w: I.World) returns (k: nat, vm1: Vm)
    requires CodeAt(t.chunk.code, vm.pc, EmitAddress(GetGlobal, addr)) && FitsOperand(GetGlobal, addr)
    requires addr < |t.names| && t.names[addr] == x && Mirrors(t, sc, vm, w)
    ensures Evaluates(t, sc, vm, |EmitAddress(GetGlobal, addr)|, k, vm1,
      if x in w.globals then I.Value(w.globals[x], w) else I.Failed(w))
  {
    hide RunFor, SameLocals, EmitAddress, CodeAt;
    if x in w.globals {
      PushAddress(t, sc, vm, w, GetGlobal, addr, w.globals[x]);
      k, vm1 := 1, Push(vm, vm.pc + |EmitAddress(GetGlobal, addr)|, w.globals[x]).vm;
    } else {
      StepAddress(t.fp, t.chunk, vm, GetGlobal, addr);
      OperandSurvives(GetGlobal, addr);
      Start(t, vm);
      CrashedAfter(t, sc, vm, 0, vm, w, |EmitAddress(GetGlobal, addr)|);
      k, vm1 := 1, vm;
    }
  }

  /** Outcome of an operator on evaluated operands. */
  function Outcome(r: Option<Value>, w: I.World): I.Evaluated {
    if r.Some? then I.Value(r.value, w) else I.Failed(w)
  }

  /** The last instruction of an operator expression: k steps left its n operands on top. */
  lemma OperatorRuns(t: Target, sc: Scope, vm: Vm, k: nat, vm1: Vm, n: nat, w: I.World, s: Simple, r: Option<Value>,
      size: nat)
      returns (vm2: Vm)
    requires RunFor(t.fp, t.chunk, Running(vm), k) == Running(vm1) && vm1.pc + 1 == vm.pc + size
    requires |vm1.stack| == |vm.stack| + n
    requires forall i :: Slots(sc.locals) <= i < |vm.stack| ==> vm1.stack[i] == vm.stack[i]
    requires Slots(sc.locals) <= |vm.stack| && Mirrors(t, sc, vm1, w)
    requires CodeAt(t.chunk.code, vm1.pc, EmitPlain(s))
    requires ExecPlain(t.fp, s, vm1.pc + 1, vm1) ==
      if r.Some? then Replace(vm1, vm1.pc + 1, n, r.value) else Crashed(vm1)
    ensures Evaluates(t, sc, vm, size, k + 1, vm2, Outcome(r, w))
  {
    hide RunFor, SameGlobals, ExecPlain;
    StepPlain(t.fp, t.chunk, vm1, s);
    if r.Some? {
      Replaced(t, sc, vm, k, vm1, n, w, r.value, size);
      vm2 := Replace(vm1, vm.pc + size, n, r.value).vm;
    } else {
      CrashedAfter(t, sc, vm, k, vm1, w, size);
      vm2 := vm1;
    }
  }

  /** The instruction for an operator computes what the operator means. */
  lemma UnaryStep(fp: Arith, op: UnaryOp, vm: Vm, next: nat)
    requires |vm.stack| >= 1
    ensures var r := I.EvalUnary(fp, op, Peek(vm, 0));
      ExecPlain(fp, UnarySimple(op), next, vm) == if r.Some? then Replace(vm, next, 1, r.value) else Crashed(vm)
  {
  }

  lemma BinaryStep(fp: Arith, op: BinaryOp, vm: Vm, next: nat)
    requires SymmetricEq(fp) && |vm.stack| >= 2
    ensures var r := I.EvalBinary(fp, op, Peek(vm, 1), Peek(vm, 0));
      ExecPlain(fp, BinarySimple(op), next, vm) == if r.Some? then Replace(vm, next, 2, r.value) else Crashed(vm)
  {
  }

  lemma {:induction false} UnaryRuns(t: Target, op: UnaryOp, e: Expr, sc: Scope, vm: Vm, w: I.World)
      returns (k: nat, vm1: Vm)
    requires Ready(t, GenExpr(Unary(op, e), sc), vm.pc) && Mirrors(t, sc, vm, w)
    ensures Evaluates(t, sc, vm, |GenExpr(Unary(op, e), sc).bytes|, k, vm1, I.Eval(t.fp, Unary(op, e), w))
    decreases Unary(op, e), 0
  {
    hide RunFor, SameGlobals, ExecPlain, SameLocals, CodeAt, Covers, Grows, OneAddress;
    UnaryReady(t, op, e, sc, vm);
    k, vm1 := ExprRuns(t, e, sc, vm, w);
    var r := I.Eval(t.fp, e, w);
    if r.Value? {
      UnaryStep(t.fp, op, vm1, vm1.pc + 1);
      vm1 := OperatorRuns(t, sc, vm, k, vm1, 1, r.w, UnarySimple(op), I.EvalUnary(t.fp, op, r.v), |GenExpr(e,
          sc).bytes| + 1);
      k := k + 1;
    }
  }

  lemma UnaryReady(t: Target, op: UnaryOp, e: Expr, sc: Scope, vm: Vm)
    requires Ready(t, GenExpr(Unary(op, e), sc), vm.pc)
    ensures var g := GenExpr(e, sc);
      Ready(t, g, vm.pc) && CodeAt(t.chunk.code, vm.pc + |g.bytes|, EmitPlain(UnarySimple(op)))
  {
    hide RunFor, CodeAt, Covers, SymmetricEq, EmitPlain, Resolve, EmitAt, GenConstant, AndRest, OrRest, OneAddress;
    CodeAtSplit(t.chunk.code, vm.pc, GenExpr(e, sc).bytes, EmitPlain(UnarySimple(op)));
  }

  /** Two expressions in a row; a failure of either is the failure of both. */
  ghost predicate PairReady(t: Target, l: Expr, r: Expr, sc: Scope, vm: Vm) {
    var gl := GenExpr(l, sc);
    Ready(t, gl, vm.pc) && Ready(t, GenExpr(r, gl.scope), vm.pc + |gl.bytes|)
  }

  lemma {:induction false} PairRuns(t: Target, e: Expr, l: Expr, r: Expr, sc: Scope, vm: Vm, w: I.World)
      returns (k: nat, vm1: Vm)
    requires l < e && r < e
    requires Mirrors(t, sc, vm, w) && PairReady(t, l, r, sc, vm)
    ensures var size := |GenExpr(l, sc).bytes| + |GenExpr(r, GenExpr(l, sc).scope).bytes|;
      match I.Eval(t.fp, l, w)
      case Failed(w1) => Evaluates(t, sc, vm, size, k, vm1, I.Failed(w1))
      case Value(lv, w1) =>
        match I.Eval(t.fp, r, w1)
        case Failed(w2) => Evaluates(t, sc, vm, size, k, vm1, I.Failed(w2))
        case Value(rv, w2) =>
          && RunFor(t.fp, t.chunk, Running(vm), k) == Running(vm1)
          && vm1.pc == vm.pc + size
          && |vm1.stack| == |vm.stack| + 2 && Peek(vm1, 1) == lv && Peek(vm1, 0) == rv
          && (forall i :: Slots(sc.locals) <= i < |vm.stack| ==> vm1.stack[i] == vm.stack[i])
          && Mirrors(t, sc, vm1, w2)
    decreases e, 0, 0
  {
    hide RunFor, SameGlobals, SameLocals, CodeAt, Covers, GenExpr;
    k, vm1 := ExprRuns(t, l, sc, vm, w);
    match I.Eval(t.fp, l, w)
    case Failed(_) =>
    case Value(lv, w1) =>
      var k2, vm2 := ExprRuns(t, r, GenExpr(l, sc).scope, vm1, w1);
      Then(t, vm, k, vm1, k2);
      k, vm1 := k + k2, vm2;
  }

  lemma {:induction false} BinaryRuns(t: Target, op: BinaryOp, l: Expr, r: Expr, sc: Scope, vm: Vm,
      w: I.World) returns (k: nat, vm1: Vm)
    requires Ready(t, GenExpr(Binary(op, l, r), sc), vm.pc) && Mirrors(t, sc, vm, w)
    ensures Evaluates(t, sc, vm, |GenExpr(Binary(op, l, r), sc).bytes|, k, vm1, I.Eval(t.fp, Binary(op, l, r), w))
    decreases Binary(op, l, r), 0
  {
    hide RunFor, SameGlobals, SameLocals, CodeAt, Covers, ExecPlain, GenExpr, I.EvalBinary, SymmetricEq, EmitPlain;
    var size := BinaryReady(t, op, l, r, sc, vm);
    k, vm1 := PairRuns(t, Binary(op, l, r), l, r, sc, vm, w);
    var el := I.Eval(t.fp, l, w);
    if el.Value? {
      var er := I.Eval(t.fp, r, el.w);
      if er.Value? {
        BinaryStep(t.fp, op, vm1, vm1.pc + 1);
        vm1 := OperatorRuns(t, sc, vm, k, vm1, 2, er.w, BinarySimple(op), I.EvalBinary(t.fp, op, el.v, er.v), size + 1);
        k := k + 1;
      }
    }
  }

  lemma BinaryReady(t: Target, op: BinaryOp, l: Expr, r: Expr, sc: Scope, vm: Vm) returns (size: nat)
    requires Ready(t, GenExpr(Binary(op, l, r), sc), vm.pc)
    ensures PairReady(t, l, r, sc, vm)
    ensures size == |GenExpr(l, sc).bytes| + |GenExpr(r, GenExpr(l, sc).scope).bytes|
    ensures size + 1 == |GenExpr(Binary(op, l, r), sc).bytes|
    ensures CodeAt(t.chunk.code, vm.pc + size, EmitPlain(BinarySimple(op)))
  {
    hide RunFor, CodeAt, Covers, SymmetricEq, EmitPlain, GenExpr, OneAddress;
    BinaryUnfolds(op, l, r, sc);
    var gl := GenExpr(l, sc);
    var gr := GenExpr(r, gl.scope);
    var s := BinarySimple(op);
    CodeAtSplit(t.chunk.code, vm.pc, gl.bytes, gr.bytes + EmitPlain(s));
    CodeAtSplit(t.chunk.code, vm.pc + |gl.bytes|, gr.bytes, EmitPlain(s));
    CoversEarlier(t, gl.scope, gr.scope);
    size := |gl.bytes| + |gr.bytes|;
  }

  /** The store at the end of an assignment: k steps left the value on top. */
  lemma StoreRuns(t: Target, x: Name, p: Place, sc: Scope, vm: Vm, k: nat, vm1: Vm, v: Value, w: I.World, size: nat)
      returns (vm2: Vm)
    requires Resolve(sc, x) == Some(p) && !p.readonly && Covers(t, p.scope)
    requires Slots(sc.locals) <= |vm.stack| && Evaluates(t, sc, vm, size, k, vm1, I.Value(v, w))
    requires var a := if p.isLocal then SetLocal else SetGlobal;
      FitsOperand(a, p.addr) && CodeAt(t.chunk.code, vm1.pc, EmitAddress(a, p.addr))
    ensures var a := if p.isLocal then SetLocal else SetGlobal;
      var r := I.WriteVar(w, x, v);
      Evaluates(t, sc, vm, size + |EmitAddress(a, p.addr)|, k + 1, vm2, if r.Some? then I.Value(v,
          r.value) else I.Failed(w))
  {
    hide RunFor, EmitAddress, SameGlobals, CodeAt, SameLocals;
    StepAddress(t.fp, t.chunk, vm1, if p.isLocal then SetLocal else SetGlobal, p.addr);
    OperandSurvives(if p.isLocal then SetLocal else SetGlobal, p.addr);
    Then(t, vm, k, vm1, 1);
    if p.isLocal {
      vm2 := LocalStored(t, sc, vm1, vm1.pc + |EmitAddress(SetLocal, p.addr)|, p.addr, x, v, w);
    } else {
      LocalMissing(sc.locals, sc.depth, vm1.stack, w.scopes, x);
      vm2 := GlobalStored(t, sc, vm1, vm1.pc + |EmitAddress(SetGlobal, p.addr)|, p.addr, x, v, w);
    }
  }

  lemma LocalStored(t: Target, sc: Scope, vm: Vm, next: nat, addr: nat, x: Name, v: Value, w: I.World) returns (vm1: Vm)
    requires Mirrors(t, sc, vm, w) && |vm.stack| > Slots(sc.locals) && Peek(vm, 0) == v
    requires ResolveLocal(sc.locals, x) == Some(addr) && sc.locals[addr].depth != -1
    ensures ExecAddress(t.chunk.constants, SetLocal, addr, next, vm) == Running(vm1)
    ensures vm1.pc == next && |vm1.stack| == |vm.stack|
    ensures forall i :: Slots(sc.locals) <= i < |vm.stack| ==> vm1.stack[i] == vm.stack[i]
    ensures I.WriteVar(w, x, v).Some? && Mirrors(t, sc, vm1, I.WriteVar(w, x, v).value)
  {
    hide RunFor, SameGlobals;
    LocalFound(sc.locals, sc.depth, vm.stack, w.scopes, x);
    LocalWritten(sc.locals, sc.depth, vm.stack, w.scopes, addr, v);
    vm1 := vm.(pc := next, stack := vm.stack[addr := v]);
  }

  lemma GlobalStored(t: Target, sc: Scope, vm: Vm, next: nat, addr: nat, x: string, v: Value, w: I.World)
      returns (vm1: Vm)
    requires Mirrors(t, sc, vm, w) && |vm.stack| >= 1 && Peek(vm, 0) == v
    requires addr < |t.names| && t.names[addr] == x && Distinct(t.names)
    ensures x !in w.globals ==> ExecAddress(t.chunk.constants, SetGlobal, addr, next, vm) == Crashed(vm)
    ensures x in w.globals ==>
      && ExecAddress(t.chunk.constants, SetGlobal, addr, next, vm) == Running(vm1)
      && vm1.pc == next && vm1.stack == vm.stack
      && Mirrors(t, sc, vm1, w.(globals := w.globals[x := v]))
    ensures x !in w.globals ==> vm1 == vm
  {
    hide RunFor, SameLocals;
    if x in w.globals {
      GlobalWritten(t.names, vm.globals, w.globals, addr, v);
      vm1 := vm.(pc := next, globals := vm.globals[addr := Some(v)]);
    } else {
      vm1 := vm;
    }
  }

  lemma {:induction false} AssignRuns(t: Target, x: Name, e: Expr, sc: Scope, vm: Vm, w: I.World)
      returns (k: nat, vm1: Vm)
    requires Ready(t, GenExpr(Assign(x, e), sc), vm.pc) && Mirrors(t, sc, vm, w)
    ensures Evaluates(t, sc, vm, |GenExpr(Assign(x, e), sc).bytes|, k, vm1, I.Eval(t.fp, Assign(x, e), w))
    decreases Assign(x, e), 0
  {
    hide RunFor, SameGlobals, SameLocals, CodeAt, Covers, EmitAddress, GenExpr, Grows;
    var p := AssignReady(t, x, e, sc, vm);
    k, vm1 := ExprRuns(t, e, p.scope, vm, w);
    var r := I.Eval(t.fp, e, w);
    if r.Value? {
      vm1 := StoreRuns(t, x, p, sc, vm, k, vm1, r.v, r.w, |GenExpr(e, p.scope).bytes|);
      k := k + 1;
    }
  }

  /** A jump lands where its distance says. */
  lemma BranchRuns(t: Target, sc: Scope, vm: Vm, k: nat, vm1: Vm, j: Jumping, dist: nat, w: I.World) returns (vm2: Vm)
    requires RunFor(t.fp, t.chunk, Running(vm), k) == Running(vm1) && |vm1.stack| >= 1
    requires CodeAt(t.chunk.code, vm1.pc, EmitBranch(j, dist)) && Reach(dist)
    requires j == Loop ==> dist <= vm1.pc + 3
    requires Mirrors(t, sc, vm1, w)
    ensures RunFor(t.fp, t.chunk, Running(vm), k + 1) == Running(vm2)
    ensures vm2.stack == vm1.stack && Mirrors(t, sc, vm2, w)
    ensures vm2.pc == if j == Loop then vm1.pc + 3 - dist
                      else if j == Jump || IsFalsey(Peek(vm1, 0)) then vm1.pc + 3 + dist
                      else vm1.pc + 3
  {
    hide RunFor, SameLocals, SameGlobals, CodeAt;
    StepBranch(t.fp, t.chunk, vm1, j, dist);
    Then(t, vm, k, vm1, 1);
    vm2 := ExecBranch(j, dist, vm1.pc + 3, vm1).vm;
  }

  /** Dropping a value that is above the slots. */
  lemma PopRuns(t: Target, sc: Scope, vm: Vm, k: nat, vm1: Vm, w: I.World) returns (vm2: Vm)
    requires RunFor(t.fp, t.chunk, Running(vm), k) == Running(vm1) && |vm1.stack| > Slots(sc.locals)
    requires CodeAt(t.chunk.code, vm1.pc, EmitPlain(Pop)) && Mirrors(t, sc, vm1, w)
    ensures RunFor(t.fp, t.chunk, Running(vm), k + 1) == Running(vm2)
    ensures vm2 == vm1.(pc := vm1.pc + 1, stack := vm1.stack[..|vm1.stack| - 1]) && Mirrors(t, sc, vm2, w)
  {
    hide RunFor, CodeAt;
    StepPlain(t.fp, t.chunk, vm1, Pop);
    Then(t, vm, k, vm1, 1);
    vm2 := vm1.(pc := vm1.pc + 1, stack := vm1.stack[..|vm1.stack| - 1]);
    SlotsOnly(sc.locals, sc.depth, vm1.stack, vm2.stack, w.scopes);
  }

  lemma {:induction false} AndRuns(t: Target, l: Expr, r: Expr, sc: Scope, vm: Vm, w: I.World) returns (k: nat, vm1: Vm)
    requires Ready(t, GenExpr(And(l, r), sc), vm.pc) && Mirrors(t, sc, vm, w)
    ensures Evaluates(t, sc, vm, |GenExpr(And(l, r), sc).bytes|, k, vm1, I.Eval(t.fp, And(l, r), w))
    decreases And(l, r), 0
  {
    hide RunFor, SameLocals, SameGlobals, CodeAt, Covers, EmitBranch, EmitPlain, GenExpr, Grows;
    AndReady(t, l, r, sc, vm);
    var gl := GenExpr(l, sc);
    var gr := GenExpr(r, gl.scope);
    k, vm1 := ExprRuns(t, l, sc, vm, w);
    var el := I.Eval(t.fp, l, w);
    if el.Value? {
      var vm2 := BranchRuns(t, sc, vm, k, vm1, JumpIfFalse, 1 + |gr.bytes|, el.w);
      k := k + 1;
      if IsFalsey(el.v) {
        vm1 := vm2;
      } else {
        k, vm1 := RightRuns(t, r, sc, gl.scope, vm, k, vm2, el.w);
      }
    }
  }

  /** The pop of a left operand that did not decide, and the right operand after it. */
  lemma {:induction false} RightRuns(t: Target, r: Expr, sc: Scope, sc1: Scope, vm: Vm, k: nat, vm1: Vm,
      w: I.World) returns (k2: nat, vm2: Vm)
    requires RunFor(t.fp, t.chunk, Running(vm), k) == Running(vm1)
    requires |vm1.stack| == |vm.stack| + 1 && Slots(sc.locals) <= |vm.stack|
    requires forall i :: Slots(sc.locals) <= i < |vm.stack| ==> vm1.stack[i] == vm.stack[i]
    requires sc1.locals == sc.locals && sc1.depth == sc.depth
    requires CodeAt(t.chunk.code, vm1.pc, EmitPlain(Pop)) && Mirrors(t, sc, vm1, w)
    requires Ready(t, GenExpr(r, sc1), vm1.pc + 1)
    ensures match I.Eval(t.fp, r, w)
      case Value(v, w1) =>
        && RunFor(t.fp, t.chunk, Running(vm), k2) == Running(vm2)
        && vm2.pc == vm1.pc + 1 + |GenExpr(r, sc1).bytes|
        && |vm2.stack| == |vm.stack| + 1 && vm2.stack[|vm.stack|] == v
        && (forall i :: Slots(sc.locals) <= i < |vm.stack| ==> vm2.stack[i] == vm.stack[i])
        && Mirrors(t, sc, vm2, w1)
      case Failed(w1) => RunFor(t.fp, t.chunk, Running(vm), k2) == Crashed(vm2) && CrashMirrors(t, vm2, w1)
    decreases r, 2
  {
    hide RunFor, SameLocals, SameGlobals, CodeAt, Covers;
    var popped := PopRuns(t, sc, vm, k, vm1, w);
    var k3;
    k3, vm2 := ExprRuns(t, r, sc1, popped, w);
    Then(t, vm, k + 1, popped, k3);
    k2 := k + 1 + k3;
  }

  lemma AndShape(l: Expr, r: Expr, sc: Scope)
    requires GenExpr(And(l, r), sc).Code?
    ensures var gl := GenExpr(l, sc);
      gl.Code? &&
      var gr := GenExpr(r, gl.scope);
      && gr.Code? && Grows(gl.scope, gr.scope) && Reach(1 + |gr.bytes|)
      && GenExpr(And(l, r), sc) == Code(gl.bytes + AndRest(gr.bytes), gr.scope)
  {
    hide GenExpr, AndRest, Grows, Reach;
    AndUnfolds(l, r, sc);
  }

  lemma OrShape(l: Expr, r: Expr, sc: Scope)
    requires GenExpr(Or(l, r), sc).Code?
    ensures var gl := GenExpr(l, sc);
      gl.Code? &&
      var gr := GenExpr(r, gl.scope);
      && gr.Code? && Grows(gl.scope, gr.scope) && Reach(1 + |gr.bytes|)
      && GenExpr(Or(l, r), sc) == Code(gl.bytes + OrRest(gr.bytes), gr.scope)
  {
    hide GenExpr, OrRest, Grows, Reach;
    OrUnfolds(l, r, sc);
  }

  lemma AndPlaces(code: seq<Byte>, pc: nat, left: seq<Byte>, right: seq<Byte>)
    requires CodeAt(code, pc, left + AndRest(right))
    ensures CodeAt(code, pc, left)
    ensures var pc := pc + |left|;
      && CodeAt(code, pc, EmitBranch(JumpIfFalse, 1 + |right|))
      && CodeAt(code, pc + 3, EmitPlain(Pop))
      && CodeAt(code, pc + 4, right)
  {
    hide CodeAt, EmitBranch, EmitPlain;
    var pc1 := pc + |left|;
    CodeAtSplit(code, pc, left, EmitBranch(JumpIfFalse, 1 + |right|) + (EmitPlain(Pop) + right));
    CodeAtSplit(code, pc1, EmitBranch(JumpIfFalse, 1 + |right|), EmitPlain(Pop) + right);
    CodeAtSplit(code, pc1 + 3, EmitPlain(Pop), right);
  }

  lemma OrPlaces(code: seq<Byte>, pc: nat, left: seq<Byte>, right: seq<Byte>)
    requires CodeAt(code, pc, left + OrRest(right))
    ensures CodeAt(code, pc, left)
    ensures var pc := pc + |left|;
      && CodeAt(code, pc, EmitBranch(JumpIfFalse, 3))
      && CodeAt(code, pc + 3, EmitBranch(Jump, 1 + |right|))
      && CodeAt(code, pc + 6, EmitPlain(Pop))
      && CodeAt(code, pc + 7, right)
  {
    hide CodeAt, EmitBranch, EmitPlain;
    var pc1 := pc + |left|;
    var jump := EmitBranch(Jump, 1 + |right|);
    CodeAtSplit(code, pc, left, EmitBranch(JumpIfFalse, 3) + (jump + (EmitPlain(Pop) + right)));
    CodeAtSplit(code, pc1, EmitBranch(JumpIfFalse, 3), jump + (EmitPlain(Pop) + right));
    CodeAtSplit(code, pc1 + 3, jump, EmitPlain(Pop) + right);
    CodeAtSplit(code, pc1 + 6, EmitPlain(Pop), right);
  }

  lemma AndReady(t: Target, l: Expr, r: Expr, sc: Scope, vm: Vm)
    requires Ready(t, GenExpr(And(l, r), sc), vm.pc)
    ensures var gl := GenExpr(l, sc);
      Ready(t, gl, vm.pc) &&
      var gr := GenExpr(r, gl.scope);
      var pc := vm.pc + |gl.bytes|;
      && Ready(t, gr, pc + 4)
      && CodeAt(t.chunk.code, pc, EmitBranch(JumpIfFalse, 1 + |gr.bytes|))
      && CodeAt(t.chunk.code, pc + 3, EmitPlain(Pop))
      && Reach(1 + |gr.bytes|)
      && gl.scope.locals == sc.locals && gl.scope.depth == sc.depth
      && |GenExpr(And(l, r), sc).bytes| == |gl.bytes| + 4 + |gr.bytes|
  {
    hide RunFor, CodeAt, EmitBranch, EmitPlain, Covers, SymmetricEq, GenExpr;
    AndShape(l, r, sc);
    var gl := GenExpr(l, sc);
    var gr := GenExpr(r, gl.scope);
    AndPlaces(t.chunk.code, vm.pc, gl.bytes, gr.bytes);
    CoversEarlier(t, gl.scope, gr.scope);
  }

  lemma {:induction false} OrRuns(t: Target, l: Expr, r: Expr, sc: Scope, vm: Vm, w: I.World) returns (k: nat, vm1: Vm)
    requires Ready(t, GenExpr(Or(l, r), sc), vm.pc) && Mirrors(t, sc, vm, w)
    ensures Evaluates(t, sc, vm, |GenExpr(Or(l, r), sc).bytes|, k, vm1, I.Eval(t.fp, Or(l, r), w))
    decreases Or(l, r), 0
  {
    hide RunFor, SameLocals, SameGlobals, CodeAt, Covers, EmitBranch, EmitPlain, GenExpr, Grows;
    OrReady(t, l, r, sc, vm);
    var gl := GenExpr(l, sc);
    var gr := GenExpr(r, gl.scope);
    k, vm1 := ExprRuns(t, l, sc, vm, w);
    var el := I.Eval(t.fp, l, w);
    if el.Value? {
      var vm2 := BranchRuns(t, sc, vm, k, vm1, JumpIfFalse, 3, el.w);
      k := k + 1;
      if IsFalsey(el.v) {
        k, vm1 := RightRuns(t, r, sc, gl.scope, vm, k, vm2, el.w);
      } else {
        vm1 := BranchRuns(t, sc, vm, k, vm2, Jump, 1 + |gr.bytes|, el.w);
        k := k + 1;
      }
    }
  }

  lemma OrReady(t: Target, l: Expr, r: Expr, sc: Scope, vm: Vm)
    requires Ready(t, GenExpr(Or(l, r), sc), vm.pc)
    ensures var gl := GenExpr(l, sc);
      Ready(t, gl, vm.pc) &&
      var gr := GenExpr(r, gl.scope);
      var pc := vm.pc + |gl.bytes|;
      && Ready(t, gr, pc + 7)
      && CodeAt(t.chunk.code, pc, EmitBranch(JumpIfFalse, 3))
      && CodeAt(t.chunk.code, pc + 3, EmitBranch(Jump, 1 + |gr.bytes|))
      && CodeAt(t.chunk.code, pc + 6, EmitPlain(Pop))
      && Reach(1 + |gr.bytes|)
      && gl.scope.locals == sc.locals && gl.scope.depth == sc.depth
      && |GenExpr(Or(l, r), sc).bytes| == |gl.bytes| + 7 + |gr.bytes|
  {
    hide RunFor, CodeAt, EmitBranch, EmitPlain, Covers, SymmetricEq, GenExpr;
    OrShape(l, r, sc);
    var gl := GenExpr(l, sc);
    var gr := GenExpr(r, gl.scope);
    OrPlaces(t.chunk.code, vm.pc, gl.bytes, gr.bytes);
    CoversEarlier(t, gl.scope, gr.scope);
  }

  lemma AssignReady(t: Target, x: Name, e: Expr, sc: Scope, vm: Vm) returns (p: Place)
    requires Ready(t, GenExpr(Assign(x, e), sc), vm.pc)
    ensures Resolve(sc, x) == Some(p) && !p.readonly && Covers(t, p.scope)
    ensures p.scope.locals == sc.locals && p.scope.depth == sc.depth
    ensures var g := GenExpr(e, p.scope);
      var a := if p.isLocal then SetLocal else SetGlobal;
      && Ready(t, g, vm.pc) && FitsOperand(a, p.addr)
      && CodeAt(t.chunk.code, vm.pc + |g.bytes|, EmitAddress(a, p.addr))
      && |GenExpr(Assign(x, e), sc).bytes| == |g.bytes| + |EmitAddress(a, p.addr)|
  {
    hide RunFor, CodeAt, EmitAddress, SymmetricEq, Covers, OneAddress, GenExpr;
    AssignUnfolds(x, e, sc);
    p := Resolve(sc, x).value;
    var g := GenExpr(e, p.scope);
    CodeAtSplit(t.chunk.code, vm.pc, g.bytes, EmitAddress(if p.isLocal then SetLocal else SetGlobal, p.addr));
    CoversEarlier(t, p.scope, g.scope);
  }
}
