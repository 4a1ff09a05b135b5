/** The assignment of a global reads only one byte of its address. When that matters, and
    which programs it cannot touch. */
module Narrowing {
  import opened Values
  import opened Syntax
  import opened Bytecode
  import opened Codegen
  import opened Machine
  import opened ExprCorrect
  import I = Interpreter

  /** Executing the assignment with v on top of the stack assigns v to the global `addr`, or
      is a runtime error if that is not defined. */
  ghost predicate Assigns(t: Target, vm: Vm, env: I.Env, addr: nat, v: Value)
    requires addr < |t.names|
  {
    var st := RunFor(t.fp, t.chunk, Running(vm.(stack := vm.stack + [v])), 1);
    if t.names[addr] in env then st.Running? && SameGlobals(t.names, st.vm.globals, env[t.names[addr] := v])
    else st.Crashed? && SameGlobals(t.names, st.vm.globals, env)
  }

  /** The compiled assignment of a global does that, whatever the value, exactly when its address
      fits one byte or neither the global nor the one at the low byte of its address is defined. */
  lemma WideStoreExact(t: Target, vm: Vm, env: I.Env, addr: nat)
    requires SameGlobals(t.names, vm.globals, env) && Distinct(t.names) && addr < |t.names|
    requires CodeAt(t.chunk.code, vm.pc, EmitAddress(SetGlobal, addr))
    ensures (forall v :: Assigns(t, vm, env, addr, v)) <==>
      addr <= 255 || (t.names[addr] !in env && t.names[addr % 256] !in env)
  {
    hide CodeAt, EmitAddress, RunFor;
    forall v
      ensures var vm1 := vm.(stack := vm.stack + [v]);
        RunFor(t.fp, t.chunk, Running(vm1), 1) ==
          ExecAddress(t.chunk.constants, SetGlobal, AddressRead(SetGlobal, addr), vm.pc + |EmitAddress(SetGlobal,
              addr)|, vm1)
    {
      StepAddress(t.fp, t.chunk, vm.(stack := vm.stack + [v]), SetGlobal, addr);
    }
    if addr <= 255 && t.names[addr] in env {
      forall v
        ensures Assigns(t, vm, env, addr, v)
      {
        GlobalWritten(t.names, vm.globals, env, addr, v);
      }
    } else if addr > 255 {
      var v := if t.names[addr] in env && env[t.names[addr]] == Nil then Bool(true) else Nil;
      assert addr % 256 != addr;
      assert Assigns(t, vm, env, addr, v) <==> t.names[addr] !in env && t.names[addr % 256] !in env;
    }
  }

  const ADDRESSES := 0x100_0000

  /** Variable declarations in a statement, at any depth. */
  function Declarations(s: Stmt): nat {
    match s
    case VarDecl(_, _, _) => 1
    case Block(body) => DeclarationsAll(body)
    case If(_, thn, els) => Declarations(thn) + DeclarationsOpt(els)
    case While(_, loop) => Declarations(loop)
    case For(first, _, _, loop) => DeclarationsOpt(first) + Declarations(loop)
    case _ => 0
  }

  function DeclarationsOpt(s: Option<Stmt>): nat {
    match s
    case None => 0
    case Some(s) => Declarations(s)
  }

  function DeclarationsAll(ss: Stmts): nat {
    match ss
    case Empty => 0
    case Cons(s, rest) => Declarations(s) + DeclarationsAll(rest)
  }

  /** Every address that these tables can hand out fits its operand. */
  predicate Small(sc: Scope) {
    |sc.globals| <= 256 && |sc.constants| <= ADDRESSES && |sc.locals| <= ADDRESSES
  }

  lemma SmallEarlier(sc: Scope, sc1: Scope)
    requires Grows(sc, sc1) && |sc.locals| <= |sc1.locals| && Small(sc1)
    ensures Small(sc)
  {
  }

  /** Every address fits if the tables end up small. */
  lemma {:induction false} ExprFits(e: Expr, sc: Scope)
    requires var g := GenExpr(e, sc); g.Code? && Small(g.scope) && !sc.narrowed
    ensures !GenExpr(e, sc).scope.narrowed
    decreases e, 2
  {
    hide GenBinary, GenAnd, GenOr, GenAssign, EmitAddress, EmitPlain, Grows;
    match e
    case Assign(x, e1) => AssignFits(x, e1, sc);
    case Unary(_, e1) => ExprFits(e1, sc);
    case Binary(op, l, r) => BinaryFits(op, l, r, sc);
    case And(l, r) => AndFits(l, r, sc);
    case Or(l, r) => OrFits(l, r, sc);
    case Group(e1) => ExprFits(e1, sc);
    case _ =>
  }

  lemma {:induction false} AssignFits(x: Name, e: Expr, sc: Scope)
    requires var g := GenAssign(x, e, sc); g.Code? && Small(g.scope) && !sc.narrowed
    ensures !GenAssign(x, e, sc).scope.narrowed
    decreases Assign(x, e), 0
  {
    hide GenExpr, EmitAddress;
    ExprFits(e, Resolve(sc, x).value.scope);
  }

  lemma {:induction false} PairFits(l: Expr, r: Expr, sc: Scope, whole: Expr)
    requires l < whole && r < whole && !sc.narrowed
    requires var g := GenExpr(l, sc); g.Code? && var h := GenExpr(r, g.scope); h.Code? && Small(h.scope)
    ensures !GenExpr(r, GenExpr(l, sc).scope).scope.narrowed
    decreases whole, 0
  {
    hide GenExpr;
    var g := GenExpr(l, sc);
    SmallEarlier(g.scope, GenExpr(r, g.scope).scope);
    ExprFits(l, sc);
    ExprFits(r, g.scope);
  }

  lemma {:induction false} BinaryFits(op: BinaryOp, l: Expr, r: Expr, sc: Scope)
    requires var g := GenBinary(op, l, r, sc); g.Code? && Small(g.scope) && !sc.narrowed
    ensures !GenBinary(op, l, r, sc).scope.narrowed
    decreases Binary(op, l, r), 1
  {
    hide GenExpr;
    PairFits(l, r, sc, Binary(op, l, r));
  }

  lemma {:induction false} AndFits(l: Expr, r: Expr, sc: Scope)
    requires var g := GenAnd(l, r, sc); g.Code? && Small(g.scope) && !sc.narrowed
    ensures !GenAnd(l, r, sc).scope.narrowed
    decreases And(l, r), 1
  {
    hide GenExpr;
    PairFits(l, r, sc, And(l, r));
  }

  lemma {:induction false} OrFits(l: Expr, r: Expr, sc: Scope)
    requires var g := GenOr(l, r, sc); g.Code? && Small(g.scope) && !sc.narrowed
    ensures !GenOr(l, r, sc).scope.narrowed
    decreases Or(l, r), 1
  {
    hide GenExpr;
    PairFits(l, r, sc, Or(l, r));
  }

  lemma {:induction false} OptFits(e: Option<Expr>, sc: Scope)
    requires var g := GenOpt(e, sc); g.Code? && Small(g.scope) && !sc.narrowed
    ensures !GenOpt(e, sc).scope.narrowed
  {
    hide GenExpr;
    if e.Some? {
      ExprFits(e.value, sc);
    }
  }

  // ----- statements: the tables do not shrink before the end but for dropped locals -----

  /** The hypothesis and the conclusion for a piece of program with n declarations. */
  ghost predicate Roomy(sc: Scope, n: nat, g: Gen) {
    && g.Code? && !sc.narrowed
    && |g.scope.globals| <= 256 && |g.scope.constants| <= ADDRESSES && |sc.locals| + n <= ADDRESSES
  }

  ghost predicate Fitted(sc: Scope, n: nat, g: Gen)
    requires g.Code?
  {
    !g.scope.narrowed && |g.scope.locals| <= |sc.locals| + n
  }

  lemma {:induction false} StmtFits(s: Stmt, sc: Scope)
    requires Settled(sc) && Roomy(sc, Declarations(s), GenStmt(s, sc))
    ensures Fitted(sc, Declarations(s), GenStmt(s, sc))
    decreases s, 2
  {
    hide GenExpr, GenVar, GenIf, GenLoop, GenFor, GenStmts, Settled, EmitAddress, EmitPlain;
    match s
    case ExprStmt(e) => ExprFits(e, sc);
    case Print(e) => ExprFits(e, sc);
    case VarDecl(ro, x, init) => VarFits(ro, x, init, sc);
    case Block(body) => ScopeSettled(sc); StmtsFit(body, BeginScope(sc));
    case If(c, thn, els) => IfFits(c, thn, els, sc);
    case While(c, loop) => LoopFits(Some(c), None, loop, sc);
    case For(first, cond, incr, loop) => ScopeSettled(sc); ForFits(first, cond, incr, loop, BeginScope(sc));
  }

  lemma ScopeSettled(sc: Scope)
    requires Settled(sc)
    ensures Settled(BeginScope(sc))
  {
  }

  lemma {:induction false} VarFits(ro: bool, x: Name, init: Option<Expr>, sc: Scope)
    requires Settled(sc) && Roomy(sc, 1, GenVar(ro, x, init, sc))
    ensures Fitted(sc, 1, GenVar(ro, x, init, sc))
  {
    hide GenExpr, Settled, EmitAddress;
    if sc.depth > 0 {
      var sc1 := DeclareLocal(sc, x).value;
      if init.Some? {
        ExprFits(init.value, sc1);
      }
    } else {
      var sc1 := sc.(globals := MakeGlobal(sc.globals, x).0);
      if init.Some? {
        ExprFits(init.value, sc1);
      }
    }
  }

  lemma {:induction false} IfFits(c: Expr, thn: Stmt, els: Option<Stmt>, sc: Scope)
    requires Settled(sc) && Roomy(sc, Declarations(thn) + DeclarationsOpt(els), GenIf(c, thn, els, sc))
    ensures Fitted(sc, Declarations(thn) + DeclarationsOpt(els), GenIf(c, thn, els, sc))
    decreases If(c, thn, els), 1
  {
    hide GenExpr, GenStmt, GenOptional, Settled, IfBytes;
    var test := GenExpr(c, sc);
    AfterExpr(sc, test.scope);
    var yes := GenStmt(thn, test.scope);
    ExprFits(c, sc);
    StmtFits(thn, test.scope);
    OptionalFits(els, yes.scope);
  }

  lemma {:induction false} OptionalFits(s: Option<Stmt>, sc: Scope)
    requires Settled(sc) && Roomy(sc, DeclarationsOpt(s), GenOptional(s, sc))
    ensures Fitted(sc, DeclarationsOpt(s), GenOptional(s, sc))
    decreases s, 3
  {
    hide GenStmt, Settled;
    if s.Some? {
      StmtFits(s.value, sc);
    }
  }

  lemma {:induction false} LoopFits(cond: Option<Expr>, incr: Option<Expr>, loop: Stmt, sc: Scope)
    requires Settled(sc) && Roomy(sc, Declarations(loop), GenLoop(cond, incr, loop, sc))
    ensures Fitted(sc, Declarations(loop), GenLoop(cond, incr, loop, sc))
    decreases loop, 3
  {
    hide GenOpt, GenStmt, Settled, LoopBytes;
    var test := GenOpt(cond, sc);
    var step := GenOpt(incr, test.scope);
    AfterExpr(sc, step.scope);
    OptFits(cond, sc);
    OptFits(incr, test.scope);
    StmtFits(loop, step.scope);
  }

  lemma {:induction false} ForFits(first: Option<Stmt>, cond: Option<Expr>, incr: Option<Expr>, loop: Stmt, sc: Scope)
    requires Settled(sc)
    requires Roomy(sc, DeclarationsOpt(first) + Declarations(loop), GenFor(first, cond, incr, loop, sc))
    ensures Fitted(sc, DeclarationsOpt(first) + Declarations(loop), GenFor(first, cond, incr, loop, sc))
    decreases For(first, cond, incr, loop), 1
  {
    hide GenOptional, GenLoop, Settled;
    OptionalFits(first, sc);
    LoopFits(cond, incr, loop, GenOptional(first, sc).scope);
  }

  lemma {:induction false} StmtsFit(ss: Stmts, sc: Scope)
    requires Settled(sc) && Roomy(sc, DeclarationsAll(ss), GenStmts(ss, sc))
    ensures Fitted(sc, DeclarationsAll(ss), GenStmts(ss, sc))
    decreases ss
  {
    hide GenStmt, Settled;
    match ss
    case Empty =>
    case Cons(s, rest) =>
      StmtFits(s, sc);
      StmtsFit(rest, GenStmt(s, sc).scope);
  }

  /** A compiled script with at most 256 global names, and fewer constants and declarations
      than the 24-bit addresses, has no narrowed operand. */
  lemma SmallScriptFits(ss: Stmts, globals: seq<Global>)
    requires var g := GenScript(ss, globals);
      g.Code? && |g.scope.globals| <= 256 && |g.scope.constants| <= ADDRESSES
    requires 1 + DeclarationsAll(ss) <= ADDRESSES
    ensures !GenScript(ss, globals).scope.narrowed
  {
    hide GenStmts;
    StmtsFit(ss, ScriptScope(globals));
  }
}
