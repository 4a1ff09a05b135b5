/** When the compiler accepts an expression or a statement: exactly when it accepts the parts
    and the few rules of the language are kept. All distances are in bytes. */
module Acceptance {
  import opened Values
  import opened Syntax
  import opened Codegen

  /** The latest local of that name is being declared. */
  ghost predicate InOwnInitializer(sc: Scope, x: string) {
    exists i :: 0 <= i < |sc.locals| && sc.locals[i].name == x && sc.locals[i].depth == -1
      && forall j :: i < j < |sc.locals| ==> sc.locals[j].name != x
  }

  /** Literals are always accepted, and a name unless it is read in its own initializer. */
  lemma LeavesAccepted(sc: Scope, b: bool, n: Num, s: string, x: Name)
    ensures GenExpr(NilLit, sc).Code? && GenExpr(BoolLit(b), sc).Code?
    ensures GenExpr(NumLit(n), sc).Code? && GenExpr(StrLit(s), sc).Code?
    ensures GenExpr(Var(x), sc).Code? <==> !InOwnInitializer(sc, x)
  {
    var r := ResolveLocal(sc.locals, x);
    if r.Some? {
      assert InOwnInitializer(sc, x) <==> sc.locals[r.value].depth == -1;
    }
  }

  lemma OperatorsAccepted(sc: Scope, op: UnaryOp, bop: BinaryOp, l: Expr, r: Expr)
    ensures GenExpr(Unary(op, l), sc).Code? <==> GenExpr(l, sc).Code?
    ensures GenExpr(Group(l), sc).Code? <==> GenExpr(l, sc).Code?
    ensures GenExpr(Binary(bop, l, r), sc).Code? <==>
      GenExpr(l, sc).Code? && GenExpr(r, GenExpr(l, sc).scope).Code?
  {
    hide Grows;
    BinaryUnfolds(bop, l, r, sc);
  }

  /** `and` and `or` jump over the right operand and the pop in front of it. */
  lemma LogicAccepted(sc: Scope, l: Expr, r: Expr)
    ensures GenExpr(And(l, r), sc).Code? <==>
      && GenExpr(l, sc).Code?
      && var g := GenExpr(r, GenExpr(l, sc).scope); g.Code? && 1 + |g.bytes| <= 0xFFFF
    ensures GenExpr(Or(l, r), sc).Code? <==>
      && GenExpr(l, sc).Code?
      && var g := GenExpr(r, GenExpr(l, sc).scope); g.Code? && 1 + |g.bytes| <= 0xFFFF
  {
    hide Grows;
    AndUnfolds(l, r, sc);
    OrUnfolds(l, r, sc);
  }

  /** A declaration in a block needs a name that is new in its scope. */
  lemma DeclarationAccepted(sc: Scope, readonly: bool, x: Name, init: Option<Expr>)
    requires Settled(sc)
    ensures sc.depth > 0 ==>
      (GenStmt(VarDecl(readonly, x, init), sc).Code? <==>
        && (forall i :: 0 <= i < |sc.locals| && sc.locals[i].name == x ==> sc.locals[i].depth != sc.depth)
        && (init.Some? ==> GenExpr(init.value, sc.(locals := sc.locals + [Local(x, -1, false)])).Code?))
    ensures sc.depth == 0 ==>
      (GenStmt(VarDecl(readonly, x, init), sc).Code? <==>
        (init.Some? ==> GenExpr(init.value, sc.(globals := MakeGlobal(sc.globals, x).0)).Code?))
  {
    hide GenExpr, Grows;
    var r := ResolveLocal(sc.locals, x);
    if r.Some? && sc.depth > 0 {
      InnermostIsLatest(sc, x, r.value);
    }
  }

  lemma InnermostIsLatest(sc: Scope, x: Name, latest: nat)
    requires Settled(sc) && sc.depth > 0 && ResolveLocal(sc.locals, x) == Some(latest)
    ensures forall i :: 0 <= i < |sc.locals| && sc.locals[i].name == x && sc.locals[i].depth == sc.depth ==> i == latest
  {
  }

  lemma SimpleStatementsAccepted(sc: Scope, e: Expr, body: Stmts)
    requires Settled(sc) && Settled(BeginScope(sc))
    ensures GenStmt(ExprStmt(e), sc).Code? <==> GenExpr(e, sc).Code?
    ensures GenStmt(Print(e), sc).Code? <==> GenExpr(e, sc).Code?
    ensures GenStmt(Block(body), sc).Code? <==> GenStmts(body, BeginScope(sc)).Code?
  {
    hide GenExpr, GenStmts, Grows, Settled;
  }

  /** The jumps of an `if` go over its branches, each with a pop, and over the second jump. */
  lemma IfAccepted(sc: Scope, c: Expr, thn: Stmt, els: Option<Stmt>)
    requires Settled(sc)
    ensures GenStmt(If(c, thn, els), sc).Code? <==>
      && GenExpr(c, sc).Code? && Settled(GenExpr(c, sc).scope)
      && var yes := GenStmt(thn, GenExpr(c, sc).scope);
      && yes.Code? && 1 + |yes.bytes| + 3 <= 0xFFFF
      && var no := GenOptional(els, yes.scope);
      no.Code? && 1 + |no.bytes| <= 0xFFFF
  {
    hide GenExpr, GenStmt, GenOptional, Grows, Settled, IfBytes;
    IfUnfolds(sc, c, thn, els);
    var test := GenExpr(c, sc);
    if test.Code? {
      AfterExpr(sc, test.scope);
    }
  }

  lemma IfUnfolds(sc: Scope, c: Expr, thn: Stmt, els: Option<Stmt>)
    requires Settled(sc)
    ensures GenStmt(If(c, thn, els), sc) == GenIf(c, thn, els, sc)
    ensures GenStmt(While(c, thn), sc) == GenLoop(Some(c), None, thn, sc)
  {
    hide GenIf, GenLoop, Grows, Settled;
  }

  /** What the parts of a loop must be for its jumps to fit: out of the loop, over the increment
      with its pop and its jump, back to the test, and back to the increment or the test. */
  predicate LoopFits(test: Option<nat>, incr: Option<nat>, body: nat) {
    var t := if test.Some? then test.value + 4 else 0;
    var i := if incr.Some? then incr.value + 7 else 0;
    && (test.Some? ==> 1 + i + body + 3 <= 0xFFFF)
    && (incr.Some? ==> incr.value + 4 <= 0xFFFF && t + i <= 0xFFFF)
    && (if incr.Some? then incr.value + 4 else t) + body + 3 <= 0xFFFF
  }

  function Size(e: Option<Expr>, g: Gen): Option<nat>
    requires g.Code?
  {
    if e.Some? then Some(|g.bytes|) else None
  }

  lemma LoopAccepted(sc: Scope, cond: Option<Expr>, incr: Option<Expr>, loop: Stmt)
    requires Settled(sc)
    ensures GenLoop(cond, incr, loop, sc).Code? <==>
      && GenOpt(cond, sc).Code?
      && var test := GenOpt(cond, sc);
      && GenOpt(incr, test.scope).Code?
      && var step := GenOpt(incr, test.scope);
      && Settled(step.scope) && GenStmt(loop, step.scope).Code?
      && LoopFits(Size(cond, test), Size(incr, step), |GenStmt(loop, step.scope).bytes|)
  {
    hide GenOpt, GenStmt, Grows, Settled, LoopBytes;
    var test := GenOpt(cond, sc);
    if test.Code? && GenOpt(incr, test.scope).Code? {
      GrowsTwice(sc, test.scope, GenOpt(incr, test.scope).scope);
      AfterExpr(sc, GenOpt(incr, test.scope).scope);
    }
  }

  lemma GrowsTwice(sc: Scope, sc1: Scope, sc2: Scope)
    requires Grows(sc, sc1) && Grows(sc1, sc2)
    ensures Grows(sc, sc2)
  {
  }

  lemma ForAccepted(sc: Scope, first: Option<Stmt>, cond: Option<Expr>, incr: Option<Expr>, loop: Stmt)
    requires Settled(sc) && Settled(BeginScope(sc))
    ensures GenStmt(For(first, cond, incr, loop), sc).Code? <==>
      && GenOptional(first, BeginScope(sc)).Code?
      && GenLoop(cond, incr, loop, GenOptional(first, BeginScope(sc)).scope).Code?
    ensures GenStmt(While(if cond.Some? then cond.value else NilLit, loop), sc).Code? <==>
      GenLoop(Some(if cond.Some? then cond.value else NilLit), None, loop, sc).Code?
  {
    hide GenOptional, GenLoop, Grows, Settled;
  }

  /** One statement after the other. */
  lemma SequenceAccepted(sc: Scope, s: Stmt, rest: Stmts)
    requires Settled(sc)
    ensures GenStmts(Empty, sc).Code?
    ensures GenStmts(Cons(s, rest), sc).Code? <==> GenStmt(s, sc).Code? && GenStmts(rest, GenStmt(s, sc).scope).Code?
  {
    hide GenStmt, Grows, Settled;
  }
}
