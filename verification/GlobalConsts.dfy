/** Which globals the compiler lets a program assign: a global is constant if the last
    declaration of its name outside of all blocks was `const`. */
module GlobalConsts {
  import opened Values
  import opened Syntax
  import opened Bytecode
  import opened Codegen
  import opened ConstMarks
  import Parser
  import Script

  /** The table marks the global of that name as constant. */
  function Marked(globals: seq<Global>, x: string): bool {
    var a := FindGlobal(globals, x);
    a.Some? && globals[a.value].readonly
  }

  lemma MarkedIsIn(globals: seq<Global>, x: string)
    requires OneAddress(globals)
    ensures Marked(globals, x) <==> Global(x, true) in globals
  {
    if Global(x, true) in globals {
      var i :| 0 <= i < |globals| && globals[i] == Global(x, true);
      assert FindGlobal(globals, x) == Some(i);
    }
  }

  // ----- the mark of a global, from the text alone -----

  /** What the declarations of x in a statement do to the global x: outside of all blocks they
      mark it, and in a block they hide it up to the end of the block. */
  function Regard(s: Stmt, x: string, outside: bool, m: Mark): Mark {
    match s
    case VarDecl(readonly, y, _) =>
      if y != x then m else if outside then Mark(readonly, m.hidden) else Mark(m.readonly, true)
    case Block(body) => Mark(RegardAll(body, x, false, m).readonly, m.hidden)
    case If(_, thn, els) => RegardOpt(els, x, outside, Regard(thn, x, outside, m))
    case While(_, loop) => Regard(loop, x, outside, m)
    case For(first, _, _, loop) => Mark(Regard(loop, x, false, RegardOpt(first, x, false, m)).readonly, m.hidden)
    case _ => m
  }

  function RegardOpt(s: Option<Stmt>, x: string, outside: bool, m: Mark): Mark {
    if s.Some? then Regard(s.value, x, outside, m) else m
  }

  function RegardAll(ss: Stmts, x: string, outside: bool, m: Mark): Mark {
    match ss
    case Empty => m
    case Cons(s, rest) => RegardAll(rest, x, outside, Regard(s, x, outside, m))
  }

  /** The compiler's tables say the same. */
  ghost predicate Agrees(sc: Scope, x: string, m: Mark) {
    (Marked(sc.globals, x) <==> m.readonly) && (ResolveLocal(sc.locals, x).Some? <==> m.hidden)
  }

  // ----- expressions -----

  /** A global that has an address keeps it, and no mark changes. */
  ghost predicate MarksKept(globals: seq<Global>, globals1: seq<Global>, x: string) {
    && (FindGlobal(globals, x).Some? ==> FindGlobal(globals1, x) == FindGlobal(globals, x))
    && (Marked(globals1, x) <==> Marked(globals, x))
  }

  lemma MakeKeepsMarks(globals: seq<Global>, y: string, x: string)
    ensures MarksKept(globals, MakeGlobal(globals, y).0, x)
    ensures FindGlobal(MakeGlobal(globals, y).0, y) == Some(MakeGlobal(globals, y).1)
  {
    assert (globals + [Global(y, false)])[..|globals|] == globals;
  }

  lemma KeptTwice(globals: seq<Global>, globals1: seq<Global>, globals2: seq<Global>, x: string)
    requires MarksKept(globals, globals1, x) && MarksKept(globals1, globals2, x)
    ensures MarksKept(globals, globals2, x)
  {
  }

  lemma ResolveKeepsMarks(sc: Scope, y: string, x: string)
    requires Resolve(sc, y).Some?
    ensures MarksKept(sc.globals, Resolve(sc, y).value.scope.globals, x)
  {
    hide FindGlobal;
    MakeKeepsMarks(sc.globals, y, x);
  }

  /** Expressions mark nothing. */
  lemma {:induction false} ExprKeepsMarks(e: Expr, sc: Scope, x: string)
    requires GenExpr(e, sc).Code?
    ensures MarksKept(sc.globals, GenExpr(e, sc).scope.globals, x)
    decreases e, 2
  {
    hide GenBinary, GenAnd, GenOr, GenAssign, EmitAddress, EmitPlain, Grows, FindGlobal, Resolve;
    match e
    case Var(y) => ResolveKeepsMarks(sc, y, x);
    case Assign(y, e1) => AssignKeepsMarks(y, e1, sc, x);
    case Unary(_, e1) => ExprKeepsMarks(e1, sc, x);
    case Binary(op, l, r) => BinaryKeepsMarks(op, l, r, sc, x);
    case And(l, r) => AndKeepsMarks(l, r, sc, x);
    case Or(l, r) => OrKeepsMarks(l, r, sc, x);
    case Group(e1) => ExprKeepsMarks(e1, sc, x);
    case _ =>
  }

  lemma {:induction false} AssignKeepsMarks(y: Name, e: Expr, sc: Scope, x: string)
    requires GenAssign(y, e, sc).Code?
    ensures MarksKept(sc.globals, GenAssign(y, e, sc).scope.globals, x)
    decreases Assign(y, e), 0
  {
    hide GenExpr, EmitAddress, Grows, FindGlobal, Resolve, MarksKept;
    var sc1 := Resolve(sc, y).value.scope;
    ResolveKeepsMarks(sc, y, x);
    ExprKeepsMarks(e, sc1, x);
    KeptTwice(sc.globals, sc1.globals, GenExpr(e, sc1).scope.globals, x);
  }

  lemma {:induction false} PairKeepsMarks(l: Expr, r: Expr, sc: Scope, x: string, whole: Expr)
    requires l < whole && r < whole
    requires GenExpr(l, sc).Code? && GenExpr(r, GenExpr(l, sc).scope).Code?
    ensures MarksKept(sc.globals, GenExpr(r, GenExpr(l, sc).scope).scope.globals, x)
    decreases whole, 0
  {
    hide GenExpr, MarksKept, Grows;
    var sc1 := GenExpr(l, sc).scope;
    ExprKeepsMarks(l, sc, x);
    ExprKeepsMarks(r, sc1, x);
    KeptTwice(sc.globals, sc1.globals, GenExpr(r, sc1).scope.globals, x);
  }

  lemma {:induction false} BinaryKeepsMarks(op: BinaryOp, l: Expr, r: Expr, sc: Scope, x: string)
    requires GenBinary(op, l, r, sc).Code?
    ensures MarksKept(sc.globals, GenBinary(op, l, r, sc).scope.globals, x)
    decreases Binary(op, l, r), 1
  {
    hide GenExpr, MarksKept, Grows;
    PairKeepsMarks(l, r, sc, x, Binary(op, l, r));
  }

  lemma {:induction false} AndKeepsMarks(l: Expr, r: Expr, sc: Scope, x: string)
    requires GenAnd(l, r, sc).Code?
    ensures MarksKept(sc.globals, GenAnd(l, r, sc).scope.globals, x)
    decreases And(l, r), 1
  {
    hide GenExpr, MarksKept, Grows;
    PairKeepsMarks(l, r, sc, x, And(l, r));
  }

  lemma {:induction false} OrKeepsMarks(l: Expr, r: Expr, sc: Scope, x: string)
    requires GenOr(l, r, sc).Code?
    ensures MarksKept(sc.globals, GenOr(l, r, sc).scope.globals, x)
    decreases Or(l, r), 1
  {
    hide GenExpr, MarksKept, Grows;
    PairKeepsMarks(l, r, sc, x, Or(l, r));
  }

  lemma OptKeepsMarks(e: Option<Expr>, sc: Scope, x: string)
    requires GenOpt(e, sc).Code?
    ensures MarksKept(sc.globals, GenOpt(e, sc).scope.globals, x)
  {
    hide GenExpr;
    if e.Some? {
      ExprKeepsMarks(e.value, sc, x);
    }
  }

  lemma AgreesAfter(sc: Scope, sc1: Scope, x: string, m: Mark)
    requires Agrees(sc, x, m) && MarksKept(sc.globals, sc1.globals, x) && sc1.locals == sc.locals
    ensures Agrees(sc1, x, m)
  {
  }

  // ----- statements -----

  lemma InitKeepsMarks(init: Option<Expr>, sc: Scope, x: string)
    requires GenInit(init, sc).Code?
    ensures MarksKept(sc.globals, GenInit(init, sc).scope.globals, x)
  {
    hide GenExpr;
    if init.Some? {
      ExprKeepsMarks(init.value, sc, x);
    }
  }

  lemma {:induction false} FindByNames(globals: seq<Global>, globals1: seq<Global>, x: string)
    requires |globals| == |globals1| && forall i :: 0 <= i < |globals| ==> globals[i].name == globals1[i].name
    ensures FindGlobal(globals, x) == FindGlobal(globals1, x)
    decreases |globals|
  {
    if globals != [] {
      FindByNames(globals[..|globals| - 1], globals1[..|globals| - 1], x);
    }
  }

  lemma GlobalVarAgrees(readonly: bool, y: Name, init: Option<Expr>, sc: Scope, x: string, m: Mark)
    requires Settled(sc) && sc.depth == 0 && GenGlobalVar(readonly, y, init, sc).Code? && Agrees(sc, x, m)
    ensures Agrees(GenGlobalVar(readonly, y, init, sc).scope, x, if y == x then Mark(readonly, m.hidden) else m)
  {
    hide GenInit, FindGlobal, EmitAddress, Grows, Settled, MakeGlobal;
    var (globals, addr) := MakeGlobal(sc.globals, y);
    MakeKeepsMarks(sc.globals, y, x);
    var g := GenInit(init, sc.(globals := globals));
    InitKeepsMarks(init, sc.(globals := globals), x);
    InitKeepsMarks(init, sc.(globals := globals), y);
    var marked := g.scope.globals[addr := g.scope.globals[addr].(readonly := readonly)];
    FindByNames(g.scope.globals, marked, x);
  }

  lemma LocalVarAgrees(readonly: bool, y: Name, init: Option<Expr>, sc: Scope, x: string, m: Mark)
    requires Settled(sc) && sc.depth > 0 && GenLocalVar(readonly, y, init, sc).Code? && Agrees(sc, x, m)
    ensures Agrees(GenLocalVar(readonly, y, init, sc).scope, x, if y == x then Mark(m.readonly, true) else m)
  {
    hide GenInit, FindGlobal, Grows, ResolveLocal;
    ConstMarkExact(readonly, y, init, sc);
    InitKeepsMarks(init, DeclareLocal(sc, y).value, x);
    if y != x {
      OthersMarked(readonly, y, init, sc, x);
    }
  }

  lemma VarAgrees(readonly: bool, y: Name, init: Option<Expr>, sc: Scope, x: string, m: Mark)
    requires Settled(sc) && GenVar(readonly, y, init, sc).Code? && Agrees(sc, x, m)
    ensures Agrees(GenVar(readonly, y, init, sc).scope, x, Regard(VarDecl(readonly, y, init), x, sc.depth == 0, m))
  {
    hide GenGlobalVar, GenLocalVar, Agrees, Settled, Grows;
    if sc.depth == 0 {
      GlobalVarAgrees(readonly, y, init, sc, x, m);
    } else {
      LocalVarAgrees(readonly, y, init, sc, x, m);
    }
  }

  /** At the end of a block the global is as hidden as it was before. */
  lemma AgreesOutside(sc: Scope, sc1: Scope, x: string, m: Mark, m1: Mark)
    requires Settled(sc) && After(BeginScope(sc), sc1) && Agrees(sc, x, m) && Agrees(sc1, x, m1)
    ensures Agrees(EndScope(sc1).scope, x, Mark(m1.readonly, m.hidden))
  {
    hide Grows, Settled, ResolveLocal, FindGlobal;
    ScopeClosed(sc, sc1);
    ResolveByNames(sc.locals, EndScope(sc1).scope.locals, x);
  }

  /** The mark of every global after every statement is what the text says. */
  lemma {:induction false} StmtAgrees(s: Stmt, sc: Scope, x: string, m: Mark)
    requires Settled(sc) && GenStmt(s, sc).Code? && Agrees(sc, x, m)
    ensures Agrees(GenStmt(s, sc).scope, x, Regard(s, x, sc.depth == 0, m))
    decreases s, 2
  {
    hide GenExpr, GenVar, GenIf, GenLoop, GenFor, GenStmts, Settled, Agrees, MarksKept, EndScope;
    match s
    case ExprStmt(e) =>
      ExprKeepsMarks(e, sc, x);
      AgreesAfter(sc, GenExpr(e, sc).scope, x, m);
    case Print(e) =>
      ExprKeepsMarks(e, sc, x);
      AgreesAfter(sc, GenExpr(e, sc).scope, x, m);
    case VarDecl(readonly, y, init) => VarAgrees(readonly, y, init, sc, x, m);
    case Block(body) =>
      EnterAgrees(sc, x, m);
      StmtsAgree(body, BeginScope(sc), x, m);
      AgreesOutside(sc, GenStmts(body, BeginScope(sc)).scope, x, m, RegardAll(body, x, false, m));
    case If(c, thn, els) => IfAgrees(c, thn, els, sc, x, m);
    case While(c, loop) => LoopAgrees(Some(c), None, loop, sc, x, m);
    case For(first, cond, incr, loop) =>
      EnterAgrees(sc, x, m);
      ForAgrees(first, cond, incr, loop, BeginScope(sc), x, m);
      AgreesOutside(sc, GenFor(first, cond, incr, loop, BeginScope(sc)).scope, x, m,
        Regard(loop, x, false, RegardOpt(first, x, false, m)));
  }

  lemma EnterAgrees(sc: Scope, x: string, m: Mark)
    requires Settled(sc) && Agrees(sc, x, m)
    ensures Settled(BeginScope(sc)) && Agrees(BeginScope(sc), x, m)
  {
    hide Agrees;
    ConstMarks.ScopeSettled(sc);
    KeptSame(sc.globals, x);
    AgreesAfter(sc, BeginScope(sc), x, m);
  }

  lemma KeptSame(globals: seq<Global>, x: string)
    ensures MarksKept(globals, globals, x)
  {
  }

  lemma {:induction false} IfAgrees(c: Expr, thn: Stmt, els: Option<Stmt>, sc: Scope, x: string, m: Mark)
    requires Settled(sc) && GenIf(c, thn, els, sc).Code? && Agrees(sc, x, m)
    ensures Agrees(GenIf(c, thn, els, sc).scope, x,
      RegardOpt(els, x, sc.depth == 0, Regard(thn, x, sc.depth == 0, m)))
    decreases If(c, thn, els), 1
  {
    hide GenExpr, GenStmt, GenOptional, Settled, Agrees, MarksKept, IfBytes;
    var test := GenExpr(c, sc);
    AfterExpr(sc, test.scope);
    ExprKeepsMarks(c, sc, x);
    AgreesAfter(sc, test.scope, x, m);
    StmtAgrees(thn, test.scope, x, m);
    OptionalAgrees(els, GenStmt(thn, test.scope).scope, x, Regard(thn, x, sc.depth == 0, m));
  }

  lemma {:induction false} OptionalAgrees(s: Option<Stmt>, sc: Scope, x: string, m: Mark)
    requires Settled(sc) && GenOptional(s, sc).Code? && Agrees(sc, x, m)
    ensures Agrees(GenOptional(s, sc).scope, x, RegardOpt(s, x, sc.depth == 0, m))
    decreases s, 3
  {
    hide GenStmt, Settled, Agrees;
    if s.Some? {
      StmtAgrees(s.value, sc, x, m);
    }
  }

  lemma {:induction false} LoopAgrees(cond: Option<Expr>, incr: Option<Expr>, loop: Stmt, sc: Scope, x: string, m: Mark)
    requires Settled(sc) && GenLoop(cond, incr, loop, sc).Code? && Agrees(sc, x, m)
    ensures Agrees(GenLoop(cond, incr, loop, sc).scope, x, Regard(loop, x, sc.depth == 0, m))
    decreases loop, 3
  {
    hide GenOpt, GenStmt, Settled, Agrees, MarksKept, LoopBytes;
    var test := GenOpt(cond, sc);
    var step := GenOpt(incr, test.scope);
    OptKeepsMarks(cond, sc, x);
    OptKeepsMarks(incr, test.scope, x);
    KeptTwice(sc.globals, test.scope.globals, step.scope.globals, x);
    AfterExpr(sc, step.scope);
    AgreesAfter(sc, step.scope, x, m);
    StmtAgrees(loop, step.scope, x, m);
  }

  lemma {:induction false} ForAgrees(first: Option<Stmt>, cond: Option<Expr>, incr: Option<Expr>, loop: Stmt, sc: Scope,
      x: string, m: Mark)
    requires Settled(sc) && sc.depth > 0 && GenFor(first, cond, incr, loop, sc).Code? && Agrees(sc, x, m)
    ensures Agrees(GenFor(first, cond, incr, loop, sc).scope, x,
      Regard(loop, x, false, RegardOpt(first, x, false, m)))
    decreases For(first, cond, incr, loop), 1
  {
    hide GenOptional, GenLoop, Settled, Agrees;
    OptionalAgrees(first, sc, x, m);
    LoopAgrees(cond, incr, loop, GenOptional(first, sc).scope, x, RegardOpt(first, x, false, m));
  }

  lemma {:induction false} StmtsAgree(ss: Stmts, sc: Scope, x: string, m: Mark)
    requires Settled(sc) && GenStmts(ss, sc).Code? && Agrees(sc, x, m)
    ensures Agrees(GenStmts(ss, sc).scope, x, RegardAll(ss, x, sc.depth == 0, m))
    decreases ss
  {
    hide GenStmt, Settled, Agrees;
    match ss
    case Empty =>
    case Cons(s, rest) =>
      StmtAgrees(s, sc, x, m);
      StmtsAgree(rest, GenStmt(s, sc).scope, x, Regard(s, x, sc.depth == 0, m));
  }

  // ----- every later point -----

  function RegardOnWay(way: seq<Move>, x: string, outside: bool, m: Mark): Mark
    decreases |way|
  {
    if way == [] then m
    else
      match way[0]
      case Past(s) => RegardOnWay(way[1..], x, outside, Regard(s, x, outside, m))
      case PastExpr(_) => RegardOnWay(way[1..], x, outside, m)
      case Enter => RegardOnWay(way[1..], x, false, m)
  }

  lemma {:induction false} WayAgrees(way: seq<Move>, sc: Scope, x: string, m: Mark)
    requires Settled(sc) && Agrees(sc, x, m) && Reached(way, sc).Some?
    ensures Agrees(Reached(way, sc).value, x, RegardOnWay(way, x, sc.depth == 0, m))
    decreases |way|
  {
    hide GenStmt, GenExpr, Settled, Agrees, MarksKept, Regard;
    if way != [] {
      match way[0]
      case Past(s) =>
        StmtAgrees(s, sc, x, m);
        WayAgrees(way[1..], GenStmt(s, sc).scope, x, Regard(s, x, sc.depth == 0, m));
      case PastExpr(e) =>
        AfterExpr(sc, GenExpr(e, sc).scope);
        ExprKeepsMarks(e, sc, x);
        AgreesAfter(sc, GenExpr(e, sc).scope, x, m);
        WayAgrees(way[1..], GenExpr(e, sc).scope, x, m);
      case Enter =>
        EnterAgrees(sc, x, m);
        WayAgrees(way[1..], BeginScope(sc), x, m);
    }
  }

  /** The tables in which the right-hand side is compiled: the name has its address first. */
  function Named(sc: Scope, x: string): Scope {
    sc.(globals := MakeGlobal(sc.globals, x).0)
  }

  lemma GlobalMarkDecides(x: Name, e: Expr, sc: Scope)
    requires ResolveLocal(sc.locals, x).None?
    ensures GenExpr(Assign(x, e), sc).Code? <==> !Marked(sc.globals, x) && GenExpr(e, Named(sc, x)).Code?
  {
    hide GenExpr, FindGlobal;
    AssignUnfolds(x, e, sc);
    MakeKeepsMarks(sc.globals, x, x);
  }

  /** At every point of a script, from whatever table it started with: where no local hides the
      name, an assignment to a global compiles exactly when its right-hand side does and the
      last declaration of the name on the way, outside of all blocks, was `var` or, if there is
      none, the table did not mark it as constant. */
  lemma GlobalAssignableExact(globals: seq<Global>, way: seq<Move>, x: Name, e: Expr)
    requires Settled(ScriptScope(globals)) && Reached(way, ScriptScope(globals)).Some?
    ensures var sc := Reached(way, ScriptScope(globals)).value;
      var m := RegardOnWay(way, x, true, Mark(Marked(globals, x), false));
      && (ResolveLocal(sc.locals, x).None? <==> !m.hidden)
      && (!m.hidden ==> (GenExpr(Assign(x, e), sc).Code? <==> !m.readonly && GenExpr(e, Named(sc, x)).Code?))
  {
    hide GenExpr, Grows, RegardOnWay, Regard, Reached, FindGlobal;
    var m := Mark(Marked(globals, x), false);
    StartAgrees(globals, x);
    WayAgrees(way, ScriptScope(globals), x, m);
    var sc := Reached(way, ScriptScope(globals)).value;
    if ResolveLocal(sc.locals, x).None? {
      GlobalMarkDecides(x, e, sc);
    }
  }

  lemma StartAgrees(globals: seq<Global>, x: Name)
    ensures Agrees(ScriptScope(globals), x, Mark(Marked(globals, x), false))
  {
  }

  /** The same inside the initializer of a local y, which may hide x, and of a global y. */
  lemma GlobalAssignableInInitializer(x: Name, y: string, sc: Scope, e: Expr)
    requires Settled(sc) && ResolveLocal(sc.locals, x).None?
    ensures DeclareLocal(sc, y).Some? ==> var sc1 := DeclareLocal(sc, y).value;
      GenExpr(Assign(x, e), sc1).Code? <==>
        y != x && !Marked(sc.globals, x) && GenExpr(e, Named(sc1, x)).Code?
    ensures GenExpr(Assign(x, e), Named(sc, y)).Code? <==>
      !Marked(sc.globals, x) && GenExpr(e, Named(Named(sc, y), x)).Code?
  {
    hide GenExpr, FindGlobal;
    if DeclareLocal(sc, y).Some? {
      var sc1 := DeclareLocal(sc, y).value;
      assert sc1.locals[..|sc.locals|] == sc.locals;
      AssignUnfolds(x, e, sc1);
      if y != x {
        GlobalMarkDecides(x, e, sc1);
      }
    }
    MakeKeepsMarks(sc.globals, y, x);
    GlobalMarkDecides(x, e, Named(sc, y));
  }

  // ----- a script -----

  /** D x; x = nil; where D is `const` or `var`. */
  function DeclaringTokens(x: Name, readonly: bool): seq<Token> {
    [ConstMarks.Keyword(readonly), TIdentifier(x), TSemicolon] + [TIdentifier(x), TEqual, TNil, TSemicolon]
  }

  function Declaring(x: Name, readonly: bool): Stmts {
    Cons(VarDecl(readonly, x, None), Cons(ExprStmt(Assign(x, NilLit)), Empty))
  }

  lemma DeclaringParses(x: Name, readonly: bool)
    ensures Parser.Program(DeclaringTokens(x, readonly)) == Some(Declaring(x, readonly))
  {
    hide Parser.Program;
    var last := Cons(ExprStmt(Assign(x, NilLit)), Empty);
    assert SpellStmts(last, []) == [TIdentifier(x), TEqual, TNil, TSemicolon] by {
      assert Spell(NilLit, [TSemicolon]) == [TNil, TSemicolon];
      assert [TSemicolon] + [] == [TSemicolon];
    }
    DeclarationSpelt(readonly, x, SpellStmts(last, []));
    assert SpellStmts(Declaring(x, readonly), []) == DeclaringTokens(x, readonly);
    assert WellFormed(NilLit) && WellFormed(Assign(x, NilLit)) && WellFormedStmts(last);
    assert WellFormedStmts(Declaring(x, readonly));
    Parser.ProgramComplete(Declaring(x, readonly));
  }

  /** Whatever the table said before, the script D x; x = nil; compiles exactly when D is
      `var`. */
  lemma DeclarationDecides(x: Name, readonly: bool, globals: seq<Global>)
    ensures Script.Compiled(DeclaringTokens(x, readonly), globals).Code? <==> !readonly
  {
    hide GenStmt, GenExpr, DeclaringTokens, Grows, Settled, Reached, RegardOnWay, Parser.Program, Named, Marked;
    DeclaringParses(x, readonly);
    ConstMarks.ScriptSettled(globals);
    var sc := ScriptScope(globals);
    var decl, assign := VarDecl(readonly, x, None), ExprStmt(Assign(x, NilLit));
    GlobalDeclares(x, readonly, sc);
    var sc1 := GenStmt(decl, sc).scope;
    var m := Mark(Marked(globals, x), false);
    PastDeclaration(decl, sc, x, m);
    GlobalAssignableExact(globals, [Past(decl)], x, NilLit);
    AssignmentCompiles(assign, sc1);
    assert GenStmts(Cons(assign, Empty), sc1).Code? <==> GenStmt(assign, sc1).Code?;
    NilCompiles(Named(sc1, x));
  }

  lemma NilCompiles(sc: Scope)
    ensures GenExpr(NilLit, sc).Code?
  {
  }

  lemma GlobalDeclares(x: Name, readonly: bool, sc: Scope)
    requires Settled(sc) && sc.depth == 0
    ensures GenStmt(VarDecl(readonly, x, None), sc).Code?
  {
    hide Grows, Settled;
  }

  lemma PastDeclaration(s: Stmt, sc: Scope, x: string, m: Mark)
    requires Settled(sc) && GenStmt(s, sc).Code? && s.VarDecl? && s.name == x
    ensures Reached([Past(s)], sc) == Some(GenStmt(s, sc).scope)
    ensures RegardOnWay([Past(s)], x, true, m) == Mark(s.readonly, m.hidden)
  {
    hide GenStmt, Grows, Settled;
    assert [Past(s)][1..] == [];
  }
}
