/** Which locals the compiler lets a program assign. addresstableAdd returns the address of the
    shadowed local when there is one, and that is the local that gets the mark, so the mark of
    a local is not what it was declared with but what the last declaration under it says. */
module ConstMarks {
  import opened Values
  import opened Syntax
  import opened Codegen
  import Parser
  import Script

  /** After a declaration the name means the new local, which is marked as it was declared
      exactly when it is no constant or shadows nothing. Otherwise the shadowed local has the
      mark. */
  lemma ConstMarkExact(readonly: bool, x: Name, init: Option<Expr>, sc: Scope)
    requires Settled(sc) && sc.depth > 0 && GenLocalVar(readonly, x, init, sc).Code?
    ensures var locals := GenLocalVar(readonly, x, init, sc).scope.locals;
      var slot := |sc.locals|;
      && ResolveLocal(locals, x) == Some(slot)
      && (locals[slot].readonly == readonly <==> !readonly || ResolveLocal(sc.locals, x).None?)
      && (ResolveLocal(sc.locals, x).Some? ==> locals[ResolveLocal(sc.locals, x).value].readonly == readonly)
  {
    hide GenInit, Grows;
  }

  // ----- the mark of a local, from the text alone -----

  /** A local of some name: whether it may be assigned, and whether the name means another. */
  datatype Mark = Mark(readonly: bool, hidden: bool)

  /** What the declarations of x in a statement do to a local x from before it. The local gets
      the mark of each of them that it is not hidden from, and each hides it up to the end of
      its block. */
  function Remark(s: Stmt, x: string, m: Mark): Mark {
    match s
    case VarDecl(readonly, y, _) => if y == x && !m.hidden then Mark(readonly, true) else m
    case Block(body) => Mark(RemarkAll(body, x, m).readonly, m.hidden)
    case If(_, thn, els) => RemarkOpt(els, x, Remark(thn, x, m))
    case While(_, loop) => Remark(loop, x, m)
    case For(first, _, _, loop) => Mark(Remark(loop, x, RemarkOpt(first, x, m)).readonly, m.hidden)
    case _ => m
  }

  function RemarkOpt(s: Option<Stmt>, x: string, m: Mark): Mark {
    if s.Some? then Remark(s.value, x, m) else m
  }

  function RemarkAll(ss: Stmts, x: string, m: Mark): Mark {
    match ss
    case Empty => m
    case Cons(s, rest) => RemarkAll(rest, x, Remark(s, x, m))
  }

  /** In the compiler's tables, local i has that name and mark. */
  ghost predicate Shows(sc: Scope, i: nat, x: string, m: Mark) {
    && i < |sc.locals| && sc.locals[i].name == x && sc.locals[i].readonly == m.readonly
    && (ResolveLocal(sc.locals, x) == Some(i) <==> !m.hidden)
  }

  lemma {:induction false} ResolveByNames(locals: seq<Local>, locals1: seq<Local>, x: string)
    requires |locals| == |locals1| && forall i :: 0 <= i < |locals| ==> locals[i].name == locals1[i].name
    ensures ResolveLocal(locals, x) == ResolveLocal(locals1, x)
    decreases |locals|
  {
    if locals != [] {
      ResolveByNames(locals[..|locals| - 1], locals1[..|locals| - 1], x);
    }
  }

  /** At the end of a block the local is as hidden as it was before. */
  lemma ShowsOutside(sc: Scope, sc1: Scope, i: nat, x: string, m: Mark, m1: Mark)
    requires Settled(sc) && After(BeginScope(sc), sc1) && Shows(sc, i, x, m) && Shows(sc1, i, x, m1)
    ensures Shows(EndScope(sc1).scope, i, x, Mark(m1.readonly, m.hidden))
  {
    hide Grows, Settled, ResolveLocal;
    ScopeClosed(sc, sc1);
    ResolveByNames(sc.locals, EndScope(sc1).scope.locals, x);
  }

  lemma ScopeSettled(sc: Scope)
    requires Settled(sc)
    ensures Settled(BeginScope(sc))
  {
  }

  /** The mark of every local after every statement is what the text says. */
  lemma {:induction false} StmtMarks(s: Stmt, sc: Scope, i: nat, x: string, m: Mark)
    requires Settled(sc) && GenStmt(s, sc).Code? && Shows(sc, i, x, m)
    ensures Shows(GenStmt(s, sc).scope, i, x, Remark(s, x, m))
    decreases s, 2
  {
    hide GenExpr, GenVar, GenIf, GenLoop, GenFor, GenStmts, Settled, Shows, Grows;
    match s
    case ExprStmt(e) => SameLocals(sc, GenExpr(e, sc).scope, i, x, m);
    case Print(e) => SameLocals(sc, GenExpr(e, sc).scope, i, x, m);
    case VarDecl(readonly, y, init) => VarMarks(readonly, y, init, sc, i, x, m);
    case Block(body) =>
      ScopeSettled(sc);
      SameLocals(sc, BeginScope(sc), i, x, m);
      StmtsMarks(body, BeginScope(sc), i, x, m);
      ShowsOutside(sc, GenStmts(body, BeginScope(sc)).scope, i, x, m, RemarkAll(body, x, m));
    case If(c, thn, els) => IfMarks(c, thn, els, sc, i, x, m);
    case While(c, loop) => LoopMarks(Some(c), None, loop, sc, i, x, m);
    case For(first, cond, incr, loop) =>
      ScopeSettled(sc);
      SameLocals(sc, BeginScope(sc), i, x, m);
      ForMarks(first, cond, incr, loop, BeginScope(sc), i, x, m);
      ShowsOutside(sc, GenFor(first, cond, incr, loop, BeginScope(sc)).scope, i, x, m, Remark(loop, x,
          RemarkOpt(first, x, m)));
  }

  lemma SameLocals(sc: Scope, sc1: Scope, i: nat, x: string, m: Mark)
    requires Shows(sc, i, x, m) && sc1.locals == sc.locals
    ensures Shows(sc1, i, x, m)
  {
  }

  lemma VarMarks(readonly: bool, y: Name, init: Option<Expr>, sc: Scope, i: nat, x: string, m: Mark)
    requires Settled(sc) && GenVar(readonly, y, init, sc).Code? && Shows(sc, i, x, m)
    ensures Shows(GenVar(readonly, y, init, sc).scope, i, x, Remark(VarDecl(readonly, y, init), x, m))
  {
    hide GenLocalVar, GenInit, Grows, Settled, ResolveLocal;
    if sc.depth == 0 {
      GlobalNames(sc, y, i);
      SameLocals(sc, GenVar(readonly, y, init, sc).scope, i, x, m);
    } else {
      ConstMarkExact(readonly, y, init, sc);
      OneMarked(readonly, y, init, sc);
      if y != x {
        OthersMarked(readonly, y, init, sc, x);
      }
    }
  }

  /** Outside of all blocks the only local is the script, which no declaration can name. */
  lemma GlobalNames(sc: Scope, y: Name, i: nat)
    requires Settled(sc) && sc.depth == 0 && i < |sc.locals|
    ensures sc.locals[i].name != y
  {
  }

  /** A declaration changes the mark of no local but the one that it shadows. */
  lemma OneMarked(readonly: bool, y: Name, init: Option<Expr>, sc: Scope)
    requires Settled(sc) && sc.depth > 0 && GenLocalVar(readonly, y, init, sc).Code?
    ensures var locals := GenLocalVar(readonly, y, init, sc).scope.locals;
      && |locals| == |sc.locals| + 1
      && forall j :: 0 <= j < |sc.locals| ==>
        locals[j].name == sc.locals[j].name && (ResolveLocal(sc.locals, y) != Some(j) ==> locals[j] == sc.locals[j])
  {
    hide GenInit, Grows;
  }

  lemma OthersMarked(readonly: bool, y: Name, init: Option<Expr>, sc: Scope, x: string)
    requires Settled(sc) && sc.depth > 0 && GenLocalVar(readonly, y, init, sc).Code? && y != x
    ensures ResolveLocal(GenLocalVar(readonly, y, init, sc).scope.locals, x) == ResolveLocal(sc.locals, x)
  {
    hide GenInit, Grows;
    var locals := GenLocalVar(readonly, y, init, sc).scope.locals;
    ResolveByNames(sc.locals, locals[..|sc.locals|], x);
  }

  lemma {:induction false} IfMarks(c: Expr, thn: Stmt, els: Option<Stmt>, sc: Scope, i: nat, x: string, m: Mark)
    requires Settled(sc) && GenIf(c, thn, els, sc).Code? && Shows(sc, i, x, m)
    ensures Shows(GenIf(c, thn, els, sc).scope, i, x, RemarkOpt(els, x, Remark(thn, x, m)))
    decreases If(c, thn, els), 1
  {
    hide GenExpr, GenStmt, GenOptional, Settled, Shows, Grows, IfBytes;
    var test := GenExpr(c, sc);
    AfterExpr(sc, test.scope);
    SameLocals(sc, test.scope, i, x, m);
    StmtMarks(thn, test.scope, i, x, m);
    OptionalMarks(els, GenStmt(thn, test.scope).scope, i, x, Remark(thn, x, m));
  }

  lemma {:induction false} OptionalMarks(s: Option<Stmt>, sc: Scope, i: nat, x: string, m: Mark)
    requires Settled(sc) && GenOptional(s, sc).Code? && Shows(sc, i, x, m)
    ensures Shows(GenOptional(s, sc).scope, i, x, RemarkOpt(s, x, m))
    decreases s, 3
  {
    hide GenStmt, Settled, Shows;
    if s.Some? {
      StmtMarks(s.value, sc, i, x, m);
    }
  }

  lemma {:induction false} LoopMarks(cond: Option<Expr>, incr: Option<Expr>, loop: Stmt, sc: Scope, i: nat, x: string,
      m: Mark)
    requires Settled(sc) && GenLoop(cond, incr, loop, sc).Code? && Shows(sc, i, x, m)
    ensures Shows(GenLoop(cond, incr, loop, sc).scope, i, x, Remark(loop, x, m))
    decreases loop, 3
  {
    hide GenOpt, GenStmt, Settled, Shows, LoopBytes;
    var test := GenOpt(cond, sc);
    var step := GenOpt(incr, test.scope);
    AfterExpr(sc, step.scope);
    SameLocals(sc, step.scope, i, x, m);
    StmtMarks(loop, step.scope, i, x, m);
  }

  lemma {:induction false} ForMarks(first: Option<Stmt>, cond: Option<Expr>, incr: Option<Expr>, loop: Stmt, sc: Scope,
      i: nat, x: string, m: Mark)
    requires Settled(sc) && GenFor(first, cond, incr, loop, sc).Code? && Shows(sc, i, x, m)
    ensures Shows(GenFor(first, cond, incr, loop, sc).scope, i, x, Remark(loop, x, RemarkOpt(first, x, m)))
    decreases For(first, cond, incr, loop), 1
  {
    hide GenOptional, GenLoop, Settled, Shows, Grows;
    OptionalMarks(first, sc, i, x, m);
    LoopMarks(cond, incr, loop, GenOptional(first, sc).scope, i, x, RemarkOpt(first, x, m));
  }

  lemma {:induction false} StmtsMarks(ss: Stmts, sc: Scope, i: nat, x: string, m: Mark)
    requires Settled(sc) && GenStmts(ss, sc).Code? && Shows(sc, i, x, m)
    ensures Shows(GenStmts(ss, sc).scope, i, x, RemarkAll(ss, x, m))
    decreases ss
  {
    hide GenStmt, Settled, Shows, Grows;
    match ss
    case Empty =>
    case Cons(s, rest) =>
      StmtMarks(s, sc, i, x, m);
      StmtsMarks(rest, GenStmt(s, sc).scope, i, x, Remark(s, x, m));
  }

  // ----- every later point -----

  /** The way from a declaration to a later point of its scope: past whole statements and
      expressions, and into blocks that are still open there. */
  datatype Move = Past(s: Stmt) | PastExpr(e: Expr) | Enter

  /** The compiler's tables at the end of the way, if nothing on it is rejected. */
  function Reached(way: seq<Move>, sc: Scope): (r: Option<Scope>)
    requires Settled(sc)
    ensures r.Some? ==> Settled(r.value)
    decreases |way|
  {
    if way == [] then Some(sc)
    else
      match way[0]
      case Past(s) =>
        var g := GenStmt(s, sc);
        if g.Code? then Reached(way[1..], g.scope) else None
      case PastExpr(e) =>
        var g := GenExpr(e, sc);
        if g.Rejected? then None else AfterExpr(sc, g.scope); Reached(way[1..], g.scope)
      case Enter => ScopeSettled(sc); Reached(way[1..], BeginScope(sc))
  }

  function RemarkOnWay(way: seq<Move>, x: string, m: Mark): Mark
    decreases |way|
  {
    if way == [] then m
    else if way[0].Past? then RemarkOnWay(way[1..], x, Remark(way[0].s, x, m))
    else RemarkOnWay(way[1..], x, m)
  }

  lemma {:induction false} WayMarks(way: seq<Move>, sc: Scope, i: nat, x: string, m: Mark)
    requires Settled(sc) && Shows(sc, i, x, m) && Reached(way, sc).Some?
    ensures Shows(Reached(way, sc).value, i, x, RemarkOnWay(way, x, m))
    decreases |way|
  {
    hide GenStmt, GenExpr, Settled, Shows, Grows;
    if way != [] {
      match way[0]
      case Past(s) =>
        StmtMarks(s, sc, i, x, m);
        WayMarks(way[1..], GenStmt(s, sc).scope, i, x, Remark(s, x, m));
      case PastExpr(e) =>
        AfterExpr(sc, GenExpr(e, sc).scope);
        SameLocals(sc, GenExpr(e, sc).scope, i, x, m);
        WayMarks(way[1..], GenExpr(e, sc).scope, i, x, m);
      case Enter =>
        ScopeSettled(sc);
        SameLocals(sc, BeginScope(sc), i, x, m);
        WayMarks(way[1..], BeginScope(sc), i, x, m);
    }
  }

  /** The mark of a local right after its declaration. */
  function Declared(readonly: bool, x: string, sc: Scope): Mark {
    Mark(readonly && ResolveLocal(sc.locals, x).None?, false)
  }

  lemma MarkDecides(x: Name, e: Expr, sc: Scope)
    requires var i := ResolveLocal(sc.locals, x); i.Some? && sc.locals[i.value].depth != -1
    ensures GenExpr(Assign(x, e), sc).Code? <==>
      !sc.locals[ResolveLocal(sc.locals, x).value].readonly && GenExpr(e, sc).Code?
  {
    AssignUnfolds(x, e, sc);
  }

  /** Wherever the name still means the local, an assignment to it compiles exactly when its
      mark does not forbid it: the mark of the last declaration on the way that shadows the
      local itself or, if there is none, that of its own declaration, unless that shadows
      another local. So a constant is protected, and a variable can be assigned, exactly at
      the points where that mark is the declared one. */
  lemma AssignableExact(readonly: bool, x: Name, init: Option<Expr>, sc: Scope, way: seq<Move>, e: Expr)
    requires Settled(sc) && sc.depth > 0 && GenLocalVar(readonly, x, init, sc).Code?
    requires Reached(way, GenLocalVar(readonly, x, init, sc).scope).Some?
    ensures var sc1 := Reached(way, GenLocalVar(readonly, x, init, sc).scope).value;
      var m := RemarkOnWay(way, x, Declared(readonly, x, sc));
      && (ResolveLocal(sc1.locals, x) == Some(|sc.locals|) <==> !m.hidden)
      && (!m.hidden ==> (GenExpr(Assign(x, e), sc1).Code? <==> !m.readonly && GenExpr(e, sc1).Code?))
  {
    hide GenLocalVar, GenExpr, Grows, RemarkOnWay, Remark, Reached;
    var sc0 := GenLocalVar(readonly, x, init, sc).scope;
    ConstMarkExact(readonly, x, init, sc);
    WayMarks(way, sc0, |sc.locals|, x, Declared(readonly, x, sc));
    var sc1 := Reached(way, sc0).value;
    if ResolveLocal(sc1.locals, x) == Some(|sc.locals|) {
      MarkDecides(x, e, sc1);
    }
  }

  /** The same inside the initializer of another local y, which hides x only if it is called
      x itself, and then the assignment is an error. */
  lemma AssignableInInitializer(x: Name, y: string, sc: Scope, e: Expr)
    requires Settled(sc) && ResolveLocal(sc.locals, x).Some? && DeclareLocal(sc, y).Some?
    ensures var sc1 := DeclareLocal(sc, y).value;
      GenExpr(Assign(x, e), sc1).Code? <==>
        y != x && !sc.locals[ResolveLocal(sc.locals, x).value].readonly && GenExpr(e, sc1).Code?
  {
    hide GenExpr;
    var sc1 := DeclareLocal(sc, y).value;
    assert sc1.locals[..|sc.locals|] == sc.locals;
    AssignUnfolds(x, e, sc1);
    if y != x {
      MarkDecides(x, e, sc1);
    }
  }

  // ----- the mark of another declaration -----

  /** { first x; { second x; } x = nil; } where first and second are `const` or `var`. */
  function Redeclaring(x: Name, first: bool, second: bool): Stmts {
    var inner := Block(Cons(VarDecl(second, x, None), Empty));
    Cons(Block(Cons(VarDecl(first, x, None), Cons(inner, Cons(ExprStmt(Assign(x, NilLit)), Empty)))), Empty)
  }

  function Keyword(readonly: bool): Token {
    if readonly then TConst else TVar
  }

  function RedeclaringTokens(x: Name, first: bool, second: bool): seq<Token> {
    [TLeftBrace, Keyword(first), TIdentifier(x), TSemicolon]
    + [TLeftBrace, Keyword(second), TIdentifier(x), TSemicolon, TRightBrace]
    + [TIdentifier(x), TEqual, TNil, TSemicolon, TRightBrace]
  }

  lemma RedeclaringParses(x: Name, first: bool, second: bool)
    ensures Parser.Program(RedeclaringTokens(x, first, second)) == Some(Redeclaring(x, first, second))
  {
    hide WellFormedStmts, Parser.Program, SpellStmt;
    var rest := Cons(Block(Cons(VarDecl(second, x, None), Empty)), Cons(ExprStmt(Assign(x, NilLit)), Empty));
    var body := Cons(VarDecl(first, x, None), rest);
    AssignmentSpelt(x);
    RestSpelt(x, second);
    DeclarationSpelt(first, x, SpellStmts(rest, [TRightBrace]));
    BlockSpelt(body, []);
    assert SpellStmts(body, [TRightBrace] + []) == RedeclaringTokens(x, first, second)[1..] by {
      assert [TRightBrace] + [] == [TRightBrace];
    }
    assert SpellStmts(Redeclaring(x, first, second), []) == RedeclaringTokens(x, first, second);
    RedeclaringWellFormed(x, first, second);
    Parser.ProgramComplete(Redeclaring(x, first, second));
  }

  lemma AssignmentSpelt(x: Name)
    ensures SpellStmts(Cons(ExprStmt(Assign(x, NilLit)), Empty), [TRightBrace]) ==
      [TIdentifier(x), TEqual, TNil, TSemicolon, TRightBrace]
  {
    assert Spell(NilLit, [TSemicolon, TRightBrace]) == [TNil, TSemicolon, TRightBrace];
    assert Spell(Assign(x, NilLit), [TSemicolon, TRightBrace]) ==
      [TIdentifier(x), TEqual, TNil, TSemicolon, TRightBrace];
    assert [TSemicolon] + [TRightBrace] == [TSemicolon, TRightBrace];
  }

  lemma RestSpelt(x: Name, readonly: bool)
    ensures var assign := Cons(ExprStmt(Assign(x, NilLit)), Empty);
      SpellStmts(Cons(Block(Cons(VarDecl(readonly, x, None), Empty)), assign), [TRightBrace])
        == [TLeftBrace, Keyword(readonly), TIdentifier(x), TSemicolon, TRightBrace] + SpellStmts(assign, [TRightBrace])
  {
    hide SpellStmt;
    var assign := Cons(ExprStmt(Assign(x, NilLit)), Empty);
    var end := SpellStmts(assign, [TRightBrace]);
    var inner := Cons(VarDecl(readonly, x, None), Empty);
    DeclarationSpelt(readonly, x, [TRightBrace] + end);
    BlockSpelt(inner, end);
    assert SpellStmts(inner, [TRightBrace] + end) == SpellStmt(VarDecl(readonly, x, None), [TRightBrace] + end);
  }

  lemma BlockSpelt(body: Stmts, rest: seq<Token>)
    ensures SpellStmt(Block(body), rest) == [TLeftBrace] + SpellStmts(body, [TRightBrace] + rest)
  {
  }

  lemma RedeclaringWellFormed(x: Name, first: bool, second: bool)
    ensures WellFormedStmts(Redeclaring(x, first, second))
  {
    var inner := Cons(VarDecl(second, x, None), Empty);
    assert WellFormedStmts(Empty);
    assert WellFormedStmt(VarDecl(second, x, None), true);
    assert WellFormedStmts(inner);
    assert WellFormedStmt(Block(inner), true);
    assert WellFormed(NilLit) && WellFormed(Assign(x, NilLit));
    assert WellFormedStmt(ExprStmt(Assign(x, NilLit)), true);
    var last := Cons(ExprStmt(Assign(x, NilLit)), Empty);
    assert WellFormedStmts(last);
    assert WellFormedStmts(Cons(Block(inner), last));
    assert WellFormedStmt(VarDecl(first, x, None), true);
    assert WellFormedStmts(Cons(VarDecl(first, x, None), Cons(Block(inner), last)));
    assert WellFormedStmt(Block(Cons(VarDecl(first, x, None), Cons(Block(inner), last))), true);
  }

  lemma DeclarationSpelt(readonly: bool, x: Name, rest: seq<Token>)
    ensures SpellStmt(VarDecl(readonly, x, None), rest) == [Keyword(readonly), TIdentifier(x), TSemicolon] + rest
  {
  }

  /** In a scope of its own, any name can be declared. */
  lemma NewScopeDeclares(readonly: bool, x: Name, sc: Scope)
    requires Settled(sc)
    ensures GenLocalVar(readonly, x, None, BeginScope(sc)).Code?
  {
    hide Grows;
    ScopeSettled(sc);
  }

  lemma BlockCompiles(readonly: bool, x: Name, sc: Scope)
    requires Settled(sc)
    ensures GenStmt(Block(Cons(VarDecl(readonly, x, None), Empty)), sc).Code?
  {
    hide GenLocalVar, Grows, Settled, EndScope;
    ScopeSettled(sc);
    NewScopeDeclares(readonly, x, sc);
    var sc1 := BeginScope(sc);
    assert GenStmt(VarDecl(readonly, x, None), sc1) == GenLocalVar(readonly, x, None, sc1);
    assert GenStmts(Cons(VarDecl(readonly, x, None), Empty), sc1).Code?;
  }

  /** Three statements one after the other. */
  lemma ThreeCompile(s1: Stmt, s2: Stmt, s3: Stmt, sc: Scope)
    requires Settled(sc) && GenStmt(s1, sc).Code?
    requires GenStmt(s2, GenStmt(s1, sc).scope).Code?
    ensures GenStmts(Cons(s1, Cons(s2, Cons(s3, Empty))), sc).Code? <==>
      GenStmt(s3, GenStmt(s2, GenStmt(s1, sc).scope).scope).Code?
  {
    hide GenStmt, Grows, Settled;
    var sc1 := GenStmt(s1, sc).scope;
    var sc2 := GenStmt(s2, sc1).scope;
    assert GenStmts(Cons(s3, Empty), sc2).Code? <==> GenStmt(s3, sc2).Code?;
    assert GenStmts(Cons(s2, Cons(s3, Empty)), sc1).Code? <==> GenStmt(s3, sc2).Code?;
  }

  lemma BlockIsBody(body: Stmts, sc: Scope)
    requires Settled(sc)
    ensures Settled(BeginScope(sc))
    ensures GenStmts(Cons(Block(body), Empty), sc).Code? <==> GenStmts(body, BeginScope(sc)).Code?
  {
    hide Grows, EndScope, Settled;
    ScopeSettled(sc);
    assert GenStmt(Block(body), sc).Code? <==> GenStmts(body, BeginScope(sc)).Code?;
  }

  /** Whether this program compiles does not depend on the declaration of the local that is
      assigned, but on the one that is gone: { const a; { var a; } a = nil; } compiles, and
      { var a; { const a; } a = nil; } does not. */
  lemma SecondDeclarationDecides(x: Name, first: bool, second: bool, globals: seq<Global>)
    ensures Script.Compiled(RedeclaringTokens(x, first, second), globals).Code? <==> !second
  {
    hide GenStmt, GenStmts, GenLocalVar, GenExpr, RedeclaringTokens, Grows, Settled, Reached, RemarkOnWay,
        Parser.Program;
    RedeclaringParses(x, first, second);
    var sc := ScriptScope(globals);
    ScriptSettled(globals);
    var decl, inner := VarDecl(first, x, None), Block(Cons(VarDecl(second, x, None), Empty));
    var assign := ExprStmt(Assign(x, NilLit));
    BlockIsBody(Cons(decl, Cons(inner, Cons(assign, Empty))), sc);
    NewScopeDeclares(first, x, sc);
    DeclarationIsLocal(first, x, BeginScope(sc));
    var sc1 := GenLocalVar(first, x, None, BeginScope(sc)).scope;
    BlockCompiles(second, x, sc1);
    ThreeCompile(decl, inner, assign, BeginScope(sc));
    PastOne(inner, sc1, x, Declared(first, x, BeginScope(sc)));
    AssignableExact(first, x, None, BeginScope(sc), [Past(inner)], NilLit);
    AssignmentCompiles(assign, GenStmt(inner, sc1).scope);
    InnerMark(x, second, Declared(first, x, BeginScope(sc)));
  }

  lemma ScriptSettled(globals: seq<Global>)
    ensures Settled(ScriptScope(globals))
  {
  }

  lemma DeclarationIsLocal(readonly: bool, x: Name, sc: Scope)
    requires Settled(sc) && sc.depth > 0
    ensures GenStmt(VarDecl(readonly, x, None), sc) == GenLocalVar(readonly, x, None, sc)
  {
    hide GenLocalVar, Grows;
  }

  lemma AssignmentCompiles(s: Stmt, sc: Scope)
    requires Settled(sc) && s.ExprStmt?
    ensures GenStmt(s, sc).Code? <==> GenExpr(s.e, sc).Code?
    ensures GenExpr(NilLit, sc).Code?
  {
    hide Grows;
  }

  lemma PastOne(s: Stmt, sc: Scope, x: string, m: Mark)
    requires Settled(sc) && GenStmt(s, sc).Code?
    ensures Reached([Past(s)], sc) == Some(GenStmt(s, sc).scope)
    ensures RemarkOnWay([Past(s)], x, m) == Remark(s, x, m)
  {
    hide GenStmt, Grows, Settled, Remark;
  }

  lemma InnerMark(x: Name, readonly: bool, m: Mark)
    requires !m.hidden
    ensures Remark(Block(Cons(VarDecl(readonly, x, None), Empty)), x, m) == Mark(readonly, false)
  {
    var decl := VarDecl(readonly, x, None);
    assert Remark(decl, x, m) == Mark(readonly, true);
    assert RemarkAll(Empty, x, Mark(readonly, true)) == Mark(readonly, true);
    assert RemarkAll(Cons(decl, Empty), x, m) == Mark(readonly, true);
  }
}
