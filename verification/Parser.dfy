/** What the single pass of src/compiler.c recognises, as a function from tokens to trees:
    the reading order, look-ahead and precedence climbing of the compiler without its
    emission. The theorems say that it inverts Syntax.SpellStmts, in both directions. */
module Parser {
  import opened Values
  import opened Syntax

  datatype Parsed<+T> = Fail | Got(tree: T, rest: seq<Token>) {
    predicate IsFailure() { Fail? }
    function PropagateFailure<U>(): Parsed<U> requires Fail? { Fail }
    function Extract(): (T, seq<Token>) requires Got? { (tree, rest) }
  }

  function Peek(ts: seq<Token>): Token {
    if ts == [] then TEof else ts[0]
  }

  /** Drop a token that must be there. */
  function Expect(t: Token, ts: seq<Token>): (r: Parsed<()>)
    ensures r.Got? <==> ts != [] && ts[0] == t
    ensures r.Got? ==> ts == [t] + r.rest
  {
    if ts != [] && ts[0] == t then Got((), ts[1..]) else Fail
  }

  // ----- expressions -----

  function ParsePrecedence(ts: seq<Token>, p: nat): (r: Parsed<Expr>)
    ensures r.Got? ==> |r.rest| < |ts|
    decreases |ts|, 2
  {
    var (left, rest) :- Prefix(ts, p <= PREC_ASSIGNMENT);
    Infixes(left, rest, p)
  }

  function Prefix(ts: seq<Token>, canAssign: bool): (r: Parsed<Expr>)
    ensures r.Got? ==> |r.rest| < |ts|
    decreases |ts|, 0
  {
    if ts == [] then Fail
    else if ts[0] == TNil then Got(NilLit, ts[1..])
    else if ts[0] == TTrue then Got(BoolLit(true), ts[1..])
    else if ts[0] == TFalse then Got(BoolLit(false), ts[1..])
    else if ts[0].TNumber? then Got(NumLit(ts[0].n), ts[1..])
    else if ts[0].TString? then Got(StrLit(ts[0].s), ts[1..])
    else if ts[0].TIdentifier? then
      if canAssign && Peek(ts[1..]) == TEqual then
        var (e, rest) :- ParsePrecedence(ts[2..], PREC_ASSIGNMENT);
        Got(Assign(ts[0].name, e), rest)
      else Got(Var(ts[0].name), ts[1..])
    else if ts[0] == TLeftParen then
      var (e, rest) :- ParsePrecedence(ts[1..], PREC_ASSIGNMENT);
      var (_, rest) :- Expect(TRightParen, rest);
      Got(Group(e), rest)
    else if ts[0] == TOp(Minus) || ts[0] == TBang then
      var (e, rest) :- ParsePrecedence(ts[1..], PREC_UNARY);
      Got(Unary(if ts[0] == TOp(Minus) then Negate else Not, e), rest)
    else Fail
  }

  function Infixes(left: Expr, ts: seq<Token>, p: nat): (r: Parsed<Expr>)
    ensures r.Got? ==> |r.rest| <= |ts|
    decreases |ts|, 1
  {
    if p <= InfixPrec(Peek(ts)) && ts != [] then
      var (e, rest) :- Infix(left, ts);
      Infixes(e, rest, p)
    else if p <= PREC_ASSIGNMENT && Peek(ts) == TEqual then Fail
    else Got(left, ts)
  }

  /** and_ and or_ read their right operand at their own precedence, binary one higher. */
  function RightPrec(t: Token): nat {
    if t.TOp? then OpPrec(t.op) + 1 else InfixPrec(t)
  }

  function Combine(t: Token, l: Expr, r: Expr): Expr
    requires t.TOp? || t == TAnd || t == TOr
  {
    if t.TOp? then Binary(t.op, l, r) else if t == TAnd then And(l, r) else Or(l, r)
  }

  /** One infix rule. Calls, properties and brackets are outside the fragment. */
  function Infix(left: Expr, ts: seq<Token>): (r: Parsed<Expr>)
    requires ts != []
    ensures r.Got? ==> |r.rest| < |ts|
    decreases |ts|, 0
  {
    if ts[0].TOp? || ts[0] == TAnd || ts[0] == TOr then
      var (e, rest) :- ParsePrecedence(ts[1..], RightPrec(ts[0]));
      Got(Combine(ts[0], left, e), rest)
    else Fail
  }

  function Expression(ts: seq<Token>): (r: Parsed<Expr>)
    ensures r.Got? ==> |r.rest| < |ts|
  {
    ParsePrecedence(ts, PREC_ASSIGNMENT)
  }

  // ----- statements -----

  function ExpressionThen(t: Token, ts: seq<Token>): (r: Parsed<Expr>)
    ensures r.Got? ==> |r.rest| < |ts|
  {
    var (e, rest) :- Expression(ts);
    var (_, rest) :- Expect(t, rest);
    Got(e, rest)
  }

  /** An expression that may be missing, and the token that ends it either way. */
  function OptExpressionThen(t: Token, ts: seq<Token>): (r: Parsed<Option<Expr>>)
    ensures r.Got? ==> |r.rest| < |ts|
  {
    if Peek(ts) == t && ts != [] then Got(None, ts[1..]) else
    var (e, rest) :- ExpressionThen(t, ts);
    Got(Some(e), rest)
  }

  function VarDeclaration(ro: bool, ts: seq<Token>): (r: Parsed<Stmt>)
    ensures r.Got? ==> |r.rest| < |ts|
  {
    if ts == [] || !ts[0].TIdentifier? then Fail else
    if Peek(ts[1..]) == TEqual then
      var (e, rest) :- ExpressionThen(TSemicolon, ts[2..]);
      Got(VarDecl(ro, ts[0].name, Some(e)), rest)
    else
      var (_, rest) :- Expect(TSemicolon, ts[1..]);
      Got(VarDecl(ro, ts[0].name, None), rest)
  }

  function Declaration(ts: seq<Token>): (r: Parsed<Stmt>)
    ensures r.Got? ==> |r.rest| < |ts|
    decreases |ts|, 1
  {
    if Peek(ts) == TVar then VarDeclaration(false, ts[1..])
    else if Peek(ts) == TConst then VarDeclaration(true, ts[1..])
    else Statement(ts)
  }

  function Statement(ts: seq<Token>): (r: Parsed<Stmt>)
    ensures r.Got? ==> |r.rest| < |ts|
    decreases |ts|, 0
  {
    if Peek(ts) == TPrint then
      var (e, rest) :- ExpressionThen(TSemicolon, ts[1..]);
      Got(Print(e), rest)
    else if Peek(ts) == TFor then ForStatement(ts[1..])
    else if Peek(ts) == TIf then IfStatement(ts[1..])
    else if Peek(ts) == TWhile then WhileStatement(ts[1..])
    else if Peek(ts) == TLeftBrace then
      var (body, rest) :- BlockRest(ts[1..]);
      Got(Block(body), rest)
    else
      var (e, rest) :- ExpressionThen(TSemicolon, ts);
      Got(ExprStmt(e), rest)
  }

  function IfStatement(ts: seq<Token>): (r: Parsed<Stmt>)
    ensures r.Got? ==> |r.rest| < |ts|
    decreases |ts|, 1
  {
    var (_, rest) :- Expect(TLeftParen, ts);
    var (c, rest) :- ExpressionThen(TRightParen, rest);
    var (thn, rest) :- Statement(rest);
    if Peek(rest) == TElse then
      var (els, rest) :- Statement(rest[1..]);
      Got(If(c, thn, Some(els)), rest)
    else Got(If(c, thn, None), rest)
  }

  function WhileStatement(ts: seq<Token>): (r: Parsed<Stmt>)
    ensures r.Got? ==> |r.rest| < |ts|
    decreases |ts|, 1
  {
    var (_, rest) :- Expect(TLeftParen, ts);
    var (c, rest) :- ExpressionThen(TRightParen, rest);
    var (loop, rest) :- Statement(rest);
    Got(While(c, loop), rest)
  }

  function ForStatement(ts: seq<Token>): (r: Parsed<Stmt>)
    ensures r.Got? ==> |r.rest| < |ts|
    decreases |ts|, 1
  {
    var (_, rest) :- Expect(TLeftParen, ts);
    var (first, rest) :- ForFirst(rest);
    var (cond, rest) :- OptExpressionThen(TSemicolon, rest);
    var (incr, rest) :- OptExpressionThen(TRightParen, rest);
    var (loop, rest) :- Statement(rest);
    Got(For(first, cond, incr, loop), rest)
  }

  function ForFirst(ts: seq<Token>): (r: Parsed<Option<Stmt>>)
    ensures r.Got? ==> |r.rest| < |ts|
  {
    if Peek(ts) == TSemicolon then Got(None, ts[1..])
    else if Peek(ts) == TVar then
      var (s, rest) :- VarDeclaration(false, ts[1..]);
      Got(Some(s), rest)
    else
      var (e, rest) :- ExpressionThen(TSemicolon, ts);
      Got(Some(ExprStmt(e)), rest)
  }

  /** Declarations up to and including the closing brace. */
  function BlockRest(ts: seq<Token>): (r: Parsed<Stmts>)
    ensures r.Got? ==> |r.rest| < |ts|
    decreases |ts|, 2
  {
    if ts == [] then Fail
    else if ts[0] == TRightBrace then Got(Empty, ts[1..])
    else
      var (s, rest) :- Declaration(ts);
      var (ss, rest) :- BlockRest(rest);
      Got(Cons(s, ss), rest)
  }

  function Program(ts: seq<Token>): Option<Stmts>
    decreases |ts|
  {
    if ts == [] then Some(Empty)
    else match Declaration(ts)
      case Fail => None
      case Got(s, rest) =>
        match Program(rest)
        case None => None
        case Some(ss) => Some(Cons(s, ss))
  }

  // ----- soundness: what is recognised is in the grammar, and nothing is dropped -----

  lemma {:induction false} ExprSound(ts: seq<Token>, p: nat)
    requires 1 <= p <= PREC_UNARY && ParsePrecedence(ts, p).Got?
    ensures var r := ParsePrecedence(ts, p);
      && ts == Spell(r.tree, r.rest)
      && WellFormed(r.tree) && Level(r.tree) >= p
      && InfixPrec(Peek(r.rest)) < p
    decreases |ts|, 2
  {
    PrefixSound(ts, p <= PREC_ASSIGNMENT);
    var r := Prefix(ts, p <= PREC_ASSIGNMENT);
    InfixesSound(r.tree, r.rest, p);
  }

  lemma {:induction false} PrefixSound(ts: seq<Token>, canAssign: bool)
    requires Prefix(ts, canAssign).Got?
    ensures var r := Prefix(ts, canAssign);
      && ts == Spell(r.tree, r.rest)
      && WellFormed(r.tree)
      && (Level(r.tree) >= PREC_UNARY || (canAssign && r.tree.Assign?))
      && Fits(r.tree, r.rest)
    decreases |ts|, 0
  {
    hide ParsePrecedence, Infixes;
    assert ts == [ts[0]] + ts[1..];
    if ts[0].TIdentifier? && canAssign && Peek(ts[1..]) == TEqual {
      ExprSound(ts[2..], PREC_ASSIGNMENT);
      assert ts[1..] == [TEqual] + ts[2..];
    } else if ts[0] == TLeftParen {
      ExprSound(ts[1..], PREC_ASSIGNMENT);
    } else if ts[0] == TOp(Minus) || ts[0] == TBang {
      ExprSound(ts[1..], PREC_UNARY);
    }
  }

  /** The next infix operator, if any, may take `left` as its left operand. */
  predicate Fits(left: Expr, ts: seq<Token>) {
    var q := InfixPrec(Peek(ts));
    q == PREC_CALL || q < Level(left) || (q == Level(left) && left.Binary?)
  }

  lemma {:induction false} InfixSound(left: Expr, ts: seq<Token>)
    requires ts != [] && InfixPrec(ts[0]) >= 1 && Infix(left, ts).Got?
    requires WellFormed(left) && Fits(left, ts)
    ensures var r := Infix(left, ts);
      && Spell(left, ts) == Spell(r.tree, r.rest)
      && WellFormed(r.tree) && Level(r.tree) == InfixPrec(ts[0])
      && Fits(r.tree, r.rest)
    decreases |ts|, 0
  {
    hide ParsePrecedence, Infixes, Prefix;
    ExprSound(ts[1..], RightPrec(ts[0]));
    assert ts == [ts[0]] + ts[1..];
  }

  lemma {:induction false} InfixesSound(left: Expr, ts: seq<Token>, p: nat)
    requires 1 <= p <= PREC_UNARY && Infixes(left, ts, p).Got?
    requires WellFormed(left) && Fits(left, ts) && Level(left) >= p
    ensures var r := Infixes(left, ts, p);
      && Spell(left, ts) == Spell(r.tree, r.rest)
      && WellFormed(r.tree) && Level(r.tree) >= p
      && InfixPrec(Peek(r.rest)) < p
    decreases |ts|, 1
  {
    if p <= InfixPrec(Peek(ts)) && ts != [] {
      InfixSound(left, ts);
      var r := Infix(left, ts);
      InfixesSound(r.tree, r.rest, p);
    }
  }

  lemma ExpressionThenSound(t: Token, ts: seq<Token>)
    requires ExpressionThen(t, ts).Got?
    ensures var r := ExpressionThen(t, ts);
      ts == Spell(r.tree, [t] + r.rest) && WellFormed(r.tree)
  {
    ExprSound(ts, PREC_ASSIGNMENT);
  }

  lemma OptExpressionThenSound(t: Token, ts: seq<Token>)
    requires OptExpressionThen(t, ts).Got?
    ensures var r := OptExpressionThen(t, ts);
      ts == SpellOpt(r.tree, [t] + r.rest) && WellFormedOpt(r.tree)
  {
    if Peek(ts) == t && ts != [] {
      assert ts == [t] + ts[1..];
    } else {
      ExpressionThenSound(t, ts);
    }
  }

  lemma VarDeclarationSound(ro: bool, ts: seq<Token>)
    requires VarDeclaration(ro, ts).Got?
    ensures var r := VarDeclaration(ro, ts);
      && [if ro then TConst else TVar] + ts == SpellStmt(r.tree, r.rest)
      && WellFormedStmt(r.tree, true) && r.tree.VarDecl? && r.tree.readonly == ro
  {
    assert ts == [ts[0]] + ts[1..];
    if Peek(ts[1..]) == TEqual {
      ExpressionThenSound(TSemicolon, ts[2..]);
      assert ts[1..] == [TEqual] + ts[2..];
    }
  }

  lemma ForFirstSound(ts: seq<Token>)
    requires ForFirst(ts).Got?
    ensures var r := ForFirst(ts);
      && ts == (if r.tree.Some? then SpellStmt(r.tree.value, r.rest) else [TSemicolon] + r.rest)
      && WellFormedFirst(r.tree)
  {
    if Peek(ts) == TSemicolon {
      assert ts == [TSemicolon] + ts[1..];
    } else if Peek(ts) == TVar {
      VarDeclarationSound(false, ts[1..]);
      assert ts == [TVar] + ts[1..];
    } else {
      ExpressionThenSound(TSemicolon, ts);
    }
  }

  lemma {:induction false} DeclarationSound(ts: seq<Token>)
    requires Declaration(ts).Got?
    ensures var r := Declaration(ts);
      && ts == SpellStmt(r.tree, r.rest) && WellFormedStmt(r.tree, true)
      && (EndsOpen(r.tree) ==> Peek(r.rest) != TElse)
    decreases |ts|, 1
  {
    hide ExpressionThen, Expression, Statement, WellFormed;
    if Peek(ts) == TVar || Peek(ts) == TConst {
      VarDeclarationSound(Peek(ts) == TConst, ts[1..]);
      assert ts == [ts[0]] + ts[1..];
    } else {
      StatementSound(ts);
    }
  }

  lemma {:induction false} StatementSound(ts: seq<Token>)
    requires Statement(ts).Got?
    ensures var r := Statement(ts);
      && ts == SpellStmt(r.tree, r.rest) && WellFormedStmt(r.tree, false)
      && (EndsOpen(r.tree) ==> Peek(r.rest) != TElse)
    decreases |ts|, 0
  {
    hide ExpressionThen, Expression, IfStatement, WhileStatement, ForStatement, BlockRest, WellFormed, Spell;
    if Peek(ts) == TPrint {
      ExpressionThenSound(TSemicolon, ts[1..]);
      assert ts == [TPrint] + ts[1..];
    } else if Peek(ts) == TFor {
      ForSound(ts[1..]);
      assert ts == [TFor] + ts[1..];
    } else if Peek(ts) == TIf {
      IfSound(ts[1..]);
      assert ts == [TIf] + ts[1..];
    } else if Peek(ts) == TWhile {
      WhileSound(ts[1..]);
      assert ts == [TWhile] + ts[1..];
    } else if Peek(ts) == TLeftBrace {
      BlockRestSound(ts[1..]);
      assert ts == [TLeftBrace] + ts[1..];
    } else {
      ExpressionThenSound(TSemicolon, ts);
    }
  }

  lemma {:induction false} WhileSound(ts: seq<Token>)
    requires WhileStatement(ts).Got?
    ensures var r := WhileStatement(ts);
      && [TWhile] + ts == SpellStmt(r.tree, r.rest) && WellFormedStmt(r.tree, false)
      && (EndsOpen(r.tree) ==> Peek(r.rest) != TElse)
    decreases |ts|, 1
  {
    hide ExpressionThen, Expression, Statement, WellFormed, Spell;
    var ts1 := Expect(TLeftParen, ts).rest;
    ExpressionThenSound(TRightParen, ts1);
    StatementSound(ExpressionThen(TRightParen, ts1).rest);
  }

  lemma {:induction false} IfSound(ts: seq<Token>)
    requires IfStatement(ts).Got?
    ensures var r := IfStatement(ts);
      && [TIf] + ts == SpellStmt(r.tree, r.rest) && WellFormedStmt(r.tree, false)
      && (EndsOpen(r.tree) ==> Peek(r.rest) != TElse)
    decreases |ts|, 1
  {
    hide ExpressionThen, Expression, Statement, WellFormed, Spell;
    var ts1 := Expect(TLeftParen, ts).rest;
    ExpressionThenSound(TRightParen, ts1);
    var c := ExpressionThen(TRightParen, ts1);
    StatementSound(c.rest);
    var thn := Statement(c.rest);
    if Peek(thn.rest) == TElse {
      StatementSound(thn.rest[1..]);
      assert thn.rest == [TElse] + thn.rest[1..];
    }
  }

  lemma {:induction false} ForSound(ts: seq<Token>)
    requires ForStatement(ts).Got?
    ensures var r := ForStatement(ts);
      && [TFor] + ts == SpellStmt(r.tree, r.rest) && WellFormedStmt(r.tree, false)
      && (EndsOpen(r.tree) ==> Peek(r.rest) != TElse)
    decreases |ts|, 1
  {
    hide ExpressionThen, OptExpressionThen, ForFirst, Statement, WellFormed, Spell;
    var ts1 := Expect(TLeftParen, ts).rest;
    ForFirstSound(ts1);
    var first := ForFirst(ts1);
    OptExpressionThenSound(TSemicolon, first.rest);
    var cond := OptExpressionThen(TSemicolon, first.rest);
    OptExpressionThenSound(TRightParen, cond.rest);
    StatementSound(OptExpressionThen(TRightParen, cond.rest).rest);
  }

  lemma {:induction false} BlockRestSound(ts: seq<Token>)
    requires BlockRest(ts).Got?
    ensures var r := BlockRest(ts);
      ts == SpellStmts(r.tree, [TRightBrace] + r.rest) && WellFormedStmts(r.tree)
    decreases |ts|, 2
  {
    if ts[0] != TRightBrace {
      DeclarationSound(ts);
      BlockRestSound(Declaration(ts).rest);
    } else {
      assert ts == [TRightBrace] + ts[1..];
    }
  }

  /** Every token string that is recognised is the token string of its tree. */
  lemma {:induction false} ProgramSound(ts: seq<Token>)
    requires Program(ts).Some?
    ensures ts == SpellStmts(Program(ts).value, []) && WellFormedStmts(Program(ts).value)
    decreases |ts|
  {
    if ts != [] {
      DeclarationSound(ts);
      ProgramSound(Declaration(ts).rest);
    }
  }

  // ----- completeness: every tree of the grammar is recognised -----

  predicate Follows(e: Expr, rest: seq<Token>) {
    Fits(e, rest) && InfixPrec(Peek(rest)) != PREC_CALL && Peek(rest) != TEqual
  }

  lemma {:induction false} ExprComplete(e: Expr, p: nat, rest: seq<Token>)
    requires WellFormed(e) && 1 <= p <= PREC_UNARY && p <= Level(e) && Follows(e, rest)
    ensures ParsePrecedence(Spell(e, rest), p) == Infixes(e, rest, p)
    decreases e
  {
    match e
    case Assign(x, e1) => AssignComplete(x, e1, rest);
    case Unary(op, e1) => UnaryComplete(op, e1, p, rest);
    case Group(e1) => GroupComplete(e1, p, rest);
    case Binary(op, l, r) => InfixComplete(TOp(op), l, r, p, rest);
    case And(l, r) => InfixComplete(TAnd, l, r, p, rest);
    case Or(l, r) => InfixComplete(TOr, l, r, p, rest);
    case _ => assert Spell(e, rest)[1..] == rest;
  }

  lemma {:induction false} AssignComplete(x: Name, e: Expr, rest: seq<Token>)
    requires WellFormed(e) && Follows(Assign(x, e), rest)
    ensures Prefix(Spell(Assign(x, e), rest), true) == Got(Assign(x, e), rest)
    decreases Assign(x, e), 0
  {
    hide ParsePrecedence;
    var ts := Spell(Assign(x, e), rest);
    assert ts[1..] == [TEqual] + Spell(e, rest);
    assert ts[2..] == Spell(e, rest);
    ExprComplete(e, PREC_ASSIGNMENT, rest);
  }

  lemma {:induction false} UnaryComplete(op: UnaryOp, e: Expr, p: nat, rest: seq<Token>)
    requires WellFormed(Unary(op, e)) && Follows(Unary(op, e), rest)
    ensures Prefix(Spell(Unary(op, e), rest), p <= PREC_ASSIGNMENT) == Got(Unary(op, e), rest)
    decreases Unary(op, e), 0
  {
    hide ParsePrecedence;
    assert Spell(Unary(op, e), rest)[1..] == Spell(e, rest);
    ExprComplete(e, PREC_UNARY, rest);
  }

  lemma {:induction false} GroupComplete(e: Expr, p: nat, rest: seq<Token>)
    requires WellFormed(e)
    ensures Prefix(Spell(Group(e), rest), p <= PREC_ASSIGNMENT) == Got(Group(e), rest)
    decreases Group(e), 0
  {
    hide ParsePrecedence;
    assert Spell(Group(e), rest)[1..] == Spell(e, [TRightParen] + rest);
    ExprComplete(e, PREC_ASSIGNMENT, [TRightParen] + rest);
  }

  lemma {:induction false} InfixComplete(t: Token, l: Expr, r: Expr, p: nat, rest: seq<Token>)
    requires t.TOp? || t == TAnd || t == TOr
    requires var e := Combine(t, l, r); WellFormed(e) && 1 <= p <= Level(e) && Follows(e, rest)
    ensures ParsePrecedence(Spell(l, [t] + Spell(r, rest)), p) == Infixes(Combine(t, l, r), rest, p)
    decreases Combine(t, l, r), 0
  {
    hide ParsePrecedence;
    var ts := [t] + Spell(r, rest);
    ExprComplete(l, p, ts);
    assert ts[1..] == Spell(r, rest);
    ExprComplete(r, RightPrec(t), rest);
  }

  lemma ExpressionComplete(e: Expr, t: Token, rest: seq<Token>)
    requires WellFormed(e) && InfixPrec(t) == PREC_NONE && t != TEqual
    ensures ExpressionThen(t, Spell(e, [t] + rest)) == Got(e, rest)
  {
    ExprComplete(e, PREC_ASSIGNMENT, [t] + rest);
  }

  predicate BeginsExpression(t: Token) {
    || t == TNil || t == TTrue || t == TFalse || t.TNumber? || t.TString? || t.TIdentifier?
    || t == TLeftParen || t == TOp(Minus) || t == TBang
  }

  lemma {:induction false} SpellHead(e: Expr, rest: seq<Token>)
    ensures BeginsExpression(Peek(Spell(e, rest)))
    decreases e
  {
    match e
    case Binary(op, l, r) => SpellHead(l, [TOp(op)] + Spell(r, rest));
    case And(l, r) => SpellHead(l, [TAnd] + Spell(r, rest));
    case Or(l, r) => SpellHead(l, [TOr] + Spell(r, rest));
    case _ =>
  }

  lemma OptExpressionComplete(e: Option<Expr>, t: Token, rest: seq<Token>)
    requires WellFormedOpt(e) && (t == TSemicolon || t == TRightParen)
    ensures OptExpressionThen(t, SpellOpt(e, [t] + rest)) == Got(e, rest)
  {
    if e.Some? {
      var ts := Spell(e.value, [t] + rest);
      assert ts != [] && Peek(ts) != t by { SpellHead(e.value, [t] + rest); }
      ExpressionComplete(e.value, t, rest);
    }
  }

  lemma VarDeclarationComplete(s: Stmt, rest: seq<Token>)
    requires s.VarDecl? && WellFormedStmt(s, true)
    ensures SpellStmt(s, rest)[0] == (if s.readonly then TConst else TVar)
    ensures VarDeclaration(s.readonly, SpellStmt(s, rest)[1..]) == Got(s, rest)
  {
    var ts := SpellStmt(s, rest)[1..];
    if s.init.Some? {
      assert ts[1..] == [TEqual] + Spell(s.init.value, [TSemicolon] + rest);
      assert ts[2..] == Spell(s.init.value, [TSemicolon] + rest);
      ExpressionComplete(s.init.value, TSemicolon, rest);
    } else {
      assert ts[1..] == [TSemicolon] + rest;
    }
  }

  lemma ForFirstComplete(first: Option<Stmt>, rest: seq<Token>)
    requires WellFormedFirst(first)
    ensures ForFirst(if first.Some? then SpellStmt(first.value, rest) else [TSemicolon] + rest) == Got(first, rest)
  {
    if first.Some? {
      if first.value.VarDecl? {
        VarDeclarationComplete(first.value, rest);
      } else {
        var ts := Spell(first.value.e, [TSemicolon] + rest);
        assert Peek(ts) != TSemicolon && Peek(ts) != TVar by { SpellHead(first.value.e, [TSemicolon] + rest); }
        ExpressionComplete(first.value.e, TSemicolon, rest);
      }
    }
  }

  lemma {:induction false} DeclarationComplete(s: Stmt, rest: seq<Token>)
    requires WellFormedStmt(s, true) && (EndsOpen(s) ==> Peek(rest) != TElse)
    ensures Declaration(SpellStmt(s, rest)) == Got(s, rest)
    ensures var t := Peek(SpellStmt(s, rest)); t != TRightBrace && t != TElse && t != TEof
    decreases s, 1
  {
    if s.VarDecl? {
      VarDeclarationComplete(s, rest);
    } else {
      StatementComplete(s, rest);
    }
  }

  lemma ExprStmtComplete(e: Expr, rest: seq<Token>)
    requires WellFormed(e)
    ensures var ts := Spell(e, [TSemicolon] + rest);
      Statement(ts) == Got(ExprStmt(e), rest) && BeginsExpression(Peek(ts))
  {
    hide Expression, ParsePrecedence, WellFormed, Spell;
    var ts := Spell(e, [TSemicolon] + rest);
    SpellHead(e, [TSemicolon] + rest);
    assert Statement(ts) ==
      var (e1, rest1) :- ExpressionThen(TSemicolon, ts);
      Got(ExprStmt(e1), rest1);
    ExpressionComplete(e, TSemicolon, rest);
  }

  lemma {:induction false} StatementComplete(s: Stmt, rest: seq<Token>)
    requires WellFormedStmt(s, false) && (EndsOpen(s) ==> Peek(rest) != TElse)
    ensures Statement(SpellStmt(s, rest)) == Got(s, rest)
    ensures var t := Peek(SpellStmt(s, rest)); t != TRightBrace && t != TElse && t != TVar && t != TConst && t != TEof
    decreases s, 0
  {
    hide ExpressionThen, Expression, IfStatement, WhileStatement, ForStatement, BlockRest, WellFormed, Spell;
    var ts := SpellStmt(s, rest);
    match s
    case ExprStmt(e) => ExprStmtComplete(e, rest);
    case Print(e) =>
      assert ts[1..] == Spell(e, [TSemicolon] + rest);
      ExpressionComplete(e, TSemicolon, rest);
    case Block(body) =>
      assert ts[1..] == SpellStmts(body, [TRightBrace] + rest);
      BlockComplete(body, rest);
    case If(c, thn, els) => IfComplete(s, rest);
    case While(c, loop) => WhileComplete(s, rest);
    case For(first, cond, incr, loop) => ForComplete(s, rest);
  }

  lemma {:induction false} WhileComplete(s: Stmt, rest: seq<Token>)
    requires s.While? && WellFormedStmt(s, false) && (EndsOpen(s) ==> Peek(rest) != TElse)
    ensures WhileStatement(SpellStmt(s, rest)[1..]) == Got(s, rest)
    decreases s, 0, 0
  {
    hide ExpressionThen, Statement, WellFormed, Spell;
    var loop := SpellStmt(s.loop, rest);
    var ts := Spell(s.c, [TRightParen] + loop);
    assert SpellStmt(s, rest)[1..] == [TLeftParen] + ts;
    ExpressionComplete(s.c, TRightParen, loop);
    StatementComplete(s.loop, rest);
  }

  lemma {:induction false} IfComplete(s: Stmt, rest: seq<Token>)
    requires s.If? && WellFormedStmt(s, false) && (EndsOpen(s) ==> Peek(rest) != TElse)
    ensures IfStatement(SpellStmt(s, rest)[1..]) == Got(s, rest)
    decreases s, 0, 0
  {
    hide ExpressionThen, Statement, WellFormed, Spell;
    var tail := if s.els.Some? then [TElse] + SpellStmt(s.els.value, rest) else rest;
    var thn := SpellStmt(s.thn, tail);
    var ts := Spell(s.c, [TRightParen] + thn);
    assert SpellStmt(s, rest)[1..] == [TLeftParen] + ts;
    ExpressionComplete(s.c, TRightParen, thn);
    StatementComplete(s.thn, tail);
    if s.els.Some? {
      StatementComplete(s.els.value, rest);
      assert tail[1..] == SpellStmt(s.els.value, rest);
    }
  }

  lemma {:induction false} ForComplete(s: Stmt, rest: seq<Token>)
    requires s.For? && WellFormedStmt(s, false) && (EndsOpen(s) ==> Peek(rest) != TElse)
    ensures ForStatement(SpellStmt(s, rest)[1..]) == Got(s, rest)
    decreases s, 0, 0
  {
    var loop := SpellStmt(s.loop, rest);
    var incr := SpellOpt(s.incr, [TRightParen] + loop);
    var cond := SpellOpt(s.cond, [TSemicolon] + incr);
    var ts := if s.first.Some? then SpellStmt(s.first.value, cond) else [TSemicolon] + cond;
    assert SpellStmt(s, rest)[1..] == [TLeftParen] + ts;
    assert Expect(TLeftParen, [TLeftParen] + ts) == Got((), ts);
    assert ForFirst(ts) == Got(s.first, cond) by { ForFirstComplete(s.first, cond); }
    assert OptExpressionThen(TSemicolon, cond) == Got(s.cond, incr)
      by { OptExpressionComplete(s.cond, TSemicolon, incr); }
    assert OptExpressionThen(TRightParen, incr) == Got(s.incr, loop)
      by { OptExpressionComplete(s.incr, TRightParen, loop); }
    StatementComplete(s.loop, rest);
  }

  lemma {:induction false} BlockComplete(ss: Stmts, rest: seq<Token>)
    requires WellFormedStmts(ss)
    ensures BlockRest(SpellStmts(ss, [TRightBrace] + rest)) == Got(ss, rest)
    ensures Peek(SpellStmts(ss, [TRightBrace] + rest)) != TElse
    decreases ss
  {
    if ss.Cons? {
      BlockComplete(ss.tail, rest);
      DeclarationComplete(ss.head, SpellStmts(ss.tail, [TRightBrace] + rest));
    }
  }

  lemma {:induction false} ProgramComplete(ss: Stmts)
    requires WellFormedStmts(ss)
    ensures Program(SpellStmts(ss, [])) == Some(ss)
    ensures Peek(SpellStmts(ss, [])) != TElse
    decreases ss
  {
    if ss.Cons? {
      ProgramComplete(ss.tail);
      DeclarationComplete(ss.head, SpellStmts(ss.tail, []));
    }
  }

  /** Recognition is exactly the inverse of spelling. */
  lemma ProgramInvertsSpelling(ts: seq<Token>, ss: Stmts)
    ensures Program(ts) == Some(ss) <==> WellFormedStmts(ss) && ts == SpellStmts(ss, [])
  {
    if Program(ts) == Some(ss) {
      ProgramSound(ts);
    }
    if WellFormedStmts(ss) && ts == SpellStmts(ss, []) {
      ProgramComplete(ss);
    }
  }
}
