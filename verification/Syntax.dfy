/** Tokens and trees of the compiled fragment, and the token string of a tree. */
module Syntax {
  import opened Values

  /** An identifier. `this` is a keyword, so the scanner never makes it an identifier. */
  type Name = s: string | s != "this" witness "a"

  datatype UnaryOp = Not | Negate

  datatype BinaryOp =
    | NotEqual | EqualEqual
    | Greater | GreaterEqual | Less | LessEqual
    | Plus | Minus
    | Star | Slash

  datatype Expr =
    | NilLit
    | BoolLit(b: bool)
    | NumLit(n: Num)
    | StrLit(s: string)
    | Var(name: Name)
    | Assign(name: Name, e: Expr)
    | Unary(op: UnaryOp, e: Expr)
    | Binary(bop: BinaryOp, l: Expr, r: Expr)
    | And(l: Expr, r: Expr)
    | Or(l: Expr, r: Expr)
    | Group(e: Expr)

  datatype Stmt =
    | ExprStmt(e: Expr)
    | Print(e: Expr)
    | VarDecl(readonly: bool, name: Name, init: Option<Expr>)
    | Block(body: Stmts)
    | If(c: Expr, thn: Stmt, els: Option<Stmt>)
    | While(c: Expr, loop: Stmt)
    | For(first: Option<Stmt>, cond: Option<Expr>, incr: Option<Expr>, loop: Stmt)

  datatype Stmts = Empty | Cons(head: Stmt, tail: Stmts)

  /** `TOp` covers the ten token types with a binary operator (`TOp(Minus)` is also the
      prefix minus). `TOther` stands for the tokens that begin no construct of the
      fragment (class, fun, return, this, super, ',', ']'). */
  datatype Token =
    | TLeftParen | TRightParen | TLeftBrace | TRightBrace | TLeftBracket | TDot | TSemicolon
    | TOp(op: BinaryOp) | TBang | TEqual
    | TIdentifier(name: Name) | TString(s: string) | TNumber(n: Num)
    | TAnd | TElse | TFalse | TFor | TIf | TNil | TOr | TPrint | TTrue | TVar | TConst | TWhile
    | TOther | TEof

  const PREC_NONE := 0
  const PREC_ASSIGNMENT := 1
  const PREC_OR := 2
  const PREC_AND := 3
  const PREC_EQUALITY := 4
  const PREC_COMPARISON := 5
  const PREC_TERM := 6
  const PREC_FACTOR := 7
  const PREC_UNARY := 8
  const PREC_CALL := 9
  const PREC_PRIMARY := 10

  function OpPrec(op: BinaryOp): (p: nat)
    ensures PREC_EQUALITY <= p <= PREC_FACTOR
  {
    match op
    case NotEqual | EqualEqual => PREC_EQUALITY
    case Greater | GreaterEqual | Less | LessEqual => PREC_COMPARISON
    case Plus | Minus => PREC_TERM
    case Star | Slash => PREC_FACTOR
  }

  /** The precedence column of the rule table. */
  function InfixPrec(t: Token): nat {
    if t.TOp? then OpPrec(t.op)
    else if t == TAnd then PREC_AND
    else if t == TOr then PREC_OR
    else if t == TLeftParen || t == TLeftBracket || t == TDot then PREC_CALL
    else PREC_NONE
  }

  function UnaryToken(op: UnaryOp): Token {
    if op == Not then TBang else TOp(Minus)
  }

  // ----- the grammar, stated independently of any parser -----

  function Level(e: Expr): nat {
    match e
    case Assign(_, _) => PREC_ASSIGNMENT
    case Or(_, _) => PREC_OR
    case And(_, _) => PREC_AND
    case Binary(op, _, _) => OpPrec(op)
    case Unary(_, _) => PREC_UNARY
    case _ => PREC_PRIMARY
  }

  /** Binary operators nest to the left, `and` and `or` to the right. */
  predicate WellFormed(e: Expr) {
    match e
    case Assign(_, e) => WellFormed(e)
    case Unary(_, e) => WellFormed(e) && Level(e) >= PREC_UNARY
    case Binary(op, l, r) =>
      && WellFormed(l) && WellFormed(r)
      && Level(l) >= OpPrec(op) && Level(r) > OpPrec(op)
    case And(l, r) => WellFormed(l) && WellFormed(r) && Level(l) > PREC_AND && Level(r) >= PREC_AND
    case Or(l, r) => WellFormed(l) && WellFormed(r) && Level(l) > PREC_OR && Level(r) >= PREC_OR
    case Group(e) => WellFormed(e)
    case _ => true
  }

  // Each spelling function puts the tokens of a tree in front of `rest`.

  function Spell(e: Expr, rest: seq<Token>): seq<Token>
    decreases e
  {
    match e
    case NilLit => [TNil] + rest
    case BoolLit(b) => [if b then TTrue else TFalse] + rest
    case NumLit(n) => [TNumber(n)] + rest
    case StrLit(s) => [TString(s)] + rest
    case Var(x) => [TIdentifier(x)] + rest
    case Assign(x, e) => [TIdentifier(x)] + ([TEqual] + Spell(e, rest))
    case Unary(op, e) => [UnaryToken(op)] + Spell(e, rest)
    case Binary(op, l, r) => Spell(l, [TOp(op)] + Spell(r, rest))
    case And(l, r) => Spell(l, [TAnd] + Spell(r, rest))
    case Or(l, r) => Spell(l, [TOr] + Spell(r, rest))
    case Group(e) => [TLeftParen] + Spell(e, [TRightParen] + rest)
  }

  function SpellOpt(e: Option<Expr>, rest: seq<Token>): seq<Token> {
    if e.Some? then Spell(e.value, rest) else rest
  }

  function SpellStmt(s: Stmt, rest: seq<Token>): seq<Token>
    decreases s
  {
    match s
    case ExprStmt(e) => Spell(e, [TSemicolon] + rest)
    case Print(e) => [TPrint] + Spell(e, [TSemicolon] + rest)
    case VarDecl(ro, x, init) =>
      [if ro then TConst else TVar] + ([TIdentifier(x)] +
        (if init.Some? then [TEqual] + Spell(init.value, [TSemicolon] + rest) else [TSemicolon] + rest))
    case Block(body) => [TLeftBrace] + SpellStmts(body, [TRightBrace] + rest)
    case If(c, thn, els) =>
      var tail := if els.Some? then [TElse] + SpellStmt(els.value, rest) else rest;
      [TIf] + ([TLeftParen] + Spell(c, [TRightParen] + SpellStmt(thn, tail)))
    case While(c, loop) => [TWhile] + ([TLeftParen] + Spell(c, [TRightParen] + SpellStmt(loop, rest)))
    case For(first, cond, incr, loop) =>
      var header := SpellOpt(cond, [TSemicolon] + SpellOpt(incr, [TRightParen] + SpellStmt(loop, rest)));
      [TFor] + ([TLeftParen] + (if first.Some? then SpellStmt(first.value, header) else [TSemicolon] + header))
  }

  function SpellStmts(ss: Stmts, rest: seq<Token>): seq<Token>
    decreases ss
  {
    match ss
    case Empty => rest
    case Cons(s, more) => SpellStmt(s, SpellStmts(more, rest))
  }

  /** The statement ends in an `if` that would take a following `else`. */
  predicate EndsOpen(s: Stmt) {
    match s
    case If(_, _, None) => true
    case If(_, _, Some(els)) => EndsOpen(els)
    case While(_, loop) => EndsOpen(loop)
    case For(_, _, _, loop) => EndsOpen(loop)
    case _ => false
  }

  predicate WellFormedOpt(e: Option<Expr>) {
    e.Some? ==> WellFormed(e.value)
  }

  /** `decl` tells whether a variable declaration may stand here. */
  predicate WellFormedStmt(s: Stmt, decl: bool) {
    match s
    case ExprStmt(e) => WellFormed(e)
    case Print(e) => WellFormed(e)
    case VarDecl(_, _, init) => decl && WellFormedOpt(init)
    case Block(body) => WellFormedStmts(body)
    case If(c, thn, els) =>
      && WellFormed(c) && WellFormedStmt(thn, false)
      && (els.Some? ==> WellFormedStmt(els.value, false) && !EndsOpen(thn))
    case While(c, loop) => WellFormed(c) && WellFormedStmt(loop, false)
    case For(first, cond, incr, loop) =>
      && WellFormedFirst(first)
      && WellFormedOpt(cond) && WellFormedOpt(incr) && WellFormedStmt(loop, false)
  }

  /** A `for` starts with nothing, an expression or a `var`. */
  predicate WellFormedFirst(first: Option<Stmt>) {
    first.Some? ==>
      match first.value
      case ExprStmt(e) => WellFormed(e)
      case VarDecl(ro, _, init) => !ro && WellFormedOpt(init)
      case _ => false
  }

  predicate WellFormedStmts(ss: Stmts) {
    match ss
    case Empty => true
    case Cons(s, rest) => WellFormedStmt(s, true) && WellFormedStmts(rest)
  }
}
