/** Which operators bind tighter, said operator by operator: products before sums, comparisons,
    equalities, `and` and `or`, and a prefix before all of them. */
module Precedence {
  import opened Values
  import opened Syntax
  import P = Parser

  predicate Product(t: Token) {
    t == TOp(Star) || t == TOp(Slash)
  }

  predicate Sum(t: Token) {
    t == TOp(Plus) || t == TOp(Minus)
  }

  predicate Comparison(t: Token) {
    t == TOp(Greater) || t == TOp(GreaterEqual) || t == TOp(Less) || t == TOp(LessEqual)
  }

  predicate Equality(t: Token) {
    t == TOp(EqualEqual) || t == TOp(NotEqual)
  }

  predicate Operator(t: Token) {
    Product(t) || Sum(t) || Comparison(t) || Equality(t) || t == TAnd || t == TOr
  }

  predicate Tighter(t: Token, u: Token) {
    || (Product(t) && (Sum(u) || Comparison(u) || Equality(u) || u == TAnd || u == TOr))
    || (Sum(t) && (Comparison(u) || Equality(u) || u == TAnd || u == TOr))
    || (Comparison(t) && (Equality(u) || u == TAnd || u == TOr))
    || (Equality(t) && (u == TAnd || u == TOr))
    || (t == TAnd && u == TOr)
  }

  /** Of a t b u c, the right operator takes b: it binds tighter, or both are `and` or both `or`. */
  predicate RightFirst(t: Token, u: Token) {
    Tighter(u, t) || (t == u && (t == TAnd || t == TOr))
  }

  function Apply(t: Token, l: Expr, r: Expr): Expr
    requires Operator(t)
  {
    match t
    case TAnd => And(l, r)
    case TOr => Or(l, r)
    case TOp(op) => Binary(op, l, r)
  }

  /** Something that needs no parentheses as an operand: a literal, a name, a prefix of one, or
      a tree in parentheses in which every operand is one. */
  predicate Operand(e: Expr) {
    match e
    case NilLit | BoolLit(_) | NumLit(_) | StrLit(_) | Var(_) => true
    case Unary(_, e) => Operand(e)
    case Group(Assign(_, e)) => Operand(e)
    case Group(Binary(_, l, r)) => Operand(l) && Operand(r)
    case Group(And(l, r)) => Operand(l) && Operand(r)
    case Group(Or(l, r)) => Operand(l) && Operand(r)
    case Group(e) => Operand(e)
    case _ => false
  }

  /** What ends an expression. */
  predicate Ends(rest: seq<Token>) {
    rest != [] && (rest[0] == TSemicolon || rest[0] == TRightParen)
  }

  lemma {:induction false} OperandBinds(e: Expr)
    requires Operand(e)
    ensures WellFormed(e) && Level(e) >= PREC_UNARY
    decreases e
  {
    match e
    case Unary(_, e1) => OperandBinds(e1);
    case Group(Assign(_, e1)) => OperandBinds(e1);
    case Group(Binary(_, l, r)) => OperandBinds(l); OperandBinds(r);
    case Group(And(l, r)) => OperandBinds(l); OperandBinds(r);
    case Group(Or(l, r)) => OperandBinds(l); OperandBinds(r);
    case Group(e1) => OperandBinds(e1);
    case _ =>
  }

  /** A tree of the grammar is read back from its tokens. */
  lemma ReadBack(e: Expr, rest: seq<Token>)
    requires WellFormed(e) && Ends(rest)
    ensures P.ParsePrecedence(Spell(e, rest), PREC_ASSIGNMENT) == P.Got(e, rest)
  {
    P.ExprComplete(e, PREC_ASSIGNMENT, rest);
  }

  lemma OperatorTokens(t: Token)
    requires Operator(t)
    ensures t.TOp? || t == TAnd || t == TOr
  {
  }

  lemma InfixSpells(op: BinaryOp, l: Expr, r: Expr, rest: seq<Token>)
    ensures Spell(Binary(op, l, r), rest) == Spell(l, [TOp(op)] + Spell(r, rest))
    ensures Spell(And(l, r), rest) == Spell(l, [TAnd] + Spell(r, rest))
    ensures Spell(Or(l, r), rest) == Spell(l, [TOr] + Spell(r, rest))
  {
  }

  lemma ApplySpells(t: Token, l: Expr, r: Expr, rest: seq<Token>)
    requires Operator(t)
    ensures Spell(Apply(t, l, r), rest) == Spell(l, [t] + Spell(r, rest))
  {
    hide Operator, Spell;
    OperatorTokens(t);
    InfixSpells(if t.TOp? then t.op else Plus, l, r, rest);
  }

  /** The smallest levels that the operands of an operator may have. */
  function LeftLevel(t: Token): nat {
    if t == TAnd || t == TOr then InfixPrec(t) + 1 else InfixPrec(t)
  }

  function RightLevel(t: Token): nat {
    if t == TAnd || t == TOr then InfixPrec(t) else InfixPrec(t) + 1
  }

  lemma BinaryFits(op: BinaryOp, l: Expr, r: Expr)
    requires WellFormed(l) && WellFormed(r) && Level(l) >= OpPrec(op) && Level(r) > OpPrec(op)
    ensures WellFormed(Binary(op, l, r)) && Level(Binary(op, l, r)) == OpPrec(op)
  {
  }

  lemma AndFits(l: Expr, r: Expr)
    requires WellFormed(l) && WellFormed(r) && Level(l) > PREC_AND && Level(r) >= PREC_AND
    ensures WellFormed(And(l, r)) && Level(And(l, r)) == PREC_AND
  {
  }

  lemma OrFits(l: Expr, r: Expr)
    requires WellFormed(l) && WellFormed(r) && Level(l) > PREC_OR && Level(r) >= PREC_OR
    ensures WellFormed(Or(l, r)) && Level(Or(l, r)) == PREC_OR
  {
  }

  lemma ApplyFits(t: Token, l: Expr, r: Expr)
    requires Operator(t) && WellFormed(l) && WellFormed(r) && Level(l) >= LeftLevel(t) && Level(r) >= RightLevel(t)
    ensures WellFormed(Apply(t, l, r)) && Level(Apply(t, l, r)) == InfixPrec(t)
  {
    hide Operator, OpPrec, WellFormed, Level;
    OperatorTokens(t);
    if t.TOp? {
      BinaryFits(t.op, l, r);
    } else if t == TAnd {
      AndFits(l, r);
    } else {
      OrFits(l, r);
    }
  }

  /** The table of precedences has the classes in this order. */
  lemma Rows(t: Token)
    requires Operator(t)
    ensures InfixPrec(t) ==
      if Product(t) then PREC_FACTOR else if Sum(t) then PREC_TERM else if Comparison(t) then PREC_COMPARISON
      else if Equality(t) then PREC_EQUALITY else if t == TAnd then PREC_AND else PREC_OR
  {
    match t
    case TOp(op) => assert InfixPrec(t) == OpPrec(op);
    case _ =>
  }

  lemma Order(t: Token, u: Token)
    requires Operator(t) && Operator(u)
    ensures LeftLevel(t) <= PREC_UNARY && RightLevel(t) <= PREC_UNARY
    ensures if RightFirst(t, u) then InfixPrec(u) >= RightLevel(t) else InfixPrec(t) >= LeftLevel(u)
  {
    hide InfixPrec, Product, Sum, Comparison, Equality;
    Rows(t);
    Rows(u);
    OneClass(t);
    OneClass(u);
  }

  lemma OneClass(t: Token)
    ensures Product(t) ==> !Sum(t) && !Comparison(t) && !Equality(t) && t.TOp?
    ensures Sum(t) ==> !Comparison(t) && !Equality(t) && t.TOp?
    ensures Comparison(t) ==> !Equality(t) && t.TOp?
    ensures Equality(t) ==> t.TOp?
  {
  }

  /** The tokens a t b u c are a t (b u c) if the right operator takes b, and else (a t b) u c. */
  lemma TwoOperators(t: Token, u: Token, a: Expr, b: Expr, c: Expr, rest: seq<Token>)
    requires Operator(t) && Operator(u) && Operand(a) && Operand(b) && Operand(c) && Ends(rest)
    ensures P.ParsePrecedence(Spell(a, [t] + Spell(b, [u] + Spell(c, rest))), PREC_ASSIGNMENT) ==
      P.Got(if RightFirst(t, u) then Apply(t, a, Apply(u, b, c)) else Apply(u, Apply(t, a, b), c), rest)
  {
    hide P.ParsePrecedence, Apply, Spell, WellFormed, Level, Operator, InfixPrec, RightFirst, LeftLevel, RightLevel;
    OperandBinds(a);
    OperandBinds(b);
    OperandBinds(c);
    Order(t, u);
    Order(u, t);
    if RightFirst(t, u) {
      ApplyFits(u, b, c);
      ApplyFits(t, a, Apply(u, b, c));
      ApplySpells(t, a, Apply(u, b, c), rest);
      ApplySpells(u, b, c, rest);
      ReadBack(Apply(t, a, Apply(u, b, c)), rest);
    } else {
      ApplyFits(t, a, b);
      ApplyFits(u, Apply(t, a, b), c);
      ApplySpells(u, Apply(t, a, b), c, rest);
      ApplySpells(t, a, b, [u] + Spell(c, rest));
      ReadBack(Apply(u, Apply(t, a, b), c), rest);
    }
  }

  lemma UnaryFits(op: UnaryOp, a: Expr, t: Token, b: Expr)
    requires Operator(t) && Operand(a) && Operand(b)
    ensures WellFormed(Apply(t, Unary(op, a), b)) && WellFormed(Apply(t, a, b))
  {
    hide Apply, Operator, InfixPrec, RightFirst, LeftLevel, RightLevel;
    OperandBinds(a);
    OperandBinds(b);
    Order(t, t);
    assert Operand(Unary(op, a));
    OperandBinds(Unary(op, a));
    ApplyFits(t, Unary(op, a), b);
    ApplyFits(t, a, b);
  }

  /** A prefix takes just the operand behind it. */
  lemma PrefixBindsTightest(t: Token, a: Expr, b: Expr, rest: seq<Token>)
    requires Operator(t) && Operand(a) && Operand(b) && Ends(rest)
    ensures P.ParsePrecedence([TBang] + Spell(a, [t] + Spell(b, rest)), PREC_ASSIGNMENT) ==
      P.Got(Apply(t, Unary(Not, a), b), rest)
    ensures P.ParsePrecedence([TOp(Minus)] + Spell(a, [t] + Spell(b, rest)), PREC_ASSIGNMENT) ==
      P.Got(Apply(t, Unary(Negate, a), b), rest)
  {
    hide P.ParsePrecedence, Apply, WellFormed, Operator, Operand;
    UnaryFits(Not, a, t, b);
    UnaryFits(Negate, a, t, b);
    ApplySpells(t, Unary(Not, a), b, rest);
    ApplySpells(t, Unary(Negate, a), b, rest);
    ReadBack(Apply(t, Unary(Not, a), b), rest);
    ReadBack(Apply(t, Unary(Negate, a), b), rest);
  }

  /** An assignment takes everything behind it, ... */
  lemma AssignmentBindsLoosest(t: Token, x: Name, a: Expr, b: Expr, rest: seq<Token>)
    requires Operator(t) && Operand(a) && Operand(b) && Ends(rest)
    ensures P.ParsePrecedence([TIdentifier(x), TEqual] + Spell(a, [t] + Spell(b, rest)), PREC_ASSIGNMENT) ==
      P.Got(Assign(x, Apply(t, a, b)), rest)
  {
    hide P.ParsePrecedence, Apply, Operator, Operand, Product, Sum;
    UnaryFits(Not, a, t, b);
    ApplySpells(t, a, b, rest);
    var e := Apply(t, a, b);
    assert Spell(Assign(x, e), rest) == [TIdentifier(x), TEqual] + Spell(e, rest);
    ReadBack(Assign(x, e), rest);
  }

  /** ... and cannot stand behind an operator. */
  lemma NoAssignmentBehind(t: Token, x: Name, a: Expr, rest: seq<Token>)
    requires Operator(t) && Operand(a)
    ensures P.ParsePrecedence(Spell(a, [t] + ([TIdentifier(x)] + ([TEqual] + rest))), PREC_ASSIGNMENT).Fail?
  {
    hide P.ParsePrecedence, Spell, WellFormed, Level, Operand, Operator, OpPrec, Product, Sum, Comparison, Equality;
    OperatorTokens(t);
    Rows(t);
    OperandBinds(a);
    var value := [TEqual] + rest;
    var right := [TIdentifier(x)] + value;
    OperandThen(t, a, right);
    NameOnly(t, x, value);
    assert ([t] + right)[1..] == right;
    assert P.Infix(a, [t] + right) == P.Got(Apply(t, a, Var(x)), value);
  }

  lemma OperandThen(t: Token, a: Expr, right: seq<Token>)
    requires Operator(t) && WellFormed(a) && Level(a) >= PREC_UNARY
    ensures P.ParsePrecedence(Spell(a, [t] + right), PREC_ASSIGNMENT) == P.Infixes(a, [t] + right, PREC_ASSIGNMENT)
  {
    hide P.ParsePrecedence, P.Infixes;
    P.ExprComplete(a, PREC_ASSIGNMENT, [t] + right);
  }

  lemma NameOnly(t: Token, x: Name, value: seq<Token>)
    requires Operator(t) && value != [] && value[0] == TEqual
    ensures P.ParsePrecedence([TIdentifier(x)] + value, P.RightPrec(t)) == P.Got(Var(x), value)
  {
    hide P.ParsePrecedence, InfixPrec, Operator, Product, Sum, Comparison, Equality;
    OperatorTokens(t);
    Rows(t);
    NameAbove(P.RightPrec(t), x, value);
  }

  lemma NameAbove(p: nat, x: Name, value: seq<Token>)
    requires p > PREC_ASSIGNMENT && value != [] && value[0] == TEqual
    ensures P.ParsePrecedence([TIdentifier(x)] + value, p) == P.Got(Var(x), value)
  {
    assert ([TIdentifier(x)] + value)[1..] == value;
  }
}
