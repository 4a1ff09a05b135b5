/** Any expression can be written: parentheses where the grammar needs them, and nowhere else. */
module Parens {
  import opened Values
  import opened Syntax
  import opened Codegen
  import P = Parser
  import I = Interpreter

  /** The tree with a group around every operand that does not bind tightly enough. */
  function Grouped(e: Expr, level: nat): (r: Expr)
    ensures Level(r) >= level || level > PREC_PRIMARY
    decreases e, 1
  {
    var inner := Inside(e);
    if Level(inner) >= level then inner else Group(inner)
  }

  function Inside(e: Expr): (r: Expr)
    ensures Level(r) == Level(e)
    decreases e, 0
  {
    match e
    case Assign(x, e) => Assign(x, Grouped(e, PREC_ASSIGNMENT))
    case Unary(op, e) => Unary(op, Grouped(e, PREC_UNARY))
    case Binary(op, l, r) => Binary(op, Grouped(l, OpPrec(op)), Grouped(r, OpPrec(op) + 1))
    case And(l, r) => And(Grouped(l, PREC_AND + 1), Grouped(r, PREC_AND))
    case Or(l, r) => Or(Grouped(l, PREC_OR + 1), Grouped(r, PREC_OR))
    case Group(e) => Group(Grouped(e, PREC_ASSIGNMENT))
    case _ => e
  }

  lemma {:induction false} GroupedWellFormed(e: Expr, level: nat)
    ensures WellFormed(Grouped(e, level))
    decreases e, 1
  {
    InsideWellFormed(e);
  }

  lemma {:induction false} InsideWellFormed(e: Expr)
    ensures WellFormed(Inside(e))
    decreases e, 0
  {
    hide Grouped;
    match e
    case Assign(_, e1) => GroupedWellFormed(e1, PREC_ASSIGNMENT);
    case Unary(_, e1) => GroupedWellFormed(e1, PREC_UNARY);
    case Binary(op, l, r) => GroupedWellFormed(l, OpPrec(op)); GroupedWellFormed(r, OpPrec(op) + 1);
    case And(l, r) => GroupedWellFormed(l, PREC_AND + 1); GroupedWellFormed(r, PREC_AND);
    case Or(l, r) => GroupedWellFormed(l, PREC_OR + 1); GroupedWellFormed(r, PREC_OR);
    case Group(e1) => GroupedWellFormed(e1, PREC_ASSIGNMENT);
    case _ =>
  }

  /** No parentheses are added to a tree that can be written as it is. */
  lemma {:induction false} NothingNeeded(e: Expr, level: nat)
    requires WellFormed(e) && Level(e) >= level
    ensures Grouped(e, level) == e
    decreases e, 1
  {
    NothingInside(e);
  }

  lemma {:induction false} NothingInside(e: Expr)
    requires WellFormed(e)
    ensures Inside(e) == e
    decreases e, 0
  {
    hide Grouped;
    match e
    case Assign(_, e1) => NothingNeeded(e1, PREC_ASSIGNMENT);
    case Unary(_, e1) => NothingNeeded(e1, PREC_UNARY);
    case Binary(op, l, r) => NothingNeeded(l, OpPrec(op)); NothingNeeded(r, OpPrec(op) + 1);
    case And(l, r) => NothingNeeded(l, PREC_AND + 1); NothingNeeded(r, PREC_AND);
    case Or(l, r) => NothingNeeded(l, PREC_OR + 1); NothingNeeded(r, PREC_OR);
    case Group(e1) => NothingNeeded(e1, PREC_ASSIGNMENT);
    case _ =>
  }

  /** Parentheses emit nothing. */
  lemma {:induction false} GroupedCode(e: Expr, level: nat, sc: Scope)
    ensures GenExpr(Grouped(e, level), sc) == GenExpr(e, sc)
    decreases e, 1
  {
    InsideCode(e, sc);
  }

  lemma {:induction false} InsideCode(e: Expr, sc: Scope)
    ensures GenExpr(Inside(e), sc) == GenExpr(e, sc)
    decreases e, 0
  {
    hide Extended, Operated, AndTail, OrTail, GenWrite, Resolve, Grows, Grouped;
    match e
    case Assign(x, e1) =>
      var p := Resolve(sc, x);
      if p.Some? {
        GroupedCode(e1, PREC_ASSIGNMENT, p.value.scope);
      }
    case Unary(_, e1) => GroupedCode(e1, PREC_UNARY, sc);
    case Binary(op, l, r) =>
      GroupedCode(l, OpPrec(op), sc);
      if GenExpr(l, sc).Code? {
        GroupedCode(r, OpPrec(op) + 1, GenExpr(l, sc).scope);
      }
    case And(l, r) =>
      GroupedCode(l, PREC_AND + 1, sc);
      if GenExpr(l, sc).Code? {
        GroupedCode(r, PREC_AND, GenExpr(l, sc).scope);
      }
    case Or(l, r) =>
      GroupedCode(l, PREC_OR + 1, sc);
      if GenExpr(l, sc).Code? {
        GroupedCode(r, PREC_OR, GenExpr(l, sc).scope);
      }
    case Group(e1) => GroupedCode(e1, PREC_ASSIGNMENT, sc);
    case _ =>
  }

  /** Parentheses mean nothing. */
  lemma {:induction false} GroupedMeaning(fp: Arith, e: Expr, level: nat, w: I.World)
    ensures I.Eval(fp, Grouped(e, level), w) == I.Eval(fp, e, w)
    decreases e, 1
  {
    InsideMeaning(fp, e, w);
  }

  lemma {:induction false} InsideMeaning(fp: Arith, e: Expr, w: I.World)
    ensures I.Eval(fp, Inside(e), w) == I.Eval(fp, e, w)
    decreases e, 0
  {
    hide Grouped;
    match e
    case Assign(_, e1) => GroupedMeaning(fp, e1, PREC_ASSIGNMENT, w);
    case Unary(_, e1) => GroupedMeaning(fp, e1, PREC_UNARY, w);
    case Binary(op, l, r) =>
      GroupedMeaning(fp, l, OpPrec(op), w);
      GroupedMeaning(fp, r, OpPrec(op) + 1, I.Eval(fp, l, w).w);
    case And(l, r) =>
      GroupedMeaning(fp, l, PREC_AND + 1, w);
      GroupedMeaning(fp, r, PREC_AND, I.Eval(fp, l, w).w);
    case Or(l, r) =>
      GroupedMeaning(fp, l, PREC_OR + 1, w);
      GroupedMeaning(fp, r, PREC_OR, I.Eval(fp, l, w).w);
    case Group(e1) => GroupedMeaning(fp, e1, PREC_ASSIGNMENT, w);
    case _ =>
  }

  /** Every tree, written with the parentheses it needs, is read back as that tree, to the
      last token, and compiles to the code of the tree. */
  lemma WrittenIsRead(e: Expr, rest: seq<Token>, sc: Scope)
    requires InfixPrec(P.Peek(rest)) == PREC_NONE && P.Peek(rest) != TEqual
    ensures var written := Grouped(e, PREC_ASSIGNMENT);
      && P.ParsePrecedence(Spell(written, rest), PREC_ASSIGNMENT) == P.Got(written, rest)
      && GenExpr(written, sc) == GenExpr(e, sc)
  {
    GroupedWellFormed(e, PREC_ASSIGNMENT);
    GroupedCode(e, PREC_ASSIGNMENT, sc);
    P.ExprComplete(Grouped(e, PREC_ASSIGNMENT), PREC_ASSIGNMENT, rest);
  }
}
