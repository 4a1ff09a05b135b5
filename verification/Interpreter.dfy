/** What a program of the fragment means: a tree interpreter in which every variable is
    looked up by name in nested scopes. It knows nothing of slots, addresses or bytes. */
module Interpreter {
  import opened Values
  import opened Syntax

  type Env = map<string, Value>

  /** `scopes` are the local scopes, innermost last. */
  datatype World = World(globals: Env, scopes: seq<Env>, output: seq<Value>)

  datatype Evaluated = Value(v: Value, w: World) | Failed(w: World)

  /** OutOfFuel: some loop went round more than `fuel` times. */
  datatype Executed = Done(w: World) | Error(w: World) | OutOfFuel

  /** The number of the innermost scope that has `x`, or None. */
  function ScopeOf(scopes: seq<Env>, x: Name): (r: Option<nat>)
    ensures r.Some? ==> r.value < |scopes| && x in scopes[r.value] && (forall d :: r.value < d < |scopes| ==>
        x !in scopes[d])
    ensures r.None? ==> forall d :: 0 <= d < |scopes| ==> x !in scopes[d]
  {
    if scopes == [] then None
    else if x in scopes[|scopes| - 1] then Some(|scopes| - 1)
    else ScopeOf(scopes[..|scopes| - 1], x)
  }

  function ReadVar(w: World, x: Name): Option<Value> {
    match ScopeOf(w.scopes, x)
    case Some(d) => Some(w.scopes[d][x])
    case None => if x in w.globals then Some(w.globals[x]) else None
  }

  function WriteVar(w: World, x: Name, v: Value): Option<World> {
    match ScopeOf(w.scopes, x)
    case Some(d) => Some(w.(scopes := w.scopes[d := w.scopes[d][x := v]]))
    case None => if x in w.globals then Some(w.(globals := w.globals[x := v])) else None
  }

  /** A declaration makes a new variable of the innermost scope. */
  function Declare(w: World, x: Name, v: Value): World {
    if w.scopes == [] then w.(globals := w.globals[x := v])
    else
      var d := |w.scopes| - 1;
      w.(scopes := w.scopes[d := w.scopes[d][x := v]])
  }

  function EvalUnary(fp: Arith, op: UnaryOp, v: Value): Option<Value> {
    match op
    case Not => Some(Bool(IsFalsey(v)))
    case Negate => if v.Number? then Some(Number(fp.neg(v.n))) else None
  }

  function EvalBinary(fp: Arith, op: BinaryOp, l: Value, r: Value): Option<Value> {
    match op
    case EqualEqual => Some(Bool(ValuesEqual(fp, l, r)))
    case NotEqual => Some(Bool(!ValuesEqual(fp, l, r)))
    case Plus =>
      if l.Str? && r.Str? then Some(Str(l.s + r.s))
      else if l.Number? && r.Number? then Some(Number(fp.add(l.n, r.n)))
      else None
    case Greater => OnNumbers(l, r, (a, b) => Bool(fp.gt(a, b)))
    case GreaterEqual => OnNumbers(l, r, (a, b) => Bool(fp.ge(a, b)))
    case Less => OnNumbers(l, r, (a, b) => Bool(fp.lt(a, b)))
    case LessEqual => OnNumbers(l, r, (a, b) => Bool(fp.le(a, b)))
    case Minus => OnNumbers(l, r, (a, b) => Number(fp.sub(a, b)))
    case Star => OnNumbers(l, r, (a, b) => Number(fp.mul(a, b)))
    case Slash => OnNumbers(l, r, (a, b) => Number(fp.div(a, b)))
  }

  function OnNumbers(l: Value, r: Value, op: (Num, Num) -> Value): Option<Value> {
    if l.Number? && r.Number? then Some(op(l.n, r.n)) else None
  }

  function Eval(fp: Arith, e: Expr, w: World): Evaluated
    decreases e
  {
    match e
    case NilLit => Value(Nil, w)
    case BoolLit(b) => Value(Bool(b), w)
    case NumLit(n) => Value(Number(n), w)
    case StrLit(s) => Value(Str(s), w)
    case Var(x) => (
      match ReadVar(w, x)
      case Some(v) => Value(v, w)
      case None => Failed(w))
    case Assign(x, e) => (
      match Eval(fp, e, w)
      case Failed(w1) => Failed(w1)
      case Value(v, w1) =>
        match WriteVar(w1, x, v)
        case Some(w2) => Value(v, w2)
        case None => Failed(w1))
    case Unary(op, e) => (
      match Eval(fp, e, w)
      case Failed(w1) => Failed(w1)
      case Value(v, w1) =>
        match EvalUnary(fp, op, v)
        case Some(u) => Value(u, w1)
        case None => Failed(w1))
    case Binary(op, l, r) => (
      match Eval(fp, l, w)
      case Failed(w1) => Failed(w1)
      case Value(lv, w1) =>
        match Eval(fp, r, w1)
        case Failed(w2) => Failed(w2)
        case Value(rv, w2) =>
          match EvalBinary(fp, op, lv, rv)
          case Some(v) => Value(v, w2)
          case None => Failed(w2))
    case And(l, r) => (
      match Eval(fp, l, w)
      case Failed(w1) => Failed(w1)
      case Value(v, w1) => if IsFalsey(v) then Value(v, w1) else Eval(fp, r, w1))
    case Or(l, r) => (
      match Eval(fp, l, w)
      case Failed(w1) => Failed(w1)
      case Value(v, w1) => if IsFalsey(v) then Eval(fp, r, w1) else Value(v, w1))
    case Group(e) => Eval(fp, e, w)
  }

  function PushScope(w: World): World {
    w.(scopes := w.scopes + [map[]])
  }

  function PopScope(w: World): World {
    if w.scopes == [] then w else w.(scopes := w.scopes[..|w.scopes| - 1])
  }

  function LeaveScope(r: Executed): Executed {
    if r.Done? then Done(PopScope(r.w)) else r
  }

  function ExecOpt(fp: Arith, e: Option<Expr>, w: World): Executed {
    match e
    case None => Done(w)
    case Some(e) =>
      match Eval(fp, e, w)
      case Value(_, w1) => Done(w1)
      case Failed(w1) => Error(w1)
  }

  function Execute(fp: Arith, s: Stmt, w: World, fuel: nat): Executed
    decreases fuel, s, 1
  {
    match s
    case ExprStmt(e) => ExecOpt(fp, Some(e), w)
    case Print(e) => (
      match Eval(fp, e, w)
      case Value(v, w1) => Done(w1.(output := w1.output + [v]))
      case Failed(w1) => Error(w1))
    case VarDecl(_, x, None) => Done(Declare(w, x, Nil))
    case VarDecl(_, x, Some(e)) => (
      match Eval(fp, e, w)
      case Value(v, w1) => Done(Declare(w1, x, v))
      case Failed(w1) => Error(w1))
    case Block(body) => LeaveScope(ExecuteAll(fp, body, PushScope(w), fuel))
    case If(c, thn, els) => (
      match Eval(fp, c, w)
      case Failed(w1) => Error(w1)
      case Value(v, w1) =>
        if !IsFalsey(v) then Execute(fp, thn, w1, fuel)
        else if els.Some? then Execute(fp, els.value, w1, fuel)
        else Done(w1))
    case While(c, loop) => Iterate(fp, s, Some(c), None, loop, w, fuel)
    case For(first, cond, incr, loop) =>
      match if first.Some? then Execute(fp, first.value, PushScope(w), fuel) else Done(PushScope(w))
      case Done(w1) => LeaveScope(Iterate(fp, s, cond, incr, loop, w1, fuel))
      case r => r
  }

  /** Test, body, increment, again. `s` is the loop statement itself. */
  function Iterate(fp: Arith, s: Stmt, cond: Option<Expr>, incr: Option<Expr>, loop: Stmt, w: World,
      fuel: nat): Executed
    requires loop < s
    decreases fuel, s, 0
  {
    match if cond.Some? then Eval(fp, cond.value, w) else Value(Bool(true), w)
    case Failed(w1) => Error(w1)
    case Value(v, w1) =>
      if IsFalsey(v) then Done(w1) else
      match Execute(fp, loop, w1, fuel)
      case Done(w2) => (
        match ExecOpt(fp, incr, w2)
        case Done(w3) => if fuel == 0 then OutOfFuel else Iterate(fp, s, cond, incr, loop, w3, fuel - 1)
        case r => r)
      case r => r
  }

  function ExecuteAll(fp: Arith, ss: Stmts, w: World, fuel: nat): Executed
    decreases fuel, ss
  {
    match ss
    case Empty => Done(w)
    case Cons(s, rest) =>
      match Execute(fp, s, w, fuel)
      case Done(w1) => ExecuteAll(fp, rest, w1, fuel)
      case r => r
  }
}
