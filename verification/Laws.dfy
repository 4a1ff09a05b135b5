/** What programs mean, as laws that a reader can check against the language: what is true, what
    is equal, what the operators compute, and what a variable is. They hold for the tree
    interpreter and, by the theorems about compiled code, for the code. */
module Laws {
  import opened Values
  import opened Syntax
  import opened Bytecode
  import opened Codegen
  import opened Machine
  import opened ExprCorrect
  import opened StmtCorrect
  import I = Interpreter

  // ----- what is true -----

  /** Only nil and false make `if` take its else branch. */
  lemma IfTruth(fp: Arith, c: Expr, thn: Stmt, els: Option<Stmt>, w: I.World, v: Value, w1: I.World, fuel: nat)
    requires I.Eval(fp, c, w) == I.Value(v, w1)
    ensures I.Execute(fp, If(c, thn, els), w, fuel) ==
      if v != Nil && v != Bool(false) then I.Execute(fp, thn, w1, fuel)
      else if els.Some? then I.Execute(fp, els.value, w1, fuel)
      else I.Done(w1)
  {
  }

  /** A loop goes round unless its test is nil or false. */
  lemma WhileTruth(fp: Arith, c: Expr, loop: Stmt, w: I.World, v: Value, w1: I.World, fuel: nat)
    requires I.Eval(fp, c, w) == I.Value(v, w1)
    ensures I.Execute(fp, While(c, loop), w, fuel) ==
      if v == Nil || v == Bool(false) then I.Done(w1)
      else
        match I.Execute(fp, loop, w1, fuel)
        case Done(w2) => if fuel == 0 then I.OutOfFuel else I.Execute(fp, While(c, loop), w2, fuel - 1)
        case r => r
  {
  }

  /** `and` and `or` keep the deciding value, `!` gives true for nil and false alone. */
  lemma LogicTruth(fp: Arith, l: Expr, r: Expr, w: I.World, v: Value, w1: I.World)
    requires I.Eval(fp, l, w) == I.Value(v, w1)
    ensures I.Eval(fp, And(l, r), w) == if v == Nil || v == Bool(false) then I.Value(v, w1) else I.Eval(fp, r, w1)
    ensures I.Eval(fp, Or(l, r), w) == if v == Nil || v == Bool(false) then I.Eval(fp, r, w1) else I.Value(v, w1)
    ensures I.Eval(fp, Unary(UnaryOp.Not, l), w) == I.Value(Bool(v == Nil || v == Bool(false)), w1)
  {
  }

  /** Running the code of an `if`: exactly one branch, by the value of the test. */
  lemma IfCode(t: Target, c: Expr, thn: Stmt, els: Option<Stmt>, sc: Scope, vm: Vm, w: I.World, v: Value,
      w1: I.World, fuel: nat) returns (k: nat, vm1: Vm)
    requires var s := If(c, thn, els);
      AtRest(t, sc, vm, w) && WellFormedStmt(s, true) && Ready(t, GenStmt(s, sc), vm.pc)
    requires I.Eval(t.fp, c, w) == I.Value(v, w1)
    ensures var g := GenStmt(If(c, thn, els), sc);
      Runs(t, g.scope, vm, |g.bytes|, k, vm1,
        if v != Nil && v != Bool(false) then I.Execute(t.fp, thn, w1, fuel)
        else if els.Some? then I.Execute(t.fp, els.value, w1, fuel)
        else I.Done(w1), fuel)
  {
    hide Runs, AtRest, Ready, GenStmt, I.Execute;
    IfTruth(t.fp, c, thn, els, w, v, w1, fuel);
    k, vm1 := StmtRuns(t, If(c, thn, els), sc, vm, w, fuel);
  }

  /** Running the code of a loop whose test is nil or false does nothing more; whose body ends
      once goes on with the loop. */
  lemma WhileCode(t: Target, c: Expr, loop: Stmt, sc: Scope, vm: Vm, w: I.World, v: Value, w1: I.World, fuel: nat)
      returns (k: nat, vm1: Vm)
    requires var s := While(c, loop);
      AtRest(t, sc, vm, w) && WellFormedStmt(s, true) && Ready(t, GenStmt(s, sc), vm.pc)
    requires I.Eval(t.fp, c, w) == I.Value(v, w1)
    ensures var g := GenStmt(While(c, loop), sc);
      Runs(t, g.scope, vm, |g.bytes|, k, vm1,
        if v == Nil || v == Bool(false) then I.Done(w1)
        else
          match I.Execute(t.fp, loop, w1, fuel)
          case Done(w2) => if fuel == 0 then I.OutOfFuel else I.Execute(t.fp, While(c, loop), w2, fuel - 1)
          case r => r, fuel)
  {
    hide Runs, AtRest, Ready, GenStmt, I.Execute;
    WhileTruth(t.fp, c, loop, w, v, w1, fuel);
    k, vm1 := StmtRuns(t, While(c, loop), sc, vm, w, fuel);
  }

  lemma AndCode(t: Target, l: Expr, r: Expr, sc: Scope, vm: Vm, w: I.World, v: Value, w1: I.World)
      returns (k: nat, vm1: Vm)
    requires Ready(t, GenExpr(And(l, r), sc), vm.pc) && Mirrors(t, sc, vm, w) && I.Eval(t.fp, l, w) == I.Value(v, w1)
    ensures Evaluates(t, sc, vm, |GenExpr(And(l, r), sc).bytes|, k, vm1,
      if v == Nil || v == Bool(false) then I.Value(v, w1) else I.Eval(t.fp, r, w1))
  {
    hide Evaluates, Mirrors, Ready, GenExpr, I.Eval;
    LogicTruth(t.fp, l, r, w, v, w1);
    k, vm1 := ExprRuns(t, And(l, r), sc, vm, w);
  }

  lemma OrCode(t: Target, l: Expr, r: Expr, sc: Scope, vm: Vm, w: I.World, v: Value, w1: I.World)
      returns (k: nat, vm1: Vm)
    requires Ready(t, GenExpr(Or(l, r), sc), vm.pc) && Mirrors(t, sc, vm, w) && I.Eval(t.fp, l, w) == I.Value(v, w1)
    ensures Evaluates(t, sc, vm, |GenExpr(Or(l, r), sc).bytes|, k, vm1,
      if v == Nil || v == Bool(false) then I.Eval(t.fp, r, w1) else I.Value(v, w1))
  {
    hide Evaluates, Mirrors, Ready, GenExpr, I.Eval;
    LogicTruth(t.fp, l, r, w, v, w1);
    k, vm1 := ExprRuns(t, Or(l, r), sc, vm, w);
  }

  lemma NotCode(t: Target, e: Expr, sc: Scope, vm: Vm, w: I.World, v: Value, w1: I.World) returns (k: nat, vm1: Vm)
    requires Ready(t, GenExpr(Unary(UnaryOp.Not, e), sc), vm.pc) && Mirrors(t, sc, vm, w)
    requires I.Eval(t.fp, e, w) == I.Value(v, w1)
    ensures Evaluates(t, sc, vm, |GenExpr(Unary(UnaryOp.Not, e), sc).bytes|, k, vm1,
      I.Value(Bool(v == Nil || v == Bool(false)), w1))
  {
    hide Evaluates, Mirrors, Ready, GenExpr, I.Eval;
    LogicTruth(t.fp, e, e, w, v, w1);
    k, vm1 := ExprRuns(t, Unary(UnaryOp.Not, e), sc, vm, w);
  }

  /** The machine itself: the conditional jump leaves the value and jumps on nil and false alone. */
  lemma BranchTruth(fp: Arith, chunk: Chunk, vm: Vm, v: Value, dist: nat)
    requires CodeAt(chunk.code, vm.pc, EmitBranch(JumpIfFalse, dist)) && dist < 65536
    ensures RunFor(fp, chunk, Running(vm.(stack := vm.stack + [v])), 1) ==
      Running(vm.(stack := vm.stack + [v], pc := vm.pc + 3 + if v == Nil || v == Bool(false) then dist else 0))
  {
    hide CodeAt, EmitBranch, RunFor;
    StepBranch(fp, chunk, vm.(stack := vm.stack + [v]), JumpIfFalse, dist);
  }

  lemma NotTruth(fp: Arith, chunk: Chunk, vm: Vm, v: Value)
    requires CodeAt(chunk.code, vm.pc, EmitPlain(Simple.Not))
    ensures RunFor(fp, chunk, Running(vm.(stack := vm.stack + [v])), 1) ==
      Running(vm.(stack := vm.stack + [Bool(v == Nil || v == Bool(false))], pc := vm.pc + 1))
  {
    hide CodeAt, EmitPlain, RunFor;
    StepPlain(fp, chunk, vm.(stack := vm.stack + [v]), Simple.Not);
    assert (vm.stack + [v])[..|vm.stack|] == vm.stack;
  }

  // ----- what is equal -----

  /** Numbers are equal as the floating point unit says, strings when their characters are,
      other values only to themselves, and values of different kinds never. */
  ghost predicate Same(fp: Arith, a: Value, b: Value) {
    match (a, b)
    case (Nil, Nil) => true
    case (Bool(p), Bool(q)) => p == q
    case (Number(m), Number(n)) => fp.eq(m, n)
    case (Str(s), Str(u)) => |s| == |u| && forall i :: 0 <= i < |s| ==> s[i] == u[i]
    case (Object(i), Object(j)) => i == j
    case _ => false
  }

  lemma EqualityLaw(fp: Arith, a: Value, b: Value)
    ensures I.EvalBinary(fp, EqualEqual, a, b) == Some(Bool(Same(fp, a, b)))
    ensures I.EvalBinary(fp, BinaryOp.NotEqual, a, b) == Some(Bool(!Same(fp, a, b)))
  {
    if a.Str? && b.Str? && Same(fp, a, b) {
      assert a.s == b.s;
    }
  }

  /** The machine itself, which has the right operand on top. */
  lemma EqualTruth(fp: Arith, chunk: Chunk, vm: Vm, a: Value, b: Value)
    requires CodeAt(chunk.code, vm.pc, EmitPlain(Simple.Equal)) && SymmetricEq(fp)
    ensures RunFor(fp, chunk, Running(vm.(stack := vm.stack + [a, b])), 1) ==
      Running(vm.(stack := vm.stack + [Bool(Same(fp, a, b))], pc := vm.pc + 1))
  {
    hide CodeAt, EmitPlain, RunFor;
    StepPlain(fp, chunk, vm.(stack := vm.stack + [a, b]), Simple.Equal);
    EqualityLaw(fp, a, b);
    assert (vm.stack + [a, b])[..|vm.stack|] == vm.stack;
  }

  // ----- what the operators compute -----

  /** On numbers, the left operand is the one that was evaluated first. */
  lemma NumberLaws(fp: Arith, a: Num, b: Num)
    ensures I.EvalBinary(fp, Plus, Number(a), Number(b)) == Some(Number(fp.add(a, b)))
    ensures I.EvalBinary(fp, BinaryOp.Minus, Number(a), Number(b)) == Some(Number(fp.sub(a, b)))
    ensures I.EvalBinary(fp, Star, Number(a), Number(b)) == Some(Number(fp.mul(a, b)))
    ensures I.EvalBinary(fp, Slash, Number(a), Number(b)) == Some(Number(fp.div(a, b)))
    ensures I.EvalBinary(fp, BinaryOp.Less, Number(a), Number(b)) == Some(Bool(fp.lt(a, b)))
    ensures I.EvalBinary(fp, BinaryOp.LessEqual, Number(a), Number(b)) == Some(Bool(fp.le(a, b)))
    ensures I.EvalBinary(fp, BinaryOp.Greater, Number(a), Number(b)) == Some(Bool(fp.gt(a, b)))
    ensures I.EvalBinary(fp, BinaryOp.GreaterEqual, Number(a), Number(b)) == Some(Bool(fp.ge(a, b)))
    ensures I.EvalUnary(fp, UnaryOp.Negate, Number(a)) == Some(Number(fp.neg(a)))
  {
  }

  /** Strings are put together in order, and that is all that can be computed with anything but
      numbers. */
  lemma OtherLaws(fp: Arith, op: BinaryOp, l: Value, r: Value)
    requires !l.Number? || !r.Number?
    requires op != EqualEqual && op != BinaryOp.NotEqual
    ensures I.EvalBinary(fp, op, l, r) == if op == Plus && l.Str? && r.Str? then Some(Str(l.s + r.s)) else None
    ensures !l.Number? ==> I.EvalUnary(fp, UnaryOp.Negate, l).None?
  {
  }

  // ----- what a variable is -----

  lemma {:induction false} OtherScopes(scopes: seq<I.Env>, x: Name, v: Value, d: nat, y: Name)
    requires d < |scopes| && (y != x || x in scopes[d])
    ensures I.ScopeOf(scopes[d := scopes[d][x := v]], y) == I.ScopeOf(scopes, y)
    decreases |scopes|
  {
    var scopes1 := scopes[d := scopes[d][x := v]];
    if y !in scopes[|scopes| - 1] {
      if d == |scopes| - 1 {
        assert scopes1[..d] == scopes[..d];
      } else {
        assert scopes1[..|scopes| - 1] == scopes[..|scopes| - 1][d := scopes[d][x := v]];
        OtherScopes(scopes[..|scopes| - 1], x, v, d, y);
      }
    }
  }

  /** A declared variable has its value, and no other name changes its meaning. */
  lemma DeclareThenRead(w: I.World, x: Name, v: Value, y: Name)
    ensures I.ReadVar(I.Declare(w, x, v), y) == if y == x then Some(v) else I.ReadVar(w, y)
  {
    if w.scopes != [] {
      var d := |w.scopes| - 1;
      if y != x {
        OtherScopes(w.scopes, x, v, d, y);
      }
    }
  }

  /** An assigned variable has its value, no other name changes, and only what can be read can be
      assigned. */
  lemma WriteThenRead(w: I.World, x: Name, v: Value, y: Name)
    ensures I.WriteVar(w, x, v).Some? <==> I.ReadVar(w, x).Some?
    ensures I.WriteVar(w, x, v).Some? ==>
      I.ReadVar(I.WriteVar(w, x, v).value, y) == if y == x then Some(v) else I.ReadVar(w, y)
  {
    var d := I.ScopeOf(w.scopes, x);
    if d.Some? {
      OtherScopes(w.scopes, x, v, d.value, y);
    }
  }

  /** After a block every name means what it meant before, whatever was declared in the block. */
  lemma ScopeForgets(w: I.World, x: Name, v: Value, y: Name)
    ensures I.ReadVar(I.PushScope(w), y) == I.ReadVar(w, y)
    ensures I.PopScope(I.Declare(I.PushScope(w), x, v)) == w
  {
    var scopes := w.scopes + [map[]];
    assert scopes[..|w.scopes|] == w.scopes;
  }

  /** A variable that is declared without an initializer is nil, and printing appends the value. */
  lemma StatementLaws(fp: Arith, x: Name, readonly: bool, e: Expr, w: I.World, v: Value, w1: I.World, fuel: nat)
    requires I.Eval(fp, e, w) == I.Value(v, w1)
    ensures I.Execute(fp, VarDecl(readonly, x, None), w, fuel) == I.Done(I.Declare(w, x, Nil))
    ensures I.Execute(fp, VarDecl(readonly, x, Some(e)), w, fuel) == I.Done(I.Declare(w1, x, v))
    ensures I.Execute(fp, Stmt.Print(e), w, fuel) == I.Done(w1.(output := w1.output + [v]))
    ensures I.Execute(fp, ExprStmt(e), w, fuel) == I.Done(w1)
  {
  }

  /** Reading a name that nothing defines is an error, and so is assigning it, after the value
      has been computed. */
  lemma VariableLaws(fp: Arith, x: Name, e: Expr, w: I.World)
    ensures I.Eval(fp, Var(x), w) == if I.ReadVar(w, x).Some? then I.Value(I.ReadVar(w, x).value, w) else I.Failed(w)
    ensures I.Eval(fp, e, w).Failed? ==> I.Eval(fp, Assign(x, e), w) == I.Eval(fp, e, w)
    ensures I.Eval(fp, e, w).Value? ==>
      var r := I.Eval(fp, e, w);
      I.Eval(fp, Assign(x, e), w) ==
        if I.ReadVar(r.w, x).Some? then I.Value(r.v, I.WriteVar(r.w, x, r.v).value) else I.Failed(r.w)
  {
    var r := I.Eval(fp, e, w);
    if r.Value? {
      WriteThenRead(r.w, x, r.v, x);
    }
  }

  /** The left operand comes first, and the right one sees what it did. */
  lemma OrderLaw(fp: Arith, op: BinaryOp, l: Expr, r: Expr, w: I.World, v: Value, w1: I.World)
    requires I.Eval(fp, l, w) == I.Value(v, w1)
    ensures I.Eval(fp, r, w1).Failed? ==> I.Eval(fp, Binary(op, l, r), w) == I.Eval(fp, r, w1)
    ensures I.Eval(fp, r, w1).Value? ==>
      var u := I.Eval(fp, r, w1);
      I.Eval(fp, Binary(op, l, r), w) ==
        if I.EvalBinary(fp, op, v, u.v).Some? then I.Value(I.EvalBinary(fp, op, v, u.v).value, u.w) else I.Failed(u.w)
  {
  }

  /** Statements go one after the other until one fails, and a block is a scope around its own. */
  lemma SequenceLaws(fp: Arith, s: Stmt, rest: Stmts, w: I.World, fuel: nat)
    ensures I.ExecuteAll(fp, Empty, w, fuel) == I.Done(w)
    ensures var r := I.Execute(fp, s, w, fuel);
      I.ExecuteAll(fp, Cons(s, rest), w, fuel) == if r.Done? then I.ExecuteAll(fp, rest, r.w, fuel) else r
    ensures var r := I.ExecuteAll(fp, rest, I.PushScope(w), fuel);
      I.Execute(fp, Block(rest), w, fuel) == if r.Done? then I.Done(I.PopScope(r.w)) else r
  {
  }

  /** `for` is `while` in a scope of its own, with its increment behind the body. */
  lemma ForIsWhile(fp: Arith, c: Expr, loop: Stmt, w: I.World, fuel: nat)
    ensures I.Execute(fp, For(None, Some(c), None, loop), w, fuel) ==
      I.LeaveScope(I.Execute(fp, While(c, loop), I.PushScope(w), fuel))
  {
    SameLoop(fp, For(None, Some(c), None, loop), While(c, loop), Some(c), None, loop, I.PushScope(w), fuel);
  }

  lemma {:induction false} SameLoop(fp: Arith, s: Stmt, s1: Stmt, c: Option<Expr>, incr: Option<Expr>, loop: Stmt,
      w: I.World, fuel: nat)
    requires loop < s && loop < s1
    ensures I.Iterate(fp, s, c, incr, loop, w, fuel) == I.Iterate(fp, s1, c, incr, loop, w, fuel)
    decreases fuel
  {
    hide I.Execute, I.Eval, I.Iterate, I.ExecOpt;
    OneRound(fp, s, c, incr, loop, w, fuel);
    OneRound(fp, s1, c, incr, loop, w, fuel);
    var r := if c.Some? then I.Eval(fp, c.value, w) else I.Value(Bool(true), w);
    if r.Value? && fuel > 0 {
      var r1 := I.Execute(fp, loop, r.w, fuel);
      if r1.Done? {
        var r2 := I.ExecOpt(fp, incr, r1.w);
        if r2.Done? {
          SameLoop(fp, s, s1, c, incr, loop, r2.w, fuel - 1);
        }
      }
    }
  }

  /** A round of a loop, in which a missing test is true. */
  lemma OneRound(fp: Arith, s: Stmt, c: Option<Expr>, incr: Option<Expr>, loop: Stmt, w: I.World, fuel: nat)
    requires loop < s
    ensures I.Iterate(fp, s, c, incr, loop, w, fuel) ==
      match if c.Some? then I.Eval(fp, c.value, w) else I.Value(Bool(true), w)
      case Failed(w1) => I.Error(w1)
      case Value(v, w1) =>
        if v == Nil || v == Bool(false) then I.Done(w1) else
        match I.Execute(fp, loop, w1, fuel)
        case Done(w2) => (
          match I.ExecOpt(fp, incr, w2)
          case Done(w3) => if fuel == 0 then I.OutOfFuel else I.Iterate(fp, s, c, incr, loop, w3, fuel - 1)
          case r => r)
        case r => r
  {
    hide I.Execute, I.Eval, I.ExecOpt;
  }
}
