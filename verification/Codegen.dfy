/** The bytes the compiler emits for a tree, and the compile-time tables it leaves. */
module Codegen {
  import opened Values
  import opened Syntax
  import opened Bytecode

  /** A stack slot. `depth` is -1 from its declaration to the end of its initializer. */
  datatype Local = Local(name: string, depth: int, readonly: bool)

  datatype Global = Global(name: string, readonly: bool)

  /** `narrowed` records that some operand emitted so far does not fit the width that its
      instruction reads. The compiler does not check this. */
  datatype Scope = Scope(
    constants: seq<Value>,
    globals: seq<Global>,
    locals: seq<Local>,
    depth: nat,
    narrowed: bool)

  datatype Gen = Rejected | Code(bytes: seq<Byte>, scope: Scope) {
    predicate IsFailure() { Rejected? }
    function PropagateFailure(): Gen requires Rejected? { Rejected }
    function Extract(): (seq<Byte>, Scope) requires Code? { (bytes, scope) }
  }

  /** The state a script starts in: slot 0 holds the script's own closure. */
  function ScriptScope(globals: seq<Global>): Scope {
    Scope([], globals, [Local("this", 0, true)], 0, false)
  }

  /** The latest local of that name. AddressTable proves its hash index agrees. */
  function ResolveLocal(locals: seq<Local>, x: string): (r: Option<nat>)
    ensures r.Some? ==> r.value < |locals| && locals[r.value].name == x
                        && forall i :: r.value < i < |locals| ==> locals[i].name != x
    ensures r.None? ==> forall i :: 0 <= i < |locals| ==> locals[i].name != x
  {
    if locals == [] then None
    else if locals[|locals| - 1].name == x then Some(|locals| - 1)
    else ResolveLocal(locals[..|locals| - 1], x)
  }

  function FindGlobal(globals: seq<Global>, x: string): (r: Option<nat>)
    ensures r.Some? ==> r.value < |globals| && globals[r.value].name == x
    ensures r.None? ==> forall i :: 0 <= i < |globals| ==> globals[i].name != x
  {
    if globals == [] then None
    else if globals[|globals| - 1].name == x then Some(|globals| - 1)
    else FindGlobal(globals[..|globals| - 1], x)
  }

  /** No global name has two addresses. */
  ghost predicate OneAddress(globals: seq<Global>) {
    forall i, j :: 0 <= i < j < |globals| ==> globals[i].name != globals[j].name
  }

  /** The globals after firstOrMakeGlobal, and the address it returns. */
  function MakeGlobal(globals: seq<Global>, x: string): (r: (seq<Global>, nat))
    ensures r.1 < |r.0| && r.0[r.1].name == x && globals <= r.0
    ensures OneAddress(globals) ==> OneAddress(r.0)
  {
    match FindGlobal(globals, x)
    case Some(addr) => (globals, addr)
    case None => (globals + [Global(x, false)], |globals|)
  }

  // ----- code layouts; every distance is what patchJump or emitLoop computes -----

  /** The compiler reports a jump that does not fit 16 bits. */
  predicate Reach(dist: nat) { dist <= 65535 }

  /** What `and` and `or` emit after their left operand. */
  function AndRest(right: seq<Byte>): (r: seq<Byte>)
    ensures |r| == 4 + |right|
  {
    EmitBranch(JumpIfFalse, 1 + |right|) + (EmitPlain(Pop) + right)
  }

  function OrRest(right: seq<Byte>): (r: seq<Byte>)
    ensures |r| == 7 + |right|
  {
    EmitBranch(JumpIfFalse, 3) + (EmitBranch(Jump, 1 + |right|) + (EmitPlain(Pop) + right))
  }

  function IfBytes(test: seq<Byte>, yes: seq<Byte>, no: seq<Byte>): seq<Byte> {
    test + (EmitBranch(JumpIfFalse, 1 + |yes| + 3)
    + (EmitPlain(Pop) + (yes + (EmitBranch(Jump, 1 + |no|) + (EmitPlain(Pop) + no)))))
  }

  predicate IfReach(yes: seq<Byte>, no: seq<Byte>) {
    Reach(1 + |yes| + 3) && Reach(1 + |no|)
  }

  /** The parts of a loop around its body: the test with its exit jump, and the increment,
      which is emitted in front of the body with a jump around it. */
  function TestSize(test: Option<seq<Byte>>): nat {
    if test.Some? then |test.value| + 4 else 0
  }

  function IncrSize(incr: Option<seq<Byte>>): nat {
    if incr.Some? then 3 + |incr.value| + 1 + 3 else 0
  }

  /** How far the jump at the end of the body goes back. */
  function BodyBack(test: Option<seq<Byte>>, incr: Option<seq<Byte>>, body: seq<Byte>): nat {
    (if incr.Some? then |incr.value| + 1 + 3 else TestSize(test)) + |body| + 3
  }

  function LoopBytes(test: Option<seq<Byte>>, incr: Option<seq<Byte>>, body: seq<Byte>): seq<Byte> {
    if test.Some? then
      test.value + (EmitBranch(JumpIfFalse, 1 + IncrSize(incr) + |body| + 3)
      + (EmitPlain(Pop) + (IncrBytes(test, incr, body) + EmitPlain(Pop))))
    else IncrBytes(test, incr, body)
  }

  function IncrBytes(test: Option<seq<Byte>>, incr: Option<seq<Byte>>, body: seq<Byte>): (r: seq<Byte>)
    ensures |r| == IncrSize(incr) + |body| + 3
  {
    if incr.Some? then
      EmitBranch(Jump, |incr.value| + 1 + 3)
      + (incr.value + (EmitPlain(Pop) + (EmitBranch(Loop, TestSize(test) + IncrSize(incr))
      + BodyBytes(test, incr, body))))
    else BodyBytes(test, incr, body)
  }

  function BodyBytes(test: Option<seq<Byte>>, incr: Option<seq<Byte>>, body: seq<Byte>): seq<Byte> {
    body + EmitBranch(Loop, BodyBack(test, incr, body))
  }

  predicate LoopReach(test: Option<seq<Byte>>, incr: Option<seq<Byte>>, body: seq<Byte>) {
    && (test.Some? ==> Reach(1 + IncrSize(incr) + |body| + 3))
    && (incr.Some? ==> Reach(|incr.value| + 1 + 3) && Reach(TestSize(test) + IncrSize(incr)))
    && Reach(BodyBack(test, incr, body))
  }

  // ----- expressions -----

  function EmitAt(a: Addressed, addr: nat, sc: Scope): (r: Gen)
    ensures r.Code?
  {
    Code(EmitAddress(a, addr), sc.(narrowed := sc.narrowed || !FitsOperand(a, addr)))
  }

  function GenConstant(v: Value, sc: Scope): Gen {
    EmitAt(Constant, |sc.constants|, sc.(constants := sc.constants + [v]))
  }

  /** Where a name lives: its slot or global address, whether it may be assigned,
      and the tables after looking it up. None inside its own initializer. */
  datatype Place = Place(isLocal: bool, addr: nat, readonly: bool, scope: Scope)

  function Resolve(sc: Scope, x: string): Option<Place> {
    match ResolveLocal(sc.locals, x)
    case Some(i) =>
      if sc.locals[i].depth == -1 then None
      else Some(Place(true, i, sc.locals[i].readonly, sc))
    case None =>
      var (globals, addr) := MakeGlobal(sc.globals, x);
      Some(Place(false, addr, globals[addr].readonly, sc.(globals := globals)))
  }

  /** Expressions add constants and globals and leave the locals alone. */
  ghost predicate Grows(sc: Scope, sc1: Scope) {
    && sc.constants <= sc1.constants
    && |sc.globals| <= |sc1.globals|
    && (forall i :: 0 <= i < |sc.globals| ==> sc.globals[i].name == sc1.globals[i].name)
    && (OneAddress(sc.globals) ==> OneAddress(sc1.globals))
    && (sc.narrowed ==> sc1.narrowed)
    && sc.depth == sc1.depth
  }

  function UnarySimple(op: UnaryOp): Simple {
    match op
    case Not => Simple.Not
    case Negate => Simple.Negate
  }

  function BinarySimple(op: BinaryOp): Simple {
    match op
    case NotEqual => Simple.NotEqual
    case EqualEqual => Simple.Equal
    case Greater => Simple.Greater
    case GreaterEqual => Simple.GreaterEqual
    case Less => Simple.Less
    case LessEqual => Simple.LessEqual
    case Plus => Simple.Add
    case Minus => Simple.Subtract
    case Star => Simple.Multiply
    case Slash => Simple.Divide
  }

  /** More code after some. */
  function Extended(g: Gen, tail: Gen): Gen
    requires g.Code?
  {
    if tail.Code? then Code(g.bytes + tail.bytes, tail.scope) else Rejected
  }

  /** An operand and the instruction that consumes it. */
  function Operated(operand: Gen, s: Simple): Gen {
    if operand.Code? then Code(operand.bytes + EmitPlain(s), operand.scope) else Rejected
  }

  function AndTail(right: Gen): Gen {
    if right.Code? && Reach(1 + |right.bytes|) then Code(AndRest(right.bytes), right.scope) else Rejected
  }

  function OrTail(right: Gen): Gen {
    if right.Code? && Reach(1 + |right.bytes|) then Code(OrRest(right.bytes), right.scope) else Rejected
  }

  /** A read of a variable, where it was found. */
  function GenRead(place: Option<Place>): Gen {
    match place
    case None => Rejected
    case Some(p) => EmitAt(if p.isLocal then GetLocal else GetGlobal, p.addr, p.scope)
  }

  function GenWrite(p: Place, sc: Scope): Gen {
    EmitAt(if p.isLocal then SetLocal else SetGlobal, p.addr, sc)
  }

  function GenExpr(e: Expr, sc: Scope): (r: Gen)
    ensures r.Code? ==> Grows(sc, r.scope) && r.scope.locals == sc.locals
    decreases e, 1
  {
    match e
    case NilLit => Code(EmitPlain(PushNil), sc)
    case BoolLit(b) => Code(EmitPlain(if b then PushTrue else PushFalse), sc)
    case NumLit(n) => GenConstant(Number(n), sc)
    case StrLit(s) => GenConstant(Str(s), sc)
    case Var(x) => GenRead(Resolve(sc, x))
    case Assign(x, e) => GenAssign(x, e, sc)
    case Unary(op, e) => Operated(GenExpr(e, sc), UnarySimple(op))
    case Binary(op, l, r) => GenBinary(op, l, r, sc)
    case And(l, r) => GenAnd(l, r, sc)
    case Or(l, r) => GenOr(l, r, sc)
    case Group(e) => GenExpr(e, sc)
  }

  function GenAssign(x: Name, e: Expr, sc: Scope): (r: Gen)
    ensures r.Code? ==> Grows(sc, r.scope) && r.scope.locals == sc.locals
    decreases Assign(x, e), 0
  {
    match Resolve(sc, x)
    case None => Rejected
    case Some(p) =>
      if p.readonly then Rejected else
      var g := GenExpr(e, p.scope);
      if g.Code? then Extended(g, GenWrite(p, g.scope)) else Rejected
  }

  function GenBinary(op: BinaryOp, l: Expr, r: Expr, sc: Scope): (g: Gen)
    ensures g.Code? ==> Grows(sc, g.scope) && g.scope.locals == sc.locals
    decreases Binary(op, l, r), 0
  {
    var g := GenExpr(l, sc);
    if g.Code? then Extended(g, Operated(GenExpr(r, g.scope), BinarySimple(op))) else Rejected
  }

  function GenAnd(l: Expr, r: Expr, sc: Scope): (g: Gen)
    ensures g.Code? ==> Grows(sc, g.scope) && g.scope.locals == sc.locals
    decreases And(l, r), 0
  {
    var g := GenExpr(l, sc);
    if g.Code? then Extended(g, AndTail(GenExpr(r, g.scope))) else Rejected
  }

  function GenOr(l: Expr, r: Expr, sc: Scope): (g: Gen)
    ensures g.Code? ==> Grows(sc, g.scope) && g.scope.locals == sc.locals
    decreases Or(l, r), 0
  {
    var g := GenExpr(l, sc);
    if g.Code? then Extended(g, OrTail(GenExpr(r, g.scope))) else Rejected
  }

  lemma BinaryUnfolds(op: BinaryOp, l: Expr, r: Expr, sc: Scope)
    ensures GenExpr(Binary(op, l, r), sc) == GenBinary(op, l, r, sc)
  {
    hide GenBinary, Grows;
  }

  lemma AndUnfolds(l: Expr, r: Expr, sc: Scope)
    ensures GenExpr(And(l, r), sc) == GenAnd(l, r, sc)
  {
    hide GenAnd, Grows;
  }

  lemma OrUnfolds(l: Expr, r: Expr, sc: Scope)
    ensures GenExpr(Or(l, r), sc) == GenOr(l, r, sc)
  {
    hide GenOr, Grows;
  }

  lemma AssignUnfolds(x: Name, e: Expr, sc: Scope)
    ensures GenExpr(Assign(x, e), sc) == GenAssign(x, e, sc)
  {
    hide GenAssign, Grows;
  }

  // ----- statements -----

  function Pops(n: nat): seq<Byte> {
    if n == 0 then [] else EmitPlain(Pop) + Pops(n - 1)
  }

  /** The locals that outlive the scopes deeper than `depth`. */
  function Outer(locals: seq<Local>, depth: nat): (r: seq<Local>)
    ensures r <= locals
    ensures r != [] ==> r[|r| - 1].depth <= depth
    ensures forall i :: |r| <= i < |locals| ==> locals[i].depth > depth
  {
    if locals == [] || locals[|locals| - 1].depth <= depth then locals
    else Outer(locals[..|locals| - 1], depth)
  }

  lemma OuterStep(locals: seq<Local>, depth: nat)
    ensures Outer(locals, depth) ==
      if locals == [] || locals[|locals| - 1].depth <= depth then locals else Outer(locals[..|locals| - 1], depth)
  {
  }

  /** Between statements every local is readable, scopes are contiguous from the outermost
      in, no scope has a name twice, and slot 0 is the script. */
  ghost predicate Settled(sc: Scope) {
    && |sc.locals| > 0 && sc.locals[0].name == "this" && sc.locals[0].depth == 0
    && (forall i :: 1 <= i < |sc.locals| ==> 1 <= sc.locals[i].depth <= sc.depth)
    && (forall i, j :: 1 <= i < j < |sc.locals| ==> sc.locals[i].depth <= sc.locals[j].depth)
    && (forall i, j :: 1 <= i < j < |sc.locals| && sc.locals[i].name == sc.locals[j].name ==>
          sc.locals[i].depth != sc.locals[j].depth)
  }

  /** A statement keeps the locals but for their readonly marks, and adds only locals of
      the current scope. */
  ghost predicate Keeps(sc: Scope, sc1: Scope) {
    && |sc.locals| <= |sc1.locals|
    && (forall i :: 0 <= i < |sc.locals| ==>
          sc.locals[i].name == sc1.locals[i].name && sc.locals[i].depth == sc1.locals[i].depth)
    && (forall i :: |sc.locals| <= i < |sc1.locals| ==> sc1.locals[i].depth == sc.depth)
  }

  /** All that a statement compiled from `sc` may do to the tables. */
  ghost predicate After(sc: Scope, sc1: Scope) {
    Grows(sc, sc1) && Keeps(sc, sc1) && Settled(sc1)
  }

  /** The two tables have the same locals but for their readonly marks. */
  ghost predicate SameShape(sc: Scope, sc1: Scope) {
    Keeps(sc, sc1) && |sc1.locals| == |sc.locals| && sc1.depth == sc.depth
  }

  lemma AfterTransitive(sc: Scope, sc1: Scope, sc2: Scope)
    requires After(sc, sc1) && After(sc1, sc2)
    ensures After(sc, sc2)
    ensures SameShape(sc, sc1) && SameShape(sc1, sc2) ==> SameShape(sc, sc2)
  {
  }

  lemma AfterExpr(sc: Scope, sc1: Scope)
    requires Settled(sc) && Grows(sc, sc1) && sc1.locals == sc.locals
    ensures After(sc, sc1) && SameShape(sc, sc1)
  {
  }

  function BeginScope(sc: Scope): Scope {
    sc.(depth := sc.depth + 1)
  }

  function EndScope(sc: Scope): (r: Gen)
    requires sc.depth > 0
    ensures r.Code? && Grows(sc, r.scope.(depth := sc.depth)) && r.scope.depth == sc.depth - 1
    ensures Settled(sc) ==> Settled(r.scope)
  {
    var kept := Outer(sc.locals, sc.depth - 1);
    Code(Pops(|sc.locals| - |kept|), sc.(locals := kept, depth := sc.depth - 1))
  }

  /** Leaving a scope that was entered from `sc` pops exactly what was declared in it. */
  lemma ScopeClosed(sc: Scope, sc1: Scope)
    requires Settled(sc) && After(BeginScope(sc), sc1)
    ensures |Outer(sc1.locals, sc.depth)| == |sc.locals|
    ensures After(sc, EndScope(sc1).scope) && SameShape(sc, EndScope(sc1).scope)
  {
    var n := |Outer(sc1.locals, sc.depth)|;
    assert n == |sc1.locals| || sc1.locals[n].depth > sc.depth;
  }

  /** A new local, not yet readable. None if this scope already has the name. */
  function DeclareLocal(sc: Scope, x: string): Option<Scope> {
    match ResolveLocal(sc.locals, x)
    case Some(i) =>
      if sc.locals[i].depth == sc.depth then None
      else Some(sc.(locals := sc.locals + [Local(x, -1, false)]))
    case None => Some(sc.(locals := sc.locals + [Local(x, -1, false)]))
  }

  /** The address addresstableAdd returns for a new local: that of the local it shadows,
      if there is one. */
  function AddedAddress(locals: seq<Local>, x: string): (r: nat)
    ensures r <= |locals|
  {
    match ResolveLocal(locals, x)
    case Some(i) => i
    case None => |locals|
  }

  /** The last local becomes readable, and the local at `addr` becomes constant or not. */
  function DefineLocal(sc: Scope, addr: nat, readonly: bool): Scope
    requires addr < |sc.locals|
  {
    var last := |sc.locals| - 1;
    var locals := sc.locals[last := sc.locals[last].(depth := sc.depth)];
    sc.(locals := locals[addr := locals[addr].(readonly := readonly)])
  }

  lemma LocalDefined(sc: Scope, x: string, sc2: Scope, readonly: bool)
    requires Settled(sc) && sc.depth > 0 && DeclareLocal(sc, x).Some?
    requires Grows(DeclareLocal(sc, x).value, sc2) && sc2.locals == DeclareLocal(sc, x).value.locals
    ensures After(sc, DefineLocal(sc2, AddedAddress(sc.locals, x), readonly))
  {
    hide OneAddress;
  }

  function GenInit(init: Option<Expr>, sc: Scope): (r: Gen)
    ensures r.Code? ==> Grows(sc, r.scope) && r.scope.locals == sc.locals
  {
    if init.Some? then GenExpr(init.value, sc) else Code(EmitPlain(PushNil), sc)
  }

  function GenVar(readonly: bool, x: string, init: Option<Expr>, sc: Scope): (r: Gen)
    requires Settled(sc)
    ensures r.Code? ==> After(sc, r.scope)
  {
    if sc.depth > 0 then GenLocalVar(readonly, x, init, sc) else GenGlobalVar(readonly, x, init, sc)
  }

  function GenLocalVar(readonly: bool, x: string, init: Option<Expr>, sc: Scope): (r: Gen)
    requires Settled(sc) && sc.depth > 0
    ensures r.Code? ==> After(sc, r.scope)
  {
    match DeclareLocal(sc, x)
    case None => Rejected
    case Some(sc1) =>
      var (bytes, sc2) :- GenInit(init, sc1);
      LocalDefined(sc, x, sc2, readonly);
      Code(bytes, DefineLocal(sc2, AddedAddress(sc.locals, x), readonly))
  }

  function GenGlobalVar(readonly: bool, x: string, init: Option<Expr>, sc: Scope): (r: Gen)
    requires Settled(sc)
    ensures r.Code? ==> After(sc, r.scope) && r.scope.locals == sc.locals
  {
    var (globals, addr) := MakeGlobal(sc.globals, x);
    var (bytes, sc1) :- GenInit(init, sc.(globals := globals));
    var marked := sc1.globals[addr := sc1.globals[addr].(readonly := readonly)];
    var define := EmitAt(DefineGlobal, addr, sc1.(globals := marked));
    Code(bytes + define.bytes, define.scope)
  }

  function GenStmt(s: Stmt, sc: Scope): (r: Gen)
    requires Settled(sc)
    ensures r.Code? ==> After(sc, r.scope)
    ensures r.Code? && WellFormedStmt(s, false) ==> SameShape(sc, r.scope)
    decreases s, 2
  {
    hide EmitPlain;
    match s
    case ExprStmt(e) =>
      var (bytes, sc1) :- GenExpr(e, sc);
      AfterExpr(sc, sc1);
      Code(bytes + EmitPlain(Pop), sc1)
    case Print(e) =>
      var (bytes, sc1) :- GenExpr(e, sc);
      AfterExpr(sc, sc1);
      Code(bytes + EmitPlain(Simple.Print), sc1)
    case VarDecl(readonly, x, init) => GenVar(readonly, x, init, sc)
    case Block(body) =>
      var (bytes, sc1) :- GenStmts(body, BeginScope(sc));
      ScopeClosed(sc, sc1);
      Code(bytes + EndScope(sc1).bytes, EndScope(sc1).scope)
    case If(c, thn, els) => GenIf(c, thn, els, sc)
    case While(c, loop) => GenLoop(Some(c), None, loop, sc)
    case For(first, cond, incr, loop) =>
      var (bytes, sc1) :- GenFor(first, cond, incr, loop, BeginScope(sc));
      ScopeClosed(sc, sc1);
      Code(bytes + EndScope(sc1).bytes, EndScope(sc1).scope)
  }

  function GenIf(c: Expr, thn: Stmt, els: Option<Stmt>, sc: Scope): (r: Gen)
    requires Settled(sc)
    ensures r.Code? ==> After(sc, r.scope)
    ensures r.Code? && WellFormedStmt(If(c, thn, els), false) ==> SameShape(sc, r.scope)
    decreases If(c, thn, els), 1
  {
    var (test, sc1) :- GenExpr(c, sc);
    AfterExpr(sc, sc1);
    var (yes, sc2) :- GenStmt(thn, sc1);
    AfterTransitive(sc, sc1, sc2);
    var (no, sc3) :- GenOptional(els, sc2);
    AfterTransitive(sc, sc2, sc3);
    if IfReach(yes, no) then Code(IfBytes(test, yes, no), sc3) else Rejected
  }

  /** A statement that may be missing. */
  function GenOptional(els: Option<Stmt>, sc: Scope): (r: Gen)
    requires Settled(sc)
    ensures r.Code? ==> After(sc, r.scope)
    ensures r.Code? && (els.Some? ==> WellFormedStmt(els.value, false)) ==> SameShape(sc, r.scope)
    decreases els, 0
  {
    if els.Some? then GenStmt(els.value, sc) else (AfterExpr(sc, sc); Code([], sc))
  }

  function GenOpt(e: Option<Expr>, sc: Scope): (r: Gen)
    ensures r.Code? ==> Grows(sc, r.scope) && r.scope.locals == sc.locals
  {
    if e.Some? then GenExpr(e.value, sc) else Code([], sc)
  }

  function Part(e: Option<Expr>, bytes: seq<Byte>): Option<seq<Byte>> {
    if e.Some? then Some(bytes) else None
  }

  function GenLoop(cond: Option<Expr>, incr: Option<Expr>, loop: Stmt, sc: Scope): (r: Gen)
    requires Settled(sc)
    ensures r.Code? ==> After(sc, r.scope)
    ensures r.Code? && WellFormedStmt(loop, false) ==> SameShape(sc, r.scope)
    decreases loop, 3
  {
    var (test, sc1) :- GenOpt(cond, sc);
    var (step, sc2) :- GenOpt(incr, sc1);
    AfterExpr(sc, sc2);
    var (body, sc3) :- GenStmt(loop, sc2);
    AfterTransitive(sc, sc2, sc3);
    if LoopReach(Part(cond, test), Part(incr, step), body) then
      Code(LoopBytes(Part(cond, test), Part(incr, step), body), sc3)
    else Rejected
  }

  /** The part of a `for` inside its scope. */
  function GenFor(first: Option<Stmt>, cond: Option<Expr>, incr: Option<Expr>, loop: Stmt, sc: Scope): (r: Gen)
    requires Settled(sc)
    ensures r.Code? ==> After(sc, r.scope)
    decreases For(first, cond, incr, loop), 1
  {
    var (init, sc1) :- GenOptional(first, sc);
    var (bytes, sc2) :- GenLoop(cond, incr, loop, sc1);
    AfterTransitive(sc, sc1, sc2);
    Code(init + bytes, sc2)
  }

  function GenStmts(ss: Stmts, sc: Scope): (r: Gen)
    requires Settled(sc)
    ensures r.Code? ==> After(sc, r.scope)
    decreases ss
  {
    match ss
    case Empty => Code([], sc)
    case Cons(s, rest) =>
      var (bytes, sc1) :- GenStmt(s, sc);
      var (more, sc2) :- GenStmts(rest, sc1);
      AfterTransitive(sc, sc1, sc2);
      Code(bytes + more, sc2)
  }

  /** A whole script: its statements, then emitReturn. */
  function GenScript(ss: Stmts, globals: seq<Global>): Gen {
    var (bytes, sc) :- GenStmts(ss, ScriptScope(globals));
    Code(bytes + (EmitPlain(PushNil) + EmitPlain(Return)), sc)
  }
}
