/** What holds of compiled code before it is run: every jump lands on an instruction, and the
    height of the stack at every instruction is known. */
module StackSafety {
  import opened Values
  import opened Syntax
  import opened Bytecode
  import opened Codegen
  import opened Machine
  import E = ExprCorrect
  import S = StmtCorrect
  import Script
  import P = Parser

  /** The height of the stack in front of each instruction. */
  type Heights = map<nat, nat>

  /** The values an instruction takes from the stack, and those it leaves instead. */
  function Takes(s: Simple): nat {
    match s
    case PushNil | PushTrue | PushFalse => 0
    case Pop | Not | Negate | Print => 1
    case _ => 2
  }

  function Leaves(s: Simple): nat {
    match s
    case Pop | Print | Return => 0
    case _ => 1
  }

  ghost predicate At(h: Heights, pc: nat, n: nat) {
    pc in h && h[pc] == n
  }

  ghost predicate AddressSafe(c: Chunk, a: Addressed, addr: nat, n: nat) {
    match a
    case Constant => addr < |c.constants|
    case GetLocal | SetLocal => addr < n
    case GetGlobal => true
    case DefineGlobal | SetGlobal => n >= 1
  }

  function AddressAfter(a: Addressed, n: nat): int {
    match a
    case Constant | GetLocal | GetGlobal => n + 1
    case SetLocal | SetGlobal => n
    case DefineGlobal => n - 1
  }

  /** The instruction at pc finds what it needs on the stack; wherever it goes on, and what
      stands after it, is the start of an instruction, with the right height. */
  ghost predicate Safe(c: Chunk, h: Heights, pc: nat)
    requires pc in h
  {
    var n := h[pc];
    var f := Fetch(c.code, pc);
    match f.0
    case Plain(Return) => n >= 2
    case Plain(s) => Takes(s) <= n && f.1 in h && h[f.1] == n - Takes(s) + Leaves(s)
    case Address(a, addr) => AddressSafe(c, a, addr, n) && f.1 in h && h[f.1] == AddressAfter(a, n)
    case Branch(Jump, dist) => f.1 in h && At(h, f.1 + dist, n)
    case Branch(JumpIfFalse, dist) => n >= 1 && At(h, f.1, n) && At(h, f.1 + dist, n)
    case Branch(Loop, dist) => f.1 in h && dist <= f.1 && At(h, f.1 - dist, n)
    case Undefined => false
  }

  ghost predicate SafeAt(c: Chunk, h: Heights, pc: nat) {
    pc in h && Safe(c, h, pc)
  }

  ghost predicate Sub(h: Heights, all: Heights) {
    forall pc :: pc in h ==> At(all, pc, h[pc])
  }

  /** Where the instruction after the one at pc starts. */
  function Next(c: Chunk, pc: nat): nat {
    Fetch(c.code, pc).1
  }

  /** The instruction at pc is safe and the next one starts at `next`, at a height that has not
      grown by more than one value for each byte. */
  ghost predicate Leads(c: Chunk, h: Heights, pc: nat, next: nat) {
    SafeAt(c, h, pc) && Next(c, pc) == next && pc < next && next in h && h[next] <= h[pc] + (next - pc)
  }

  /** No position of h is inside an instruction, and heights grow by at most one value for each
      byte from lo on. */
  ghost predicate Tight(c: Chunk, h: Heights, lo: nat) {
    && lo in h
    && (forall q, pc :: q in h && pc in h && q < pc ==> Next(c, q) <= pc)
    && (forall pc :: pc in h ==> lo <= pc && h[pc] + lo <= h[lo] + pc)
  }

  /** The instructions of h, from lo to hi, are safe in the code that `all` describes. */
  ghost predicate Part(c: Chunk, h: Heights, lo: nat, hi: nat, all: Heights) {
    && lo in h && hi in h && Sub(h, all) && Tight(c, h, lo)
    && (forall pc :: pc in h ==> lo <= pc <= hi)
    && (forall pc :: pc in h && pc < hi ==> SafeAt(c, all, pc) && Next(c, pc) in all)
  }

  lemma Widen(c: Chunk, h: Heights, lo: nat, hi: nat, all: Heights, more: Heights)
    requires Part(c, h, lo, hi, all) && Sub(all, more)
    ensures Part(c, h, lo, hi, more)
  {
    hide Tight, Next;
  }

  /** Two parts with one instruction between them, or none. */
  lemma Join(c: Chunk, h: Heights, lo: nat, mid: nat, h1: Heights, mid1: nat, hi: nat, all: Heights)
    requires Part(c, h, lo, mid, all) && Part(c, h1, mid1, hi, all)
    requires mid == mid1 || Leads(c, all, mid, mid1)
    ensures Part(c, h + h1, lo, hi, all)
  {
    hide Safe, Next, Tight;
    assert At(all, mid, h[mid]) && At(all, mid1, h1[mid1]);
    JoinTight(c, h, lo, mid, h1, mid1);
  }

  lemma JoinTight(c: Chunk, h: Heights, lo: nat, mid: nat, h1: Heights, mid1: nat)
    requires Tight(c, h, lo) && Tight(c, h1, mid1) && mid in h && forall pc :: pc in h ==> pc <= mid
    requires (mid == mid1 && h1[mid1] == h[mid])
      || (mid < mid1 && Next(c, mid) <= mid1 && h1[mid1] <= h[mid] + (mid1 - mid))
    ensures Tight(c, h + h1, lo)
  {
    hide Next;
  }

  lemma Point(c: Chunk, pc: nat, n: nat, all: Heights)
    requires At(all, pc, n)
    ensures Part(c, map[pc := n], pc, pc, all)
  {
  }

  /** The instructions from lo to hi are safe by themselves, and change the height from n to m. */
  ghost predicate Closed(c: Chunk, h: Heights, lo: nat, n: nat, hi: nat, m: nat) {
    Part(c, h, lo, hi, h) && h[lo] == n && h[hi] == m
  }

  /** Two closed parts, with nothing between them or an instruction that is safe in both. */
  lemma Connect(c: Chunk, h: Heights, lo: nat, n: nat, mid: nat, m: nat, h1: Heights, mid1: nat, m1: nat, hi: nat,
      k: nat)
    requires Closed(c, h, lo, n, mid, m) && Closed(c, h1, mid1, m1, hi, k)
    requires (mid == mid1 && m == m1) || Leads(c, h + h1, mid, mid1)
    ensures Closed(c, h + h1, lo, n, hi, k)
  {
    hide Safe, Tight, Next;
    var all := h + h1;
    assert Sub(h, all);
    WidenClosed(c, h, lo, mid, all);
    WidenClosed(c, h1, mid1, hi, all);
    Join(c, h, lo, mid, h1, mid1, hi, all);
  }

  lemma WidenClosed(c: Chunk, h: Heights, lo: nat, hi: nat, all: Heights)
    requires Part(c, h, lo, hi, h) && Sub(h, all)
    ensures Part(c, h, lo, hi, all)
  {
    Widen(c, h, lo, hi, h, all);
  }

  lemma Here(c: Chunk, pc: nat, n: nat)
    ensures Closed(c, map[pc := n], pc, n, pc, n)
  {
    Point(c, pc, n, map[pc := n]);
  }

  lemma PlainSafe(c: Chunk, all: Heights, pc: nat, n: nat, s: Simple)
    requires CodeAt(c.code, pc, EmitPlain(s)) && Takes(s) <= n && s != Return
    requires At(all, pc, n) && At(all, pc + 1, n - Takes(s) + Leaves(s))
    ensures Leads(c, all, pc, pc + 1)
  {
    hide CodeAt, EmitPlain;
    FetchPlain(c.code, pc, s);
  }

  lemma BranchIsSafe(c: Chunk, all: Heights, pc: nat, n: nat, j: Jumping, dist: nat)
    requires CodeAt(c.code, pc, EmitBranch(j, dist)) && Reach(dist)
    requires At(all, pc, n) && pc + 3 in all && (j == Loop ==> dist <= pc + 3)
    requires j == JumpIfFalse ==> n >= 1 && At(all, pc + 3, n)
    requires At(all, if j == Loop then pc + 3 - dist else pc + 3 + dist, n)
    ensures SafeAt(c, all, pc) && Next(c, pc) == pc + 3
    ensures all[pc + 3] <= n + 3 ==> Leads(c, all, pc, pc + 3)
  {
    hide CodeAt, EmitBranch;
    FetchBranch(c.code, pc, j, dist);
  }

  lemma Overlaid(c: Chunk, h: Heights, lo: nat, n: nat, mid: nat, m: nat, h1: Heights, mid1: nat, m1: nat, hi: nat,
      k: nat)
    requires Closed(c, h, lo, n, mid, m) && Closed(c, h1, mid1, m1, hi, k) && mid < mid1
    ensures Sub(h, h + h1) && Sub(h1, h + h1) && At(h + h1, mid, m) && At(h + h1, mid1, m1)
    ensures forall pc :: pc in h1 ==> At(h + h1, pc, h1[pc])
  {
    hide Safe, Tight, Next;
  }

  /** One more instruction that goes on to the next. */
  lemma AppendPlain(c: Chunk, h: Heights, lo: nat, n: nat, pc: nat, m: nat, s: Simple) returns (h1: Heights)
    requires Closed(c, h, lo, n, pc, m) && CodeAt(c.code, pc, EmitPlain(s)) && Takes(s) <= m && s != Return
    ensures Closed(c, h1, lo, n, pc + 1, m - Takes(s) + Leaves(s))
  {
    hide CodeAt, EmitPlain;
    FetchPlain(c.code, pc, s);
    var k := m - Takes(s) + Leaves(s);
    Here(c, pc + 1, k);
    h1 := h + map[pc + 1 := k];
    Connect(c, h, lo, n, pc, m, map[pc + 1 := k], pc + 1, k, pc + 1, k);
  }

  lemma AppendAddress(c: Chunk, h: Heights, lo: nat, n: nat, pc: nat, m: nat, a: Addressed, addr: nat)
      returns (h1: Heights)
    requires Closed(c, h, lo, n, pc, m) && CodeAt(c.code, pc, EmitAddress(a, addr)) && AddressSafe(c, a, addr, m)
    ensures AddressAfter(a, m) >= 0
    ensures Closed(c, h1, lo, n, pc + |EmitAddress(a, addr)|, AddressAfter(a, m))
  {
    hide CodeAt, EmitAddress;
    FetchAddress(c.code, pc, a, addr);
    var k := AddressAfter(a, m);
    var next := pc + |EmitAddress(a, addr)|;
    Here(c, next, k);
    h1 := h + map[next := k];
    Connect(c, h, lo, n, pc, m, map[next := k], next, k, next, k);
  }

  /** A jump forward over what follows. */
  lemma AppendBranch(c: Chunk, h: Heights, lo: nat, n: nat, pc: nat, m: nat, j: Jumping, dist: nat,
      h1: Heights, m1: nat, hi: nat, k: nat) returns (h2: Heights)
    requires Closed(c, h, lo, n, pc, m) && Closed(c, h1, pc + 3, m1, hi, k)
    requires CodeAt(c.code, pc, EmitBranch(j, dist)) && Reach(dist) && j != Loop
    requires At(h1, pc + 3 + dist, m) && (j == JumpIfFalse ==> m >= 1 && m1 == m) && m1 <= m + 3
    ensures Closed(c, h2, lo, n, hi, k) && Sub(h1, h2)
  {
    hide CodeAt, EmitBranch, Safe, Tight, Next;
    h2 := h + h1;
    Overlaid(c, h, lo, n, pc, m, h1, pc + 3, m1, hi, k);
    BranchIsSafe(c, h2, pc, m, j, dist);
    Connect(c, h, lo, n, pc, m, h1, pc + 3, m1, hi, k);
  }

  /** A pop in front. */
  lemma PopFirst(c: Chunk, h: Heights, pc: nat, n: nat, hi: nat, m: nat) returns (h1: Heights)
    requires Closed(c, h, pc + 1, n, hi, m) && CodeAt(c.code, pc, EmitPlain(Pop))
    ensures Closed(c, h1, pc, n + 1, hi, m)
  {
    hide CodeAt, Closed, EmitPlain;
    Here(c, pc, n + 1);
    h1 := AppendPlain(c, map[pc := n + 1], pc, n + 1, pc, n + 1, Pop);
    Connect(c, h1, pc, n + 1, pc + 1, n, h, pc + 1, n, hi, m);
    h1 := h1 + h;
  }

  lemma EntryHeight(c: Chunk, h: Heights, lo: nat, n: nat, hi: nat, m: nat, all: Heights)
    requires Closed(c, h, lo, n, hi, m) && Sub(h, all)
    ensures At(all, lo, n) && At(all, hi, m)
  {
  }

  // ----- expressions -----

  /** Every local that may be read has its slot below n. */
  ghost predicate LocalsBelow(sc: Scope, n: nat) {
    forall i :: 0 <= i < |sc.locals| && sc.locals[i].depth != -1 ==> i < n
  }

  /** The code is in place, and its constants are among those of the chunk. */
  ghost predicate Placed(c: Chunk, g: Gen, pc: nat) {
    g.Code? && CodeAt(c.code, pc, g.bytes) && |g.scope.constants| <= |c.constants|
  }

  /** An expression leaves one value more than it found, wherever its jumps go. */
  lemma {:induction false} ExprSafe(c: Chunk, e: Expr, sc: Scope, pc: nat, n: nat) returns (h: Heights)
    requires Placed(c, GenExpr(e, sc), pc) && LocalsBelow(sc, n)
    ensures Closed(c, h, pc, n, pc + |GenExpr(e, sc).bytes|, n + 1)
    decreases e, 1
  {
    hide CodeAt, Closed, EmitPlain, EmitAddress, GenAnd, GenOr, GenBinary, GenAssign, Grows;
    Here(c, pc, n);
    h := map[pc := n];
    match e
    case NilLit => h := AppendPlain(c, h, pc, n, pc, n, PushNil);
    case BoolLit(b) => h := AppendPlain(c, h, pc, n, pc, n, if b then PushTrue else PushFalse);
    case NumLit(v) => h := AppendAddress(c, h, pc, n, pc, n, Constant, |sc.constants|);
    case StrLit(v) => h := AppendAddress(c, h, pc, n, pc, n, Constant, |sc.constants|);
    case Var(x) =>
      var p := Resolve(sc, x).value;
      h := AppendAddress(c, h, pc, n, pc, n, if p.isLocal then GetLocal else GetGlobal, p.addr);
    case Assign(x, e1) => h := AssignSafe(c, x, e1, sc, pc, n);
    case Unary(op, e1) => h := UnarySafe(c, op, e1, sc, pc, n);
    case Binary(op, l, r) => h := BinarySafe(c, op, l, r, sc, pc, n);
    case And(l, r) => h := AndSafe(c, l, r, sc, pc, n);
    case Or(l, r) => h := OrSafe(c, l, r, sc, pc, n);
    case Group(e1) => h := ExprSafe(c, e1, sc, pc, n);
  }

  lemma {:induction false} UnarySafe(c: Chunk, op: UnaryOp, e: Expr, sc: Scope, pc: nat, n: nat) returns (h: Heights)
    requires Placed(c, Operated(GenExpr(e, sc), UnarySimple(op)), pc) && LocalsBelow(sc, n)
    ensures Closed(c, h, pc, n, pc + |GenExpr(e, sc).bytes| + 1, n + 1)
    decreases Unary(op, e), 0
  {
    hide CodeAt, Closed, EmitPlain, GenExpr;
    var g := GenExpr(e, sc);
    CodeAtSplit(c.code, pc, g.bytes, EmitPlain(UnarySimple(op)));
    h := ExprSafe(c, e, sc, pc, n);
    h := AppendPlain(c, h, pc, n, pc + |g.bytes|, n + 1, UnarySimple(op));
  }

  lemma {:induction false} AssignSafe(c: Chunk, x: Name, e: Expr, sc: Scope, pc: nat, n: nat) returns (h: Heights)
    requires Placed(c, GenAssign(x, e, sc), pc) && LocalsBelow(sc, n)
    ensures Closed(c, h, pc, n, pc + |GenAssign(x, e, sc).bytes|, n + 1)
    decreases Assign(x, e), 0
  {
    hide CodeAt, Closed, EmitAddress, GenExpr;
    var p := Resolve(sc, x).value;
    var g := GenExpr(e, p.scope);
    var a := if p.isLocal then SetLocal else SetGlobal;
    CodeAtSplit(c.code, pc, g.bytes, EmitAddress(a, p.addr));
    h := ExprSafe(c, e, p.scope, pc, n);
    h := AppendAddress(c, h, pc, n, pc + |g.bytes|, n + 1, a, p.addr);
  }

  lemma {:induction false} BinarySafe(c: Chunk, op: BinaryOp, l: Expr, r: Expr, sc: Scope, pc: nat, n: nat)
      returns (h: Heights)
    requires Placed(c, GenBinary(op, l, r, sc), pc) && LocalsBelow(sc, n)
    ensures Closed(c, h, pc, n, pc + |GenBinary(op, l, r, sc).bytes|, n + 1)
    decreases Binary(op, l, r), 0
  {
    hide CodeAt, Closed, EmitPlain, GenExpr;
    var gl := GenExpr(l, sc);
    var gr := GenExpr(r, gl.scope);
    var s := BinarySimple(op);
    var mid := pc + |gl.bytes|;
    CodeAtSplit(c.code, pc, gl.bytes, gr.bytes + EmitPlain(s));
    CodeAtSplit(c.code, mid, gr.bytes, EmitPlain(s));
    h := ExprSafe(c, l, sc, pc, n);
    var h1 := ExprSafe(c, r, gl.scope, mid, n + 1);
    Connect(c, h, pc, n, mid, n + 1, h1, mid, n + 1, mid + |gr.bytes|, n + 2);
    h := AppendPlain(c, h + h1, pc, n, mid + |gr.bytes|, n + 2, s);
  }

  lemma {:induction false} AndSafe(c: Chunk, l: Expr, r: Expr, sc: Scope, pc: nat, n: nat) returns (h: Heights)
    requires Placed(c, GenAnd(l, r, sc), pc) && LocalsBelow(sc, n)
    ensures Closed(c, h, pc, n, pc + |GenAnd(l, r, sc).bytes|, n + 1)
    decreases And(l, r), 0
  {
    hide CodeAt, Closed, EmitPlain, EmitBranch, GenExpr, AndRest;
    var gl := GenExpr(l, sc);
    var gr := GenExpr(r, gl.scope);
    var mid := pc + |gl.bytes|;
    E.AndPlaces(c.code, pc, gl.bytes, gr.bytes);
    h := ExprSafe(c, l, sc, pc, n);
    var h1 := DropThen(c, r, gl.scope, mid + 3, n);
    h := SkipTo(c, h, pc, n, mid, JumpIfFalse, 1 + |gr.bytes|, h1, mid + 4 + |gr.bytes|, n + 1);
  }

  /** The pop of the left operand, and the right operand. */
  lemma {:induction false} DropThen(c: Chunk, r: Expr, sc: Scope, pc: nat, n: nat) returns (h: Heights)
    requires CodeAt(c.code, pc, EmitPlain(Pop)) && Placed(c, GenExpr(r, sc), pc + 1) && LocalsBelow(sc, n)
    ensures Closed(c, h, pc, n + 1, pc + 1 + |GenExpr(r, sc).bytes|, n + 1)
    decreases r, 2
  {
    hide CodeAt, Closed, EmitPlain, GenExpr;
    h := ExprSafe(c, r, sc, pc + 1, n);
    h := PopFirst(c, h, pc, n, pc + 1 + |GenExpr(r, sc).bytes|, n + 1);
  }

  /** A jump to the end of what follows. */
  lemma SkipTo(c: Chunk, h: Heights, lo: nat, n: nat, pc: nat, j: Jumping, dist: nat, h1: Heights, hi: nat,
      k: nat) returns (h2: Heights)
    requires Closed(c, h, lo, n, pc, k) && Closed(c, h1, pc + 3, k, hi, k) && hi == pc + 3 + dist && k >= 1
    requires CodeAt(c.code, pc, EmitBranch(j, dist)) && Reach(dist) && j != Loop
    ensures Closed(c, h2, lo, n, hi, k) && Sub(h1, h2)
  {
    hide CodeAt, EmitBranch, Safe, Tight, Next;
    h2 := AppendBranch(c, h, lo, n, pc, k, j, dist, h1, k, hi, k);
  }

  lemma {:induction false} OrSafe(c: Chunk, l: Expr, r: Expr, sc: Scope, pc: nat, n: nat) returns (h: Heights)
    requires Placed(c, GenOr(l, r, sc), pc) && LocalsBelow(sc, n)
    ensures Closed(c, h, pc, n, pc + |GenOr(l, r, sc).bytes|, n + 1)
    decreases Or(l, r), 0
  {
    hide CodeAt, Closed, EmitPlain, EmitBranch, GenExpr, OrRest;
    var gl := GenExpr(l, sc);
    var gr := GenExpr(r, gl.scope);
    var mid := pc + |gl.bytes|;
    var end := mid + 7 + |gr.bytes|;
    E.OrPlaces(c.code, pc, gl.bytes, gr.bytes);
    h := ExprSafe(c, l, sc, pc, n);
    var h1 := DropThen(c, r, gl.scope, mid + 6, n);
    Here(c, mid + 3, n + 1);
    var h2 := SkipTo(c, map[mid + 3 := n + 1], mid + 3, n + 1, mid + 3, Jump, 1 + |gr.bytes|, h1, end, n + 1);
    EntryHeight(c, h1, mid + 6, n + 1, end, n + 1, h2);
    h := AppendBranch(c, h, pc, n, mid, n + 1, JumpIfFalse, 3, h2, n + 1, end, n + 1);
  }

  // ----- statements -----

  lemma AllBelow(sc: Scope)
    requires Settled(sc)
    ensures LocalsBelow(sc, |sc.locals|)
  {
  }

  /** An expression that is a statement, or its value is printed. */
  lemma UsedSafe(c: Chunk, e: Expr, sc: Scope, pc: nat, s: Simple) returns (h: Heights)
    requires Settled(sc) && (s == Pop || s == Simple.Print)
    requires Placed(c, Operated(GenExpr(e, sc), s), pc)
    ensures Closed(c, h, pc, |sc.locals|, pc + |GenExpr(e, sc).bytes| + 1, |sc.locals|)
  {
    hide CodeAt, Closed, EmitPlain, GenExpr, Settled;
    AllBelow(sc);
    var g := GenExpr(e, sc);
    CodeAtSplit(c.code, pc, g.bytes, EmitPlain(s));
    h := ExprSafe(c, e, sc, pc, |sc.locals|);
    h := AppendPlain(c, h, pc, |sc.locals|, pc + |g.bytes|, |sc.locals| + 1, s);
  }

  lemma InitSafe(c: Chunk, init: Option<Expr>, sc: Scope, pc: nat, n: nat) returns (h: Heights)
    requires Placed(c, GenInit(init, sc), pc) && LocalsBelow(sc, n)
    ensures Closed(c, h, pc, n, pc + |GenInit(init, sc).bytes|, n + 1)
  {
    hide CodeAt, Closed, EmitPlain, GenExpr;
    if init.Some? {
      h := ExprSafe(c, init.value, sc, pc, n);
    } else {
      Here(c, pc, n);
      h := AppendPlain(c, map[pc := n], pc, n, pc, n, PushNil);
    }
  }

  /** A declared local is the value that its initializer leaves. */
  lemma VarSafe(c: Chunk, ro: bool, x: Name, init: Option<Expr>, sc: Scope, pc: nat) returns (h: Heights)
    requires Settled(sc) && Placed(c, GenVar(ro, x, init, sc), pc)
    ensures var g := GenVar(ro, x, init, sc);
      Closed(c, h, pc, |sc.locals|, pc + |g.bytes|, |g.scope.locals|)
  {
    hide CodeAt, Closed, EmitAddress, GenInit, Settled;
    AllBelow(sc);
    var n := |sc.locals|;
    if sc.depth > 0 {
      h := InitSafe(c, init, DeclareLocal(sc, x).value, pc, n);
    } else {
      var (globals, addr) := MakeGlobal(sc.globals, x);
      var g := GenInit(init, sc.(globals := globals));
      CodeAtSplit(c.code, pc, g.bytes, EmitAddress(DefineGlobal, addr));
      h := InitSafe(c, init, sc.(globals := globals), pc, n);
      h := AppendAddress(c, h, pc, n, pc + |g.bytes|, n + 1, DefineGlobal, addr);
    }
  }

  lemma {:induction false} PopsSafe(c: Chunk, pc: nat, k: nat, n: nat) returns (h: Heights)
    requires CodeAt(c.code, pc, Pops(k)) && k <= n
    ensures |Pops(k)| == k && Closed(c, h, pc, n, pc + k, n - k)
    decreases k
  {
    hide CodeAt, Closed, EmitPlain;
    Here(c, pc, n);
    h := map[pc := n];
    if k > 0 {
      CodeAtSplit(c.code, pc, EmitPlain(Pop), Pops(k - 1));
      h := AppendPlain(c, h, pc, n, pc, n, Pop);
      var h1 := PopsSafe(c, pc + 1, k - 1, n - 1);
      Connect(c, h, pc, n, pc + 1, n - 1, h1, pc + 1, n - 1, pc + k, n - k);
      h := h + h1;
    }
  }

  /** The pops at the end of a scope, after code that was compiled in it. */
  lemma LeaveSafe(c: Chunk, h: Heights, sc: Scope, g: Gen, pc: nat) returns (h1: Heights)
    requires Settled(sc) && g.Code? && After(BeginScope(sc), g.scope)
    requires Closed(c, h, pc, |sc.locals|, pc + |g.bytes|, |g.scope.locals|)
    requires CodeAt(c.code, pc + |g.bytes|, EndScope(g.scope).bytes)
    ensures var end := EndScope(g.scope);
      Closed(c, h1, pc, |sc.locals|, pc + |g.bytes| + |end.bytes|, |end.scope.locals|)
  {
    hide CodeAt, Closed, Outer, Pops;
    ScopeClosed(sc, g.scope);
    var n := |g.scope.locals|;
    var k := n - |sc.locals|;
    var mid := pc + |g.bytes|;
    h1 := PopsSafe(c, mid, k, n);
    Connect(c, h, pc, |sc.locals|, mid, n, h1, mid, n, mid + k, n - k);
    h1 := h + h1;
  }

  lemma BeginSettled(sc: Scope)
    requires Settled(sc)
    ensures Settled(BeginScope(sc))
  {
  }

  /** Statements keep the height at the number of locals. */
  lemma {:induction false} StmtSafe(c: Chunk, s: Stmt, sc: Scope, pc: nat) returns (h: Heights)
    requires Settled(sc) && WellFormedStmt(s, true) && Placed(c, GenStmt(s, sc), pc)
    ensures var g := GenStmt(s, sc);
      Closed(c, h, pc, |sc.locals|, pc + |g.bytes|, |g.scope.locals|)
    decreases s, 2
  {
    hide CodeAt, Closed, EmitPlain, GenExpr, GenVar, GenIf, GenLoop, GenFor, GenStmts, Settled, EndScope, Grows, Keeps;
    BeginSettled(sc);
    match s
    case ExprStmt(e) => h := UsedSafe(c, e, sc, pc, Pop);
    case Print(e) => h := UsedSafe(c, e, sc, pc, Simple.Print);
    case VarDecl(ro, x, init) => h := VarSafe(c, ro, x, init, sc, pc);
    case Block(body) => h := BlockSafe(c, body, sc, pc);
    case If(cond, thn, els) => h := IfSafe(c, cond, thn, els, sc, pc);
    case While(cond, loop) => h := LoopSafe(c, Some(cond), None, loop, sc, pc);
    case For(first, cond, incr, loop) => h := ForSafe(c, first, cond, incr, loop, sc, pc);
  }

  lemma {:induction false} BlockSafe(c: Chunk, body: Stmts, sc: Scope, pc: nat) returns (h: Heights)
    requires Settled(sc) && WellFormedStmts(body) && Placed(c, GenStmt(Block(body), sc), pc)
    ensures var g := GenStmt(Block(body), sc);
      Closed(c, h, pc, |sc.locals|, pc + |g.bytes|, |g.scope.locals|)
    decreases Block(body), 1
  {
    hide CodeAt, Closed, GenStmts, Settled, EndScope, Keeps;
    BeginSettled(sc);
    var g := GenStmts(body, BeginScope(sc));
    CodeAtSplit(c.code, pc, g.bytes, EndScope(g.scope).bytes);
    h := StmtsSafe(c, body, BeginScope(sc), pc);
    h := LeaveSafe(c, h, sc, g, pc);
  }

  lemma {:induction false} StmtsSafe(c: Chunk, ss: Stmts, sc: Scope, pc: nat) returns (h: Heights)
    requires Settled(sc) && WellFormedStmts(ss) && Placed(c, GenStmts(ss, sc), pc)
    ensures var g := GenStmts(ss, sc);
      Closed(c, h, pc, |sc.locals|, pc + |g.bytes|, |g.scope.locals|)
    decreases ss
  {
    hide CodeAt, Closed, GenStmt, Settled, Keeps;
    match ss
    case Empty =>
      Here(c, pc, |sc.locals|);
      h := map[pc := |sc.locals|];
    case Cons(s, rest) =>
      var g := GenStmt(s, sc);
      var g1 := GenStmts(rest, g.scope);
      var mid := pc + |g.bytes|;
      CodeAtSplit(c.code, pc, g.bytes, g1.bytes);
      h := StmtSafe(c, s, sc, pc);
      var h1 := StmtsSafe(c, rest, g.scope, mid);
      Connect(c, h, pc, |sc.locals|, mid, |g.scope.locals|, h1, mid, |g.scope.locals|, mid + |g1.bytes|,
          |g1.scope.locals|);
      h := h + h1;
  }

  lemma {:induction false} OptionalSafe(c: Chunk, s: Option<Stmt>, sc: Scope, pc: nat) returns (h: Heights)
    requires Settled(sc) && (s.Some? ==> WellFormedStmt(s.value, true)) && Placed(c, GenOptional(s, sc), pc)
    ensures var g := GenOptional(s, sc);
      Closed(c, h, pc, |sc.locals|, pc + |g.bytes|, |g.scope.locals|)
    decreases s, 0
  {
    hide CodeAt, Closed, GenStmt, Settled;
    if s.Some? {
      h := StmtSafe(c, s.value, sc, pc);
    } else {
      Here(c, pc, |sc.locals|);
      h := map[pc := |sc.locals|];
    }
  }

  lemma {:induction false} IfSafe(c: Chunk, cond: Expr, thn: Stmt, els: Option<Stmt>, sc: Scope, pc: nat)
      returns (h: Heights)
    requires Settled(sc) && WellFormedStmt(If(cond, thn, els), false) && Placed(c, GenStmt(If(cond, thn, els), sc), pc)
    ensures var g := GenStmt(If(cond, thn, els), sc);
      Closed(c, h, pc, |sc.locals|, pc + |g.bytes|, |g.scope.locals|)
    decreases If(cond, thn, els), 1
  {
    hide CodeAt, Closed, GenExpr, GenStmt, GenOptional, Settled, EmitPlain, EmitBranch, IfBytes, Keeps;
    S.IfShape(cond, thn, els, sc);
    AllBelow(sc);
    var n := |sc.locals|;
    var test := GenExpr(cond, sc);
    var yes := GenStmt(thn, test.scope);
    var no := GenOptional(els, yes.scope);
    S.IfPlaces(c.code, pc, test.bytes, yes.bytes, no.bytes);
    SameHeight(sc, test.scope, yes.scope, no.scope);
    h := ExprSafe(c, cond, sc, pc, n);
    var hy := StmtSafe(c, thn, test.scope, pc + |test.bytes| + 4);
    var hn := OptionalSafe(c, els, yes.scope, pc + |test.bytes| + 8 + |yes.bytes|);
    h := IfAround(c, pc, test.bytes, yes.bytes, no.bytes, n, h, hy, hn);
  }

  /** The jumps of an `if`, around its test and its branches. */
  lemma IfAround(c: Chunk, pc: nat, test: seq<Byte>, yes: seq<Byte>, no: seq<Byte>, n: nat,
      ht: Heights, hy: Heights, hn: Heights) returns (h: Heights)
    requires CodeAt(c.code, pc, IfBytes(test, yes, no)) && IfReach(yes, no)
    requires var a := pc + |test|; var b := a + 4 + |yes|;
      && Closed(c, ht, pc, n, a, n + 1) && Closed(c, hy, a + 4, n, b, n)
      && Closed(c, hn, b + 4, n, b + 4 + |no|, n)
    ensures Closed(c, h, pc, n, pc + |test| + |yes| + |no| + 8, n)
  {
    hide CodeAt, Closed, EmitPlain, EmitBranch, IfBytes;
    S.IfPlaces(c.code, pc, test, yes, no);
    var a := pc + |test|;
    var b := a + 4 + |yes|;
    var end := b + 4 + |no|;
    var h1 := PopFirst(c, hy, a + 3, n, b, n);
    var h2 := PopFirst(c, hn, b + 3, n, end, n);
    EntryHeight(c, h2, b + 3, n + 1, end, n, h2);
    var h3 := AppendBranch(c, h1, a + 3, n + 1, b, n, Jump, 1 + |no|, h2, n + 1, end, n);
    EntryHeight(c, h2, b + 3, n + 1, end, n, h3);
    h := AppendBranch(c, ht, pc, n, a, n + 1, JumpIfFalse, 1 + |yes| + 3, h3, n + 1, end, n);
  }

  lemma SameHeight(sc: Scope, sc1: Scope, sc2: Scope, sc3: Scope)
    requires SameShape(sc, sc1) && SameShape(sc1, sc2) && SameShape(sc2, sc3)
    ensures |sc1.locals| == |sc.locals| && |sc2.locals| == |sc.locals| && |sc3.locals| == |sc.locals|
  {
  }

  // ----- loops, whose jumps go backwards: the parts are safe in the whole -----

  function TestHeights(h: Heights, pc: nat, test: Option<seq<Byte>>, n: nat): Heights {
    if test.Some? then h + map[pc + |test.value| + 3 := n + 1] + map[pc + |test.value| + 4 := n] else map[pc := n]
  }

  lemma TestPart(c: Chunk, h: Heights, pc: nat, test: Option<seq<Byte>>, n: nat, exit: nat, all: Heights)
    requires test.Some? ==> Closed(c, h, pc, n, pc + |test.value|, n + 1)
    requires test.Some? ==>
      S.TestAt(c.code, pc, test.value, exit) && Reach(exit - (pc + |test.value| + 3)) && At(all, exit, n + 1)
    requires Sub(TestHeights(h, pc, test, n), all)
    ensures Part(c, TestHeights(h, pc, test, n), pc, pc + TestSize(test), all)
  {
    hide CodeAt, EmitPlain, EmitBranch, Safe, Tight, Next;
    if test.Some? {
      var a := pc + |test.value|;
      TestSubs(c, h, pc, test.value, n, all);
      WidenClosed(c, h, pc, a, all);
      BranchIsSafe(c, all, a, n + 1, JumpIfFalse, exit - (a + 3));
      Point(c, a + 3, n + 1, all);
      Join(c, h, pc, a, map[a + 3 := n + 1], a + 3, a + 3, all);
      PlainSafe(c, all, a + 3, n + 1, Pop);
      Point(c, a + 4, n, all);
      Join(c, h + map[a + 3 := n + 1], pc, a + 3, map[a + 4 := n], a + 4, a + 4, all);
    } else {
      Point(c, pc, n, all);
    }
  }

  lemma TestSubs(c: Chunk, h: Heights, pc: nat, test: seq<Byte>, n: nat, all: Heights)
    requires Closed(c, h, pc, n, pc + |test|, n + 1) && Sub(TestHeights(h, pc, Some(test), n), all)
    ensures Sub(h, all) && At(all, pc + |test|, n + 1) && At(all, pc + |test| + 3, n + 1) && At(all, pc + |test| + 4, n)
  {
    hide Safe, Tight, Next;
    var hs := TestHeights(h, pc, Some(test), n);
    forall k | k in h
      ensures At(all, k, h[k])
    {
      assert At(all, k, hs[k]);
    }
    assert pc + |test| + 3 in hs && pc + |test| + 4 in hs;
  }

  function IncrHeights(h: Heights, pc: nat, incr: Option<seq<Byte>>, n: nat): Heights {
    if incr.Some? then
      map[pc := n] + h + map[pc + 4 + |incr.value| := n] + map[pc + 7 + |incr.value| := n]
    else map[pc := n]
  }

  lemma IncrPart(c: Chunk, h: Heights, pc: nat, incr: Option<seq<Byte>>, n: nat, start: nat, all: Heights)
    requires incr.Some? ==> Closed(c, h, pc + 3, n, pc + 3 + |incr.value|, n + 1)
    requires incr.Some? ==>
      S.IncrAt(c.code, pc, incr.value, start) && Reach(|incr.value| + 4) && Reach(pc + 7 + |incr.value| - start)
    requires At(all, start, n) && Sub(IncrHeights(h, pc, incr, n), all)
    ensures Part(c, IncrHeights(h, pc, incr, n), pc, pc + IncrSize(incr), all)
    ensures incr.Some? ==> At(all, pc + 3, n)
  {
    hide CodeAt, EmitPlain, EmitBranch, Safe, Tight, Next, Part, Sub;
    IncrStart(c, h, pc, incr, n, all);
    Point(c, pc, n, all);
    if incr.Some? {
      var b := pc + 3 + |incr.value|;
      IncrSubs(c, h, pc, incr.value, n, all);
      WidenClosed(c, h, pc + 3, b, all);
      BranchIsSafe(c, all, pc, n, Jump, |incr.value| + 4);
      Join(c, map[pc := n], pc, pc, h, pc + 3, b, all);
      PlainSafe(c, all, b, n + 1, Pop);
      Point(c, b + 1, n, all);
      Join(c, map[pc := n] + h, pc, b, map[b + 1 := n], b + 1, b + 1, all);
      BranchIsSafe(c, all, b + 1, n, Loop, b + 4 - start);
      Point(c, b + 4, n, all);
      Join(c, map[pc := n] + h + map[b + 1 := n], pc, b + 1, map[b + 4 := n], b + 4, b + 4, all);
    }
  }

  lemma IncrStart(c: Chunk, h: Heights, pc: nat, incr: Option<seq<Byte>>, n: nat, all: Heights)
    requires incr.Some? ==> Closed(c, h, pc + 3, n, pc + 3 + |incr.value|, n + 1)
    requires Sub(IncrHeights(h, pc, incr, n), all)
    ensures At(all, pc, n)
  {
    hide Safe, Tight, Next;
    var hs := IncrHeights(h, pc, incr, n);
    assert pc in hs && hs[pc] == n;
  }

  lemma IncrSubs(c: Chunk, h: Heights, pc: nat, incr: seq<Byte>, n: nat, all: Heights)
    requires Closed(c, h, pc + 3, n, pc + 3 + |incr|, n + 1) && Sub(IncrHeights(h, pc, Some(incr), n), all)
    ensures Sub(h, all) && At(all, pc + 3, n) && At(all, pc + 3 + |incr|, n + 1)
    ensures At(all, pc + 4 + |incr|, n) && At(all, pc + 7 + |incr|, n)
  {
    hide Safe, Tight, Next;
    var hs := IncrHeights(h, pc, Some(incr), n);
    forall k | k in h
      ensures At(all, k, h[k])
    {
      assert At(all, k, hs[k]);
    }
    assert pc + 4 + |incr| in hs && pc + 7 + |incr| in hs;
  }

  function ExitHeights(pc: nat, test: Option<seq<Byte>>, n: nat): Heights {
    if test.Some? then map[pc := n + 1] + map[pc + 1 := n] else map[pc := n]
  }

  lemma ExitPart(c: Chunk, pc: nat, test: Option<seq<Byte>>, n: nat, all: Heights)
    requires test.Some? ==> CodeAt(c.code, pc, EmitPlain(Pop))
    requires Sub(ExitHeights(pc, test, n), all)
    ensures Part(c, ExitHeights(pc, test, n), pc, pc + (if test.Some? then 1 else 0), all)
  {
    hide CodeAt, EmitPlain, Safe, Tight, Next;
    var hs := ExitHeights(pc, test, n);
    assert pc in hs;
    if test.Some? {
      assert pc + 1 in hs;
      PlainSafe(c, all, pc, n + 1, Pop);
      Point(c, pc, n + 1, all);
      Point(c, pc + 1, n, all);
      Join(c, map[pc := n + 1], pc, pc, map[pc + 1 := n], pc + 1, pc + 1, all);
    } else {
      Point(c, pc, n, all);
    }
  }

  /** The heights of a whole loop, from those of its parts; neighbours agree where they meet. */
  function Layers(ht: Heights, hi: Heights, hb: Heights, hx: Heights): Heights {
    ht + hi + hb + hx
  }

  ghost predicate Within(h: Heights, lo: nat, hi: nat) {
    lo in h && hi in h && forall pc :: pc in h ==> lo <= pc <= hi
  }

  lemma LayersAgree(ht: Heights, a: nat, i: nat, hi: Heights, b: nat, hb: Heights, k: nat, hx: Heights, x: nat,
      end: nat)
    requires Within(ht, a, i) && Within(hi, i, b) && Within(hb, b, k) && Within(hx, x, end) && k < x
    requires ht[i] == hi[i] && hi[b] == hb[b]
    ensures var all := Layers(ht, hi, hb, hx);
      Sub(ht, all) && Sub(hi, all) && Sub(hb, all) && Sub(hx, all)
  {
  }

  lemma {:induction false} LoopSafe(c: Chunk, cond: Option<Expr>, incr: Option<Expr>, loop: Stmt, sc: Scope,
      pc: nat) returns (h: Heights)
    requires Settled(sc) && WellFormedStmt(loop, false) && Placed(c, GenLoop(cond, incr, loop, sc), pc)
    ensures var g := GenLoop(cond, incr, loop, sc);
      Closed(c, h, pc, |sc.locals|, pc + |g.bytes|, |g.scope.locals|)
    decreases loop, 3
  {
    hide CodeAt, Closed, GenExpr, GenStmt, GenOpt, GenLoop, Settled, EmitPlain, EmitBranch, LoopBytes, Keeps;
    S.LoopShape(cond, incr, loop, sc);
    AllBelow(sc);
    var n := |sc.locals|;
    var test := GenOpt(cond, sc);
    var step := GenOpt(incr, test.scope);
    var body := GenStmt(loop, step.scope);
    var t, i := Codegen.Part(cond, test.bytes), Codegen.Part(incr, step.bytes);
    S.LoopPlaces(c.code, pc, t, i, body.bytes);
    SameHeight(sc, sc, step.scope, body.scope);
    var ipc := pc + TestSize(t);
    var bpc := S.BodyPc(pc, t, i);
    var ht := OptSafe(c, cond, sc, pc, n);
    var hi := OptSafe(c, incr, test.scope, ipc + 3, n);
    var hb := StmtSafe(c, loop, step.scope, bpc);
    h := LoopAround(c, pc, t, i, body.bytes, n, ht, hi, hb);
  }

  /** The test or the increment of a loop, if it has one. */
  lemma OptSafe(c: Chunk, e: Option<Expr>, sc: Scope, pc: nat, n: nat) returns (h: Heights)
    requires e.Some? ==> Placed(c, GenOpt(e, sc), pc) && LocalsBelow(sc, n)
    ensures e.Some? ==> Closed(c, h, pc, n, pc + |GenOpt(e, sc).bytes|, n + 1)
  {
    hide CodeAt, Closed, GenExpr;
    h := map[];
    if e.Some? {
      h := ExprSafe(c, e.value, sc, pc, n);
    }
  }

  lemma TestRange(c: Chunk, h: Heights, pc: nat, t: Option<seq<Byte>>, n: nat)
    requires t.Some? ==> Closed(c, h, pc, n, pc + |t.value|, n + 1)
    ensures var hs := TestHeights(h, pc, t, n);
      Within(hs, pc, pc + TestSize(t)) && At(hs, pc, n) && At(hs, pc + TestSize(t), n)
  {
    hide Safe, Tight, Next;
  }

  lemma IncrRange(c: Chunk, h: Heights, pc: nat, i: Option<seq<Byte>>, n: nat)
    requires i.Some? ==> Closed(c, h, pc + 3, n, pc + 3 + |i.value|, n + 1)
    ensures var hs := IncrHeights(h, pc, i, n);
      Within(hs, pc, pc + IncrSize(i)) && At(hs, pc, n) && At(hs, pc + IncrSize(i), n)
  {
    hide Safe, Tight, Next;
  }

  lemma ExitRange(pc: nat, t: Option<seq<Byte>>, n: nat)
    ensures var hs := ExitHeights(pc, t, n);
      var end := pc + if t.Some? then 1 else 0;
      Within(hs, pc, end) && At(hs, pc, if t.Some? then n + 1 else n) && At(hs, end, n)
  {
  }

  /** The four layers of a loop are parts of the whole. */
  lemma LoopParts(c: Chunk, pc: nat, t: Option<seq<Byte>>, i: Option<seq<Byte>>, body: seq<Byte>, n: nat,
      ht: Heights, hi: Heights, hb: Heights, x: nat, ipc: nat, bpc: nat, all: Heights)
    requires LoopPlaced(c, pc, t, i, body, n, ht, hi, hb)
    requires x == S.ExitPc(pc, t, i, body) && ipc == pc + TestSize(t) && bpc == S.BodyPc(pc, t, i)
    requires Sub(TestHeights(ht, pc, t, n), all) && Sub(IncrHeights(hi, ipc, i, n), all)
    requires Sub(hb, all) && Sub(ExitHeights(x, t, n), all)
    ensures Part(c, TestHeights(ht, pc, t, n), pc, ipc, all)
    ensures Part(c, IncrHeights(hi, ipc, i, n), ipc, bpc, all)
    ensures Part(c, hb, bpc, bpc + |body|, all) && Leads(c, all, bpc + |body|, x)
    ensures Part(c, ExitHeights(x, t, n), x, x + (if t.Some? then 1 else 0), all)
  {
    hide CodeAt, EmitPlain, EmitBranch, Safe, Tight, Next, TestHeights, IncrHeights, ExitHeights, S.IncrAt;
    TestRange(c, ht, pc, t, n);
    ExitRange(x, t, n);
    assert At(all, pc, n) && At(all, x, if t.Some? then n + 1 else n);
    TestPart(c, ht, pc, t, n, x, all);
    IncrPart(c, hi, ipc, i, n, pc, all);
    WidenClosed(c, hb, bpc, bpc + |body|, all);
    BranchIsSafe(c, all, bpc + |body|, n, Loop, BodyBack(t, i, body));
    ExitPart(c, x, t, n, all);
  }

  /** The pieces of a compiled loop are where they belong, and each is safe by itself. */
  ghost predicate LoopPlaced(c: Chunk, pc: nat, t: Option<seq<Byte>>, i: Option<seq<Byte>>, body: seq<Byte>, n: nat,
      ht: Heights, hi: Heights, hb: Heights)
  {
    var x := S.ExitPc(pc, t, i, body);
    var ipc := pc + TestSize(t);
    var bpc := S.BodyPc(pc, t, i);
    && LoopReach(t, i, body)
    && (t.Some? ==> S.TestAt(c.code, pc, t.value, x) && Closed(c, ht, pc, n, pc + |t.value|, n + 1))
    && (i.Some? ==> S.IncrAt(c.code, ipc, i.value, pc) && Closed(c, hi, ipc + 3, n, ipc + 3 + |i.value|, n + 1))
    && CodeAt(c.code, bpc + |body|, EmitBranch(Loop, BodyBack(t, i, body)))
    && Closed(c, hb, bpc, n, bpc + |body|, n)
  }

  lemma LoopRanges(c: Chunk, pc: nat, t: Option<seq<Byte>>, i: Option<seq<Byte>>, body: seq<Byte>, n: nat,
      ht: Heights, hi: Heights, hb: Heights, x: nat, ipc: nat, bpc: nat)
    requires LoopPlaced(c, pc, t, i, body, n, ht, hi, hb)
    requires x == S.ExitPc(pc, t, i, body) && ipc == pc + TestSize(t) && bpc == S.BodyPc(pc, t, i)
    ensures var h1, h2, h3 := TestHeights(ht, pc, t, n), IncrHeights(hi, ipc, i, n), ExitHeights(x, t, n);
      var end := x + if t.Some? then 1 else 0;
      var h := Layers(h1, h2, hb, h3);
      && Sub(h1, h) && Sub(h2, h) && Sub(hb, h) && Sub(h3, h)
      && At(h, pc, n) && At(h, end, n)
  {
    hide CodeAt, EmitBranch, Safe, Tight, Next, LoopReach, TestHeights, IncrHeights, ExitHeights, Layers, Sub,
        S.TestAt, S.IncrAt;
    var end := x + if t.Some? then 1 else 0;
    var k := bpc + |body|;
    var h1, h2, h3 := TestHeights(ht, pc, t, n), IncrHeights(hi, ipc, i, n), ExitHeights(x, t, n);
    TestRange(c, ht, pc, t, n);
    IncrRange(c, hi, ipc, i, n);
    ExitRange(x, t, n);
    LayersAgree(h1, pc, ipc, h2, bpc, hb, k, h3, x, end);
    SubAt(h1, Layers(h1, h2, hb, h3), pc);
    SubAt(h3, Layers(h1, h2, hb, h3), end);
  }

  lemma SubAt(h: Heights, all: Heights, pc: nat)
    requires Sub(h, all) && pc in h
    ensures At(all, pc, h[pc])
  {
  }

  lemma LoopAround(c: Chunk, pc: nat, t: Option<seq<Byte>>, i: Option<seq<Byte>>, body: seq<Byte>, n: nat,
      ht: Heights, hi: Heights, hb: Heights) returns (h: Heights)
    requires LoopPlaced(c, pc, t, i, body, n, ht, hi, hb)
    ensures Closed(c, h, pc, n, S.ExitPc(pc, t, i, body) + (if t.Some? then 1 else 0), n)
  {
    hide LoopPlaced, Part, Sub, Safe, Tight, Next, TestHeights, IncrHeights, ExitHeights, Layers, Leads;
    var x := S.ExitPc(pc, t, i, body);
    var end := x + if t.Some? then 1 else 0;
    var ipc, bpc := pc + TestSize(t), S.BodyPc(pc, t, i);
    var h1, h2, h3 := TestHeights(ht, pc, t, n), IncrHeights(hi, ipc, i, n), ExitHeights(x, t, n);
    h := Layers(h1, h2, hb, h3);
    LoopRanges(c, pc, t, i, body, n, ht, hi, hb, x, ipc, bpc);
    LoopParts(c, pc, t, i, body, n, ht, hi, hb, x, ipc, bpc, h);
    JoinAll(c, h1, pc, ipc, h2, bpc, hb, bpc + |body|, h3, x, end, h);
  }

  lemma JoinAll(c: Chunk, h1: Heights, a: nat, i: nat, h2: Heights, b: nat, h3: Heights, k: nat, h4: Heights, x: nat,
      end: nat, all: Heights)
    requires Part(c, h1, a, i, all) && Part(c, h2, i, b, all) && Part(c, h3, b, k, all) && Part(c, h4, x, end, all)
    requires Leads(c, all, k, x)
    ensures Part(c, Layers(h1, h2, h3, h4), a, end, all)
  {
    hide Safe, Tight, Next;
    Join(c, h1, a, i, h2, i, b, all);
    Join(c, h1 + h2, a, b, h3, b, k, all);
    Join(c, h1 + h2 + h3, a, k, h4, x, end, all);
  }

  lemma {:induction false} ForSafe(c: Chunk, first: Option<Stmt>, cond: Option<Expr>, incr: Option<Expr>, loop: Stmt,
      sc: Scope, pc: nat)
      returns (h: Heights)
    requires Settled(sc) && WellFormedStmt(For(first, cond, incr, loop), false)
    requires Placed(c, GenStmt(For(first, cond, incr, loop), sc), pc)
    ensures var g := GenStmt(For(first, cond, incr, loop), sc);
      Closed(c, h, pc, |sc.locals|, pc + |g.bytes|, |g.scope.locals|)
    decreases For(first, cond, incr, loop), 1
  {
    hide CodeAt, Closed, GenFor, Settled, EndScope, Keeps;
    BeginSettled(sc);
    var g := GenFor(first, cond, incr, loop, BeginScope(sc));
    CodeAtSplit(c.code, pc, g.bytes, EndScope(g.scope).bytes);
    h := ClausesSafe(c, first, cond, incr, loop, BeginScope(sc), pc);
    h := LeaveSafe(c, h, sc, g, pc);
  }

  lemma {:induction false} ClausesSafe(c: Chunk, first: Option<Stmt>, cond: Option<Expr>, incr: Option<Expr>,
      loop: Stmt, sc: Scope, pc: nat)
      returns (h: Heights)
    requires Settled(sc) && WellFormedFirst(first) && WellFormedStmt(loop, false)
    requires Placed(c, GenFor(first, cond, incr, loop, sc), pc)
    ensures var g := GenFor(first, cond, incr, loop, sc);
      Closed(c, h, pc, |sc.locals|, pc + |g.bytes|, |g.scope.locals|)
    decreases For(first, cond, incr, loop), 0
  {
    hide CodeAt, Closed, GenOptional, GenLoop, Settled, Keeps;
    var g := GenOptional(first, sc);
    var g1 := GenLoop(cond, incr, loop, g.scope);
    var mid := pc + |g.bytes|;
    CodeAtSplit(c.code, pc, g.bytes, g1.bytes);
    h := OptionalSafe(c, first, sc, pc);
    var h1 := LoopSafe(c, cond, incr, loop, g.scope, mid);
    Connect(c, h, pc, |sc.locals|, mid, |g.scope.locals|, h1, mid, |g.scope.locals|, mid + |g1.bytes|,
        |g1.scope.locals|);
    h := h + h1;
  }

  // ----- whole scripts -----

  /** pc is where the code starts, or where another instruction ends. */
  ghost predicate Boundary(c: Chunk, h: Heights, pc: nat) {
    pc == 0 || exists q :: q in h && Next(c, q) == pc
  }

  /** h has a height for every instruction, starting with the script in its slot, and for
      nothing else. Every instruction is safe, so every jump goes to an instruction. */
  ghost predicate Tracks(c: Chunk, h: Heights) {
    && At(h, 0, 1)
    && forall pc :: pc in h ==> pc < |c.code| && Safe(c, h, pc) && Boundary(c, h, pc)
  }

  ghost predicate Below(h: Heights, size: nat) {
    forall pc :: pc in h ==> h[pc] < size
  }

  /** A stack of that size is large enough. */
  ghost predicate Room(c: Chunk, size: nat) {
    exists h :: Tracks(c, h) && Below(h, size)
  }

  lemma {:induction false} LastBelow(h: Heights, pc: nat, k: nat) returns (q: nat)
    requires 0 in h && 0 < k <= pc && forall r :: r in h && k <= r ==> pc <= r
    ensures q in h && q < pc && forall r :: r in h && r < pc ==> r <= q
    decreases k
  {
    if k - 1 in h {
      q := k - 1;
    } else {
      q := LastBelow(h, pc, k - 1);
    }
  }

  lemma NextIsLater(c: Chunk, h: Heights, pc: nat)
    requires SafeAt(c, h, pc)
    ensures Next(c, pc) > pc
  {
  }

  lemma PartBoundary(c: Chunk, h: Heights, hi: nat, pc: nat)
    requires Part(c, h, 0, hi, h) && pc in h
    ensures Boundary(c, h, pc)
  {
    hide Safe, Next;
    if pc > 0 {
      var q := LastBelow(h, pc, pc);
      NextIsLater(c, h, q);
      assert Next(c, q) == pc;
    }
  }

  /** In the code of every script that compiles, jumps go to instructions, and the stack has
      one known height at each of them, which is at most one more than its position. */
  lemma ScriptSafe(ts: seq<Token>, globals: seq<Global>) returns (h: Heights)
    requires Script.Compiled(ts, globals).Code?
    ensures var g := Script.Compiled(ts, globals);
      Tracks(Chunk(g.bytes, g.scope.constants), h) && forall pc :: pc in h ==> h[pc] <= pc + 1
  {
    hide CodeAt, Closed, GenStmts, EmitPlain, Safe, Tight, Next;
    P.ProgramSound(ts);
    var ss := P.Program(ts).value;
    var sc := ScriptScope(globals);
    var g := Script.Compiled(ts, globals);
    var c := Chunk(g.bytes, g.scope.constants);
    var body := GenStmts(ss, sc);
    var end := |body.bytes|;
    ReturnPlaces(c, body.bytes);
    h := StmtsSafe(c, ss, sc, 0);
    Script.NoLocalsLeft(sc, body.scope);
    h := AppendPlain(c, h, 0, 1, end, 1, PushNil);
    ReturnEnds(c, h, end + 1);
  }

  lemma ReturnPlaces(c: Chunk, body: seq<Byte>)
    requires c.code == body + (EmitPlain(PushNil) + EmitPlain(Return))
    ensures CodeAt(c.code, 0, body) && CodeAt(c.code, |body|, EmitPlain(PushNil))
        && CodeAt(c.code, |body| + 1, EmitPlain(Return))
    ensures |c.code| == |body| + 2
  {
    hide CodeAt, EmitPlain;
    Script.WholeCode(c.code);
    CodeAtSplit(c.code, 0, body, EmitPlain(PushNil) + EmitPlain(Return));
    CodeAtSplit(c.code, |body|, EmitPlain(PushNil), EmitPlain(Return));
  }

  lemma ReturnEnds(c: Chunk, h: Heights, pc: nat)
    requires Closed(c, h, 0, 1, pc, 2) && CodeAt(c.code, pc, EmitPlain(Return)) && |c.code| == pc + 1
    ensures Tracks(c, h) && forall p :: p in h ==> h[p] <= p + 1
  {
    hide CodeAt, EmitPlain, Safe, Next, Boundary;
    ReturnSafe(c, h, pc);
    forall p | p in h
      ensures Boundary(c, h, p)
    {
      PartBoundary(c, h, pc, p);
    }
  }

  lemma ReturnSafe(c: Chunk, h: Heights, pc: nat)
    requires At(h, pc, 2) && CodeAt(c.code, pc, EmitPlain(Return))
    ensures Safe(c, h, pc)
  {
    hide CodeAt, EmitPlain;
    FetchPlain(c.code, pc, Return);
  }

  /** One value of room for each byte of the code is enough. */
  lemma CodeSizeIsRoom(ts: seq<Token>, globals: seq<Global>, size: nat)
    requires Script.Compiled(ts, globals).Code? && size > |Script.Compiled(ts, globals).bytes|
    ensures var g := Script.Compiled(ts, globals); Room(Chunk(g.bytes, g.scope.constants), size)
  {
    hide Safe, Boundary, Script.Compiled;
    var h := ScriptSafe(ts, globals);
    assert Below(h, size);
  }

  /** The machine is in front of an instruction, with as many values as h says, or it has
      stopped, and not because something undefined happened. */
  ghost predicate OnTrack(h: Heights, st: Status) {
    match st
    case Running(vm) => At(h, vm.pc, |vm.stack|)
    case Stuck => false
    case _ => true
  }

  lemma StepOnTrack(fp: Arith, c: Chunk, h: Heights, vm: Vm)
    requires At(h, vm.pc, |vm.stack|) && Safe(c, h, vm.pc)
    ensures OnTrack(h, Step(fp, c, vm))
  {
  }

  lemma {:induction false} StaysOnTrack(fp: Arith, c: Chunk, h: Heights, st: Status, k: nat)
    requires OnTrack(h, st) && Tracks(c, h)
    ensures OnTrack(h, RunFor(fp, c, st, k))
    decreases k
  {
    hide Safe, Tight, Next, Step;
    if k > 0 && st.Running? {
      StepOnTrack(fp, c, h, st.vm);
      StaysOnTrack(fp, c, h, Step(fp, c, st.vm), k - 1);
    }
  }

  /** Whatever a compiled script has done so far, nothing undefined has happened: also when an
      operand was narrowed. */
  lemma NeverStuck(fp: Arith, ts: seq<Token>, globals: seq<Global>, vals: seq<Option<Value>>, output: seq<Value>,
      k: nat)
    requires Script.Compiled(ts, globals).Code?
    ensures var g := Script.Compiled(ts, globals);
      !RunFor(fp, Chunk(g.bytes, g.scope.constants), Running(Script.StartOf(vals, output)), k).Stuck?
  {
    hide Safe, Tight, Next, RunFor, Script.Compiled;
    var g := Script.Compiled(ts, globals);
    var h := ScriptSafe(ts, globals);
    StaysOnTrack(fp, Chunk(g.bytes, g.scope.constants), h, Running(Script.StartOf(vals, output)), k);
  }

  /** With room for the heights, there is room in every state of a run. */
  lemma StaysInRoom(fp: Arith, c: Chunk, size: nat, vals: seq<Option<Value>>, output: seq<Value>, k: nat)
    requires Room(c, size)
    ensures size > 1
    ensures match RunFor(fp, c, Running(Script.StartOf(vals, output)), k)
      case Running(vm) => |vm.stack| < size
      case Stuck => false
      case _ => true
  {
    hide Tracks, RunFor;
    var h :| Tracks(c, h) && Below(h, size);
    TracksStart(c, h);
    StaysOnTrack(fp, c, h, Running(Script.StartOf(vals, output)), k);
  }

  lemma TracksStart(c: Chunk, h: Heights)
    requires Tracks(c, h)
    ensures At(h, 0, 1)
  {
  }
}
