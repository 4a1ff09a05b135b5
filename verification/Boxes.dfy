/** The meaning of captured variables: every variable is a box, and a closure holds the boxes
    of the variables that it uses. Nothing is ever closed or moved. */
module Boxes {
  import opened ClosureHeap

  type Box = nat

  /** `boxes` are the boxes of the stack slots and `captured` those of each closure. */
  datatype State = State(
    boxes: seq<Box>,
    store: map<Box, Value>,
    captured: map<Closure, seq<Box>>,
    frames: seq<Frame>,
    next: Box)

  function Read(s: State, b: Box): Value {
    if b in s.store then s.store[b] else Nil
  }

  function Top(s: State): Value
    requires s.boxes != []
  {
    Read(s, s.boxes[|s.boxes| - 1])
  }

  function Write(s: State, b: Box, v: Value): State {
    s.(store := s.store[b := v])
  }

  function Push(s: State, v: Value): State {
    s.(boxes := s.boxes + [s.next], store := s.store[s.next := v], next := s.next + 1)
  }

  /** Forgets all slots from n on. Their boxes live on if a closure holds them. */
  function Truncate(s: State, n: nat): State
    requires n <= |s.boxes|
  {
    s.(boxes := s.boxes[..n])
  }

  /** The running function. */
  function Running(s: State): Frame
    requires s.frames != []
  {
    s.frames[|s.frames| - 1]
  }

  predicate Finds(s: State, c: Capture)
    requires s.frames != []
  {
    var f := Running(s);
    if c.isLocal then f.base + c.index < |s.boxes|
    else f.closure in s.captured && c.index < |s.captured[f.closure]|
  }

  /** The box of a variable of the running function, its own or captured. */
  function Find(s: State, c: Capture): Box
    requires s.frames != [] && Finds(s, c)
  {
    var f := Running(s);
    if c.isLocal then s.boxes[f.base + c.index] else s.captured[f.closure][c.index]
  }

  function Get(s: State, c: Capture): State
    requires s.frames != [] && Finds(s, c)
  {
    Push(s, Read(s, Find(s, c)))
  }

  function Set(s: State, c: Capture): State
    requires s.frames != [] && Finds(s, c) && s.boxes != []
  {
    Write(s, Find(s, c), Top(s))
  }

  function FindAll(s: State, cs: seq<Capture>): (r: seq<Box>)
    requires s.frames != [] && forall i :: 0 <= i < |cs| ==> Finds(s, cs[i])
    ensures |r| == |cs| && forall i :: 0 <= i < |cs| ==> r[i] == Find(s, cs[i])
  {
    seq(|cs|, i requires 0 <= i < |cs| => Find(s, cs[i]))
  }

  /** A new closure is pushed, and then holds the boxes of its variables. */
  function Close(s: State, c: Closure, cs: seq<Capture>): State
    requires s.frames != [] && FindsAll(Push(s, Fun(c)), cs)
  {
    var s1 := Push(s, Fun(c));
    s1.(captured := s1.captured[c := FindAll(s1, cs)])
  }

  predicate FindsAll(s: State, cs: seq<Capture>)
    requires s.frames != []
  {
    forall i :: 0 <= i < |cs| ==> Finds(s, cs[i])
  }

  /** A closure that holds the first i of its variables. */
  function Closing(s: State, c: Closure, cs: seq<Capture>, i: nat): State
    requires s.frames != [] && FindsAll(s, cs) && i <= |cs|
  {
    s.(captured := s.captured[c := FindAll(s, cs[..i])])
  }

  lemma ClosingStarts(s: State, c: Closure, cs: seq<Capture>)
    requires s.frames != [] && FindsAll(s, cs)
    ensures Closing(s, c, cs, 0) == s.(captured := s.captured[c := []])
  {
  }

  lemma ClosingStep(s: State, c: Closure, cs: seq<Capture>, i: nat)
    requires s.frames != [] && FindsAll(s, cs) && i < |cs| && Running(s).closure != c
    ensures var t := Closing(s, c, cs, i);
      && c in t.captured && Finds(t, cs[i])
      && Closing(s, c, cs, i + 1) == t.(captured := t.captured[c := t.captured[c] + [Find(t, cs[i])]])
  {
    assert FindAll(s, cs[..i + 1]) == FindAll(s, cs[..i]) + [Find(s, cs[i])];
  }

  lemma ClosingEnds(s: State, c: Closure, cs: seq<Capture>)
    requires s.frames != [] && FindsAll(Push(s, Fun(c)), cs)
    ensures Closing(Push(s, Fun(c)), c, cs, |cs|) == Close(s, c, cs)
  {
    assert cs[..|cs|] == cs;
  }

  function Call(s: State, argCount: nat): State
    requires argCount < |s.boxes| && Read(s, s.boxes[|s.boxes| - 1 - argCount]).Fun?
  {
    var base := |s.boxes| - 1 - argCount;
    s.(frames := s.frames + [Frame(Read(s, s.boxes[base]).c, base)])
  }

  function Return(s: State): State
    requires |s.frames| > 1 && Running(s).base < |s.boxes|
  {
    Push(Truncate(s, Running(s).base), Top(s)).(frames := s.frames[..|s.frames| - 1])
  }

  // ----- runs -----

  datatype Instr =
    | IPush(d: int)
    | IPop
    | IGet(c: Capture)
    | ISet(c: Capture)
    | IClose(cs: seq<Capture>)
    | ICloseUpvalue
    | ICall(argCount: nat)
    | IReturn

  /** Some closure has captured the variable in the box. */
  ghost predicate Held(s: State, b: Box) {
    exists c :: c in s.captured && b in s.captured[c]
  }

  /** What the compiler promises of an instruction: its variables are there, slot 0 of a function
      is neither popped nor an argument, and a captured variable is closed and not popped. */
  ghost predicate Enabled(s: State, i: Instr) {
    && s.frames != [] && Running(s).base < |s.boxes|
    && match i
       case IPush(_) => true
       case IPop => Running(s).base < |s.boxes| - 1 && !Held(s, s.boxes[|s.boxes| - 1])
       case ICloseUpvalue => Running(s).base < |s.boxes| - 1
       case IGet(c) => Finds(s, c)
       case ISet(c) => Finds(s, c)
       case IClose(cs) => FindsAll(Push(s, Nil), cs)
       case ICall(n) => Running(s).base + n < |s.boxes| - 1 && Read(s, s.boxes[|s.boxes| - 1 - n]).Fun?
       case IReturn => |s.frames| > 1
  }

  /** What an instruction does to the boxes. Only the name of a new closure is open. */
  ghost predicate Does(s: State, i: Instr, s1: State) {
    && Enabled(s, i)
    && match i
       case IPush(d) => s1 == Push(s, Data(d))
       case IPop | ICloseUpvalue => s1 == Truncate(s, |s.boxes| - 1)
       case IGet(c) => s1 == Get(s, c)
       case ISet(c) => s1 == Set(s, c)
       case IClose(cs) => exists c :: c in s1.captured && Closes(s, c, cs, s1)
       case ICall(n) => s1 == Call(s, n)
       case IReturn => s1 == Return(s)
  }

  ghost predicate Closes(s: State, c: Closure, cs: seq<Capture>, s1: State)
    requires s.frames != []
  {
    c !in s.captured && FindsAll(Push(s, Fun(c)), cs) && s1 == Close(s, c, cs)
  }

  /** The states of a run. */
  ghost predicate Runs(instrs: seq<Instr>, states: seq<State>) {
    && |states| == |instrs| + 1
    && forall k :: 0 <= k < |instrs| ==> Does(states[k], instrs[k], states[k + 1])
  }

  lemma RunsMore(instrs: seq<Instr>, states: seq<State>, i: Instr, s: State)
    requires Runs(instrs, states) && Does(states[|instrs|], i, s)
    ensures Runs(instrs + [i], states + [s])
  {
  }

  /** Every box in use has a value, and no number is handed out twice. */
  ghost predicate Numbered(s: State) {
    && (forall b :: b in s.store ==> b < s.next)
    && (forall b :: b in s.boxes ==> b in s.store)
    && (forall c, b :: c in s.captured && b in s.captured[c] ==> b in s.store)
  }

  ghost predicate Sets(s: State, i: Instr, b: Box) {
    i.ISet? && s.frames != [] && Finds(s, i.c) && Find(s, i.c) == b
  }

  lemma DoesNumbered(s: State, i: Instr, s1: State)
    requires Numbered(s) && Does(s, i, s1)
    ensures Numbered(s1)
  {
    if i.ISet? {
      assert Find(s, i.c) in s.store;
    }
  }

  /** One instruction changes the value of a box only if it sets the variable in that box. */
  lemma DoesKeeps(s: State, i: Instr, s1: State, b: Box)
    requires Numbered(s) && Does(s, i, s1) && b in s.store && !Sets(s, i, b)
    ensures b in s1.store && s1.store[b] == s.store[b]
  {
  }

  /** Over a whole run a closure keeps the boxes that it was made with, so closures that share
      a variable share it for ever, ... */
  lemma {:induction false} SharingLasts(instrs: seq<Instr>, states: seq<State>, c: Closure, n: nat)
    requires Runs(instrs, states) && c in states[0].captured && n <= |instrs|
    ensures c in states[n].captured && states[n].captured[c] == states[0].captured[c]
  {
    if n > 0 {
      SharingLasts(instrs, states, c, n - 1);
      assert Does(states[n - 1], instrs[n - 1], states[n]);
    }
  }

  /** ... and the variable in a box keeps its value until someone sets it. */
  lemma {:induction false} ValueLasts(instrs: seq<Instr>, states: seq<State>, b: Box, n: nat)
    requires Runs(instrs, states) && Numbered(states[0]) && b in states[0].store && n <= |instrs|
    requires forall k :: 0 <= k < n ==> !Sets(states[k], instrs[k], b)
    ensures Numbered(states[n]) && b in states[n].store && states[n].store[b] == states[0].store[b]
  {
    if n > 0 {
      ValueLasts(instrs, states, b, n - 1);
      DoesNumbered(states[n - 1], instrs[n - 1], states[n]);
      DoesKeeps(states[n - 1], instrs[n - 1], states[n], b);
    }
  }

  /** The instruction captures the local variable in the box. */
  ghost predicate CapturesLocal(s: State, i: Instr, b: Box) {
    && i.IClose? && s.frames != [] && FindsAll(Push(s, Nil), i.cs)
    && exists c :: c in i.cs && c.isLocal && Find(Push(s, Nil), c) == b
  }

  /** A variable is held by a closure only after some OP_CLOSURE has captured it as a local,
      which is what the compiler marks as captured. */
  lemma {:induction false} HeldSinceCapture(instrs: seq<Instr>, states: seq<State>, b: Box, n: nat)
    requires Runs(instrs, states) && n <= |instrs| && !Held(states[0], b) && Held(states[n], b)
    ensures exists k :: 0 <= k < n && CapturesLocal(states[k], instrs[k], b)
  {
    if n > 0 {
      if Held(states[n - 1], b) {
        HeldSinceCapture(instrs, states, b, n - 1);
      } else {
        NewlyHeld(states[n - 1], instrs[n - 1], states[n], b);
      }
    }
  }

  lemma NewlyHeld(s: State, i: Instr, s1: State, b: Box)
    requires Does(s, i, s1) && !Held(s, b) && Held(s1, b)
    ensures CapturesLocal(s, i, b)
  {
    var c :| c in s1.captured && b in s1.captured[c];
    if i.IClose? {
      var d :| d in s1.captured && Closes(s, d, i.cs, s1);
      var k :| 0 <= k < |s1.captured[c]| && s1.captured[c][k] == b;
      assert c == d && Find(Push(s, Fun(d)), i.cs[k]) == b;
      assert i.cs[k] in i.cs && i.cs[k].isLocal;
    }
  }
}
