/** What a run over boxes means for the values on the stack: assigned values are read back
    through every name of a variable, arguments arrive, results come back. Nothing here is
    said in terms of the functions that define the instructions. */
module Sharing {
  import opened ClosureHeap
  import opened Boxes

  /** In the running function, the variable c is the one in box b. */
  ghost predicate Denotes(s: State, c: Capture, b: Box) {
    && s.frames != []
    && var f := s.frames[|s.frames| - 1];
      if c.isLocal then f.base + c.index < |s.boxes| && s.boxes[f.base + c.index] == b
      else f.closure in s.captured && c.index < |s.captured[f.closure]| && s.captured[f.closure][c.index] == b
  }

  /** The stack has these values. */
  ghost predicate Shows(s: State, stack: seq<Value>) {
    |stack| == |s.boxes| && forall i :: 0 <= i < |stack| ==> s.boxes[i] in s.store && s.store[s.boxes[i]] == stack[i]
  }

  /** A run, with the values on the stack before each of its instructions and at its end. */
  ghost predicate Traces(instrs: seq<Instr>, states: seq<State>, stacks: seq<seq<Value>>) {
    && Runs(instrs, states) && |stacks| == |states|
    && Numbered(states[0])
    && forall k :: 0 <= k < |states| ==> Shows(states[k], stacks[k])
  }

  ghost function TopOf(stack: seq<Value>): Value
    requires stack != []
  {
    stack[|stack| - 1]
  }

  /** An assignment to the variable in box b. */
  ghost predicate Assigns(s: State, i: Instr, b: Box) {
    i.ISet? && Denotes(s, i.c, b)
  }

  lemma AssignsIsSets(s: State, i: Instr, b: Box)
    ensures Assigns(s, i, b) <==> Sets(s, i, b)
  {
  }

  lemma {:induction false} NumberedAt(instrs: seq<Instr>, states: seq<State>, k: nat)
    requires Runs(instrs, states) && Numbered(states[0]) && k <= |instrs|
    ensures Numbered(states[k])
    decreases k
  {
    if k > 0 {
      NumberedAt(instrs, states, k - 1);
      DoesNumbered(states[k - 1], instrs[k - 1], states[k]);
    }
  }

  /** A variable that is not assigned keeps its value. */
  lemma {:induction false} Unassigned(instrs: seq<Instr>, states: seq<State>, b: Box, j: nat, k: nat)
    requires Runs(instrs, states) && Numbered(states[0]) && j <= k <= |instrs| && b in states[j].store
    requires forall m :: j <= m < k ==> !Assigns(states[m], instrs[m], b)
    ensures b in states[k].store && states[k].store[b] == states[j].store[b]
    decreases k - j
  {
    if j < k {
      Unassigned(instrs, states, b, j, k - 1);
      NumberedAt(instrs, states, k - 1);
      AssignsIsSets(states[k - 1], instrs[k - 1], b);
      DoesKeeps(states[k - 1], instrs[k - 1], states[k], b);
    }
  }

  lemma SetStores(s: State, i: Instr, s1: State, stack: seq<Value>, b: Box)
    requires Does(s, i, s1) && Shows(s, stack) && Assigns(s, i, b)
    ensures b in s1.store && s1.store[b] == TopOf(stack)
  {
  }

  lemma GetPushes(s: State, i: Instr, s1: State, stack: seq<Value>, stack1: seq<Value>, b: Box)
    requires Does(s, i, s1) && Shows(s, stack) && Shows(s1, stack1) && Numbered(s)
    requires i.IGet? && Denotes(s, i.c, b) && b in s.store
    ensures stack1 == stack + [s.store[b]]
  {
    Pushed(s, s.store[b], s1, stack, stack1);
  }

  lemma Pushed(s: State, v: Value, s1: State, stack: seq<Value>, stack1: seq<Value>)
    requires Numbered(s) && s1 == Push(s, v) && Shows(s, stack) && Shows(s1, stack1)
    ensures stack1 == stack + [v]
  {
    forall i | 0 <= i < |stack|
      ensures stack1[i] == stack[i]
    {
      assert s1.boxes[i] == s.boxes[i];
    }
  }

  /** What was assigned to a variable is what it is read as, until it is assigned again: through
      its slot, through any closure that has captured it, before and after the slot is gone. */
  lemma SetThenGet(instrs: seq<Instr>, states: seq<State>, stacks: seq<seq<Value>>, b: Box, j: nat, k: nat)
    requires Traces(instrs, states, stacks) && j < k < |instrs|
    requires Assigns(states[j], instrs[j], b) && stacks[j] != []
    requires instrs[k].IGet? && Denotes(states[k], instrs[k].c, b)
    requires forall m :: j < m < k ==> !Assigns(states[m], instrs[m], b)
    ensures stacks[k + 1] == stacks[k] + [TopOf(stacks[j])]
  {
    hide Does, Shows, Denotes, Numbered;
    SetStores(states[j], instrs[j], states[j + 1], stacks[j], b);
    Unassigned(instrs, states, b, j + 1, k);
    NumberedAt(instrs, states, k);
    GetPushes(states[k], instrs[k], states[k + 1], stacks[k], stacks[k + 1], b);
  }

  /** The other instructions, on the stack: what they push and pop, and that an assignment
      changes no slot but those of its variable. */
  lemma StackEffects(instrs: seq<Instr>, states: seq<State>, stacks: seq<seq<Value>>, j: nat)
    requires Traces(instrs, states, stacks) && j < |instrs|
    ensures stacks[j] != []
    ensures match instrs[j]
      case IPush(d) => stacks[j + 1] == stacks[j] + [Data(d)]
      case IPop | ICloseUpvalue => stacks[j + 1] == stacks[j][..|stacks[j]| - 1]
      case IGet(c) =>
        && |stacks[j + 1]| == |stacks[j]| + 1 && stacks[j + 1][..|stacks[j]|] == stacks[j]
        && exists b :: Denotes(states[j], c, b) && b in states[j].store && TopOf(stacks[j + 1]) == states[j].store[b]
      case ISet(c) =>
        && |stacks[j + 1]| == |stacks[j]| && (exists b :: Denotes(states[j], c, b))
        && forall i :: 0 <= i < |stacks[j]| ==>
          stacks[j + 1][i] == if Denotes(states[j], c, states[j].boxes[i]) then TopOf(stacks[j]) else stacks[j][i]
      case IClose(_) =>
        && |stacks[j + 1]| == |stacks[j]| + 1 && stacks[j + 1][..|stacks[j]|] == stacks[j]
        && TopOf(stacks[j + 1]).Fun? && TopOf(stacks[j + 1]).c !in states[j].captured
      case ICall(_) => stacks[j + 1] == stacks[j]
      case IReturn => stacks[j + 1] != [] && TopOf(stacks[j + 1]) == TopOf(stacks[j])
  {
    NumberedAt(instrs, states, j);
    var s, s1 := states[j], states[j + 1];
    assert Does(s, instrs[j], s1);
    match instrs[j]
    case IPush(d) => Pushed(s, Data(d), s1, stacks[j], stacks[j + 1]);
    case IGet(c) =>
      assert Denotes(s, c, Find(s, c));
      Pushed(s, Read(s, Find(s, c)), s1, stacks[j], stacks[j + 1]);
    case ISet(c) =>
      assert Denotes(s, c, Find(s, c));
      assert s1.boxes == s.boxes;
    case IClose(cs) =>
      var c :| c in s1.captured && Closes(s, c, cs, s1);
      Pushed(s, Fun(c), Push(s, Fun(c)), stacks[j], stacks[j + 1]);
    case _ =>
  }

  /** A new closure, which is on top, shares each of its variables with the function that makes
      it. */
  lemma ClosureShares(instrs: seq<Instr>, states: seq<State>, stacks: seq<seq<Value>>, j: nat)
    requires Traces(instrs, states, stacks) && j < |instrs| && instrs[j].IClose?
    ensures stacks[j + 1] != [] && TopOf(stacks[j + 1]).Fun?
    ensures var c, cs := TopOf(stacks[j + 1]).c, instrs[j].cs;
      && c in states[j + 1].captured && |states[j + 1].captured[c]| == |cs|
      && forall m :: 0 <= m < |cs| ==> Denotes(states[j + 1], cs[m], states[j + 1].captured[c][m])
  {
    NumberedAt(instrs, states, j);
    var s, s1 := states[j], states[j + 1];
    assert Does(s, instrs[j], s1);
    var c :| c in s1.captured && Closes(s, c, instrs[j].cs, s1);
    Pushed(s, Fun(c), Push(s, Fun(c)), stacks[j], stacks[j + 1]);
  }

  /** When an instruction may be executed: its variables are there, slot 0 of the function stays,
      and a variable that a closure has captured is not simply popped. */
  lemma EnabledExactly(s: State, i: Instr, stack: seq<Value>)
    requires Shows(s, stack) && s.frames != [] && s.frames[|s.frames| - 1].base < |stack|
    ensures var above := |stack| - 1 - s.frames[|s.frames| - 1].base;
      Enabled(s, i) <==>
        match i
        case IPush(_) => true
        case IPop => above > 0 && forall c :: c in s.captured ==> s.boxes[|s.boxes| - 1] !in s.captured[c]
        case ICloseUpvalue => above > 0
        case IGet(c) => exists b :: Denotes(s, c, b)
        case ISet(c) => exists b :: Denotes(s, c, b)
        case IClose(cs) => forall m :: 0 <= m < |cs| ==> Denoted(s, cs[m])
        case ICall(n) => n < above && stack[|stack| - 1 - n].Fun?
        case IReturn => |s.frames| > 1
  {
    match i
    case IGet(c) => if Finds(s, c) { assert Denotes(s, c, Find(s, c)); }
    case ISet(c) => if Finds(s, c) { assert Denotes(s, c, Find(s, c)); }
    case _ =>
  }

  /** A new closure may capture a variable that is there, or itself, which is next on the stack. */
  ghost predicate Denoted(s: State, c: Capture)
    requires s.frames != []
  {
    var f := s.frames[|s.frames| - 1];
    if c.isLocal then f.base + c.index <= |s.boxes| else f.closure in s.captured && c.index < |s.captured[f.closure]|
  }

  // ----- calls -----

  /** Argument i of a call is slot i of the function that is called, and the function itself is
      slot 0. */
  lemma CallPasses(instrs: seq<Instr>, states: seq<State>, stacks: seq<seq<Value>>, j: nat)
    requires Traces(instrs, states, stacks) && j < |instrs| && instrs[j].ICall?
    ensures var n := instrs[j].argCount;
      && n < |stacks[j]| && stacks[j + 1] == stacks[j]
      && var base := |stacks[j]| - 1 - n;
      && stacks[j][base].Fun? && states[j + 1].frames == states[j].frames + [Frame(stacks[j][base].c, base)]
      && forall i :: 0 <= i <= n ==> Denotes(states[j + 1], Capture(true, i), states[j].boxes[base + i])
  {
    assert Does(states[j], instrs[j], states[j + 1]);
  }

  /** Between a call at j and its return the frames of the caller stay, and the frames of the
      function and those that it calls are above its slot 0. */
  ghost predicate Inside(s: State, frames: seq<Frame>, boxes: seq<Box>, base: nat) {
    && |s.frames| > |frames| && s.frames[..|frames|] == frames
    && s.frames[|frames|].base == base && (forall i :: |frames| <= i < |s.frames| ==> s.frames[i].base >= base)
    && base <= |boxes| && base < |s.boxes| && s.boxes[..base] == boxes[..base]
  }

  lemma InsideStep(s: State, i: Instr, s1: State, frames: seq<Frame>, boxes: seq<Box>, base: nat)
    requires Inside(s, frames, boxes, base) && Does(s, i, s1) && |s1.frames| > |frames|
    ensures Inside(s1, frames, boxes, base)
  {
    if i.IClose? {
      var c :| c in s1.captured && Closes(s, c, i.cs, s1);
    }
    assert s.frames[|s.frames| - 1].base >= base;
    assert s1.boxes[..base] == s.boxes[..base];
  }

  lemma {:induction false} StaysInside(instrs: seq<Instr>, states: seq<State>, frames: seq<Frame>, boxes: seq<Box>,
      base: nat, j: nat, k: nat)
    requires Runs(instrs, states) && j <= k <= |instrs| && Inside(states[j], frames, boxes, base)
    requires forall m :: j <= m <= k ==> |states[m].frames| > |frames|
    ensures Inside(states[k], frames, boxes, base)
    decreases k - j
  {
    hide Inside, Does;
    if j < k {
      StaysInside(instrs, states, frames, boxes, base, j, k - 1);
      InsideStep(states[k - 1], instrs[k - 1], states[k], frames, boxes, base);
    }
  }

  /** The call at j returns at k: until then the caller does not run. */
  ghost predicate ReturnsAt(instrs: seq<Instr>, states: seq<State>, j: nat, k: nat) {
    && j < k < |instrs| < |states| && instrs[j].ICall? && instrs[k].IReturn?
    && (forall m :: j < m <= k ==> |states[m].frames| > |states[j].frames|)
    && |states[k + 1].frames| == |states[j].frames|
  }

  /** The caller goes on in the frame that it had, with the variables in the slots that it had
      below the called function, and the result on top. */
  lemma ReturnRestores(instrs: seq<Instr>, states: seq<State>, stacks: seq<seq<Value>>, j: nat, k: nat)
    requires Traces(instrs, states, stacks) && ReturnsAt(instrs, states, j, k)
    ensures instrs[j].argCount < |stacks[j]| && stacks[k] != []
    ensures var base := |stacks[j]| - 1 - instrs[j].argCount;
      && states[k + 1].frames == states[j].frames
      && |stacks[k + 1]| == base + 1 && TopOf(stacks[k + 1]) == TopOf(stacks[k])
      && states[k + 1].boxes[..base] == states[j].boxes[..base]
  {
    hide Numbered;
    NumberedAt(instrs, states, k);
    CallPasses(instrs, states, stacks, j);
    var base := |stacks[j]| - 1 - instrs[j].argCount;
    StaysInside(instrs, states, states[j].frames, states[j].boxes, base, j + 1, k);
    ReturnStep(states[k], states[k + 1], states[j].frames, states[j].boxes, base, stacks[k], stacks[k + 1]);
  }

  lemma ReturnStep(s: State, s1: State, frames: seq<Frame>, boxes: seq<Box>, base: nat, stack: seq<Value>,
      stack1: seq<Value>)
    requires Numbered(s) && Inside(s, frames, boxes, base) && Does(s, IReturn, s1) && |s1.frames| == |frames|
    requires Shows(s, stack) && Shows(s1, stack1)
    ensures s1.frames == frames && s1.boxes[..base] == boxes[..base] && |s1.boxes| == base + 1
    ensures stack != [] && stack1 != [] && TopOf(stack1) == TopOf(stack)
  {
  }

  /** And each of these slots has the value that it had, unless its variable was assigned. */
  lemma CallKeepsSlots(instrs: seq<Instr>, states: seq<State>, stacks: seq<seq<Value>>, j: nat, k: nat, i: nat)
    requires Traces(instrs, states, stacks) && ReturnsAt(instrs, states, j, k)
    requires i < |stacks[j]| - 1 - instrs[j].argCount
    requires forall m :: j < m < k ==> !Assigns(states[m], instrs[m], states[j].boxes[i])
    ensures i < |stacks[k + 1]| && stacks[k + 1][i] == stacks[j][i]
  {
    hide Numbered, Does, Denotes;
    ReturnRestores(instrs, states, stacks, j, k);
    Unassigned(instrs, states, states[j].boxes[i], j, k + 1);
    var base := |stacks[j]| - 1 - instrs[j].argCount;
    assert states[k + 1].boxes[..base][i] == states[j].boxes[..base][i];
  }
}
