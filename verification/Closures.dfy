/** Captured variables as src/vm.c implements them: a sorted list of open upvalues that point
    into the value stack, closed when their slots die. Every instruction is proved to do to
    the boxes what Boxes says, so sharing is never lost. */
module Closures {
  import opened ClosureHeap
  import B = Boxes
  import Sharing

  /** The upvalue after the first i. */
  function At(list: seq<Upvalue>, i: nat): Upvalue? {
    if i < |list| then list[i] else null
  }

  ghost predicate Descending(slots: seq<nat>) {
    forall i, j :: 0 <= i < j < |slots| ==> slots[i] > slots[j]
  }

  ghost predicate OwnedBy(u: Upvalue, closures: set<Closure>)
    reads closures
  {
    exists c :: c in closures && u in c.upvalues
  }

  class Machine {
    const stack: array<Value>
    var stackTop: nat
    var frames: seq<Frame>
    var openUpvalues: Upvalue?
    ghost var list: seq<Upvalue>
    ghost var slots: seq<nat>
    ghost var box: map<Upvalue, B.Box>
    ghost var spec: B.State

    /** The list of open upvalues, strictly descending by slot. */
    ghost predicate Listed()
      reads this`openUpvalues, this`list, this`slots, list`next, list`location
    {
      && openUpvalues == At(list, 0) && |slots| == |list|
      && (forall i {:trigger list[i].next} :: 0 <= i < |list| ==> list[i].next == At(list, i + 1))
      && (forall i :: 0 <= i < |list| ==> list[i].location == Slot(slots[i]))
      && Descending(slots)
    }

    ghost function Open(): set<Upvalue>
      reads this`list
    {
      set u | u in list
    }

    /** The script's closure in slot 0, in a frame of its own. */
    constructor (size: nat)
      requires size > 0
      ensures Valid() && fresh(stack) && stack.Length == size && frames[0].base == 0 && |frames| == 1
      ensures Owned() && spec == B.State([0], map[0 := Fun(frames[0].closure)], map[frames[0].closure := []], frames, 1)
    {
      var script := new Closure();
      stack := new Value[size](i => if i == 0 then Fun(script) else Nil);
      stackTop, frames, openUpvalues := 1, [Frame(script, 0)], null;
      list, slots, box := [], [], map[];
      spec := B.State([0], map[0 := Fun(script)], map[script := []], [Frame(script, 0)], 1);
    }

    method InsertUpvalue(local: nat, prevUpvalue: Upvalue?, upvalue: Upvalue?, ghost i: nat) returns (u: Upvalue)
      requires Listed() && i <= |list| && upvalue == At(list, i)
      requires prevUpvalue == if i == 0 then null else list[i - 1]
      requires Descending(slots[..i] + [local] + slots[i..])
      modifies this`openUpvalues, this`list, this`slots, Open()`next
      ensures Listed() && fresh(u) && u.location == Slot(local)
      ensures list == old(list)[..i] + [u] + old(list)[i..] && slots == old(slots)[..i] + [local] + old(slots)[i..]
    {
      ghost var before, beforeSlots := list, slots;
      AllDifferent();
      u := new Upvalue(local, upvalue);
      if prevUpvalue == null {
        openUpvalues := u;
      } else {
        prevUpvalue.next := u;
      }
      list := before[..i] + [u] + before[i..];
      slots := beforeSlots[..i] + [local] + beforeSlots[i..];
      Spliced(before, beforeSlots, i, u);
    }

    lemma AllDifferent()
      requires Listed()
      ensures forall j, k :: 0 <= j < k < |list| ==> list[j] != list[k]
    {
    }

    /** The list with u in it, from what is known about its parts. */
    lemma Spliced(before: seq<Upvalue>, beforeSlots: seq<nat>, i: nat, u: Upvalue)
      requires i <= |before| == |beforeSlots| && list == before[..i] + [u] + before[i..]
      requires openUpvalues == (if i == 0 then u else before[0]) && u.next == At(before, i)
      requires forall j {:trigger before[j].next} :: 0 <= j < |before| ==>
          before[j].next == if j == i - 1 then u else At(before, j + 1)
      requires u.location.Slot? && forall j :: 0 <= j < |before| ==> before[j].location == Slot(beforeSlots[j])
      requires slots == beforeSlots[..i] + [u.location.slot] + beforeSlots[i..] && Descending(slots)
      ensures Listed()
    {
      forall j | 0 <= j < |list|
        ensures list[j].next == At(list, j + 1) && list[j].location == Slot(slots[j])
      {
        if j < i {
          assert list[j] == before[j];
        } else if j > i {
          assert list[j] == before[j - 1];
        }
      }
    }

    /** The open upvalue of a slot, which is made if there is none. */
    method CaptureUpvalue(local: nat) returns (u: Upvalue)
      requires Listed()
      modifies this`openUpvalues, this`list, this`slots, Open()`next
      ensures Listed() && u in list && u.location == Slot(local)
      ensures local in old(slots) ==> list == old(list) && slots == old(slots)
      ensures local !in old(slots) ==> fresh(u)
      ensures forall v :: v in list <==> v in old(list) || v == u
    {
      var prevUpvalue: Upvalue? := null;
      var upvalue := openUpvalues;
      ghost var i := 0;
      while upvalue != null && upvalue.location.slot > local
        invariant i <= |list| && upvalue == At(list, i)
        invariant prevUpvalue == if i == 0 then null else list[i - 1]
        invariant forall j :: 0 <= j < i ==> slots[j] > local
        decreases |list| - i
      {
        prevUpvalue := upvalue;
        upvalue := upvalue.next;
        i := i + 1;
      }
      if upvalue != null && upvalue.location == Slot(local) {
        return upvalue;
      }
      u := InsertUpvalue(local, prevUpvalue, upvalue, i);
    }

    /** Closes the upvalues of the slots from `last` on: the first n of the list. What they
        read does not change. */
    method CloseUpvalues(last: nat) returns (ghost n: nat)
      requires Listed() && forall i :: 0 <= i < |slots| ==> slots[i] < stack.Length
      modifies this`openUpvalues, this`list, this`slots, Open()`location, Open()`closed
      ensures n <= |old(list)| && Listed() && list == old(list)[n..] && slots == old(slots)[n..]
      ensures forall i :: 0 <= i < |old(slots)| ==> (i < n <==> old(slots)[i] >= last)
      ensures forall i :: 0 <= i < n ==> old(list)[i].location == Own && old(list)[i].closed == stack[old(slots)[i]]
      ensures forall i :: n <= i < |old(list)| ==> old(list)[i].location == Slot(old(slots)[i])
    {
      hide Listed, Descending;
      ghost var before, beforeSlots := list, slots;
      OpenFacts();
      n := 0;
      while openUpvalues != null && openUpvalues.location.slot >= last
        modifies this`openUpvalues, Open()`location, Open()`closed
        invariant n <= |before| && openUpvalues == At(before, n)
        invariant forall j :: n <= j < |before| ==> before[j].location == Slot(beforeSlots[j])
        invariant forall j :: 0 <= j < n ==> beforeSlots[j] >= last
        invariant forall j :: 0 <= j < n ==> before[j].location == Own && before[j].closed == stack[beforeSlots[j]]
        decreases |before| - n
      {
        CloseHead();
        n := n + 1;
      }
      RestBelow(beforeSlots, n, last);
      list, slots := before[n..], beforeSlots[n..];
      Remaining(before, beforeSlots, n);
    }

    lemma OpenFacts()
      requires Listed()
      ensures openUpvalues == At(list, 0) && |slots| == |list| && Descending(slots)
      ensures forall j {:trigger list[j].next} :: 0 <= j < |list| ==> list[j].next == At(list, j + 1)
      ensures forall j :: 0 <= j < |list| ==> list[j].location == Slot(slots[j])
      ensures forall j, k :: 0 <= j < k < |list| ==> list[j] != list[k]
    {
    }

    lemma RestBelow(slots: seq<nat>, n: nat, last: nat)
      requires Descending(slots) && n <= |slots| && (n < |slots| ==> slots[n] < last)
      ensures forall j :: n <= j < |slots| ==> slots[j] < last
    {
    }

    /** One turn of the loop of closeUpvalues. */
    method CloseHead()
      requires openUpvalues != null && openUpvalues.location.Slot? && openUpvalues.location.slot < stack.Length
      modifies this`openUpvalues, openUpvalues`location, openUpvalues`closed
      ensures openUpvalues == old(openUpvalues.next)
      ensures old(openUpvalues).location == Own && old(openUpvalues).closed == stack[old(openUpvalues.location.slot)]
    {
      var upvalue := openUpvalues;
      upvalue.closed := stack[upvalue.location.slot];
      upvalue.location := Own;
      openUpvalues := upvalue.next;
    }

    lemma Remaining(before: seq<Upvalue>, beforeSlots: seq<nat>, n: nat)
      requires n <= |before| == |beforeSlots| && list == before[n..] && slots == beforeSlots[n..]
      requires openUpvalues == At(before, n) && Descending(beforeSlots)
      requires forall j {:trigger before[j].next} :: n <= j < |before| ==> before[j].next == At(before, j + 1)
      requires forall j :: n <= j < |before| ==> before[j].location == Slot(beforeSlots[j])
      ensures Listed()
    {
    }

    // ----- the machine and the boxes -----

    ghost predicate SlotsRelated(sp: B.State)
      reads stack
    {
      && |sp.boxes| <= stack.Length
      && (forall i :: 0 <= i < |sp.boxes| ==> sp.boxes[i] in sp.store && sp.store[sp.boxes[i]] == stack[i])
      && (forall i, j :: 0 <= i < j < |sp.boxes| ==> sp.boxes[i] != sp.boxes[j])
      && (forall b :: b in sp.store ==> b < sp.next)
    }

    /** What an upvalue points at is the variable in its box. No two upvalues, open or
        closed, are for the same box. */
    ghost predicate UpvaluesRelated(sp: B.State, bx: map<Upvalue, B.Box>, open: seq<Upvalue>)
      reads bx.Keys`location, bx.Keys`closed
    {
      && (forall u :: u in open ==> u in bx)
      && (forall u :: u in bx ==> bx[u] in sp.store)
      && (forall u :: u in bx && u.location.Slot? ==>
            u in open && u.location.slot < |sp.boxes| && bx[u] == sp.boxes[u.location.slot])
      && (forall u :: u in bx && u.location.Own? ==> bx[u] !in sp.boxes && sp.store[bx[u]] == u.closed)
      && (forall u, v :: u in bx && v in bx && u != v ==> bx[u] != bx[v])
    }

    /** A closure has the upvalues of its boxes. */
    ghost predicate CapturesRelated(captured: map<Closure, seq<B.Box>>, bx: map<Upvalue, B.Box>)
      reads captured.Keys
    {
      && (forall c :: c in captured ==> |c.upvalues| == |captured[c]|)
      && (forall c, k :: c in captured && 0 <= k < |c.upvalues| ==>
            c.upvalues[k] in bx && bx[c.upvalues[k]] == captured[c][k])
    }

    ghost predicate FramesRelated(sp: B.State)
      reads this`frames
    {
      && (forall b :: b in sp.store && sp.store[b].Fun? ==> sp.store[b].c in sp.captured)
      && frames == sp.frames && frames != []
      && (forall f :: f in frames ==> f.closure in sp.captured)
      && (forall i, j :: 0 <= i < j < |frames| ==> frames[i].base < frames[j].base)
      && frames[|frames| - 1].base < |sp.boxes|
    }

    ghost predicate ClosuresRelated(sp: B.State, bx: map<Upvalue, B.Box>)
      reads this`frames, sp.captured.Keys
    {
      CapturesRelated(sp.captured, bx) && FramesRelated(sp)
    }

    lemma MoreCaptured(sp: B.State, sp1: B.State)
      requires FramesRelated(sp) && sp.captured.Keys <= sp1.captured.Keys
      requires sp1.store == sp.store && sp1.boxes == sp.boxes && sp1.frames == sp.frames
      ensures FramesRelated(sp1)
    {
    }

    ghost predicate Valid()
      reads this, stack, list, box.Keys, spec.captured.Keys
    {
      stackTop == |spec.boxes| && Listed() && SlotsRelated(spec) && UpvaluesRelated(spec, box, list)
          && ClosuresRelated(spec, box)
    }

    lemma PushedUpvalues(sp: B.State, v: Value)
      requires SlotsRelated(sp) && UpvaluesRelated(sp, box, list)
      ensures UpvaluesRelated(B.Push(sp, v), box, list)
    {
      assert sp.next !in sp.store;
    }

    lemma PushedClosures(sp: B.State, v: Value)
      requires ClosuresRelated(sp, box) && (v.Fun? ==> v.c in sp.captured)
      ensures ClosuresRelated(B.Push(sp, v), box)
    {
    }

    method Push(v: Value)
      requires Valid() && stackTop < stack.Length && (v.Fun? ==> v.c in spec.captured)
      modifies this`stackTop, this`spec, stack
      ensures Valid() && spec == B.Push(old(spec), v)
    {
      hide Listed, UpvaluesRelated, ClosuresRelated;
      PushedUpvalues(spec, v);
      PushedClosures(spec, v);
      stack[stackTop] := v;
      stackTop := stackTop + 1;
      spec := B.Push(spec, v);
    }

    /** No closure uses the slot. The compiler emits OP_CLOSE_UPVALUE instead of OP_POP for a
        captured local, and temporaries are never captured. */
    ghost predicate Uncaptured(slot: nat)
      reads this`slots
    {
      slot !in slots
    }

    /** If no open upvalue is for a slot from n on, these slots can go. */
    lemma TruncatedUpvalues(sp: B.State, n: nat)
      requires Listed() && SlotsRelated(sp) && UpvaluesRelated(sp, box, list) && n <= |sp.boxes|
      requires forall i :: 0 <= i < |slots| ==> slots[i] < n
      ensures UpvaluesRelated(B.Truncate(sp, n), box, list)
    {
      forall u | u in box && u.location.Slot?
        ensures u.location.slot < n
      {
        var i :| 0 <= i < |list| && list[i] == u;
      }
    }

    lemma BelowTop()
      requires Listed() && UpvaluesRelated(spec, box, list)
      ensures forall i :: 0 <= i < |slots| ==> slots[i] < |spec.boxes|
    {
      forall i | 0 <= i < |slots|
        ensures slots[i] < |spec.boxes|
      {
        assert list[i] in box;
      }
    }

    method Pop()
      requires Valid() && Uncaptured(stackTop - 1)
      requires frames[|frames| - 1].base < stackTop - 1
      modifies this`stackTop, this`spec
      ensures Valid() && spec == B.Truncate(old(spec), old(stackTop) - 1)
    {
      hide Listed, UpvaluesRelated;
      BelowTop();
      TruncatedUpvalues(spec, stackTop - 1);
      stackTop := stackTop - 1;
      spec := B.Truncate(spec, stackTop);
    }

    // ----- reading and writing variables -----

    /** What a variable is: its slot, or what its upvalue points at. */
    method Load(c: Capture) returns (v: Value)
      requires Valid() && B.Finds(spec, c)
      ensures v == B.Read(spec, B.Find(spec, c))
      ensures v.Fun? ==> v.c in spec.captured
    {
      var frame := frames[|frames| - 1];
      if c.isLocal {
        v := stack[frame.base + c.index];
      } else {
        var u := frame.closure.upvalues[c.index];
        v := if u.location.Slot? then stack[u.location.slot] else u.closed;
      }
    }

    /** OP_GET_LOCAL and OP_GET_UPVALUE */
    method Get(c: Capture)
      requires Valid() && B.Finds(spec, c) && stackTop < stack.Length
      modifies this`stackTop, this`spec, stack
      ensures Valid() && spec == B.Get(old(spec), c)
    {
      var v := Load(c);
      Push(v);
    }

    lemma WrittenClosures(sp: B.State, b: B.Box, v: Value)
      requires ClosuresRelated(sp, box) && b in sp.store && (v.Fun? ==> v.c in sp.captured)
      ensures ClosuresRelated(B.Write(sp, b, v), box)
    {
    }

    lemma WrittenElsewhere(sp: B.State, b: B.Box, v: Value)
      requires SlotsRelated(sp) && b in sp.store && b !in sp.boxes
      ensures SlotsRelated(B.Write(sp, b, v))
    {
    }

    method StoreSlot(i: nat, v: Value)
      requires Valid() && i < stackTop && (v.Fun? ==> v.c in spec.captured)
      modifies this`spec, stack
      ensures Valid() && spec == B.Write(old(spec), old(spec).boxes[i], v)
    {
      hide Listed, ClosuresRelated;
      WrittenClosures(spec, spec.boxes[i], v);
      stack[i] := v;
      spec := B.Write(spec, spec.boxes[i], v);
    }

    method StoreClosed(u: Upvalue, v: Value)
      requires Valid() && u in box && u.location.Own? && (v.Fun? ==> v.c in spec.captured)
      modifies this`spec, u`closed
      ensures Valid() && spec == B.Write(old(spec), box[u], v)
    {
      hide Listed, SlotsRelated, ClosuresRelated;
      WrittenClosures(spec, box[u], v);
      WrittenElsewhere(spec, box[u], v);
      ghost var b, before := box[u], spec;
      assert forall w :: w in box && w != u ==> box[w] != b;
      u.closed := v;
      spec := B.Write(spec, b, v);
      assert forall w :: w in box && w != u ==> spec.store[box[w]] == before.store[box[w]];
    }

    /** The slot of a variable, or what its upvalue points at, has the box of the variable. */
    lemma VariableKnown(c: Capture)
      requires Valid() && B.Finds(spec, c)
      ensures frames == spec.frames
      ensures var f := frames[|frames| - 1];
        if c.isLocal then f.base + c.index < stackTop && spec.boxes[f.base + c.index] == B.Find(spec, c)
        else
          && c.index < |f.closure.upvalues|
          && var u := f.closure.upvalues[c.index];
            && u in box && box[u] == B.Find(spec, c)
            && (u.location.Slot? ==> u.location.slot < stackTop && spec.boxes[u.location.slot] == B.Find(spec, c))
    {
    }

    /** OP_SET_LOCAL and OP_SET_UPVALUE: everyone who shares the variable sees it. */
    method Set(c: Capture)
      requires Valid() && B.Finds(spec, c) && stackTop > 0
      modifies this`spec, stack, box.Keys`closed
      ensures Valid() && spec == B.Set(old(spec), c)
    {
      hide Listed, SlotsRelated, UpvaluesRelated, ClosuresRelated, B.Find, B.Finds;
      CanRun();
      TopKnown(spec);
      VariableKnown(c);
      var frame := frames[|frames| - 1];
      var v := stack[stackTop - 1];
      if c.isLocal {
        StoreSlot(frame.base + c.index, v);
      } else {
        var u := frame.closure.upvalues[c.index];
        if u.location.Slot? {
          StoreSlot(u.location.slot, v);
        } else {
          StoreClosed(u, v);
        }
      }
    }

    // ----- closures -----

    /** Two closures over one slot get one upvalue. */
    method CaptureLocal(slot: nat) returns (u: Upvalue)
      requires Valid() && slot < stackTop
      modifies this`openUpvalues, this`list, this`slots, this`box, Open()`next
      ensures Valid() && u in box && box[u] == spec.boxes[slot] && fresh(box.Keys - old(box.Keys))
          && fresh(Open() - old(Open()))
      ensures forall v :: v in list ==> v in old(list) || v == u
    {
      hide Listed, SlotsRelated, ClosuresRelated, UpvaluesRelated;
      SlotBoxes(slot);
      SlotOpen(slot);
      ghost var open := list;
      u := CaptureUpvalue(slot);
      if u !in box {
        ghost var box1 := box[u := spec.boxes[slot]];
        MoreBoxes(spec, box, box1);
        OneMoreUpvalue(spec, box, open, u, list, slot);
        box := box1;
      }
    }

    lemma OneMoreUpvalue(sp: B.State, bx: map<Upvalue, B.Box>, open: seq<Upvalue>, u: Upvalue, open1: seq<Upvalue>,
        slot: nat)
      requires UpvaluesRelated(sp, bx, open) && u !in bx && u in open1
          && forall v :: v in open1 <==> v in open || v == u
      requires u.location == Slot(slot) && slot < |sp.boxes| && sp.boxes[slot] in sp.store
      requires forall v :: v in bx ==> bx[v] != sp.boxes[slot]
      ensures UpvaluesRelated(sp, bx[u := sp.boxes[slot]], open1)
    {
    }

    /** If the slot has an open upvalue, that has the box of the slot. */
    lemma SlotOpen(slot: nat)
      requires Valid()
      ensures forall u :: u in list && u.location == Slot(slot) ==>
        u in box && slot < |spec.boxes| && box[u] == spec.boxes[slot]
    {
    }

    lemma MoreBoxes(sp: B.State, bx: map<Upvalue, B.Box>, bx1: map<Upvalue, B.Box>)
      requires ClosuresRelated(sp, bx) && forall u :: u in bx ==> u in bx1 && bx1[u] == bx[u]
      ensures ClosuresRelated(sp, bx1)
    {
    }

    /** No upvalue has the box of a slot but the open one for that slot. */
    lemma SlotBoxes(slot: nat)
      requires Valid() && slot < stackTop
      ensures slot < |spec.boxes| && spec.boxes[slot] in spec.store
      ensures slot !in slots ==> forall u :: u in box ==> box[u] != spec.boxes[slot]
    {
      forall u | u in box && box[u] == spec.boxes[slot]
        ensures slot in slots
      {
        assert u.location.Slot? && u.location.slot == slot;
        var i :| 0 <= i < |list| && list[i] == u;
      }
    }

    method AddUpvalue(c: Closure, u: Upvalue)
      requires Valid() && u in box && c in spec.captured
      modifies this`spec, c
      ensures Valid()
      ensures spec == old(spec).(captured := old(spec).captured[c := old(spec).captured[c] + [box[u]]])
      ensures c.upvalues == old(c.upvalues) + [u]
    {
      hide Listed, SlotsRelated, UpvaluesRelated, FramesRelated;
      ghost var sp1 := spec.(captured := spec.captured[c := spec.captured[c] + [box[u]]]);
      SameUpvalues(spec, sp1);
      SameSlots(spec, sp1);
      MoreCaptured(spec, sp1);
      c.upvalues := c.upvalues + [u];
      spec := sp1;
    }

    /** Fills the next upvalue of a closure that is being made. */
    method CaptureOne(c: Closure, cap: Capture)
      requires Valid() && B.Finds(spec, cap) && c in spec.captured
      modifies this`openUpvalues, this`list, this`slots, this`box, this`spec, Open()`next, c
      ensures Valid() && fresh(box.Keys - old(box.Keys)) && fresh(Open() - old(Open()))
      ensures spec == old(spec).(captured := old(spec).captured[c := old(spec).captured[c] + [B.Find(old(spec), cap)]])
      ensures forall v :: v in list || v in old(c.upvalues) ==> v in old(list) || v in c.upvalues
      ensures old(c.upvalues) <= c.upvalues
    {
      hide Listed, SlotsRelated, UpvaluesRelated;
      var frame := frames[|frames| - 1];
      var u;
      if cap.isLocal {
        u := CaptureLocal(frame.base + cap.index);
      } else {
        u := frame.closure.upvalues[cap.index];
      }
      AddUpvalue(c, u);
    }

    /** Where OP_CLOSURE may find its variables: the new closure is on the stack already, so a
        function can capture itself. */
    ghost predicate CanCapture(cap: Capture)
      requires frames != []
      reads this
    {
      var f := frames[|frames| - 1];
      if cap.isLocal then f.base + cap.index <= stackTop
      else f.closure in spec.captured && cap.index < |spec.captured[f.closure]|
    }

    method Register() returns (c: Closure)
      requires Valid()
      modifies this`spec
      ensures Valid() && fresh(c) && c !in old(spec).captured
      ensures spec == old(spec).(captured := old(spec).captured[c := []])
    {
      hide Listed, SlotsRelated, UpvaluesRelated, FramesRelated;
      c := new Closure();
      assert c !in spec.captured;
      ghost var sp1 := spec.(captured := spec.captured[c := []]);
      SameUpvalues(spec, sp1);
      SameSlots(spec, sp1);
      MoreCaptured(spec, sp1);
      spec := sp1;
    }

    /** OP_CLOSURE */
    method Close(cs: seq<Capture>) returns (c: Closure)
      requires Valid() && stackTop < stack.Length && forall i :: 0 <= i < |cs| ==> CanCapture(cs[i])
      modifies this`openUpvalues, this`list, this`slots, this`box, this`spec, this`stackTop, Open()`next, stack
      ensures Valid() && fresh(c) && fresh(box.Keys - old(box.Keys)) && fresh(Open() - old(Open()))
      ensures B.FindsAll(B.Push(old(spec), Fun(c)), cs) && spec == B.Close(old(spec), c, cs)
      ensures forall v :: v in list ==> v in old(list) || v in c.upvalues
    {
      hide Listed, SlotsRelated, UpvaluesRelated, ClosuresRelated, B.Closing, B.Find, B.FindAll;
      ghost var s0 := spec;
      CanRun();
      c := Register();
      Push(Fun(c));
      ghost var s1 := B.Push(s0, Fun(c));
      assert B.FindsAll(s1, cs);
      B.ClosingStarts(s1, c, cs);
      FillUpvalues(c, cs, s1);
      B.ClosingEnds(s0, c, cs);
    }

    /** The loop of OP_CLOSURE over its operand pairs; s1 is the state that it starts in, but
        for the new closure. */
    method FillUpvalues(c: Closure, cs: seq<Capture>, ghost s1: B.State)
      requires Valid() && s1.frames != [] && B.FindsAll(s1, cs) && B.Running(s1).closure != c
      requires spec == B.Closing(s1, c, cs, 0)
      modifies this`openUpvalues, this`list, this`slots, this`box, this`spec, Open()`next, c
      ensures Valid() && fresh(box.Keys - old(box.Keys)) && fresh(Open() - old(Open()))
      ensures spec == B.Closing(s1, c, cs, |cs|)
      ensures forall v :: v in list ==> v in old(list) || v in c.upvalues
    {
      hide Listed, SlotsRelated, UpvaluesRelated, ClosuresRelated, B.Closing, B.Find, B.FindAll;
      for i := 0 to |cs|
        invariant Valid() && fresh(box.Keys - old(box.Keys)) && fresh(Open() - old(Open()))
        invariant spec == B.Closing(s1, c, cs, i)
        invariant forall v :: v in list ==> v in old(list) || v in c.upvalues
      {
        B.ClosingStep(s1, c, cs, i);
        CaptureOne(c, cs[i]);
      }
    }

    lemma CanRun()
      requires Valid()
      ensures frames == spec.frames != [] && frames[|frames| - 1].closure in spec.captured
      ensures frames[|frames| - 1].base < stackTop <= stack.Length
    {
    }

    // ----- the end of slots -----

    /** Closing from a slot on, after which the slots can go: the boxes do not notice. */
    method CloseFrom(last: nat)
      requires Listed() && SlotsRelated(spec) && UpvaluesRelated(spec, box, list) && last <= |spec.boxes|
      modifies this`openUpvalues, this`list, this`slots, Open()`location, Open()`closed
      ensures Listed() && UpvaluesRelated(B.Truncate(spec, last), box, list)
      ensures Open() <= old(Open())
    {
      BelowTop();
      ghost var n := CloseUpvalues(last);
    }

    lemma TruncatedSlots(sp: B.State, n: nat)
      requires SlotsRelated(sp) && n <= |sp.boxes|
      ensures SlotsRelated(B.Truncate(sp, n))
    {
    }

    lemma TruncatedClosures(sp: B.State, n: nat)
      requires ClosuresRelated(sp, box) && n <= |sp.boxes| && frames[|frames| - 1].base < n
      ensures ClosuresRelated(B.Truncate(sp, n), box)
    {
    }

    /** OP_CLOSE_UPVALUE */
    method CloseUpvalue()
      requires Valid() && frames[|frames| - 1].base < stackTop - 1
      modifies this`openUpvalues, this`list, this`slots, this`spec, this`stackTop, Open()`location, Open()`closed
      ensures Valid() && spec == B.Truncate(old(spec), old(stackTop) - 1)
      ensures Open() <= old(Open())
    {
      hide Listed, UpvaluesRelated, SlotsRelated, ClosuresRelated;
      CanRun();
      TruncatedSlots(spec, stackTop - 1);
      TruncatedClosures(spec, stackTop - 1);
      CloseFrom(stackTop - 1);
      stackTop := stackTop - 1;
      spec := B.Truncate(spec, stackTop);
    }

    lemma SameUpvalues(sp: B.State, sp1: B.State)
      requires UpvaluesRelated(sp, box, list) && sp1.boxes == sp.boxes && sp1.store == sp.store
      ensures UpvaluesRelated(sp1, box, list)
    {
    }

    /** call() on a closure */
    method Call(argCount: nat)
      requires Valid() && frames[|frames| - 1].base + argCount < stackTop - 1 && stack[stackTop - 1 - argCount].Fun?
      modifies this`frames, this`spec
      ensures Valid() && spec == B.Call(old(spec), argCount)
    {
      hide Listed, UpvaluesRelated;
      var base := stackTop - 1 - argCount;
      SameUpvalues(spec, B.Call(spec, argCount));
      frames := frames + [Frame(stack[base].c, base)];
      spec := B.Call(spec, argCount);
    }

    /** The state of the caller, without the slots of the function that is left. */
    function Left(sp: B.State): B.State
      requires |sp.frames| > 1 && B.Running(sp).base <= |sp.boxes|
    {
      B.Truncate(sp, B.Running(sp).base).(frames := sp.frames[..|sp.frames| - 1])
    }

    method LeaveFrame()
      requires Listed() && SlotsRelated(spec) && UpvaluesRelated(spec, box, list) && ClosuresRelated(spec, box)
      requires |frames| > 1
      modifies this`openUpvalues, this`list, this`slots, this`spec, this`stackTop,
        this`frames, Open()`location, Open()`closed
      ensures Valid() && |old(spec).frames| > 1 && B.Running(old(spec)).base < |old(spec).boxes|
          && spec == Left(old(spec))
      ensures Open() <= old(Open())
    {
      hide Listed, UpvaluesRelated, SlotsRelated, CapturesRelated;
      var frame := frames[|frames| - 1];
      TruncatedSlots(spec, frame.base);
      CloseFrom(frame.base);
      SameUpvalues(B.Truncate(spec, frame.base), Left(spec));
      SameSlots(B.Truncate(spec, frame.base), Left(spec));
      frames := frames[..|frames| - 1];
      stackTop := frame.base;
      spec := Left(spec);
    }

    lemma SameSlots(sp: B.State, sp1: B.State)
      requires SlotsRelated(sp) && sp1.boxes == sp.boxes && sp1.store == sp.store && sp1.next == sp.next
      ensures SlotsRelated(sp1)
    {
    }

    /** OP_RETURN, but for the script's: the caller gets the result, and every closure keeps the
        variables of the function that is left. */
    method Return()
      requires Valid() && |frames| > 1
      modifies this`openUpvalues, this`list, this`slots, this`spec, this`stackTop, this`frames
      modifies Open()`location, Open()`closed, stack
      ensures Valid() && |old(spec).frames| > 1 && B.Running(old(spec)).base < |old(spec).boxes|
      ensures spec == B.Return(old(spec))
      ensures Open() <= old(Open())
    {
      hide Listed, UpvaluesRelated;
      ghost var before := spec;
      TopKnown(before);
      var result := stack[stackTop - 1];
      stackTop := stackTop - 1;
      LeaveFrame();
      Push(result);
    }

    lemma TopKnown(sp: B.State)
      requires SlotsRelated(sp) && ClosuresRelated(sp, box)
      ensures sp.boxes != [] && B.Top(sp) == stack[|sp.boxes| - 1]
      ensures B.Top(sp).Fun? ==> B.Top(sp).c in sp.captured
    {
      assert sp.frames[0] in sp.frames;
    }

    // ----- whole runs -----

    predicate Found(c: Capture, top: nat)
      requires frames != []
      reads this`frames, frames[|frames| - 1].closure
    {
      var f := frames[|frames| - 1];
      if c.isLocal then f.base + c.index < top else c.index < |f.closure.upvalues|
    }

    /** What the compiler promises of an instruction, in terms of the stack. */
    predicate Ready(i: B.Instr)
      requires stackTop <= stack.Length && frames != []
      reads this, stack, frames[|frames| - 1].closure, openUpvalues
    {
      var base := frames[|frames| - 1].base;
      match i
      case IPush(_) => stackTop < stack.Length
      case IPop => base < stackTop - 1 && (openUpvalues == null || openUpvalues.location != Slot(stackTop - 1))
      case ICloseUpvalue => base < stackTop - 1
      case IGet(c) => stackTop < stack.Length && Found(c, stackTop)
      case ISet(c) => Found(c, stackTop)
      case IClose(cs) => stackTop < stack.Length && forall k :: 0 <= k < |cs| ==> Found(cs[k], stackTop + 1)
      case ICall(n) => base + n < stackTop - 1 && stack[stackTop - 1 - n].Fun?
      case IReturn => |frames| > 1
    }

    /** What the boxes do not know: the size of the stack. */
    ghost predicate Fits(i: B.Instr)
      reads this
    {
      i.IPush? || i.IGet? || i.IClose? ==> stackTop < stack.Length
    }

    /** Every open upvalue belongs to some closure. */
    ghost predicate Owned()
      reads this`list, this`spec, spec.captured.Keys
    {
      forall u :: u in list ==> OwnedBy(u, spec.captured.Keys)
    }

    /** So a slot has an open upvalue exactly when some closure holds its variable. */
    lemma UncapturedIs(slot: nat)
      requires Valid() && Owned() && slot < stackTop
      ensures slot < |spec.boxes| && (Uncaptured(slot) <==> !B.Held(spec, spec.boxes[slot]))
    {
      if slot in slots {
        var i :| 0 <= i < |slots| && slots[i] == slot;
        var c :| c in spec.captured.Keys && list[i] in c.upvalues;
        var k :| 0 <= k < |c.upvalues| && c.upvalues[k] == list[i];
        assert spec.captured[c][k] == box[list[i]];
      } else {
        SlotBoxes(slot);
        forall c, k | c in spec.captured && 0 <= k < |spec.captured[c]|
          ensures spec.captured[c][k] != spec.boxes[slot]
        {
          assert c.upvalues[k] in box;
        }
      }
    }

    /** The head of the list is the highest slot, so it tells whether the top is captured. */
    lemma TopCaptured()
      requires Valid() && stackTop > 0
      ensures Uncaptured(stackTop - 1) <==> openUpvalues == null || openUpvalues.location != Slot(stackTop - 1)
    {
      BelowTop();
      OpenFacts();
    }

    lemma ReadyIs(i: B.Instr)
      requires Valid() && Owned() && stackTop <= stack.Length && frames != []
      ensures Ready(i) <==> B.Enabled(spec, i) && Fits(i)
    {
      hide Listed, UpvaluesRelated, ClosuresRelated;
      CanRun();
      RunningUpvalues(spec);
      if i.IPop? {
        TopCaptured();
        UncapturedIs(stackTop - 1);
      }
    }

    lemma RunningUpvalues(sp: B.State)
      requires ClosuresRelated(sp, box)
      ensures var c := frames[|frames| - 1].closure; c in sp.captured && |c.upvalues| == |sp.captured[c]|
    {
    }

    lemma OpenBoxed()
      requires UpvaluesRelated(spec, box, list)
      ensures Open() <= box.Keys
    {
    }

    lemma StackRead(sp: B.State, i: nat)
      requires SlotsRelated(sp) && i < |sp.boxes|
      ensures i < stack.Length && stack[i] == B.Read(sp, sp.boxes[i])
    {
    }

    lemma OwnedByMore(closures: set<Closure>, c: Closure)
      ensures forall u :: OwnedBy(u, closures) || u in c.upvalues ==> OwnedBy(u, closures + {c})
    {
    }

    twostate lemma StillOwned()
      requires old(Owned()) && Open() <= old(Open()) && spec.captured.Keys == old(spec.captured.Keys)
      requires forall c :: c in spec.captured ==> c.upvalues == old(c.upvalues)
      ensures Owned()
    {
      forall u | u in list
        ensures OwnedBy(u, spec.captured.Keys)
      {
        assert u in Open() && u in old(list) && old(OwnedBy(u, spec.captured.Keys));
      }
    }

    method StepClose(cs: seq<Capture>)
      requires Valid() && Owned() && B.Enabled(spec, B.IClose(cs)) && Fits(B.IClose(cs))
      modifies this`openUpvalues, this`list, this`slots, this`box, this`spec, this`stackTop, Open()`next, stack
      ensures Valid() && Owned() && fresh(box.Keys - old(box.Keys)) && B.Does(old(spec), B.IClose(cs), spec)
    {
      hide Listed, SlotsRelated, UpvaluesRelated, ClosuresRelated, B.Find, B.FindAll, OwnedBy;
      ghost var closures := spec.captured.Keys;
      assert forall u :: u in list ==> OwnedBy(u, closures);
      CanRun();
      var c := Close(cs);
      assert B.Closes(old(spec), c, cs, spec);
      assert spec.captured.Keys == closures + {c};
      OwnedByMore(closures, c);
    }

    /** The dispatch of one instruction. */
    method Step(i: B.Instr)
      requires Valid() && Owned() && B.Enabled(spec, i) && Fits(i)
      modifies this, stack, box.Keys
      ensures Valid() && Owned() && fresh(box.Keys - old(box.Keys))
      ensures B.Does(old(spec), i, spec)
    {
      hide Listed, SlotsRelated, UpvaluesRelated, ClosuresRelated, B.Find, B.FindAll, OwnedBy;
      CanRun();
      OpenBoxed();
      ghost var closures := spec.captured.Keys;
      assert forall u :: u in list ==> OwnedBy(u, closures);
      match i
      case IPush(d) => Push(Data(d));
      case IPop =>
        UncapturedIs(stackTop - 1);
        Pop();
      case ICloseUpvalue =>
        CloseUpvalue();
        StillOwned();
      case IGet(c) => Get(c);
      case ISet(c) => Set(c);
      case IClose(cs) => StepClose(cs);
      case ICall(n) =>
        StackRead(spec, stackTop - 1 - n);
        Call(n);
      case IReturn =>
        Return();
        StillOwned();
    }

    /** The values on the stack are those in the boxes of its slots. */
    lemma StackShown()
      requires Valid()
      ensures stackTop <= stack.Length && Sharing.Shows(spec, stack[..stackTop])
    {
    }

    lemma BoxesNumbered()
      requires Valid()
      ensures B.Numbered(spec)
    {
      forall c, b | c in spec.captured && b in spec.captured[c]
        ensures b in spec.store
      {
        var k :| 0 <= k < |spec.captured[c]| && spec.captured[c][k] == b;
        assert c.upvalues[k] in box;
      }
    }

    /** Runs instructions up to the first that the compiler would not have emitted. */
    method Run(instrs: seq<B.Instr>) returns (n: nat, ghost states: seq<B.State>, ghost stacks: seq<seq<Value>>)
      requires Valid() && Owned()
      modifies this, stack, box.Keys
      ensures Valid() && Owned() && fresh(box.Keys - old(box.Keys)) && n <= |instrs|
      ensures Sharing.Traces(instrs[..n], states, stacks)
      ensures states[0] == old(spec) && states[n] == spec
      ensures stackTop <= stack.Length && stacks[n] == stack[..stackTop]
      ensures old(stackTop <= stack.Length) && stacks[0] == old(stack[..stackTop])
      ensures n < |instrs| ==> !B.Enabled(spec, instrs[n]) || !Fits(instrs[n])
    {
      hide Listed, SlotsRelated, UpvaluesRelated, ClosuresRelated, B.Does, B.Enabled, Fits, B.Numbered, Sharing.Shows;
      BoxesNumbered();
      CanRun();
      n, states, stacks := 0, [spec], [stack[..stackTop]];
      StackShown();
      while n < |instrs| && Ready(instrs[n])
        invariant n <= |instrs| && Valid() && Owned() && fresh(box.Keys - old(box.Keys))
        invariant stackTop <= stack.Length && frames != []
        invariant Sharing.Traces(instrs[..n], states, stacks) && states[0] == old(spec) && states[n] == spec
        invariant stacks[n] == stack[..stackTop] && stacks[0] == old(stack[..stackTop])
      {
        ReadyIs(instrs[n]);
        Step(instrs[n]);
        B.RunsMore(instrs[..n], states, instrs[n], spec);
        assert instrs[..n + 1] == instrs[..n] + [instrs[n]];
        CanRun();
        StackShown();
        states, stacks := states + [spec], stacks + [stack[..stackTop]];
        n := n + 1;
      }
      if n < |instrs| {
        ReadyIs(instrs[n]);
      }
    }
  }
}
