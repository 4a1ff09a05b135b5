/** How the compiler finds the variables of enclosing functions (resolveUpvalue and addUpvalue
    in src/compiler.c). */
module UpvalueResolution {
  import H = Heap
  import opened Values
  import opened AddressTable

  const UINT8_COUNT := 256

  /** An entry of a function's capture list: a local of the enclosing function, or an entry of
      that function's own list. The index is kept in one byte. */
  datatype Entry = Entry(index: nat, isLocal: bool)

  /** A function that is being compiled. */
  datatype Level = Level(locals: seq<Var>, upvalues: seq<Entry>)

  /** The innermost local of that name in the functions around function k. */
  function Innermost(levels: seq<Level>, k: nat, name: H.Obj): (r: Option<(nat, nat)>)
    requires k < |levels|
    ensures r.Some? ==> r.value.0 < k && r.value.1 < |levels[r.value.0].locals|
    ensures r.Some? ==> Latest(levels[r.value.0].locals, name) == Some(r.value.1)
    ensures r.Some? ==> forall m :: r.value.0 < m < k ==> Latest(levels[m].locals, name).None?
    ensures r.None? ==> forall m :: 0 <= m < k ==> Latest(levels[m].locals, name).None?
  {
    if k == 0 then None
    else
      match Latest(levels[k - 1].locals, name)
      case Some(j) => Some((k - 1, j))
      case None => Innermost(levels, k - 1, name)
  }

  /** The local that entry i of function k leads to. */
  function Follow(levels: seq<Level>, k: nat, i: nat): Option<(nat, nat)>
    requires k < |levels|
  {
    if k == 0 || i >= |levels[k].upvalues| then None
    else
      var u := levels[k].upvalues[i];
      if u.isLocal then Some((k - 1, u.index)) else Follow(levels, k - 1, u.index)
  }

  /** The first entry that is e, or the length of the list. */
  function IndexOf(us: seq<Entry>, e: Entry): (r: nat)
    ensures r <= |us| && (r < |us| ==> us[r] == e) && forall j :: 0 <= j < r ==> us[j] != e
  {
    if us == [] || us[0] == e then 0 else 1 + IndexOf(us[1..], e)
  }

  /** The entry that function k needs for a name: for a local of the function around it, or
      for the entry that that function needs. */
  function Wanted(levels: seq<Level>, k: nat, name: H.Obj): Entry
    requires k < |levels| && Innermost(levels, k, name).Some?
  {
    match Latest(levels[k - 1].locals, name)
    case Some(j) => Entry(j, true)
    case None => Entry(IndexOf(levels[k - 1].upvalues, Wanted(levels, k - 1, name)), false)
  }

  /** The capture list of function k has no room for the entry that it needs. */
  ghost predicate Overflows(levels: seq<Level>, k: nat, name: H.Obj)
    requires k < |levels| && Innermost(levels, k, name).Some?
  {
    |levels[k].upvalues| == UINT8_COUNT && Wanted(levels, k, name) !in levels[k].upvalues
  }

  /** Some function on the way from the local to function k has no room for its entry. */
  ghost predicate OverflowsOnWay(levels: seq<Level>, k: nat, name: H.Obj)
    requires k < |levels| && Innermost(levels, k, name).Some?
  {
    exists m :: Innermost(levels, k, name).value.0 < m <= k
      && Innermost(levels, m, name).Some? && Overflows(levels, m, name)
  }

  lemma OverflowsStep(levels: seq<Level>, k: nat, name: H.Obj)
    requires k < |levels| && Innermost(levels, k, name).Some?
    ensures OverflowsOnWay(levels, k, name) <==>
      || Overflows(levels, k, name)
      || (Latest(levels[k - 1].locals, name).None? && OverflowsOnWay(levels, k - 1, name))
  {
  }

  /** Locals may have been marked as captured, and capture lists may have grown. */
  ghost predicate Extends(levels: seq<Level>, levels1: seq<Level>) {
    && |levels| == |levels1|
    && forall k :: 0 <= k < |levels| ==> Grown(levels[k], levels1[k])
  }

  ghost predicate Grown(l: Level, l1: Level) {
    && l.upvalues <= l1.upvalues && |l1.locals| == |l.locals|
    && forall j :: 0 <= j < |l.locals| ==>
      l1.locals[j] == l.locals[j] || l1.locals[j] == l.locals[j].(isCaptured := true)
  }

  ghost predicate Bounded(levels: seq<Level>) {
    forall k :: 0 <= k < |levels| ==> InBytes(levels[k].upvalues)
  }

  ghost predicate InBytes(us: seq<Entry>) {
    |us| <= UINT8_COUNT && forall i :: 0 <= i < |us| ==> us[i].index < 256
  }

  lemma {:induction false} FollowKept(levels: seq<Level>, levels1: seq<Level>, k: nat, i: nat)
    requires Extends(levels, levels1) && k < |levels| && Follow(levels, k, i).Some?
    ensures Follow(levels1, k, i) == Follow(levels, k, i)
    decreases k
  {
    assert Grown(levels[k], levels1[k]);
    var u := levels[k].upvalues[i];
    if !u.isLocal {
      FollowKept(levels, levels1, k - 1, u.index);
    }
  }

  lemma NoneOutside(levels: seq<Level>, name: H.Obj)
    requires levels != []
    ensures Innermost(levels, 0, name).None? && Extends(levels, levels)
  {
  }

  /** Both ways on, once more in terms of the next function. */
  lemma LocalStep(levels: seq<Level>, k: nat, name: H.Obj, local: nat)
    requires 0 < k < |levels| && Latest(levels[k - 1].locals, name) == Some(local)
    ensures Innermost(levels, k, name) == Some((k - 1, local)) && Wanted(levels, k, name) == Entry(local, true)
    ensures OverflowsOnWay(levels, k, name) <==>
      |levels[k].upvalues| == UINT8_COUNT && Entry(local, true) !in levels[k].upvalues
  {
    OverflowsStep(levels, k, name);
  }

  lemma OuterStep(levels: seq<Level>, k: nat, name: H.Obj)
    requires 0 < k < |levels| && Latest(levels[k - 1].locals, name).None?
    ensures Innermost(levels, k, name) == Innermost(levels, k - 1, name)
    ensures Innermost(levels, k, name).Some? ==>
      var entry := Entry(IndexOf(levels[k - 1].upvalues, Wanted(levels, k - 1, name)), false);
      && Wanted(levels, k, name) == entry
      && (OverflowsOnWay(levels, k, name) <==>
        || (|levels[k].upvalues| == UINT8_COUNT && entry !in levels[k].upvalues)
        || OverflowsOnWay(levels, k - 1, name))
  {
    if Innermost(levels, k, name).Some? {
      OverflowsStep(levels, k, name);
    }
  }

  lemma FollowOneMore(levels: seq<Level>, levels1: seq<Level>, k: nat, i: nat, r: nat)
    requires Extends(levels, levels1) && 0 < k < |levels| == |levels1| && Follow(levels, k - 1, i).Some?
    requires r < |levels1[k].upvalues| && levels1[k].upvalues[r] == Entry(i, false)
    ensures Follow(levels1, k, r) == Follow(levels, k - 1, i)
  {
    hide Extends;
    FollowKept(levels, levels1, k - 1, i);
  }

  lemma EntryIsSmall(levels: seq<Level>, k: nat, i: nat)
    requires Bounded(levels) && k < |levels| && Follow(levels, k, i).Some?
    ensures i < 256
  {
    assert InBytes(levels[k].upvalues);
  }

  lemma SameSizes(levels: seq<Level>, levels1: seq<Level>, k: nat)
    requires Extends(levels, levels1) && k < |levels|
    ensures |levels1| == |levels| && |levels1[k].locals| == |levels[k].locals|
  {
    assert Grown(levels[k], levels1[k]);
  }

  lemma CutToByte(index: nat)
    ensures index % 256 == index <==> index <= 255
  {
  }

  lemma CapturedKept(levels: seq<Level>, levels1: seq<Level>, target: (nat, nat))
    requires Extends(levels, levels1) && target.0 < |levels| && target.1 < |levels[target.0].locals|
    ensures target.1 < |levels1[target.0].locals|
    ensures levels[target.0].locals[target.1].isCaptured ==> levels1[target.0].locals[target.1].isCaptured
    ensures levels1[target.0].locals[target.1].depth == levels[target.0].locals[target.1].depth
  {
    assert Grown(levels[target.0], levels1[target.0]);
  }

  class Functions {
    var levels: seq<Level>
    var hadError: bool

    constructor (levels: seq<Level>)
      ensures this.levels == levels && !hadError
    {
      this.levels, hadError := levels, false;
    }

    /** The entry for a variable, which is made if there is none. */
    method AddUpvalue(k: nat, index: nat, isLocal: bool) returns (i: nat)
      requires k < |levels| && Bounded(levels)
      modifies this
      ensures Extends(old(levels), levels) && Bounded(levels)
      ensures forall m :: 0 <= m < |levels| && m != k ==> levels[m] == old(levels)[m]
      ensures hadError <==>
        || old(hadError)
        || (|old(levels)[k].upvalues| == UINT8_COUNT && Entry(index, isLocal) !in old(levels)[k].upvalues)
      ensures !hadError ==>
        && i == IndexOf(old(levels)[k].upvalues, Entry(index, isLocal))
        && i < |levels[k].upvalues| && levels[k].upvalues[i] == Entry(index % 256, isLocal)
    {
      var upvalues := levels[k].upvalues;
      i := 0;
      while i < |upvalues|
        invariant i <= |upvalues|
        invariant forall j :: 0 <= j < i ==> upvalues[j] != Entry(index, isLocal)
      {
        if upvalues[i].index == index && upvalues[i].isLocal == isLocal {
          assert InBytes(upvalues) && upvalues[i] == Entry(index, isLocal);
          return;
        }
        i := i + 1;
      }
      if |upvalues| == UINT8_COUNT {
        hadError := true;
        i := 0;
        return;
      }
      levels := levels[k := levels[k].(upvalues := upvalues + [Entry(index % 256, isLocal)])];
    }

    method MarkCaptured(k: nat, local: nat)
      requires k < |levels| && local < |levels[k].locals| && Bounded(levels)
      modifies this`levels
      ensures Extends(old(levels), levels) && Bounded(levels) && levels[k].locals[local].isCaptured
      ensures forall m :: 0 <= m < |levels| ==> levels[m].upvalues == old(levels)[m].upvalues
      ensures forall m :: 0 <= m < |levels| && m != k ==> levels[m] == old(levels)[m]
    {
      var locals := levels[k].locals;
      levels := levels[k := levels[k].(locals := locals[local := locals[local].(isCaptured := true)])];
    }

    /** Looks for a name in the functions around function k. What is found is the innermost
        local of that name, with its index cut to one byte: it is the right local exactly when
        its index is at most 255. It is marked as captured, and no entry that was handed out
        before changes. An error exactly when the local is in its own initializer or a capture
        list on the way is full. */
    method ResolveUpvalue(k: nat, name: H.Obj) returns (r: int)
      requires k < |levels| && Bounded(levels)
      modifies this
      ensures Extends(old(levels), levels) && Bounded(levels) && r >= -1
      ensures r == -1 <==> Innermost(old(levels), k, name).None?
      ensures forall m :: k < m < |levels| ==> levels[m] == old(levels)[m]
      ensures r != -1 && !hadError ==> r == IndexOf(old(levels)[k].upvalues, Wanted(old(levels), k, name))
      ensures hadError <==>
        || old(hadError)
        || (r != -1 && var target := Innermost(old(levels), k, name).value;
              old(levels)[target.0].locals[target.1].depth == -1 || OverflowsOnWay(old(levels), k, name))
      ensures r != -1 && !hadError ==>
        var target := Innermost(old(levels), k, name).value;
        && r < |levels[k].upvalues|
        && Follow(levels, k, r) == Some((target.0, target.1 % 256))
        && (Follow(levels, k, r) == Some(target) <==> target.1 <= 255)
        && levels[target.0].locals[target.1].isCaptured && levels[target.0].locals[target.1].depth != -1
      decreases k
    {
      hide Extends, Bounded, Follow, Overflows, OverflowsOnWay, IndexOf, Innermost, Wanted, Latest;
      if k == 0 {
        NoneOutside(levels, name);
        return -1;
      }
      ghost var before := levels;
      var local := Latest(levels[k - 1].locals, name);
      if local.Some? {
        LocalStep(before, k, name, local.value);
        r := CaptureLocal(k, local.value);
        CutToByte(local.value);
        return;
      }
      OuterStep(before, k, name);
      var upvalue := ResolveUpvalue(k - 1, name);
      SameSizes(before, levels, k);
      if upvalue == -1 {
        return -1;
      }
      ghost var found, target := levels, Innermost(before, k, name).value;
      SameSizes(before, found, target.0);
      r := CaptureOuter(k, upvalue, target);
      ExtendsTwice(before, found, levels);
      SameSizes(before, levels, target.0);
      CutToByte(target.1);
    }

    /** The name is that of an entry of the function around function k. */
    method CaptureOuter(k: nat, upvalue: nat, ghost target: (nat, nat)) returns (r: nat)
      requires 0 < k < |levels| && Bounded(levels) && target.0 < |levels| && target.1 < |levels[target.0].locals|
      requires !hadError ==> Follow(levels, k - 1, upvalue) == Some((target.0, target.1 % 256))
      modifies this
      ensures Extends(old(levels), levels) && Bounded(levels)
      ensures forall m :: k < m < |levels| ==> levels[m] == old(levels)[m]
      ensures hadError <==>
        || old(hadError)
        || (|old(levels)[k].upvalues| == UINT8_COUNT && Entry(upvalue, false) !in old(levels)[k].upvalues)
      ensures !hadError ==>
        && r == IndexOf(old(levels)[k].upvalues, Entry(upvalue, false)) && r < |levels[k].upvalues|
        && Follow(levels, k, r) == Some((target.0, target.1 % 256))
      ensures target.1 < |levels[target.0].locals|
      ensures old(levels)[target.0].locals[target.1].isCaptured ==> levels[target.0].locals[target.1].isCaptured
      ensures levels[target.0].locals[target.1].depth == old(levels)[target.0].locals[target.1].depth
    {
      hide Extends, Bounded, Follow, IndexOf;
      ghost var found := levels;
      assert k < |levels|;
      r := AddUpvalue(k, upvalue, false);
      CapturedKept(found, levels, target);
      if !hadError {
        EntryIsSmall(found, k - 1, upvalue);
        FollowOneMore(found, levels, k, upvalue, r);
      }
    }

    /** The name is that of a local of the function around function k. */
    method CaptureLocal(k: nat, local: nat) returns (r: nat)
      requires 0 < k < |levels| && local < |levels[k - 1].locals| && Bounded(levels)
      modifies this
      ensures Extends(old(levels), levels) && Bounded(levels)
      ensures forall m :: k < m < |levels| ==> levels[m] == old(levels)[m]
      ensures hadError <==>
        || old(hadError) || old(levels)[k - 1].locals[local].depth == -1
        || (|old(levels)[k].upvalues| == UINT8_COUNT && Entry(local, true) !in old(levels)[k].upvalues)
      ensures !hadError ==>
        && r == IndexOf(old(levels)[k].upvalues, Entry(local, true)) && r < |levels[k].upvalues|
        && Follow(levels, k, r) == Some((k - 1, local % 256))
        && levels[k - 1].locals[local].isCaptured && levels[k - 1].locals[local].depth != -1
    {
      hide Bounded, IndexOf;
      ghost var before := levels;
      if levels[k - 1].locals[local].depth == -1 {
        hadError := true;
      }
      MarkCaptured(k - 1, local);
      ghost var marked := levels;
      r := AddUpvalue(k, local, true);
      ExtendsTwice(before, marked, levels);
      CapturedKept(marked, levels, (k - 1, local));
    }
  }

  /** A function with 257 locals, a in nested scopes and then b, and a function inside it that
      captures b: what it gets is the first a. */
  method WideCapture(a: H.Obj, b: H.Obj) returns (f: Functions, r: int)
    requires a != b
    ensures !f.hadError && r == 0 && |f.levels| == 2
    ensures Innermost(f.levels, 1, b) == Some((0, 256)) && f.levels[0].locals[256].identifier == b
    ensures Follow(f.levels, 1, 0) == Some((0, 0)) && f.levels[0].locals[0].identifier == a
  {
    var locals := seq(256, i requires 0 <= i < 256 => Var(i + 1, a, false, i - 1, false))
      + [Var(257, b, false, -1, false)];
    f := new Functions([Level(locals, []), Level([], [])]);
    ghost var before := f.levels;
    assert Latest(locals, b) == Some(256);
    r := f.ResolveUpvalue(1, b);
    assert Grown(before[0], f.levels[0]);
    assert Latest(f.levels[0].locals, b) == Some(256);
  }

  lemma ExtendsTwice(levels: seq<Level>, levels1: seq<Level>, levels2: seq<Level>)
    requires Extends(levels, levels1) && Extends(levels1, levels2)
    ensures Extends(levels, levels2)
  {
    forall k | 0 <= k < |levels|
      ensures Grown(levels[k], levels2[k])
    {
      assert Grown(levels[k], levels1[k]) && Grown(levels1[k], levels2[k]);
    }
  }
}
