/** Open addressing with linear probing, as a property of a sequence of entries. */
module Probing {
  import opened Heap

  /** A free slot that ends every probe. */
  predicate IsEmpty(e: Entry) {
    e.key == null && e.payload == Val(Nil)
  }

  function Home(k: Obj, capacity: nat): nat
    requires capacity > 0
  {
    k.hash % capacity
  }

  function Next(i: nat, capacity: nat): nat {
    if i + 1 == capacity then 0 else i + 1
  }

  /** The number of steps from slot h to slot i. */
  function Steps(h: nat, i: nat, capacity: nat): int {
    if h <= i then i - h else i + capacity - h
  }

  /** Slot j is visited before slot i by a probe that starts at h. */
  predicate Before(h: nat, i: nat, j: nat) {
    if h <= i then h <= j < i else j >= h || j < i
  }

  /** A probe that starts at h gets as far as slot i. */
  ghost predicate Reaches(es: seq<Entry>, h: nat, i: nat) {
    forall j :: 0 <= j < |es| && Before(h, i, j) ==> !IsEmpty(es[j])
  }

  /** Every entry is found by a probe for its key. */
  ghost predicate Reachable(es: seq<Entry>) {
    forall i :: 0 <= i < |es| && es[i].key != null ==> Reaches(es, Home(es[i].key, |es|), i)
  }

  ghost predicate Distinct(es: seq<Entry>) {
    forall i, j :: 0 <= i < j < |es| && es[i].key != null ==> es[i].key != es[j].key
  }

  ghost predicate HasKey(es: seq<Entry>, k: Obj) {
    exists i :: 0 <= i < |es| && es[i].key == k
  }

  /** The finite map that a table represents. */
  ghost function Contents(es: seq<Entry>): (m: map<Obj, Payload>)
    requires Distinct(es)
  {
    map i | 0 <= i < |es| && es[i].key != null :: (var k: Obj := es[i].key; k) := es[i].payload
  }

  lemma ContentsAt(es: seq<Entry>, k: Obj)
    requires Distinct(es)
    ensures k in Contents(es) <==> HasKey(es, k)
    ensures forall i :: 0 <= i < |es| && es[i].key == k ==> Contents(es)[k] == es[i].payload
  {
  }

  /** Live entries and tombstones. */
  function Used(es: seq<Entry>): (n: nat)
    ensures n <= |es|
  {
    if es == [] then 0 else Used(es[..|es| - 1]) + if IsEmpty(es[|es| - 1]) then 0 else 1
  }

  lemma {:induction false} SomeEmpty(es: seq<Entry>) returns (e: nat)
    requires Used(es) < |es|
    ensures e < |es| && IsEmpty(es[e])
    decreases |es|
  {
    e := |es| - 1;
    if !IsEmpty(es[e]) {
      e := SomeEmpty(es[..e]);
    }
  }

  lemma {:induction false} AllEmpty(es: seq<Entry>)
    requires forall i :: 0 <= i < |es| ==> IsEmpty(es[i])
    ensures Used(es) == 0
    decreases |es|
  {
    if es != [] {
      AllEmpty(es[..|es| - 1]);
    }
  }

  lemma {:induction false} UsedUpdate(es: seq<Entry>, i: nat, e: Entry)
    requires i < |es|
    ensures Used(es[i := e]) == Used(es) - (if IsEmpty(es[i]) then 0 else 1) + if IsEmpty(e) then 0 else 1
    decreases |es|
  {
    var n := |es| - 1;
    if i == n {
      assert es[i := e][..n] == es[..n];
    } else {
      UsedUpdate(es[..n], i, e);
      assert es[i := e][..n] == es[..n][i := e];
    }
  }

  /** Where a key may be stored: in its own slot, or in a free slot that its probe gets to. */
  ghost predicate Slot(es: seq<Entry>, k: Obj, i: nat) {
    && i < |es|
    && (es[i].key == k || (es[i].key == null && !HasKey(es, k) && Reaches(es, Home(k, |es|), i)))
  }

  lemma Stored(es: seq<Entry>, k: Obj, i: nat, p: Payload)
    requires Distinct(es) && Reachable(es) && Slot(es, k, i)
    ensures var es1 := es[i := Entry(k, p)];
      Distinct(es1) && Reachable(es1) && Contents(es1) == Contents(es)[k := p]
  {
    hide Contents;
    var es1 := es[i := Entry(k, p)];
    assert Distinct(es1) by {
      assert forall j :: 0 <= j < |es| && j != i ==> es[j].key != k;
    }
    forall x | x in Contents(es1).Keys + Contents(es).Keys + {k}
      ensures x in Contents(es1) <==> x in Contents(es)[k := p]
      ensures x in Contents(es1) ==> Contents(es1)[x] == Contents(es)[k := p][x]
    {
      ContentsAt(es, x);
      ContentsAt(es1, x);
      OtherKeys(es, i, es1[i], x);
    }
  }

  /** A tombstone is not empty, so no probe becomes shorter. */
  lemma Buried(es: seq<Entry>, i: nat)
    requires Distinct(es) && Reachable(es) && i < |es| && es[i].key != null
    ensures var es1 := es[i := Entry(null, Val(Bool(true)))];
      Distinct(es1) && Reachable(es1) && Contents(es1) == Contents(es) - {es[i].key} && Used(es1) == Used(es)
  {
    hide Contents;
    var es1 := es[i := Entry(null, Val(Bool(true)))];
    UsedUpdate(es, i, es1[i]);
    forall x | x in Contents(es1).Keys + Contents(es).Keys
      ensures x in Contents(es1) <==> x in Contents(es) && x != es[i].key
      ensures x in Contents(es1) ==> Contents(es1)[x] == Contents(es)[x]
    {
      ContentsAt(es, x);
      ContentsAt(es1, x);
      OtherKeys(es, i, es1[i], x);
    }
  }

  /** Writing one slot changes nothing for the keys of other slots. */
  lemma OtherKeys(es: seq<Entry>, i: nat, e: Entry, x: Obj)
    requires Distinct(es) && i < |es|
    ensures HasKey(es[i := e], x) <==> e.key == x || (es[i].key != x && HasKey(es, x))
    ensures es[i].key != x && HasKey(es, x) ==>
      exists j :: 0 <= j < |es| && j != i && es[j].key == x && es[i := e][j] == es[j]
  {
    var es1 := es[i := e];
    assert es1[i] == e;
    assert forall j :: 0 <= j < |es| && j != i ==> es1[j] == es[j];
  }
}
