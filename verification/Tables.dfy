/** The hash table of src/table.c: an array of entries probed linearly, with tombstones.
    Every operation is proved against the finite map that the table represents. */
module Tables {
  import opened Heap
  import opened Bits
  import opened Probing

  const BURIED := Entry(null, Val(Bool(true)))

  function GrowCapacity(capacity: nat): nat {
    if capacity < 8 then 8 else capacity * 2
  }

  ghost predicate Allowed(capacity: nat) {
    capacity == 0 || (capacity >= 8 && IsPowerOf2(capacity))
  }

  lemma GrowthAllowed(capacity: nat)
    requires Allowed(capacity)
    ensures Allowed(GrowCapacity(capacity)) && GrowCapacity(capacity) >= 8
  {
    assert IsPowerOf2(8);
    assert capacity >= 8 ==> capacity * 2 / 2 == capacity;
  }

  predicate Spells(k: Obj?, chars: string, hash: Word) {
    k != null && k.hash == hash && k.chars == chars
  }

  class Table {
    var count: nat
    var entries: array<Entry>

    /** An empty slot always exists, so every probe ends. */
    ghost predicate Valid()
      reads this, entries
    {
      && Allowed(entries.Length)
      && Distinct(entries[..]) && Reachable(entries[..])
      && count == Used(entries[..])
      && 4 * count <= 3 * entries.Length
    }

    ghost function Map(): map<Obj, Payload>
      requires Valid()
      reads this, entries
    {
      Contents(entries[..])
    }

    constructor ()
      ensures Valid() && Map() == map[] && fresh(entries)
    {
      count := 0;
      entries := new Entry[0];
    }

    /** The slot of a key, or else the first free slot of its probe. */
    static method FindEntry(entries: array<Entry>, key: Obj) returns (index: nat)
      requires IsPowerOf2(entries.Length) && Used(entries[..]) < entries.Length
      requires Distinct(entries[..]) && Reachable(entries[..])
      ensures Slot(entries[..], key, index)
      ensures entries[index].key == null ==>
        forall j :: 0 <= j < entries.Length && Before(Home(key, entries.Length), index, j) ==> entries[j].key != null
    {
      hide Used, Contents, Distinct, IsPowerOf2, And;
      ghost var es := entries[..];
      ghost var end := SomeEmpty(es);
      var capacity := entries.Length;
      ghost var home := Home(key, capacity);
      MaskIsRemainder(key.hash, capacity);
      index := And(key.hash, capacity - 1);
      var tombstone := -1;
      while true
        invariant index < capacity && home < capacity
        invariant forall j :: 0 <= j < capacity && Before(home, index, j) ==> !IsEmpty(es[j]) && es[j].key != key
        invariant tombstone == -1 ==> forall j :: 0 <= j < capacity && Before(home, index, j) ==> es[j].key != null
        invariant tombstone != -1 ==>
          && 0 <= tombstone < capacity && Before(home, index, tombstone) && es[tombstone].key == null
          && forall j :: 0 <= j < capacity && Before(home, tombstone, j) ==> es[j].key != null
        invariant Steps(home, index, capacity) <= Steps(home, end, capacity)
        decreases Steps(home, end, capacity) - Steps(home, index, capacity)
      {
        var entry := entries[index];
        assert entry == es[index];
        if entry.key == null {
          if entry.payload == Val(Nil) {
            ProbeEnds(es, key, index);
            if tombstone != -1 {
              index := tombstone;
            }
            return;
          } else if tombstone == -1 {
            tombstone := index;
          }
        } else if entry.key == key {
          return;
        }
        MaskIsRemainder(index + 1, capacity);
        NextIsRemainder(index, capacity);
        index := And(index + 1, capacity - 1);
      }
    }

    /** Writes an entry into its slot. */
    static method Place(entries: array<Entry>, key: Obj, payload: Payload) returns (isNewKey: bool, wasEmpty: bool)
      requires IsPowerOf2(entries.Length) && Used(entries[..]) < entries.Length
      requires Distinct(entries[..]) && Reachable(entries[..])
      modifies entries
      ensures Distinct(entries[..]) && Reachable(entries[..])
      ensures Contents(entries[..]) == old(Contents(entries[..]))[key := payload]
      ensures isNewKey <==> key !in old(Contents(entries[..]))
      ensures Used(entries[..]) == old(Used(entries[..])) + if wasEmpty then 1 else 0
      ensures wasEmpty ==> isNewKey
      ensures old(Clean(entries[..])) ==> Clean(entries[..]) && (isNewKey ==> wasEmpty)
    {
      ghost var es := entries[..];
      ContentsAt(es, key);
      var index := FindEntry(entries, key);
      isNewKey := entries[index].key == null;
      wasEmpty := IsEmpty(entries[index]);
      Stored(es, key, index, payload);
      UsedUpdate(es, index, Entry(key, payload));
      entries[index] := Entry(key, payload);
      assert entries[..] == es[index := Entry(key, payload)];
    }

    static method NewEntries(capacity: nat) returns (entries: array<Entry>)
      ensures fresh(entries) && entries.Length == capacity
      ensures Distinct(entries[..]) && Reachable(entries[..])
      ensures Contents(entries[..]) == map[] && Used(entries[..]) == 0 && Clean(entries[..])
    {
      entries := new Entry[capacity];
      for i := 0 to capacity
        invariant forall j :: 0 <= j < i ==> entries[j] == Entry(null, Val(Nil))
      {
        entries[i] := Entry(null, Val(Nil));
      }
      AllEmpty(entries[..]);
    }

    /** Moves the entries to an array of another capacity, without the tombstones. */
    method AdjustCapacity(capacity: nat)
      requires Valid() && Allowed(capacity) && capacity >= 8 && count < capacity
      modifies this
      ensures entries.Length == capacity && fresh(entries) && count <= old(count)
      ensures Distinct(entries[..]) && Reachable(entries[..]) && count == Used(entries[..])
      ensures Contents(entries[..]) == old(Map())
    {
      hide Contents, Reachable, Distinct, Used, Clean, IsPowerOf2;
      var moved := NewEntries(capacity);
      ghost var es := entries[..];
      TakeNone(es);
      count := 0;
      var i := 0;
      while i < entries.Length
        modifies this`count, moved
        invariant i <= |es| && Distinct(es[..i]) && Used(es[..i]) <= Used(es)
        invariant Distinct(moved[..]) && Reachable(moved[..]) && Clean(moved[..])
        invariant count == Used(moved[..]) <= Used(es[..i])
        invariant Contents(moved[..]) == Contents(es[..i])
      {
        var entry := entries[i];
        TakeMore(es, i);
        UsedPrefix(es, i + 1);
        if entry.key != null {
          var isNewKey, wasEmpty := Place(moved, entry.key, entry.payload);
          count := count + 1;
        }
        i := i + 1;
      }
      assert es[..i] == es;
      entries := moved;
    }

    /** tableGet and tableGetUint32, which read different members of the union. */
    method Get(key: Obj) returns (found: bool, payload: Payload)
      requires Valid()
      ensures found <==> key in Map()
      ensures found ==> payload == Map()[key]
    {
      hide Reachable, Distinct, IsPowerOf2;
      ContentsAt(entries[..], key);
      payload := Val(Nil);
      if count == 0 {
        NothingUsed(entries[..], key);
        return false, payload;
      }
      var index := FindEntry(entries, key);
      var entry := entries[index];
      if entry.key == null {
        return false, payload;
      }
      return true, entry.payload;
    }

    /** count + 1 > capacity * 0.75 */
    predicate Crowded()
      reads this
    {
      4 * (count + 1) > 3 * entries.Length
    }

    /** tableSet and tableSetUint32. The load is kept at or below three quarters. */
    method Set(key: Obj, payload: Payload) returns (isNewKey: bool)
      requires Valid()
      modifies this, entries
      ensures Valid() && (entries == old(entries) || fresh(entries))
      ensures Map() == old(Map())[key := payload]
      ensures isNewKey <==> key !in old(Map())
      ensures var n := old(entries.Length);
        entries.Length == if 4 * (old(count) + 1) <= 3 * n then n else if n < 8 then 8 else 2 * n
    {
      hide Contents, Reachable, Distinct, Used, IsPowerOf2;
      if Crowded() {
        GrowthAllowed(entries.Length);
        AdjustCapacity(GrowCapacity(entries.Length));
      }
      var wasEmpty;
      isNewKey, wasEmpty := Place(entries, key, payload);
      if wasEmpty {
        count := count + 1;
      }
    }

    /** Leaves a tombstone, which still counts. */
    method Delete(key: Obj) returns (found: bool)
      requires Valid()
      modifies entries
      ensures Valid() && Map() == old(Map()) - {key}
      ensures found <==> key in old(Map())
      ensures forall j :: 0 <= j < entries.Length ==>
          entries[j] == if old(entries[j].key) == key then BURIED else old(entries[j])
    {
      hide Contents, Reachable, IsPowerOf2;
      ghost var es := entries[..];
      ContentsAt(es, key);
      if count == 0 {
        NothingUsed(es, key);
        return false;
      }
      var index := FindEntry(entries, key);
      if entries[index].key == null {
        return false;
      }
      Buried(es, index);
      entries[index] := BURIED;
      assert entries[..] == es[index := BURIED];
      return true;
    }

    static method AddAll(from: Table, to: Table)
      requires from.Valid() && to.Valid() && from != to && from.entries != to.entries
      modifies to, to.entries
      ensures to.Valid() && (to.entries == old(to.entries) || fresh(to.entries))
      ensures to.Map() == old(to.Map()) + from.Map()
    {
      hide Contents, Reachable, Used, IsPowerOf2;
      ghost var es := from.entries[..];
      ghost var before := to.Map();
      TakeNone(es);
      var i := 0;
      while i < from.entries.Length
        invariant i <= |es| && to.Valid() && (to.entries == old(to.entries) || fresh(to.entries))
        invariant Distinct(es[..i]) && to.Map() == before + Contents(es[..i])
      {
        var entry := from.entries[i];
        TakeMore(es, i);
        if entry.key != null {
          var _ := to.Set(entry.key, entry.payload);
          assert to.Map() == before + Contents(es[..i + 1]);
        }
        i := i + 1;
      }
      assert es[..i] == es;
    }

    /** The string with these characters, among the keys. */
    method FindString(chars: string, hash: Word) returns (r: Obj?)
      requires Valid()
      ensures r != null ==> r in Map() && Spells(r, chars, hash)
      ensures r == null ==> forall k :: k in Map() ==> !Spells(k, chars, hash)
    {
      hide Reachable, Contents, Used, IsPowerOf2;
      ghost var es := entries[..];
      if count == 0 {
        NoKeys(es);
        return null;
      }
      ghost var end := SomeEmpty(es);
      var capacity := entries.Length;
      ghost var home: nat := hash % capacity;
      MaskIsRemainder(hash, capacity);
      var index: nat := And(hash, capacity - 1);
      while true
        invariant index < capacity && home < capacity
        invariant forall j :: 0 <= j < capacity && Before(home, index, j) ==>
          !IsEmpty(es[j]) && !Spells(es[j].key, chars, hash)
        invariant Steps(home, index, capacity) <= Steps(home, end, capacity)
        decreases Steps(home, end, capacity) - Steps(home, index, capacity)
      {
        var entry := entries[index];
        assert entry == es[index];
        if entry.key == null {
          if entry.payload == Val(Nil) {
            StringProbeEnds(es, chars, hash, index);
            return null;
          }
        } else if Spells(entry.key, chars, hash) {
          ContentsAt(es, entry.key);
          return entry.key;
        }
        MaskIsRemainder(index + 1, capacity);
        NextIsRemainder(index, capacity);
        index := And(index + 1, capacity - 1);
      }
    }

    /** Deletes the keys that the collector has not marked. */
    method RemoveWhite()
      requires Valid()
      modifies entries
      ensures Valid() && Map() == map k | k in old(Map()) && k.isMarked :: old(Map())[k]
    {
      hide Reachable, Used, IsPowerOf2, Distinct, Contents;
      ghost var es := entries[..];
      var i := 0;
      while i < entries.Length
        invariant i <= |es| == entries.Length && Valid()
        invariant forall j :: i <= j < |es| ==> entries[j] == es[j]
        invariant forall j :: 0 <= j < i ==>
          entries[j] == if es[j].key != null && !es[j].key.isMarked then BURIED else es[j]
      {
        var key := entries[i].key;
        if key != null && !key.isMarked {
          SameKey(es, i);
          var _ := Delete(key);
        }
        i := i + 1;
      }
      WhitesGone(es, entries[..]);
    }
  }

  lemma NextIsRemainder(i: nat, capacity: nat)
    requires i < capacity
    ensures (i + 1) % capacity == Next(i, capacity)
  {
  }

  lemma {:induction false} NothingUsed(es: seq<Entry>, k: Obj)
    requires Used(es) == 0
    ensures !HasKey(es, k)
    decreases |es|
  {
    if es != [] {
      NothingUsed(es[..|es| - 1], k);
    }
  }

  lemma StringProbeEnds(es: seq<Entry>, chars: string, hash: Word, i: nat)
    requires Distinct(es) && Reachable(es) && i < |es| && IsEmpty(es[i])
    requires forall j :: 0 <= j < |es| && Before(hash % |es|, i, j) ==> !Spells(es[j].key, chars, hash)
    ensures forall k :: k in Contents(es) ==> !Spells(k, chars, hash)
  {
  }

  lemma NoKeys(es: seq<Entry>)
    requires Distinct(es) && Used(es) == 0
    ensures Contents(es) == map[]
  {
    if k :| k in Contents(es) {
      NothingUsed(es, k);
    }
  }

  lemma SameKey(es: seq<Entry>, i: nat)
    requires Distinct(es) && i < |es| && es[i].key != null
    ensures forall j :: 0 <= j < |es| && es[j].key == es[i].key ==> j == i
  {
  }

  lemma WhitesGone(es: seq<Entry>, es1: seq<Entry>)
    requires Distinct(es) && Distinct(es1) && |es1| == |es|
    requires forall j :: 0 <= j < |es| ==> es1[j] == if es[j].key != null && !es[j].key.isMarked then BURIED else es[j]
    ensures Contents(es1) == map k | k in Contents(es) && k.isMarked :: Contents(es)[k]
  {
    hide Contents;
    forall x | x in Contents(es).Keys + Contents(es1).Keys
      ensures x in Contents(es1) <==> x in Contents(es) && x.isMarked
      ensures x in Contents(es1) ==> Contents(es1)[x] == Contents(es)[x]
    {
      ContentsAt(es, x);
      ContentsAt(es1, x);
      if HasKey(es, x) {
        var j :| 0 <= j < |es| && es[j].key == x;
        assert es1[j] == if x.isMarked then es[j] else BURIED;
      }
    }
  }

  /** A probe that meets an empty slot has not missed its key. */
  lemma ProbeEnds(es: seq<Entry>, k: Obj, i: nat)
    requires Reachable(es) && i < |es| && IsEmpty(es[i])
    requires forall j :: 0 <= j < |es| && Before(Home(k, |es|), i, j) ==> es[j].key != k
    ensures !HasKey(es, k)
  {
  }

  lemma TakeNone(es: seq<Entry>)
    ensures Distinct(es[..0]) && Used(es[..0]) == 0 && Contents(es[..0]) == map[]
  {
  }

  lemma TakeMore(es: seq<Entry>, i: nat)
    requires Distinct(es) && i < |es|
    ensures Distinct(es[..i]) && Distinct(es[..i + 1])
    ensures Used(es[..i + 1]) == Used(es[..i]) + if IsEmpty(es[i]) then 0 else 1
    ensures es[i].key == null ==> Contents(es[..i + 1]) == Contents(es[..i])
    ensures es[i].key != null ==> es[i].key !in Contents(es[..i])
    ensures es[i].key != null ==> Contents(es[..i + 1]) == Contents(es[..i])[es[i].key := es[i].payload]
  {
    hide Contents;
    var a, b := es[..i], es[..i + 1];
    assert b[..i] == a;
    if es[i].key == null {
      forall x | x in Contents(a).Keys + Contents(b).Keys
        ensures x in Contents(b) <==> x in Contents(a)
        ensures x in Contents(b) ==> Contents(b)[x] == Contents(a)[x]
      {
        ContentsAt(a, x);
        ContentsAt(b, x);
        OneMore(es, i, x);
      }
    } else {
      var k: Obj := es[i].key;
      ContentsAt(a, k);
      forall x | x in Contents(a).Keys + Contents(b).Keys + {k}
        ensures x in Contents(b) <==> x in Contents(a)[k := es[i].payload]
        ensures x in Contents(b) ==> Contents(b)[x] == Contents(a)[k := es[i].payload][x]
      {
        ContentsAt(a, x);
        ContentsAt(b, x);
        OneMore(es, i, x);
      }
    }
  }

  lemma OneMore(es: seq<Entry>, i: nat, x: Obj)
    requires Distinct(es) && i < |es|
    ensures HasKey(es[..i + 1], x) <==> HasKey(es[..i], x) || es[i].key == x
    ensures HasKey(es[..i], x) ==> exists j :: 0 <= j < i && es[j].key == x && es[..i][j] == es[..i + 1][j]
    ensures es[i].key == x ==> es[..i + 1][i].key == x
  {
    if HasKey(es[..i + 1], x) {
      var j :| 0 <= j < i + 1 && es[..i + 1][j].key == x;
      assert j < i ==> es[..i][j].key == x;
    }
    if HasKey(es[..i], x) {
      var j :| 0 <= j < i && es[..i][j].key == x;
      assert es[..i + 1][j].key == x;
    }
  }

  lemma {:induction false} UsedPrefix(es: seq<Entry>, i: nat)
    requires i <= |es|
    ensures Used(es[..i]) <= Used(es)
    decreases |es| - i
  {
    if i == |es| {
      assert es[..i] == es;
    } else {
      assert es[..i + 1][..i] == es[..i];
      UsedPrefix(es, i + 1);
    }
  }

  /** No tombstones. */
  ghost predicate Clean(es: seq<Entry>) {
    forall i :: 0 <= i < |es| && es[i].key == null ==> IsEmpty(es[i])
  }
}
