/** String interning (src/values/object.c): one object for each string, found by content. */
module Interning {
  import opened Heap
  import opened Bits
  import opened Reachability
  import opened Tables
  import opened Collector
  import Probing

  /** FNV-1a on the bytes of a string, in 32 bits. */
  function HashOf(chars: string): Word {
    if chars == [] then 2166136261
    else
      var n := |chars| - 1;
      Xor(HashOf(chars[..n]), chars[n] as int % 256) * 16777619 % 0x1_0000_0000
  }

  method HashString(chars: string) returns (hash: Word)
    ensures hash == HashOf(chars)
  {
    hash := 2166136261;
    for i := 0 to |chars|
      invariant hash == HashOf(chars[..i])
    {
      assert chars[..i + 1][..i] == chars[..i];
      var mixed := Xor(hash, chars[i] as int % 256);
      hash := mixed * 16777619 % 0x1_0000_0000;
    }
    assert chars[..|chars|] == chars;
  }

  lemma OffsetXorA()
    ensures Xor(2166136261, 97) == 2166136228
  {
    hide Xor;
    XorZero(16922939);
    XorStep(33845879, 1);
    XorStep(67691758, 3);
    XorStep(135383516, 6);
    XorStep(270767032, 12);
    XorStep(541534065, 24);
    XorStep(1083068130, 48);
    XorStep(2166136261, 97);
  }

  lemma HashOfOne(c: char)
    ensures HashOf([c]) == Xor(2166136261, c as int % 256) * 16777619 % 0x1_0000_0000
  {
    hide Xor;
    assert [c][..0] == [];
  }

  /** Two published values of 32-bit FNV-1a. */
  lemma HashExamples()
    ensures HashOf("") == 0x811C9DC5 && HashOf("a") == 0xE40C292C
  {
    hide Xor, HashOf;
    HashOfNone();
    HashOfOne('a');
    OffsetXorA();
    assert 'a' as int % 256 == 97;
    assert 2166136228 * 16777619 == 8461672 * 0x1_0000_0000 + 0xE40C292C;
  }

  lemma HashOfNone()
    ensures HashOf("") == 0x811C9DC5
  {
  }

  /** The keys of the intern table are strings, with their hashes, and no two are equal. */
  ghost predicate Unique(keys: set<Obj>)
    reads keys`body
  {
    && (forall k :: k in keys ==> k.body == Str && k.hash == HashOf(k.chars))
    && (forall k, l :: k in keys && l in keys && k.chars == l.chars ==> k == l)
  }

  /** Every live string is interned. */
  ghost predicate Interned(m: Memory)
    requires m.Valid()
    reads m, m.list, m.strings, m.strings.entries
  {
    Unique(m.strings.Map().Keys) && forall o :: o in m.list && o.body == Str ==> o in m.strings.Map()
  }

  /** For live strings, the same reference is the same content. */
  lemma SameReferenceSameString(m: Memory, a: Obj, b: Obj)
    requires m.Valid() && Interned(m)
    requires a in m.list && b in m.list && a.body == Str && b.body == Str
    ensures a == b <==> a.chars == b.chars
  {
  }

  /** The bytes in use outside the objects and the intern table. */
  ghost function Elsewhere(m: Memory): int
    reads m, m.list, m.strings
  {
    m.Spare() - SIZE_ENTRY * m.strings.entries.Length
  }

  /** As Interned, but for a new string that is not in the table yet. */
  ghost predicate InternedBut(m: Memory, n: Obj)
    requires m.Valid()
    reads m, m.list, m.strings, m.strings.entries
  {
    && Unique(m.strings.Map().Keys) && n !in m.strings.Map()
    && (forall o :: o in m.list && o.body == Str && o != n ==> o in m.strings.Map())
    && (forall k :: k in m.strings.Map() ==> k.chars != n.chars)
    && n in m.list && n.body == Str && n.hash == HashOf(n.chars)
  }

  /** tableSet on the intern table, in the space that has been made for it. */
  method Insert(m: Memory, o: Obj)
    requires m.Valid() && InternedBut(m, o)
    modifies m.strings, m.strings.entries
    ensures m.Valid() && Interned(m) && (m.strings.entries == old(m.strings.entries) || fresh(m.strings.entries))
    ensures m.strings.entries.Length ==
      if old(m.strings.Crowded()) then GrowCapacity(old(m.strings.entries.Length)) else old(m.strings.entries.Length)
  {
    hide Refs, Total, HashOf;
    hide Memory.Linked, Memory.Closed, Memory.White, Probing.Contents, Probing.Used, Probing.Distinct,
        Probing.Reachable;
    ghost var before := m.strings.Map();
    var _ := m.strings.Set(o, Val(Nil));
    assert m.strings.Map().Keys == before.Keys + {o};
  }

  /** tableSet on the intern table, with the bytes of its new and its old entries. */
  method Intern(m: Memory, o: Obj, r: Roots)
    requires m.Valid() && InternedBut(m, o) && RootSet(r) <= m.Nodes() && o in RootSet(r)
    modifies m, m.Nodes()`next, m.Nodes()`isMarked, m.strings, m.strings.entries
    ensures m.strings == old(m.strings)
    ensures fresh(m.Nodes() - old(m.Nodes()))
    ensures m.strings.entries == old(m.strings.entries) || fresh(m.strings.entries)
    ensures m.Valid() && Interned(m) && RootSet(r) <= m.Nodes() && o in m.list
    ensures Preserves(old(m.Edges()), RootSet(r), m.Edges())
    ensures Elsewhere(m) == old(Elsewhere(m))
  {
    hide Reachable, Refs, Total, RootSet, Memory.Edges, HashOf, Unique, Table.Crowded;
    hide Memory.Linked, Memory.Closed, Memory.White, Probing.Contents, Probing.Used, Probing.Distinct,
        Probing.Reachable;
    var crowded := m.strings.Crowded();
    var size := SIZE_ENTRY * m.strings.entries.Length;
    if crowded {
      MakeRoom(m, o, r);
    }
    Insert(m, o);
    if crowded {
      m.Free(size);
    }
  }

  method MakeRoom(m: Memory, o: Obj, r: Roots)
    requires m.Valid() && InternedBut(m, o) && RootSet(r) <= m.Nodes() && o in RootSet(r)
    modifies m, m.Nodes()`next, m.Nodes()`isMarked, m.strings.entries
    ensures fresh(m.Nodes() - old(m.Nodes()))
    ensures m.Valid() && InternedBut(m, o) && RootSet(r) <= m.Nodes()
    ensures m.strings == old(m.strings) && m.strings.entries == old(m.strings.entries)
        && m.strings.count == old(m.strings.count)
    ensures Preserves(old(m.Edges()), RootSet(r), m.Edges())
    ensures m.Spare() == old(m.Spare()) + SIZE_ENTRY * GrowCapacity(m.strings.entries.Length)
  {
    hide Reachable, Refs, Total, RootSet;
    hide Memory.Linked, Memory.Closed, Memory.White, Probing.Contents, Probing.Used, Probing.Distinct,
        Probing.Reachable;
    RootReachable(m.Edges(), RootSet(r), o);
    m.Grow(SIZE_ENTRY * GrowCapacity(m.strings.entries.Length), r);
  }

  /** The new string is on the stack while the intern table grows. */
  function Stacked(r: Roots, o: Obj): Roots {
    r.(stack := r.stack + [Ref(o)])
  }

  lemma StackedRoots(r: Roots, o: Obj)
    ensures RootSet(Stacked(r, o)) == RootSet(r) + {o}
  {
    assert (r.stack + [Ref(o)])[..|r.stack|] == r.stack;
  }

  /** A string object that is not in the intern table yet. */
  method NewString(m: Memory, chars: string, hash: Word, r: Roots) returns (o: Obj)
    requires m.Valid() && Interned(m) && RootSet(r) <= m.Nodes()
    requires hash == HashOf(chars) && forall k :: k in m.strings.Map() ==> k.chars != chars
    requires m.Spare() >= |chars| + 1
    modifies m, m.Nodes()`next, m.Nodes()`isMarked, m.strings.entries
    ensures fresh(m.Nodes() - old(m.Nodes()))
    ensures m.Valid() && InternedBut(m, o) && RootSet(r) <= m.Nodes() && o.chars == chars
    ensures m.strings == old(m.strings) && m.strings.entries == old(m.strings.entries)
    ensures Preserves(old(m.Edges()), RootSet(r), m.Edges())
    ensures m.Spare() == old(m.Spare()) - (|chars| + 1)
  {
    hide Reachable, Refs, Total, RootSet, Preserves, HashOf;
    hide Memory.Linked, Memory.Closed, Memory.White, Probing.Contents, Probing.Used, Probing.Distinct,
        Probing.Reachable;
    NoRefs(RootSet(r));
    o := m.AllocateObject(Str, chars, hash, r);
  }

  /** allocateString: the characters are on the heap already. */
  method AllocateString(m: Memory, chars: string, hash: Word, r: Roots) returns (o: Obj)
    requires m.Valid() && Interned(m) && RootSet(r) <= m.Nodes()
    requires hash == HashOf(chars) && forall k :: k in m.strings.Map() ==> k.chars != chars
    requires m.Spare() >= |chars| + 1
    modifies m, m.Nodes()`next, m.Nodes()`isMarked, m.strings, m.strings.entries
    ensures m.strings == old(m.strings)
    ensures fresh(m.Nodes() - old(m.Nodes()))
    ensures m.strings.entries == old(m.strings.entries) || fresh(m.strings.entries)
    ensures m.Valid() && Interned(m) && RootSet(r) <= m.Nodes()
    ensures o in m.list && o.body == Str && o.chars == chars
    ensures Preserves(old(m.Edges()), RootSet(r), m.Edges())
    ensures Elsewhere(m) == old(Elsewhere(m)) - (|chars| + 1)
  {
    hide Reachable, Refs, Total, RootSet, Preserves, HashOf, Unique;
    hide Memory.Linked, Memory.Closed, Memory.White, Probing.Contents, Probing.Used, Probing.Distinct,
        Probing.Reachable;
    ghost var g := m.Edges();
    o := NewString(m, chars, hash, r);
    ghost var g1 := m.Edges();
    StackedRoots(r, o);
    assert o in m.Nodes();
    Intern(m, o, Stacked(r, o));
    PreservesTwice(g, RootSet(r), g1, RootSet(Stacked(r, o)), m.Edges());
  }

  lemma NoRefs(s: set<Obj>)
    ensures Refs(Str) <= s
  {
  }

  /** The interned string with these characters, if there is a live one. */
  method Lookup(m: Memory, chars: string, hash: Word) returns (r: Obj?)
    requires m.Valid() && Interned(m) && hash == HashOf(chars)
    ensures r != null ==> r in m.list && r.body == Str && r.chars == chars
    ensures r == null ==> forall k :: k in m.strings.Map() ==> k.chars != chars
    ensures forall k :: k in m.list && k.body == Str && k.chars == chars ==> k == r
  {
    hide Refs, Total, Memory.Linked, Memory.Closed, Memory.White;
    hide Probing.Contents, Probing.Used, Probing.Distinct, Probing.Reachable, HashOf;
    r := m.strings.FindString(chars, hash);
  }

  /** copyString for a string that is new. */
  method CopyNew(m: Memory, chars: string, hash: Word, r: Roots) returns (o: Obj)
    requires m.Valid() && Interned(m) && RootSet(r) <= m.Nodes()
    requires hash == HashOf(chars) && forall k :: k in m.strings.Map() ==> k.chars != chars
    modifies m, m.Nodes()`next, m.Nodes()`isMarked, m.strings, m.strings.entries
    ensures m.strings == old(m.strings)
    ensures fresh(m.Nodes() - old(m.Nodes()))
    ensures m.strings.entries == old(m.strings.entries) || fresh(m.strings.entries)
    ensures m.Valid() && Interned(m) && RootSet(r) <= m.Nodes()
    ensures o in m.list && o.body == Str && o.chars == chars
    ensures Preserves(old(m.Edges()), RootSet(r), m.Edges())
    ensures Elsewhere(m) == old(Elsewhere(m))
  {
    hide Reachable, Refs, Total, RootSet, HashOf, Unique, Preserves;
    hide Memory.Linked, Memory.Closed, Memory.White, Probing.Contents, Probing.Used, Probing.Distinct,
        Probing.Reachable;
    ghost var g := m.Edges();
    MakeBuffer(m, chars, r);
    ghost var g1 := m.Edges();
    o := AllocateString(m, chars, hash, r);
    PreservesTwice(g, RootSet(r), g1, RootSet(r), m.Edges());
  }

  /** copyString: the string with these characters, copied to the heap if it is new. */
  method CopyString(m: Memory, chars: string, r: Roots) returns (o: Obj)
    requires m.Valid() && Interned(m) && RootSet(r) <= m.Nodes()
    modifies m, m.Nodes()`next, m.Nodes()`isMarked, m.strings, m.strings.entries
    ensures m.strings == old(m.strings)
    ensures fresh(m.Nodes() - old(m.Nodes()))
    ensures m.strings.entries == old(m.strings.entries) || fresh(m.strings.entries)
    ensures m.Valid() && Interned(m) && RootSet(r) <= m.Nodes()
    ensures o in m.list && o.body == Str && o.chars == chars
    ensures forall k :: k in old(m.list) && k.body == Str && k.chars == chars ==> o == k && m.list == old(m.list)
    ensures Preserves(old(m.Edges()), RootSet(r), m.Edges())
    ensures Elsewhere(m) == old(Elsewhere(m))
  {
    hide Reachable, Refs, Total, RootSet, HashOf, Unique, Preserves, Memory.Spare;
    hide Memory.Linked, Memory.Closed, Memory.White, Probing.Contents, Probing.Used, Probing.Distinct,
        Probing.Reachable;
    var hash := HashString(chars);
    var interned := Lookup(m, chars, hash);
    if interned != null {
      PreservesItself(m.Edges(), RootSet(r));
      return interned;
    }
    o := CopyNew(m, chars, hash, r);
  }

  /** ALLOCATE for the characters. */
  method MakeBuffer(m: Memory, chars: string, r: Roots)
    requires m.Valid() && Interned(m) && RootSet(r) <= m.Nodes()
    requires forall k :: k in m.strings.Map() ==> k.chars != chars
    modifies m, m.Nodes()`next, m.Nodes()`isMarked, m.strings.entries
    ensures m.strings == old(m.strings) && m.strings.entries == old(m.strings.entries)
    ensures m.Nodes() <= old(m.Nodes())
    ensures m.Valid() && Interned(m) && RootSet(r) <= m.Nodes()
    ensures forall k :: k in m.strings.Map() ==> k.chars != chars
    ensures Preserves(old(m.Edges()), RootSet(r), m.Edges())
    ensures m.Spare() == old(m.Spare()) + |chars| + 1
  {
    hide Reachable, Refs, Total, RootSet, HashOf;
    hide Memory.Linked, Memory.Closed, Memory.White, Probing.Contents, Probing.Used, Probing.Distinct,
        Probing.Reachable;
    m.Grow(|chars| + 1, r);
  }

  /** takeString: as copyString, for characters that are on the heap, which the string takes
      over or which are freed. */
  method TakeString(m: Memory, chars: string, r: Roots) returns (o: Obj)
    requires m.Valid() && Interned(m) && RootSet(r) <= m.Nodes() && m.Spare() >= |chars| + 1
    modifies m, m.Nodes()`next, m.Nodes()`isMarked, m.strings, m.strings.entries
    ensures m.strings == old(m.strings)
    ensures fresh(m.Nodes() - old(m.Nodes()))
    ensures m.strings.entries == old(m.strings.entries) || fresh(m.strings.entries)
    ensures m.Valid() && Interned(m) && RootSet(r) <= m.Nodes()
    ensures o in m.list && o.body == Str && o.chars == chars
    ensures forall k :: k in old(m.list) && k.body == Str && k.chars == chars ==> o == k && m.list == old(m.list)
    ensures Preserves(old(m.Edges()), RootSet(r), m.Edges())
    ensures Elsewhere(m) == old(Elsewhere(m)) - (|chars| + 1)
  {
    hide Reachable, Refs, Total, RootSet, HashOf, Unique, Preserves, Interned;
    hide Memory.Linked, Memory.Closed, Memory.White, Probing.Contents, Probing.Used, Probing.Distinct,
        Probing.Reachable;
    var hash := HashString(chars);
    var interned := Lookup(m, chars, hash);
    if interned != null {
      PreservesItself(m.Edges(), RootSet(r));
      FreeChars(m, |chars| + 1);
      return interned;
    }
    o := AllocateString(m, chars, hash, r);
  }

  /** FREE_ARRAY on characters that are not needed. */
  method FreeChars(m: Memory, n: nat)
    requires m.Valid() && Interned(m) && m.Spare() >= n
    modifies m`bytesAllocated
    ensures m.Valid() && Interned(m) && Elsewhere(m) == old(Elsewhere(m)) - n
  {
    hide Total, Unique;
    hide Memory.Linked, Memory.Closed, Memory.White, Probing.Contents, Probing.Used, Probing.Distinct,
        Probing.Reachable;
    m.Free(n);
  }

  /** A collection keeps the intern table exact. */
  method Collect(m: Memory, r: Roots) returns (ghost alive: set<Obj>)
    requires m.Valid() && Interned(m) && RootSet(r) <= m.Nodes()
    modifies m, m.Nodes()`next, m.Nodes()`isMarked, m.strings.entries
    ensures fresh(m.Nodes() - old(m.Nodes()))
    ensures m.Valid() && Interned(m)
    ensures forall o :: o in old(m.list) ==> (o in m.list <==> Reachable(old(m.Edges()), RootSet(r), o))
  {
    hide Reachable, Refs, Total, RootSet;
    hide Memory.Linked, Memory.Closed, Memory.White, Probing.Contents, Probing.Used, Probing.Distinct,
        Probing.Reachable;
    hide Keep, Allowed;
    ghost var before, keys := m.list, m.strings.Map().Keys;
    assert Unique(keys) && forall o :: o in before && o.body == Str ==> o in keys;
    hide Unique;
    alive := m.CollectGarbage(r);
    assert m.strings.Map().Keys == keys * alive;
    FewerUnique(keys, keys * alive);
    StringsKept(before, keys, alive);
  }

  lemma FewerUnique(keys: set<Obj>, fewer: set<Obj>)
    requires Unique(keys) && fewer <= keys
    ensures Unique(fewer)
  {
  }

  lemma StringsKept(objs: seq<Obj>, keys: set<Obj>, alive: set<Obj>)
    requires forall o :: o in objs && o.body == Str ==> o in keys
    ensures forall o :: o in Keep(objs, alive) && o.body == Str ==> o in keys * alive
  {
  }
}
