/** The object graph, and what can be reached in it. */
module Reachability {
  import opened Heap

  // ----- the references that blackenObject follows -----

  function OfObj(o: Obj?): set<Obj> {
    if o == null then {} else {o}
  }

  function OfValue(v: Value): set<Obj> {
    if v.Ref? then OfObj(v.obj) else {}
  }

  function OfEntry(e: Entry): set<Obj> {
    OfObj(e.key) + if e.payload.Val? then OfValue(e.payload.v) else {}
  }

  function OfObjs(os: seq<Obj?>): set<Obj> {
    if os == [] then {} else OfObjs(os[..|os| - 1]) + OfObj(os[|os| - 1])
  }

  function OfValues(vs: seq<Value>): set<Obj> {
    if vs == [] then {} else OfValues(vs[..|vs| - 1]) + OfValue(vs[|vs| - 1])
  }

  function OfEntries(es: seq<Entry>): set<Obj> {
    if es == [] then {} else OfEntries(es[..|es| - 1]) + OfEntry(es[|es| - 1])
  }

  function Refs(b: Body): set<Obj> {
    match b
    case Array(values, _) => OfValues(values)
    case BoundMethod(receiver, bound) => OfValue(receiver) + OfObj(bound)
    case Class(name, methods) => OfObj(name) + OfEntries(methods)
    case Closure(code, upvalues) => OfObj(code) + OfObjs(upvalues)
    case Function(name, constants, _) => OfObj(name) + OfValues(constants)
    case Instance(klass, fields) => OfObj(klass) + OfEntries(fields)
    case Native => {}
    case Str => {}
    case Upvalue(closed) => OfValue(closed)
  }

  // ----- what an object refers to, place by place -----

  /** o is the key of the entry, or its value. */
  ghost predicate InEntry(e: Entry, o: Obj) {
    e.key == o || e.payload == Val(Ref(o))
  }

  /** o occurs in an object with this body: in a field, or somewhere in a buffer. */
  ghost predicate Occurs(b: Body, o: Obj) {
    match b
    case Array(values, _) => exists i :: 0 <= i < |values| && values[i] == Ref(o)
    case BoundMethod(receiver, bound) => receiver == Ref(o) || bound == o
    case Class(name, methods) => name == o || exists i :: 0 <= i < |methods| && InEntry(methods[i], o)
    case Closure(code, upvalues) => code == o || exists i :: 0 <= i < |upvalues| && upvalues[i] == o
    case Function(name, constants, _) => name == o || exists i :: 0 <= i < |constants| && constants[i] == Ref(o)
    case Instance(klass, fields) => klass == o || exists i :: 0 <= i < |fields| && InEntry(fields[i], o)
    case Native => false
    case Str => false
    case Upvalue(closed) => closed == Ref(o)
  }

  lemma {:induction false} InObjs(os: seq<Obj?>, o: Obj)
    ensures o in OfObjs(os) <==> exists i :: 0 <= i < |os| && os[i] == o
    decreases |os|
  {
    if os != [] {
      InObjs(os[..|os| - 1], o);
    }
  }

  lemma {:induction false} InValues(vs: seq<Value>, o: Obj)
    ensures o in OfValues(vs) <==> exists i :: 0 <= i < |vs| && vs[i] == Ref(o)
    decreases |vs|
  {
    if vs != [] {
      InValues(vs[..|vs| - 1], o);
    }
  }

  lemma {:induction false} InEntries(es: seq<Entry>, o: Obj)
    ensures o in OfEntries(es) <==> exists i :: 0 <= i < |es| && InEntry(es[i], o)
    decreases |es|
  {
    if es != [] {
      InEntries(es[..|es| - 1], o);
    }
  }

  /** The references of an object are what occurs in it, neither more nor less. */
  lemma RefsAreOccurrences(b: Body, o: Obj)
    ensures o in Refs(b) <==> Occurs(b, o)
  {
    hide OfObjs, OfValues, OfEntries, InEntry;
    match b
    case Array(values, _) => InValues(values, o);
    case Class(_, methods) => InEntries(methods, o);
    case Closure(_, upvalues) => InObjs(upvalues, o);
    case Function(_, constants, _) => InValues(constants, o);
    case Instance(_, fields) => InEntries(fields, o);
    case _ =>
  }

  // ----- reachability -----

  type Graph = map<Obj, set<Obj>>

  /** Some nodes and their successors. */
  function Spread(g: Graph, s: set<Obj>): set<Obj> {
    s + set o, p | o in s && o in g && p in g[o] :: p
  }

  /** What n steps reach. */
  function Reach(g: Graph, roots: set<Obj>, n: nat): set<Obj> {
    if n == 0 then roots else Spread(g, Reach(g, roots, n - 1))
  }

  ghost predicate Reachable(g: Graph, roots: set<Obj>, o: Obj) {
    exists n: nat :: o in Reach(g, roots, n)
  }

  lemma RootReachable(g: Graph, roots: set<Obj>, o: Obj)
    requires o in roots
    ensures Reachable(g, roots, o)
  {
    assert o in Reach(g, roots, 0);
  }

  lemma NextReachable(g: Graph, roots: set<Obj>, o: Obj, p: Obj)
    requires Reachable(g, roots, o) && o in g && p in g[o]
    ensures Reachable(g, roots, p)
  {
    var n: nat :| o in Reach(g, roots, n);
    assert p in Reach(g, roots, n + 1);
  }

  /** A set with the roots and all successors of its members has everything reachable. */
  lemma {:induction false} ClosedHasAll(g: Graph, roots: set<Obj>, s: set<Obj>, n: nat)
    requires roots <= s && forall o :: o in s && o in g ==> g[o] <= s
    ensures Reach(g, roots, n) <= s
    decreases n
  {
    if n > 0 {
      ClosedHasAll(g, roots, s, n - 1);
    }
  }

  /** The least such set, for a set all of whose members can be reached. */
  lemma ReachableExactly(g: Graph, roots: set<Obj>, s: set<Obj>)
    requires roots <= s && forall o :: o in s && o in g ==> g[o] <= s
    requires forall o :: o in s ==> Reachable(g, roots, o)
    ensures forall o :: o in s <==> Reachable(g, roots, o)
  {
    forall o | Reachable(g, roots, o)
      ensures o in s
    {
      var n: nat :| o in Reach(g, roots, n);
      ClosedHasAll(g, roots, s, n);
    }
  }

  /** What can be reached is still there, with the same successors. */
  ghost predicate Preserves(g: Graph, roots: set<Obj>, g1: Graph) {
    forall o :: o in g && Reachable(g, roots, o) ==> o in g1 && g1[o] == g[o]
  }

  lemma PreservesItself(g: Graph, roots: set<Obj>)
    ensures Preserves(g, roots, g)
  {
  }

  lemma {:induction false} ReachKept(g: Graph, roots: set<Obj>, g1: Graph, roots1: set<Obj>, n: nat)
    requires roots <= roots1 && Preserves(g, roots, g1)
    ensures Reach(g, roots, n) <= Reach(g1, roots1, n)
    decreases n
  {
    if n > 0 {
      ReachKept(g, roots, g1, roots1, n - 1);
      forall o | o in Reach(g, roots, n - 1) && o in g
        ensures o in g1 && g1[o] == g[o]
      {
        assert Reachable(g, roots, o);
      }
    }
  }

  /** Two collections in a row, the second with at least the roots of the first. */
  lemma PreservesTwice(g: Graph, roots: set<Obj>, g1: Graph, roots1: set<Obj>, g2: Graph)
    requires Preserves(g, roots, g1) && Preserves(g1, roots1, g2) && roots <= roots1
    ensures Preserves(g, roots, g2)
  {
    forall o | o in g && Reachable(g, roots, o)
      ensures o in g2 && g2[o] == g[o]
    {
      var n: nat :| o in Reach(g, roots, n);
      ReachKept(g, roots, g1, roots1, n);
      assert Reachable(g1, roots1, o);
    }
  }
}
