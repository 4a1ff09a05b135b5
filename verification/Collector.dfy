/** The mark-sweep collector of src/util/memory.c. Marking paints white objects gray and
    gray objects black; sweeping unlinks the white ones from the object list. */
module Collector {
  import opened Heap
  import opened Reachability
  import opened Tables
  import Probing

  datatype CompilerRoots = CompilerRoots(fun: Obj?, locals: seq<Entry>)

  /** The places that hold roots. */
  datatype Roots = Roots(
    temps: seq<Value>,
    stack: seq<Value>,
    frames: seq<Obj?>,
    openUpvalues: seq<Obj?>,
    globals: seq<Value>,
    globalNames: seq<Entry>,
    compilers: seq<CompilerRoots>,
    initString: Obj?)

  function OfCompiler(c: CompilerRoots): set<Obj> {
    OfObj(c.fun) + OfEntries(c.locals)
  }

  function OfCompilers(cs: seq<CompilerRoots>): set<Obj> {
    if cs == [] then {} else OfCompilers(cs[..|cs| - 1]) + OfCompiler(cs[|cs| - 1])
  }

  function RootSet(r: Roots): set<Obj> {
    OfValues(r.temps) + OfValues(r.stack) + OfObjs(r.frames) + OfObjs(r.openUpvalues)
    + OfValues(r.globals) + OfEntries(r.globalNames) + OfCompilers(r.compilers) + OfObj(r.initString)
  }

  /** o is in one of the places that hold roots. */
  ghost predicate AtRoot(r: Roots, o: Obj) {
    || (exists i :: 0 <= i < |r.temps| && r.temps[i] == Ref(o))
    || (exists i :: 0 <= i < |r.stack| && r.stack[i] == Ref(o))
    || (exists i :: 0 <= i < |r.frames| && r.frames[i] == o)
    || (exists i :: 0 <= i < |r.openUpvalues| && r.openUpvalues[i] == o)
    || (exists i :: 0 <= i < |r.globals| && r.globals[i] == Ref(o))
    || (exists i :: 0 <= i < |r.globalNames| && InEntry(r.globalNames[i], o))
    || (exists i :: 0 <= i < |r.compilers| && InCompiler(r.compilers[i], o))
    || r.initString == o
  }

  ghost predicate InCompiler(c: CompilerRoots, o: Obj) {
    c.fun == o || exists i :: 0 <= i < |c.locals| && InEntry(c.locals[i], o)
  }

  lemma {:induction false} InCompilers(cs: seq<CompilerRoots>, o: Obj)
    ensures o in OfCompilers(cs) <==> exists i :: 0 <= i < |cs| && InCompiler(cs[i], o)
    decreases |cs|
  {
    if cs != [] {
      InCompilers(cs[..|cs| - 1], o);
      InEntries(cs[|cs| - 1].locals, o);
    }
  }

  /** The root set is what is in these places. */
  lemma RootsAreOccurrences(r: Roots, o: Obj)
    ensures o in RootSet(r) <==> AtRoot(r, o)
  {
    hide OfObjs, OfValues, OfEntries, OfCompilers, InEntry, InCompiler;
    InValues(r.temps, o);
    InValues(r.stack, o);
    InObjs(r.frames, o);
    InObjs(r.openUpvalues, o);
    InValues(r.globals, o);
    InEntries(r.globalNames, o);
    InCompilers(r.compilers, o);
  }

  /** A chain of n occurrences, from a root to o. */
  ghost predicate Chain(bodies: map<Obj, Body>, r: Roots, o: Obj, n: nat) {
    if n == 0 then AtRoot(r, o)
    else exists p :: p in bodies && Chain(bodies, r, p, n - 1) && Occurs(bodies[p], o)
  }

  /** The program can still get at o. */
  ghost predicate Live(bodies: map<Obj, Body>, r: Roots, o: Obj) {
    exists n: nat :: Chain(bodies, r, o, n)
  }

  ghost function GraphOf(bodies: map<Obj, Body>): Graph {
    map o | o in bodies :: Refs(bodies[o])
  }

  lemma {:induction false} ChainReaches(bodies: map<Obj, Body>, r: Roots, o: Obj, n: nat)
    requires Chain(bodies, r, o, n)
    ensures o in Reach(GraphOf(bodies), RootSet(r), n)
    decreases n
  {
    hide AtRoot, Occurs, Refs, RootSet;
    if n == 0 {
      RootsAreOccurrences(r, o);
    } else {
      var p :| p in bodies && Chain(bodies, r, p, n - 1) && Occurs(bodies[p], o);
      ChainReaches(bodies, r, p, n - 1);
      RefsAreOccurrences(bodies[p], o);
      var g := GraphOf(bodies);
      assert p in g && o in g[p] && o in Spread(g, Reach(g, RootSet(r), n - 1));
    }
  }

  lemma {:induction false} ReachedByChain(bodies: map<Obj, Body>, r: Roots, o: Obj, n: nat)
    requires o in Reach(GraphOf(bodies), RootSet(r), n)
    ensures Live(bodies, r, o)
    decreases n
  {
    hide AtRoot, Occurs, Refs, RootSet;
    var g := GraphOf(bodies);
    if n == 0 {
      RootsAreOccurrences(r, o);
      assert Chain(bodies, r, o, 0);
    } else if o in Reach(g, RootSet(r), n - 1) {
      ReachedByChain(bodies, r, o, n - 1);
    } else {
      var p :| p in Reach(g, RootSet(r), n - 1) && p in g && o in g[p];
      ReachedByChain(bodies, r, p, n - 1);
      var k: nat :| Chain(bodies, r, p, k);
      RefsAreOccurrences(bodies[p], o);
      assert Chain(bodies, r, o, k + 1);
    }
  }

  /** Reachability in the graph of references is a chain of occurrences. */
  lemma ReachableIsLive(bodies: map<Obj, Body>, r: Roots, o: Obj)
    ensures Reachable(GraphOf(bodies), RootSet(r), o) <==> Live(bodies, r, o)
  {
    hide AtRoot, Occurs, Refs, RootSet, Reach, Chain;
    if Reachable(GraphOf(bodies), RootSet(r), o) {
      var n: nat :| o in Reach(GraphOf(bodies), RootSet(r), n);
      ReachedByChain(bodies, r, o, n);
    }
    if Live(bodies, r, o) {
      var n: nat :| Chain(bodies, r, o, n);
      ChainReaches(bodies, r, o, n);
    }
  }

  const GC_HEAP_GROW_FACTOR := 2

  // sizeof, for 64-bit pointers and boxed values
  const SIZE_POINTER := 8
  const SIZE_VALUE := 8
  const SIZE_ENTRY := 16

  datatype Kind = KArray | KBoundMethod | KClass | KClosure | KFunction | KInstance | KNative | KString | KUpvalue

  function KindOf(b: Body): Kind {
    match b
    case Array(_, _) => KArray
    case BoundMethod(_, _) => KBoundMethod
    case Class(_, _) => KClass
    case Closure(_, _) => KClosure
    case Function(_, _, _) => KFunction
    case Instance(_, _) => KInstance
    case Native => KNative
    case Str => KString
    case Upvalue(_) => KUpvalue
  }

  /** The bytes of the buffers that freeObject gives back with an object. */
  function Owned(b: Body, chars: string): nat {
    match b
    case Array(_, capacity) => SIZE_VALUE * capacity
    case Class(_, methods) => SIZE_ENTRY * |methods|
    case Closure(_, upvalues) => SIZE_POINTER * |upvalues|
    case Function(_, _, buffers) => buffers
    case Instance(_, fields) => SIZE_ENTRY * |fields|
    case Str => |chars| + 1
    case _ => 0
  }

  /** The bytes of an object and its buffers, for structures of the given sizes. */
  function ObjectSize(structSize: Kind -> nat, o: Obj): nat
    reads o`body
  {
    Owned(o.body, o.chars) + structSize(KindOf(o.body))
  }

  /** The bytes of these objects. */
  function Total(structSize: Kind -> nat, objs: seq<Obj>): nat
    reads objs`body
  {
    if objs == [] then 0
    else
      Total(structSize, objs[..|objs| - 1]) + ObjectSize(structSize, objs[|objs| - 1])
  }

  /** The members of `objs` that are in `s`, in their order. */
  function Keep(objs: seq<Obj>, s: set<Obj>): (r: seq<Obj>)
    ensures forall k :: 0 <= k < |r| ==> r[k] in objs && r[k] in s
    ensures forall k :: 0 <= k < |objs| && objs[k] in s ==> objs[k] in r
  {
    if objs == [] then []
    else Keep(objs[..|objs| - 1], s) + if objs[|objs| - 1] in s then [objs[|objs| - 1]] else []
  }

  /** What is kept stays in order. */
  lemma {:induction false} KeepsOrder(objs: seq<Obj>, s: set<Obj>, i: nat, j: nat)
    requires i < j < |objs| && objs[i] in s && objs[j] in s
    ensures InOrder(Keep(objs, s), objs[i], objs[j])
    decreases |objs|
  {
    hide Keep;
    var n := |objs| - 1;
    var kept := Keep(objs[..n], s);
    assert objs[..n + 1] == objs;
    KeepMore(objs, s, n);
    assert objs[..n][i] == objs[i];
    if j < n {
      KeepsOrder(objs[..n], s, i, j);
      var a, b :| 0 <= a < b < |kept| && kept[a] == objs[i] && kept[b] == objs[j];
      assert Keep(objs, s)[a] == objs[i] && Keep(objs, s)[b] == objs[j];
    } else {
      var a :| 0 <= a < |kept| && kept[a] == objs[i];
      assert Keep(objs, s)[a] == objs[i] && Keep(objs, s)[|kept|] == objs[j];
    }
  }

  ghost predicate InOrder(kept: seq<Obj>, o: Obj, p: Obj) {
    exists a, b :: 0 <= a < b < |kept| && kept[a] == o && kept[b] == p
  }

  /** The object after the first i. */
  function At(objs: seq<Obj>, i: nat): Obj? {
    if i < |objs| then objs[i] else null
  }

  ghost function AsSet(g: seq<Obj>): set<Obj> {
    set o | o in g
  }

  /** The white objects of s have been painted: they are white no more and have been put on
      the gray stack, each once. */
  ghost predicate Painted(w: set<Obj>, g: seq<Obj>, s: set<Obj>, w1: set<Obj>, g1: seq<Obj>) {
    w1 == w - s && AsSet(g1) == AsSet(g) + s * w && |g1| + |w1| == |g| + |w|
  }

  lemma NothingPainted(w: set<Obj>, g: seq<Obj>)
    ensures Painted(w, g, {}, w, g)
  {
  }

  /** Painting s and then t is painting both. */
  lemma PaintedBoth(w: set<Obj>, g: seq<Obj>, s: set<Obj>, w1: set<Obj>, g1: seq<Obj>, t: set<Obj>, w2: set<Obj>,
      g2: seq<Obj>)
    requires Painted(w, g, s, w1, g1) && Painted(w1, g1, t, w2, g2)
    ensures Painted(w, g, s + t, w2, g2)
  {
    hide AsSet;
  }

  class Memory {
    const structSize: Kind -> nat
    const stress: bool
    var objects: Obj?
    var strings: Table
    var grayStack: seq<Obj>
    var bytesAllocated: int
    var nextGC: int
    ghost var list: seq<Obj>

    ghost function Nodes(): set<Obj>
      reads this`list
    {
      set o | o in list
    }

    ghost predicate Linked()
      reads this`list, this`objects, list`next
    {
      && objects == At(list, 0)
      && (forall i :: 0 <= i < |list| ==> list[i].next == At(list, i + 1))
      && NoRepeats(list)
    }

    /** No dangling references. */
    ghost predicate Closed()
      reads this`list, list`body
    {
      forall o :: o in list ==> Refs(o.body) <= Nodes()
    }

    ghost function Edges(): Graph
      reads this`list, list`body
    {
      map o | o in list :: Refs(o.body)
    }

    ghost function Bodies(): map<Obj, Body>
      reads this`list, list`body
    {
      map o | o in list :: o.body
    }

    lemma BodiesAreEdges()
      ensures GraphOf(Bodies()) == Edges()
    {
      hide Refs;
    }

    ghost function White(): set<Obj>
      reads this`list, list`isMarked
    {
      set o | o in list && !o.isMarked
    }

    /** Since the state with white set w and gray stack g, exactly the objects of s have
        been painted. */
    ghost predicate Marked(w: set<Obj>, g: seq<Obj>, s: set<Obj>)
      reads this`list, this`grayStack, list`isMarked
    {
      Painted(w, g, s, White(), grayStack)
    }

    constructor (structSize: Kind -> nat, stress: bool)
      ensures this.structSize == structSize && this.stress == stress && list == [] && objects == null && grayStack == []
      ensures fresh(strings) && strings.Valid() && strings.Map() == map[] && fresh(strings.entries)
      ensures bytesAllocated == 0 && nextGC == 1024 * 1024
    {
      this.structSize, this.stress := structSize, stress;
      objects, list, grayStack := null, [], [];
      bytesAllocated, nextGC := 0, 1024 * 1024;
      strings := new Table();
    }

    method MarkObject(o: Obj?)
      requires OfObj(o) <= Nodes()
      modifies this`grayStack, list`isMarked
      ensures Marked(old(White()), old(grayStack), OfObj(o))
    {
      if o == null || o.isMarked {
        return;
      }
      ghost var w := White();
      o.isMarked := true;
      assert White() == w - {o};
      grayStack := grayStack + [o];
    }

    method MarkValue(v: Value)
      requires OfValue(v) <= Nodes()
      modifies this`grayStack, list`isMarked
      ensures Marked(old(White()), old(grayStack), OfValue(v))
    {
      if v.Ref? {
        MarkObject(v.obj);
      }
    }

    method MarkEntry(e: Entry)
      requires OfEntry(e) <= Nodes()
      modifies this`grayStack, list`isMarked
      ensures Marked(old(White()), old(grayStack), OfEntry(e))
    {
      hide White, Painted;
      ghost var w, g := White(), grayStack;
      MarkObject(e.key);
      if e.payload.Val? {
        ghost var w1, g1 := White(), grayStack;
        MarkValue(e.payload.v);
        PaintedBoth(w, g, OfObj(e.key), w1, g1, OfValue(e.payload.v), White(), grayStack);
      } else {
        assert OfEntry(e) == OfObj(e.key);
      }
    }

    /** markValueArray, and the loops of markRoots over temporaries and the stack. */
    method MarkValues(vs: seq<Value>)
      requires OfValues(vs) <= Nodes()
      modifies this`grayStack, list`isMarked
      ensures Marked(old(White()), old(grayStack), OfValues(vs))
    {
      hide White, Painted, Nodes;
      ghost var w, g := White(), grayStack;
      NothingPainted(w, g);
      for i := 0 to |vs|
        invariant Marked(w, g, OfValues(vs[..i]))
      {
        ghost var w1, g1 := White(), grayStack;
        ValuesPrefix(vs, i);
        MarkValue(vs[i]);
        PaintedBoth(w, g, OfValues(vs[..i]), w1, g1, OfValue(vs[i]), White(), grayStack);
      }
      assert vs[..|vs|] == vs;
    }

    /** The loops over frames, open upvalues and the upvalues of a closure. */
    method MarkObjects(os: seq<Obj?>)
      requires OfObjs(os) <= Nodes()
      modifies this`grayStack, list`isMarked
      ensures Marked(old(White()), old(grayStack), OfObjs(os))
    {
      hide White, Painted, Nodes;
      ghost var w, g := White(), grayStack;
      NothingPainted(w, g);
      for i := 0 to |os|
        invariant Marked(w, g, OfObjs(os[..i]))
      {
        ghost var w1, g1 := White(), grayStack;
        ObjsPrefix(os, i);
        MarkObject(os[i]);
        PaintedBoth(w, g, OfObjs(os[..i]), w1, g1, OfObj(os[i]), White(), grayStack);
      }
      assert os[..|os|] == os;
    }

    /** markTable */
    method MarkEntries(es: seq<Entry>)
      requires OfEntries(es) <= Nodes()
      modifies this`grayStack, list`isMarked
      ensures Marked(old(White()), old(grayStack), OfEntries(es))
    {
      hide White, Painted, Nodes;
      ghost var w, g := White(), grayStack;
      NothingPainted(w, g);
      for i := 0 to |es|
        invariant Marked(w, g, OfEntries(es[..i]))
      {
        ghost var w1, g1 := White(), grayStack;
        EntriesPrefix(es, i);
        MarkEntry(es[i]);
        PaintedBoth(w, g, OfEntries(es[..i]), w1, g1, OfEntry(es[i]), White(), grayStack);
      }
      assert es[..|es|] == es;
    }

    method BlackenObject(o: Obj)
      requires o in list && Closed()
      modifies this`grayStack, list`isMarked
      ensures Marked(old(White()), old(grayStack), Refs(o.body))
    {
      hide White, Painted, Nodes, OfValues, OfObjs, OfEntries, OfObj, OfValue;
      ghost var w, g := White(), grayStack;
      NothingPainted(w, g);
      match o.body
      case Array(values, _) =>
        MarkValues(values);
      case BoundMethod(receiver, bound) =>
        MarkValue(receiver);
        ghost var w1, g1 := White(), grayStack;
        MarkObject(bound);
        PaintedBoth(w, g, OfValue(receiver), w1, g1, OfObj(bound), White(), grayStack);
      case Class(name, methods) =>
        MarkObject(name);
        ghost var w1, g1 := White(), grayStack;
        MarkEntries(methods);
        PaintedBoth(w, g, OfObj(name), w1, g1, OfEntries(methods), White(), grayStack);
      case Closure(code, upvalues) =>
        MarkObject(code);
        ghost var w1, g1 := White(), grayStack;
        MarkObjects(upvalues);
        PaintedBoth(w, g, OfObj(code), w1, g1, OfObjs(upvalues), White(), grayStack);
      case Function(name, constants, _) =>
        MarkObject(name);
        ghost var w1, g1 := White(), grayStack;
        MarkValues(constants);
        PaintedBoth(w, g, OfObj(name), w1, g1, OfValues(constants), White(), grayStack);
      case Instance(klass, fields) =>
        MarkObject(klass);
        ghost var w1, g1 := White(), grayStack;
        MarkEntries(fields);
        PaintedBoth(w, g, OfObj(klass), w1, g1, OfEntries(fields), White(), grayStack);
      case Upvalue(closed) =>
        MarkValue(closed);
      case Native =>
      case Str =>
    }

    method MarkCompiler(c: CompilerRoots)
      requires OfCompiler(c) <= Nodes()
      modifies this`grayStack, list`isMarked
      ensures Marked(old(White()), old(grayStack), OfCompiler(c))
    {
      hide White, Painted, OfObj, OfEntries;
      ghost var w, g := White(), grayStack;
      MarkObject(c.fun);
      ghost var w1, g1 := White(), grayStack;
      MarkEntries(c.locals);
      PaintedBoth(w, g, OfObj(c.fun), w1, g1, OfEntries(c.locals), White(), grayStack);
    }

    /** markCompilerRoots, from the innermost function out. */
    method MarkCompilers(cs: seq<CompilerRoots>)
      requires OfCompilers(cs) <= Nodes()
      modifies this`grayStack, list`isMarked
      ensures Marked(old(White()), old(grayStack), OfCompilers(cs))
    {
      hide White, Painted, Nodes, OfCompiler;
      ghost var w, g := White(), grayStack;
      NothingPainted(w, g);
      for i := 0 to |cs|
        invariant Marked(w, g, OfCompilers(cs[..i]))
      {
        ghost var w1, g1 := White(), grayStack;
        CompilersPrefix(cs, i);
        MarkCompiler(cs[i]);
        PaintedBoth(w, g, OfCompilers(cs[..i]), w1, g1, OfCompiler(cs[i]), White(), grayStack);
      }
      assert cs[..|cs|] == cs;
    }

    method MarkRoots(r: Roots)
      requires RootSet(r) <= Nodes()
      modifies this`grayStack, list`isMarked
      ensures Marked(old(White()), old(grayStack), RootSet(r))
    {
      hide White, Painted, Nodes, OfValues, OfObjs, OfEntries, OfObj, OfCompilers;
      ghost var w, g := White(), grayStack;
      MarkValues(r.temps);
      ghost var s := OfValues(r.temps);
      ghost var w1, g1 := White(), grayStack;
      MarkValues(r.stack);
      PaintedBoth(w, g, s, w1, g1, OfValues(r.stack), White(), grayStack);
      s := s + OfValues(r.stack);
      w1, g1 := White(), grayStack;
      MarkObjects(r.frames);
      PaintedBoth(w, g, s, w1, g1, OfObjs(r.frames), White(), grayStack);
      s := s + OfObjs(r.frames);
      w1, g1 := White(), grayStack;
      MarkObjects(r.openUpvalues);
      PaintedBoth(w, g, s, w1, g1, OfObjs(r.openUpvalues), White(), grayStack);
      s := s + OfObjs(r.openUpvalues);
      w1, g1 := White(), grayStack;
      MarkValues(r.globals);
      PaintedBoth(w, g, s, w1, g1, OfValues(r.globals), White(), grayStack);
      s := s + OfValues(r.globals);
      w1, g1 := White(), grayStack;
      MarkEntries(r.globalNames);
      PaintedBoth(w, g, s, w1, g1, OfEntries(r.globalNames), White(), grayStack);
      s := s + OfEntries(r.globalNames);
      w1, g1 := White(), grayStack;
      MarkCompilers(r.compilers);
      PaintedBoth(w, g, s, w1, g1, OfCompilers(r.compilers), White(), grayStack);
      s := s + OfCompilers(r.compilers);
      w1, g1 := White(), grayStack;
      MarkObject(r.initString);
      PaintedBoth(w, g, s, w1, g1, OfObj(r.initString), White(), grayStack);
    }

    ghost predicate TriColour(roots: set<Obj>)
      reads this`list, this`grayStack, list`isMarked, list`body
    {
      Sound(Edges(), roots, Nodes(), White(), AsSet(grayStack))
    }

    /** Each round takes one object off the gray stack, and every object that goes on it
        stops being white, so there are as many rounds as gray and white objects at most. */
    method TraceReferences(ghost roots: set<Obj>)
      requires Closed() && TriColour(roots)
      modifies this`grayStack, list`isMarked
      ensures grayStack == [] && TriColour(roots) && White() <= old(White())
    {
      hide AsSet, Refs, Sound, Reachable, White;
      while |grayStack| > 0
        invariant TriColour(roots) && White() <= old(White())
        decreases |grayStack| + |White()|
      {
        var o := grayStack[|grayStack| - 1];
        TopIsGray(grayStack);
        GrayIsNode(Edges(), roots, Nodes(), White(), AsSet(grayStack), o);
        ghost var w := White();
        grayStack := grayStack[..|grayStack| - 1];
        ghost var g := grayStack;
        BlackenObject(o);
        Blackened(Edges(), roots, Nodes(), w, AsSet(g), o, White(), AsSet(grayStack));
      }
    }

    // ----- sweeping -----

    /** The accounting of reallocate(). Only growth may start a collection, so freeing
        during a collection does not start another one. */
    method Reallocate(oldSize: nat, newSize: nat) returns (grows: bool)
      modifies this`bytesAllocated
      ensures bytesAllocated == old(bytesAllocated) + newSize - oldSize
      ensures grows <==> newSize > oldSize
    {
      bytesAllocated := bytesAllocated + (newSize - oldSize);
      grows := newSize > oldSize;
    }

    method Free(size: nat)
      modifies this`bytesAllocated
      ensures bytesAllocated == old(bytesAllocated) - size
    {
      var grows := Reallocate(size, 0);
      assert !grows;
    }

    method FreeObject(o: Obj)
      modifies this`bytesAllocated
      ensures bytesAllocated == old(bytesAllocated) - ObjectSize(structSize, o)
    {
      match o.body {
        case Array(_, capacity) =>
          Free(SIZE_VALUE * capacity);
          Free(structSize(KArray));
        case Str =>
          Free(|o.chars| + 1);
          Free(structSize(KString));
        case BoundMethod(_, _) => Free(structSize(KBoundMethod));
        case Instance(_, fields) =>
          Free(SIZE_ENTRY * |fields|);
          Free(structSize(KInstance));
        case Class(_, methods) =>
          Free(SIZE_ENTRY * |methods|);
          Free(structSize(KClass));
        case Closure(_, upvalues) =>
          Free(SIZE_POINTER * |upvalues|);
          Free(structSize(KClosure));
        case Function(_, _, buffers) =>
          Free(buffers);
          Free(structSize(KFunction));
        case Native => Free(structSize(KNative));
        case Upvalue(_) => Free(structSize(KUpvalue));
      }
    }

    /** Half way through: the first i objects have been seen and those of them in m kept. */
    ghost predicate Swept(objs: seq<Obj>, m: set<Obj>, i: nat, previous: Obj?)
      requires i <= |objs|
      reads this`objects, objs`next, objs`isMarked
    {
      var kept := Keep(objs[..i], m);
      && objects == (if kept == [] then At(objs, i) else kept[0])
      && previous == (if kept == [] then null else kept[|kept| - 1])
      && (forall j :: 0 <= j < |kept| ==> kept[j] in objs && !kept[j].isMarked)
      && (forall j :: 0 <= j < |kept| - 1 ==> kept[j].next == kept[j + 1])
      && (kept != [] ==> kept[|kept| - 1].next == At(objs, i))
      && (forall j :: i <= j < |objs| ==> objs[j].next == At(objs, j + 1) && (objs[j].isMarked <==> objs[j] in m))
    }

    method KeepOne(ghost objs: seq<Obj>, ghost m: set<Obj>, ghost i: nat, previous: Obj?, node: Obj)
      requires i < |objs| && node == objs[i] && NoRepeats(objs) && Swept(objs, m, i, previous)
      requires node.isMarked
      modifies node`isMarked
      ensures Swept(objs, m, i + 1, node) && node in m
    {
      KeepMore(objs, m, i);
      KeptEarlier(objs, m, i);
      node.isMarked := false;
    }

    method UnlinkOne(ghost objs: seq<Obj>, ghost m: set<Obj>, ghost i: nat, previous: Obj?, node: Obj)
        returns (next: Obj?)
      requires i < |objs| && node == objs[i] && NoRepeats(objs) && Swept(objs, m, i, previous)
      requires !node.isMarked
      modifies this`objects, this`bytesAllocated, objs`next
      ensures Swept(objs, m, i + 1, previous) && node !in m && next == At(objs, i + 1)
      ensures bytesAllocated == old(bytesAllocated) - ObjectSize(structSize, node)
    {
      hide Keep, Total;
      KeepMore(objs, m, i);
      KeptEarlier(objs, m, i);
      next := node.next;
      if previous != null {
        previous.next := next;
      } else {
        objects := next;
      }
      FreeObject(node);
    }

    /** The bytes given back for the first i objects, if those in m are kept. */
    ghost function Freed(objs: seq<Obj>, m: set<Obj>, i: nat): int
      requires i <= |objs|
      reads objs`body
    {
      if i == 0 then 0 else Freed(objs, m, i - 1) + if objs[i - 1] in m then 0 else ObjectSize(structSize, objs[i - 1])
    }

    /** Unlinks the white objects in place and clears the marks of the others. */
    method Unlink(ghost objs: seq<Obj>, ghost m: set<Obj>) returns (ghost previous: Obj?)
      requires NoRepeats(objs) && Swept(objs, m, 0, null)
      modifies this`objects, this`bytesAllocated, objs`next, objs`isMarked
      ensures Swept(objs, m, |objs|, previous)
      ensures bytesAllocated == old(bytesAllocated) - Freed(objs, m, |objs|)
    {
      hide Swept, ObjectSize;
      var prev: Obj? := null;
      var node := objects;
      ghost var i := 0;
      SweepAt(objs, m, 0, null);
      while node != null
        invariant i <= |objs| && node == At(objs, i)
        invariant Swept(objs, m, i, prev)
        invariant bytesAllocated == old(bytesAllocated) - Freed(objs, m, i)
        decreases |objs| - i
      {
        MarksRemain(objs, m, i, prev);
        if node.isMarked {
          KeepOne(objs, m, i, prev, node);
          prev := node;
          node := node.next;
          SweepAt(objs, m, i + 1, prev);
        } else {
          node := UnlinkOne(objs, m, i, prev, node);
        }
        i := i + 1;
      }
      previous := prev;
    }

    method Sweep()
      requires Linked()
      modifies this`objects, this`list, this`bytesAllocated, list`next, list`isMarked
      ensures Linked() && list == Keep(old(list), old(Nodes() - White()))
      ensures White() == Nodes()
      ensures Spare() == old(Spare())
    {
      hide Swept, Freed, Keep, Total, Linked, White, Nodes, NoRepeats;
      ghost var objs, m := list, Nodes() - White();
      SweepStarts(objs, m);
      WholeFreed(objs, m);
      ghost var previous := Unlink(objs, m);
      list := Keep(objs, m);
      SweepEnds(objs, m, previous);
    }

    lemma {:induction false} FreedIsRest(objs: seq<Obj>, m: set<Obj>, i: nat)
      requires i <= |objs|
      ensures Freed(objs, m, i) == Total(structSize, objs[..i]) - Total(structSize, Keep(objs[..i], m))
      decreases i
    {
      hide ObjectSize, Keep, Total;
      if i == 0 {
        NothingKept(objs[..0], m);
      } else {
        FreedIsRest(objs, m, i - 1);
        FreedMore(objs, m, i - 1);
      }
    }

    lemma NothingKept(objs: seq<Obj>, m: set<Obj>)
      requires objs == []
      ensures Total(structSize, objs) == 0 && Keep(objs, m) == []
    {
    }

    /** One object more counts on one side or the other. */
    lemma FreedMore(objs: seq<Obj>, m: set<Obj>, i: nat)
      requires i < |objs|
      ensures Total(structSize, objs[..i + 1]) - Total(structSize, Keep(objs[..i + 1], m))
        == Total(structSize, objs[..i]) - Total(structSize, Keep(objs[..i], m))
          + if objs[i] in m then 0 else ObjectSize(structSize, objs[i])
    {
      hide ObjectSize, Keep, Total;
      var o := objs[i];
      KeepMore(objs, m, i);
      assert objs[..i + 1] == objs[..i] + [o];
      TotalMore(structSize, objs[..i], o);
      if o in m {
        TotalMore(structSize, Keep(objs[..i], m), o);
      } else {
        assert Keep(objs[..i], m) + [] == Keep(objs[..i], m);
      }
    }

    lemma WholeFreed(objs: seq<Obj>, m: set<Obj>)
      ensures Freed(objs, m, |objs|) == Total(structSize, objs) - Total(structSize, Keep(objs, m))
    {
      hide Freed, ObjectSize, Keep, Total;
      assert objs[..|objs|] == objs;
      FreedIsRest(objs, m, |objs|);
    }

    lemma SweepStarts(objs: seq<Obj>, m: set<Obj>)
      requires Linked() && objs == list && m == Nodes() - White()
      ensures NoRepeats(objs) && Swept(objs, m, 0, null)
    {
    }

    /** Where the loop is: at the object after the last one that it kept. */
    lemma SweepAt(objs: seq<Obj>, m: set<Obj>, i: nat, previous: Obj?)
      requires i <= |objs| && Swept(objs, m, i, previous)
      ensures i == 0 ==> objects == At(objs, 0)
      ensures i > 0 && previous == objs[i - 1] ==> previous.next == At(objs, i)
    {
    }

    lemma MarksRemain(objs: seq<Obj>, m: set<Obj>, i: nat, previous: Obj?)
      requires i < |objs| && Swept(objs, m, i, previous)
      ensures objs[i].isMarked <==> objs[i] in m
    {
    }

    lemma SweepEnds(objs: seq<Obj>, m: set<Obj>, previous: Obj?)
      requires NoRepeats(objs) && Swept(objs, m, |objs|, previous) && list == Keep(objs, m)
      ensures Linked() && White() == Nodes()
    {
      assert objs[..|objs|] == objs;
      KeptEarlier(objs, m, |objs|);
    }

    // ----- collections -----

    /** Between collections: a linked list of unmarked objects without dangling references,
        of which the interned strings are some. */
    ghost predicate Valid()
      reads this, list, strings, strings.entries
    {
      && Linked() && Closed() && White() == Nodes() && grayStack == []
      && strings.Valid() && strings.Map().Keys <= Nodes()
      && Spare() >= 0
    }

    /** Marks exactly the objects that can be reached from the roots. */
    method Mark(r: Roots) returns (ghost alive: set<Obj>)
      requires Closed() && White() == Nodes() && grayStack == [] && RootSet(r) <= Nodes()
      modifies this`grayStack, list`isMarked
      ensures grayStack == [] && alive == Nodes() - White()
      ensures forall o :: o in list ==> (o in alive <==> Reachable(Edges(), RootSet(r), o))
      ensures RootSet(r) <= alive && forall o :: o in alive ==> Refs(o.body) <= alive
    {
      hide Reachable, RootSet, Refs, White, Marked, TriColour, Edges, Closed;
      ghost var roots := RootSet(r);
      MarkRoots(r);
      RootsTriColour(roots);
      TraceReferences(roots);
      alive := Nodes() - White();
      MarkedExactly(roots);
    }

    /** Painting the roots starts the invariant, ... */
    lemma RootsTriColour(roots: set<Obj>)
      requires roots <= Nodes() && Marked(Nodes(), [], roots)
      ensures TriColour(roots) && roots !! White()
    {
      hide White, Sound, AsSet;
      RootsSound(Edges(), roots, Nodes(), White(), grayStack);
    }

    /** ... and when nothing is gray any more, it says what is marked. */
    lemma MarkedExactly(roots: set<Obj>)
      requires Closed() && TriColour(roots) && grayStack == [] && roots <= Nodes() && roots !! White()
      ensures forall o :: o in list ==> (o in Nodes() - White() <==> Reachable(Edges(), roots, o))
      ensures roots <= Nodes() - White() && forall o :: o in Nodes() - White() ==> Refs(o.body) <= Nodes() - White()
    {
      hide Reachable, Refs, White, Sound, AsSet;
      AllBlack(Edges(), roots, Nodes(), White(), grayStack, Nodes() - White());
    }

    /** Keeps exactly the objects that can be reached from the roots, in their order. */
    method CollectGarbage(r: Roots) returns (ghost alive: set<Obj>)
      requires Valid() && RootSet(r) <= Nodes()
      modifies this`objects, this`list, this`grayStack, this`bytesAllocated, this`nextGC
      modifies list`next, list`isMarked, strings.entries
      ensures Valid() && RootSet(r) <= Nodes()
      ensures forall o :: o in old(list) ==> (o in alive <==> Reachable(old(Edges()), RootSet(r), o))
      ensures list == Keep(old(list), alive) && alive == Nodes()
      ensures forall o :: o in old(list) ==> (o in list <==> Live(old(Bodies()), r, o))
      ensures forall o :: AtRoot(r, o) ==> o in list
      ensures forall o, p :: o in list && Occurs(o.body, p) ==> p in list
      ensures strings.Map() == map k | k in old(strings.Map()) && k in alive :: old(strings.Map())[k]
      ensures Spare() == old(Spare())
      ensures nextGC == bytesAllocated * GC_HEAP_GROW_FACTOR
    {
      hide Reachable, RootSet, Keep, Refs, Total, Linked, White, Probing.Contents, Live, AtRoot, Occurs, Bodies;
      ghost var edges := Edges();
      LiveObjects(r);
      alive := MarkAndForget(r);
      assert Edges() == edges;
      KeptNodes(list, alive);
      Sweep();
      nextGC := bytesAllocated * GC_HEAP_GROW_FACTOR;
      NothingLost(r);
    }

    lemma LiveObjects(r: Roots)
      ensures forall o :: o in list ==> (Reachable(Edges(), RootSet(r), o) <==> Live(Bodies(), r, o))
    {
      hide Reachable, RootSet, Refs, Live, Bodies;
      BodiesAreEdges();
      forall o | o in list
        ensures Reachable(Edges(), RootSet(r), o) <==> Live(Bodies(), r, o)
      {
        ReachableIsLive(Bodies(), r, o);
      }
    }

    lemma NothingLost(r: Roots)
      requires Closed() && RootSet(r) <= Nodes()
      ensures forall o :: AtRoot(r, o) ==> o in list
      ensures forall o, p :: o in list && Occurs(o.body, p) ==> p in list
    {
      hide RootSet, Refs, AtRoot, Occurs;
      forall o | AtRoot(r, o)
        ensures o in list
      {
        RootsAreOccurrences(r, o);
      }
      forall o, p | o in list && Occurs(o.body, p)
        ensures p in list
      {
        RefsAreOccurrences(o.body, p);
      }
    }

    /** Up to the point where only the object list still has the dead objects. */
    method MarkAndForget(r: Roots) returns (ghost alive: set<Obj>)
      requires Valid() && RootSet(r) <= Nodes()
      modifies this`grayStack, list`isMarked, strings.entries
      ensures Linked() && grayStack == [] && alive == Nodes() - White()
      ensures forall o :: o in list ==> (o in alive <==> Reachable(Edges(), RootSet(r), o))
      ensures RootSet(r) <= alive && forall o :: o in alive ==> Refs(o.body) <= alive
      ensures strings.Valid() && strings.Map() == map k | k in old(strings.Map()) && k in alive :: old(strings.Map())[k]
    {
      hide Reachable, RootSet, Refs, Total, NoRepeats, Allowed;
      hide Probing.Contents, Probing.Used, Probing.Distinct, Probing.Reachable;
      ghost var before, edges := strings.Map(), Edges();
      alive := Mark(r);
      assert Edges() == edges;
      strings.RemoveWhite();
      assert Edges() == edges;
      WhitesOut(before, alive);
    }

    // ----- allocation -----

    /** Nothing that the roots reach is lost, and the intern table forgets what is. */
    twostate predicate Survived(r: Roots)
      reads this, list, strings, strings.entries
    {
      && Valid() && old(Valid()) && strings == old(strings) && RootSet(r) <= Nodes()
      && (forall o :: o in list ==> o in old(list))
      && Preserves(old(Edges()), RootSet(r), Edges())
      && strings.Map() == map k | k in old(strings.Map()) && k in list :: old(strings.Map())[k]
    }

    /** What reallocate() does when memory has grown. */
    method CollectIfDue(r: Roots)
      requires Valid() && RootSet(r) <= Nodes()
      modifies this`objects, this`list, this`grayStack, this`bytesAllocated, this`nextGC
      modifies list`next, list`isMarked, strings.entries
      ensures Survived(r) && Spare() == old(Spare())
    {
      hide Reachable, RootSet, Keep, Refs, Total, Linked, White, Probing.Contents, Live, AtRoot, Occurs,
          Bodies, Closed, Allowed, Probing.Used, Probing.Distinct, Probing.Reachable;
      if stress {
        var _ := CollectGarbage(r);
      }
      if bytesAllocated > nextGC {
        var _ := CollectGarbage(r);
      }
    }

    /** ALLOCATE: the collector may run before the new memory is used. */
    method Grow(size: nat, r: Roots)
      requires Valid() && RootSet(r) <= Nodes()
      modifies this`objects, this`list, this`grayStack, this`bytesAllocated, this`nextGC
      modifies list`next, list`isMarked, strings.entries
      ensures Survived(r)
      ensures Spare() == old(Spare()) + size
    {
      hide Reachable, RootSet, Keep, Refs, Total, Linked, White, Probing.Contents;
      var grows := Reallocate(0, size);
      if grows {
        CollectIfDue(r);
      }
    }

    /** allocateObject: what the object owns has been allocated before. */
    method AllocateObject(body: Body, chars: string, hash: Word, r: Roots) returns (o: Obj)
      requires Valid() && RootSet(r) <= Nodes() && Refs(body) <= RootSet(r)
      requires Spare() >= Owned(body, chars)
      modifies this`objects, this`list, this`grayStack, this`bytesAllocated, this`nextGC
      modifies list`next, list`isMarked, strings.entries
      ensures Valid() && RootSet(r) <= Nodes() && strings == old(strings)
      ensures fresh(o) && o.body == body && o.chars == chars && o.hash == hash
      ensures list != [] && list[0] == o && forall x :: x in list ==> x == o || x in old(list)
      ensures Preserves(old(Edges()), RootSet(r), Edges())
      ensures strings.Map() == map k | k in old(strings.Map()) && k in list :: old(strings.Map())[k]
      ensures Spare() == old(Spare()) - Owned(body, chars)
    {
      hide Reachable, Keep, Refs, RootSet, Linked, Closed, Total, Owned, Spare, White, Probing.Contents;
      Grow(structSize(KindOf(body)), r);
      o := LinkObject(body, chars, hash);
    }

    method LinkObject(body: Body, chars: string, hash: Word) returns (o: Obj)
      requires Valid() && Refs(body) <= Nodes()
      requires Spare() >= Owned(body, chars) + structSize(KindOf(body))
      modifies this`objects, this`list
      ensures Valid() && fresh(o) && o.body == body && o.chars == chars && o.hash == hash
      ensures list == [o] + old(list)
      ensures Spare() == old(Spare()) - (Owned(body, chars) + structSize(KindOf(body)))
    {
      hide Refs, Total, Owned, Probing.Contents, Probing.Used, Probing.Distinct, Probing.Reachable, Allowed;
      ghost var rest := list;
      assert forall x :: x in rest ==> x in White();
      o := new Obj(body, chars, hash, objects);
      objects := o;
      list := [o] + rest;
      TotalFront(structSize, o, rest);
      assert forall i :: 0 < i < |list| ==> list[i] == rest[i - 1];
    }

    /** The bytes that belong to no object on the list. */
    ghost function Spare(): int
      reads this`bytesAllocated, this`list, list`body
    {
      bytesAllocated - Total(structSize, list)
    }
  }

  lemma {:induction false} TotalFront(structSize: Kind -> nat, o: Obj, objs: seq<Obj>)
    ensures Total(structSize, [o] + objs) == ObjectSize(structSize, o) + Total(structSize, objs)
    decreases |objs|
  {
    if objs == [] {
      assert [o] + objs == [] + [o];
      TotalMore(structSize, [], o);
    } else {
      var n := |objs| - 1;
      TotalFront(structSize, o, objs[..n]);
      assert [o] + objs == [o] + objs[..n] + [objs[n]];
      TotalMore(structSize, [o] + objs[..n], objs[n]);
    }
  }

  lemma WhitesOut(m: map<Obj, Payload>, alive: set<Obj>)
    requires forall o :: o in m ==> (o.isMarked <==> o in alive)
    ensures (map o | o in m && o.isMarked :: m[o]) == map o | o in m && o in alive :: m[o]
  {
  }

  lemma KeptNodes(objs: seq<Obj>, s: set<Obj>)
    requires forall o :: o in s ==> o in objs
    ensures (set o | o in Keep(objs, s)) == s
  {
  }

  lemma RootsSound(g: Graph, roots: set<Obj>, nodes: set<Obj>, white: set<Obj>, gray: seq<Obj>)
    requires roots <= nodes && Painted(nodes, [], roots, white, gray)
    ensures Sound(g, roots, nodes, white, AsSet(gray))
  {
    hide Reachable;
    forall o | o in roots
      ensures Reachable(g, roots, o)
    {
      RootReachable(g, roots, o);
    }
  }

  /** When nothing is gray, the marked objects are the reachable ones. */
  lemma AllBlack(g: Graph, roots: set<Obj>, nodes: set<Obj>, white: set<Obj>, gray: seq<Obj>, alive: set<Obj>)
    requires Sound(g, roots, nodes, white, AsSet(gray)) && gray == [] && roots !! white && roots <= nodes
        && alive == nodes - white
    requires g.Keys == nodes && forall o :: o in nodes ==> g[o] <= nodes
    ensures forall o :: o in alive <==> Reachable(g, roots, o)
    ensures roots <= alive && forall o :: o in alive ==> g[o] <= alive
  {
    hide Reachable;
    ReachableExactly(g, roots, alive);
  }

  ghost predicate NoRepeats(objs: seq<Obj>) {
    forall i, j :: 0 <= i < j < |objs| ==> objs[i] != objs[j]
  }

  lemma {:induction false} KeptEarlier(objs: seq<Obj>, s: set<Obj>, i: nat)
    requires NoRepeats(objs) && i <= |objs|
    ensures NoRepeats(Keep(objs[..i], s))
    ensures forall j :: i <= j < |objs| ==> objs[j] !in Keep(objs[..i], s)
    decreases i
  {
    hide Keep;
    if i > 0 {
      KeptEarlier(objs, s, i - 1);
      KeepMore(objs, s, i - 1);
    }
  }

  lemma TotalMore(structSize: Kind -> nat, objs: seq<Obj>, o: Obj)
    ensures Total(structSize, objs + [o]) == Total(structSize, objs) + ObjectSize(structSize, o)
  {
    assert (objs + [o])[..|objs|] == objs;
  }

  /** The members of `objs` in `s` grow with the prefix of `objs` that is looked at. */
  lemma KeepMore(objs: seq<Obj>, s: set<Obj>, i: nat)
    requires i < |objs|
    ensures Keep(objs[..i + 1], s) == Keep(objs[..i], s) + if objs[i] in s then [objs[i]] else []
  {
    assert objs[..i + 1][..i] == objs[..i];
  }

  /** The tri-colour invariant: gray objects are marked, what is marked can be reached, and
      no black object refers to a white one. */
  ghost predicate Sound(g: Graph, roots: set<Obj>, nodes: set<Obj>, white: set<Obj>, gray: set<Obj>) {
    && white <= nodes && gray <= nodes - white
    && (forall o :: o in nodes - white ==> Reachable(g, roots, o))
    && (forall o :: o in nodes - white - gray && o in g ==> g[o] !! white)
  }

  lemma GrayIsNode(g: Graph, roots: set<Obj>, nodes: set<Obj>, white: set<Obj>, gray: set<Obj>, o: Obj)
    requires Sound(g, roots, nodes, white, gray) && o in gray
    ensures o in nodes
  {
  }

  /** Marking the successors of a gray object makes it black. */
  lemma Blackened(g: Graph, roots: set<Obj>, nodes: set<Obj>, white: set<Obj>, gray: set<Obj>, o: Obj,
      white1: set<Obj>, gray1: set<Obj>)
    requires Sound(g, roots, nodes, white, gray + {o}) && o in g && g[o] <= nodes
    requires white1 == white - g[o] && gray1 == gray + g[o] * white
    ensures Sound(g, roots, nodes, white1, gray1)
  {
    hide Reachable;
    forall p | p in nodes - white1
      ensures Reachable(g, roots, p)
    {
      if p in white {
        NextReachable(g, roots, o, p);
      }
    }
  }

  lemma {:induction false} CompilersPrefix(cs: seq<CompilerRoots>, i: nat)
    requires i < |cs|
    ensures OfCompilers(cs[..i + 1]) == OfCompilers(cs[..i]) + OfCompiler(cs[i]) && OfCompiler(cs[i]) <= OfCompilers(cs)
    decreases |cs|
  {
    hide OfCompiler;
    var n := |cs| - 1;
    assert cs[..i + 1][..i] == cs[..i];
    if i == n {
      assert cs[..i + 1] == cs;
    } else {
      CompilersPrefix(cs[..n], i);
    }
  }

  lemma TopIsGray(g: seq<Obj>)
    requires g != []
    ensures g[|g| - 1] in AsSet(g) && AsSet(g) == AsSet(g[..|g| - 1]) + {g[|g| - 1]}
  {
  }

  /** A prefix, with one element more, refers to no more than the whole. */
  lemma {:induction false} ValuesPrefix(vs: seq<Value>, i: nat)
    requires i < |vs|
    ensures OfValues(vs[..i + 1]) == OfValues(vs[..i]) + OfValue(vs[i]) && OfValue(vs[i]) <= OfValues(vs)
    decreases |vs|
  {
    var n := |vs| - 1;
    assert vs[..i + 1][..i] == vs[..i];
    if i == n {
      assert vs[..i + 1] == vs;
    } else {
      ValuesPrefix(vs[..n], i);
    }
  }

  lemma {:induction false} ObjsPrefix(os: seq<Obj?>, i: nat)
    requires i < |os|
    ensures OfObjs(os[..i + 1]) == OfObjs(os[..i]) + OfObj(os[i]) && OfObj(os[i]) <= OfObjs(os)
    decreases |os|
  {
    var n := |os| - 1;
    assert os[..i + 1][..i] == os[..i];
    if i == n {
      assert os[..i + 1] == os;
    } else {
      ObjsPrefix(os[..n], i);
    }
  }

  lemma {:induction false} EntriesPrefix(es: seq<Entry>, i: nat)
    requires i < |es|
    ensures OfEntries(es[..i + 1]) == OfEntries(es[..i]) + OfEntry(es[i]) && OfEntry(es[i]) <= OfEntries(es)
    decreases |es|
  {
    var n := |es| - 1;
    assert es[..i + 1][..i] == es[..i];
    if i == n {
      assert es[..i + 1] == es;
    } else {
      EntriesPrefix(es[..n], i);
    }
  }
}
