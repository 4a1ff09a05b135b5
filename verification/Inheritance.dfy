/** Classes inherit by copying (OP_INHERIT and OP_METHOD in src/vm.c): a lookup in one table
    instead of a walk along the superclasses. */
module Inheritance {
  import opened Heap
  import V = Values
  import opened Tables
  import Probing

  type Methods = map<Obj, Payload>

  /** A class as it was declared. */
  datatype Declared = Root(own: Methods) | Sub(super: Declared, own: Methods)

  /** The nearest definition, from the class up. */
  function Walk(d: Declared, name: Obj): V.Option<Payload> {
    if name in d.own then V.Some(d.own[name])
    else if d.Sub? then Walk(d.super, name)
    else V.None
  }

  /** All methods in one table, where a class overrides its superclass. */
  function Flat(d: Declared): Methods {
    match d
    case Root(own) => own
    case Sub(super, own) => Flat(super) + own
  }

  /** Lookup in the flattened table is the walk along the superclasses. */
  lemma {:induction false} FlatIsWalk(d: Declared, name: Obj)
    ensures Walk(d, name) == if name in Flat(d) then V.Some(Flat(d)[name]) else V.None
    decreases d
  {
    if d.Sub? {
      FlatIsWalk(d.super, name);
    }
  }

  datatype Definition = Definition(name: Obj, body: Payload)

  /** The methods of a class body: a later one of the same name replaces an earlier one. */
  function Body(defs: seq<Definition>): Methods {
    if defs == [] then map[]
    else Body(defs[..|defs| - 1])[defs[|defs| - 1].name := defs[|defs| - 1].body]
  }

  /** The method of a name is its last definition in the class body. */
  lemma {:induction false} LastDefinition(defs: seq<Definition>, i: nat)
    requires i < |defs| && forall j :: i < j < |defs| ==> defs[j].name != defs[i].name
    ensures defs[i].name in Body(defs) && Body(defs)[defs[i].name] == defs[i].body
    decreases |defs|
  {
    if i < |defs| - 1 {
      LastDefinition(defs[..|defs| - 1], i);
    }
  }

  lemma {:induction false} OnlyDefined(defs: seq<Definition>, name: Obj)
    requires name in Body(defs)
    ensures exists i :: 0 <= i < |defs| && defs[i].name == name
    decreases |defs|
  {
    if defs[|defs| - 1].name != name {
      OnlyDefined(defs[..|defs| - 1], name);
    }
  }

  class Class {
    const methods: Table
    ghost var declared: Declared

    ghost predicate Valid()
      reads this, methods, methods.entries
    {
      methods.Valid() && methods.Map() == Flat(declared)
    }

    /** OP_CLASS */
    constructor ()
      ensures Valid() && fresh(methods) && fresh(methods.entries) && declared == Root(map[])
    {
      methods := new Table();
      declared := Root(map[]);
    }

    /** OP_INHERIT, on a class that has no methods yet */
    method Inherit(super: Class)
      requires Valid() && super.Valid() && super != this && super.methods != methods
      requires super.methods.entries != methods.entries && declared == Root(map[])
      modifies this, methods, methods.entries
      ensures Valid() && declared == Sub(super.declared, map[]) && super.Valid()
          && super.declared == old(super.declared)
      ensures methods.entries == old(methods.entries) || fresh(methods.entries)
    {
      hide Probing.Contents, Probing.Distinct, Probing.Reachable, Probing.Used, Allowed;
      Table.AddAll(super.methods, methods);
      declared := Sub(super.declared, map[]);
      assert map[] + super.methods.Map() == super.methods.Map() + map[];
    }

    /** OP_METHOD */
    method DefineMethod(d: Definition)
      requires Valid()
      modifies this, methods, methods.entries
      ensures Valid() && declared == old(declared).(own := old(declared).own[d.name := d.body])
      ensures methods.entries == old(methods.entries) || fresh(methods.entries)
    {
      hide Probing.Contents, Probing.Distinct, Probing.Reachable, Probing.Used, Allowed;
      var _ := methods.Set(d.name, d.body);
      declared := declared.(own := declared.own[d.name := d.body]);
    }

    /** The lookup of bindMethod and invokeFromClass. */
    method FindMethod(name: Obj) returns (m: V.Option<Payload>)
      requires Valid()
      ensures m == Walk(declared, name)
    {
      hide Probing.Contents, Probing.Distinct, Probing.Reachable, Probing.Used, Allowed;
      FlatIsWalk(declared, name);
      var found, payload := methods.Get(name);
      m := if found then V.Some(payload) else V.None;
    }
  }

  /** A class declaration: its superclass if it has one, then its methods in order. */
  method DeclareClass(super: Class?, defs: seq<Definition>) returns (c: Class)
    requires super != null ==> super.Valid()
    ensures c.Valid() && fresh(c) && fresh(c.methods) && fresh(c.methods.entries)
    ensures c.declared == if super == null then Root(Body(defs)) else Sub(super.declared, Body(defs))
    ensures super != null ==> super.Valid() && super.declared == old(super.declared)
  {
    hide Probing.Contents, Probing.Distinct, Probing.Reachable, Probing.Used, Allowed, Flat;
    c := new Class();
    if super != null {
      c.Inherit(super);
    }
    for i := 0 to |defs|
      invariant c.Valid() && fresh(c) && fresh(c.methods) && fresh(c.methods.entries)
      invariant super != null ==> super.Valid() && super.declared == old(super.declared)
      invariant c.declared == if super == null then Root(Body(defs[..i])) else Sub(super.declared, Body(defs[..i]))
    {
      assert defs[..i + 1][..i] == defs[..i];
      c.DefineMethod(defs[i]);
    }
    assert defs[..|defs|] == defs;
  }
}
