/** The address table of src/util/addresstable.c: names to addresses, where a name may
    shadow an earlier one. A hash table finds the latest address of a name; each entry keeps
    the address that it shadows. */
module AddressTable {
  import opened Heap
  import opened Values
  import opened Tables
  import Probing
  import Codegen

  datatype Var = Var(depth: int, identifier: Obj, readonly: bool, shadowAddr: int, isCaptured: bool)

  /** Searching from the top for a name. */
  function Latest(vars: seq<Var>, name: Obj): (r: Option<nat>)
    ensures r.Some? ==> r.value < |vars| && vars[r.value].identifier == name
    ensures r.Some? ==> forall i :: r.value < i < |vars| ==> vars[i].identifier != name
    ensures r.None? ==> forall i :: 0 <= i < |vars| ==> vars[i].identifier != name
  {
    if vars == [] then None
    else if vars[|vars| - 1].identifier == name then Some(|vars| - 1)
    else Latest(vars[..|vars| - 1], name)
  }

  /** The hash table says what the search says. */
  ghost predicate Indexes(m: map<Obj, Payload>, vars: seq<Var>) {
    && |vars| < 0x8000_0000
    && (forall x :: x in m ==> Latest(vars, x).Some? && m[x] == Addr(Latest(vars, x).value))
    && (forall i :: 0 <= i < |vars| ==> vars[i].identifier in m)
  }

  /** Every entry has the address that its name had before it, or -1. */
  ghost predicate Chained(vars: seq<Var>) {
    forall i :: 0 <= i < |vars| ==> vars[i].shadowAddr == Shadowed(vars[..i], vars[i].identifier)
  }

  class AddressTable {
    var addresses: Table
    var vars: seq<Var>

    ghost predicate Valid()
      reads this, addresses, addresses.entries
    {
      addresses.Valid() && Indexes(addresses.Map(), vars)
    }

    constructor ()
      ensures Valid() && vars == [] && fresh(addresses) && fresh(addresses.entries)
    {
      addresses := new Table();
      vars := [];
    }

    method GetAddress(name: Obj) returns (r: Option<Word>)
      requires Valid()
      ensures r == Latest(vars, name)
    {
      hide Probing.Contents, Probing.Distinct, Probing.Reachable, Probing.Used, Allowed;
      var found, payload := addresses.Get(name);
      r := if found && payload.Addr? then Some(payload.n) else None;
    }

    /** Returns the address of the new entry, but for a name that shadows another the address
        of that one. */
    method Add(name: Obj, props: Var) returns (addr: nat)
      requires Valid() && |vars| < 0x7FFF_FFFF && props.identifier == name
      modifies this`vars, addresses, addresses.entries
      ensures Valid() && (addresses.entries == old(addresses.entries) || fresh(addresses.entries))
      ensures match old(Latest(vars, name))
        case Some(shadowed) => addr == shadowed && vars == old(vars) + [props.(shadowAddr := shadowed)]
        case None => addr == |old(vars)| && vars == old(vars) + [props]
      ensures old(Chained(vars)) && props.shadowAddr == -1 ==> Chained(vars)
    {
      hide Probing.Contents, Probing.Distinct, Probing.Reachable, Probing.Used, Allowed, Indexes, Chained;
      ghost var before, names := vars, addresses.Map();
      SizeBound(names, vars);
      var shadowed := GetAddress(name);
      var _ := addresses.Set(name, Addr(|vars|));
      if shadowed.Some? {
        addr := shadowed.value;
        vars := vars + [props.(shadowAddr := addr)];
      } else {
        addr := |vars|;
        vars := vars + [props];
      }
      Added(names, before, vars[|before|]);
    }

    /** Takes back the last entry, and with it everything that it hid. */
    method Pop()
      requires Valid() && vars != [] && Chained(vars)
      modifies this`vars, addresses, addresses.entries
      ensures Valid() && (addresses.entries == old(addresses.entries) || fresh(addresses.entries))
      ensures vars == old(vars)[..|old(vars)| - 1] && Chained(vars)
    {
      hide Probing.Contents, Probing.Distinct, Probing.Reachable, Probing.Used, Allowed, Indexes, Chained;
      ghost var names := addresses.Map();
      SizeBound(names, vars);
      ghost var front := vars[..|vars| - 1];
      ChainedFront(vars);
      assert vars == front + [vars[|vars| - 1]];
      Removed(names, front, vars[|vars| - 1]);
      var local := vars[|vars| - 1];
      if local.shadowAddr != -1 {
        var _ := addresses.Set(local.identifier, Addr(local.shadowAddr));
      } else {
        var _ := addresses.Delete(local.identifier);
      }
      vars := vars[..|vars| - 1];
    }
  }

  /** The address that a name hides when it is added. */
  function Shadowed(vars: seq<Var>, name: Obj): int {
    match Latest(vars, name)
    case Some(j) => j
    case None => -1
  }

  lemma Added(m: map<Obj, Payload>, vars: seq<Var>, v: Var)
    requires Indexes(m, vars) && |vars| < 0x7FFF_FFFF
    ensures Indexes(m[v.identifier := Addr(|vars|)], vars + [v])
    ensures Chained(vars) && v.shadowAddr == Shadowed(vars, v.identifier) ==> Chained(vars + [v])
  {
    assert (vars + [v])[..|vars|] == vars;
    assert forall i :: 0 <= i <= |vars| ==> (vars + [v])[..i] == vars[..i];
  }

  lemma Removed(m: map<Obj, Payload>, front: seq<Var>, v: Var)
    requires Indexes(m, front + [v]) && v.shadowAddr == Shadowed(front, v.identifier)
    ensures v.shadowAddr == -1 ==> Indexes(m - {v.identifier}, front)
    ensures v.shadowAddr >= 0 ==> Indexes(m[v.identifier := Addr(v.shadowAddr)], front)
  {
    assert (front + [v])[..|front|] == front;
    assert forall i :: 0 <= i < |front| ==> (front + [v])[i] == front[i];
  }

  lemma SizeBound(m: map<Obj, Payload>, vars: seq<Var>)
    requires Indexes(m, vars)
    ensures |vars| < 0x8000_0000
  {
  }

  lemma ChainedFront(vars: seq<Var>)
    requires Chained(vars) && vars != []
    ensures var n := |vars| - 1; Chained(vars[..n]) && vars[n].shadowAddr == Shadowed(vars[..n], vars[n].identifier)
  {
    var n := |vars| - 1;
    forall i | 0 <= i < n
      ensures vars[..n][i].shadowAddr == Shadowed(vars[..n][..i], vars[..n][i].identifier)
    {
      assert vars[..n][..i] == vars[..i];
    }
  }

  // ----- the compiler's locals -----

  /** The table holds these locals of a compiler. */
  ghost predicate Holds(vars: seq<Var>, locals: seq<Codegen.Local>) {
    && |vars| == |locals|
    && forall i :: 0 <= i < |vars| ==> vars[i].identifier.chars == locals[i].name && vars[i].depth == locals[i].depth
  }

  /** With interned names, the compiler's search by content is the search by reference. */
  lemma {:induction false} SearchAgrees(vars: seq<Var>, locals: seq<Codegen.Local>, x: Obj)
    requires Holds(vars, locals)
    requires forall i :: 0 <= i < |vars| && vars[i].identifier.chars == x.chars ==> vars[i].identifier == x
    ensures Codegen.ResolveLocal(locals, x.chars) == Latest(vars, x)
    decreases |vars|
  {
    if vars != [] {
      var n := |vars| - 1;
      SearchAgrees(vars[..n], locals[..n], x);
    }
  }

  /** The loop of endScope over the table: what is left is what outlives the scope, and from
      the last local down there is an instruction for each that is not: OP_CLOSE_UPVALUE
      (true) for a captured one, else OP_POP. */
  method EndScope(t: AddressTable, scopeDepth: nat, ghost locals: seq<Codegen.Local>) returns (closes: seq<bool>)
    requires t.Valid() && Chained(t.vars) && Holds(t.vars, locals)
    modifies t`vars, t.addresses, t.addresses.entries
    ensures t.Valid() && Chained(t.vars) && t.vars <= old(t.vars)
    ensures Holds(t.vars, Codegen.Outer(locals, scopeDepth))
    ensures |closes| == |old(t.vars)| - |t.vars|
    ensures forall i :: 0 <= i < |closes| ==> closes[i] == old(t.vars)[|old(t.vars)| - 1 - i].isCaptured
  {
    hide Probing.Contents, Probing.Distinct, Probing.Reachable, Probing.Used, Allowed, Indexes, Chained, Codegen.Outer;
    ghost var left := locals;
    Codegen.OuterStep(left, scopeDepth);
    closes := [];
    while t.vars != [] && t.vars[|t.vars| - 1].depth > scopeDepth
      invariant t.Valid() && Chained(t.vars) && t.vars <= old(t.vars)
      invariant t.addresses.entries == old(t.addresses.entries) || fresh(t.addresses.entries)
      invariant Holds(t.vars, left) && Codegen.Outer(left, scopeDepth) == Codegen.Outer(locals, scopeDepth)
      invariant |closes| == |old(t.vars)| - |t.vars|
      invariant forall i :: 0 <= i < |closes| ==> closes[i] == old(t.vars)[|old(t.vars)| - 1 - i].isCaptured
      decreases |t.vars|
    {
      Codegen.OuterStep(left, scopeDepth);
      var local := t.vars[|t.vars| - 1];
      t.Pop();
      closes := closes + [local.isCaptured];
      left := left[..|left| - 1];
    }
    Codegen.OuterStep(left, scopeDepth);
  }
}
