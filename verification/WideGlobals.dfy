/** What the one-byte operand of OP_SET_GLOBAL_LONG does to whole scripts: the script
    `x = true;` or `x = false;`, where x is a global with a high address. */
module WideGlobals {
  import opened Values
  import opened Syntax
  import opened Bytecode
  import opened Codegen
  import opened Machine
  import opened ExprCorrect
  import opened Script
  import Parser
  import StackSafety
  import I = Interpreter

  function Assignment(x: Name, b: bool): Stmts {
    Cons(ExprStmt(Assign(x, BoolLit(b))), Empty)
  }

  function AssignmentTokens(x: Name, b: bool): seq<Token> {
    [TIdentifier(x), TEqual, if b then TTrue else TFalse, TSemicolon]
  }

  function AssignmentBytes(addr: nat, b: bool): seq<Byte> {
    EmitPlain(if b then PushTrue else PushFalse) + EmitAddress(SetGlobal, addr) + EmitPlain(Pop)
    + (EmitPlain(PushNil) + EmitPlain(Return))
  }

  /** x is an assignable global, its address is `addr`, and the machine's globals are those of
      the world. */
  ghost predicate Setup(x: Name, globals: seq<Global>, vals: seq<Option<Value>>, w: I.World, addr: nat) {
    && OneAddress(globals) && addr < |globals| && globals[addr] == Global(x, false)
    && SameGlobals(Names(globals), vals, w.globals) && w.scopes == []
  }

  function CompiledTarget(fp: Arith, globals: seq<Global>, addr: nat, b: bool): Target {
    Target(fp, Chunk(AssignmentBytes(addr, b), []), Names(globals))
  }

  lemma AssignmentParses(x: Name, b: bool)
    ensures Parser.Program(AssignmentTokens(x, b)) == Some(Assignment(x, b))
  {
    var value := if b then TTrue else TFalse;
    assert Spell(BoolLit(b), [TSemicolon]) == [value, TSemicolon];
    assert Spell(Assign(x, BoolLit(b)), [TSemicolon]) == AssignmentTokens(x, b);
    assert SpellStmt(ExprStmt(Assign(x, BoolLit(b))), []) == AssignmentTokens(x, b) by {
      assert [TSemicolon] + [] == [TSemicolon];
    }
    assert SpellStmts(Assignment(x, b), []) == AssignmentTokens(x, b);
    assert WellFormed(BoolLit(b)) && WellFormedStmt(ExprStmt(Assign(x, BoolLit(b))), true);
    assert WellFormedStmts(Assignment(x, b));
    Parser.ProgramComplete(Assignment(x, b));
  }

  lemma AssignmentGenerates(x: Name, b: bool, globals: seq<Global>, addr: nat)
    requires OneAddress(globals) && addr < |globals| && globals[addr] == Global(x, false)
    ensures GenExpr(Assign(x, BoolLit(b)), ScriptScope(globals)) ==
      Code(EmitPlain(if b then PushTrue else PushFalse) + EmitAddress(SetGlobal, addr),
        ScriptScope(globals).(narrowed := addr > 255))
  {
    hide EmitPlain, EmitAddress;
    var sc := ScriptScope(globals);
    AssignUnfolds(x, BoolLit(b), sc);
    assert ResolveLocal(sc.locals, x).None?;
    assert FindGlobal(globals, x) == Some(addr);
  }

  /** The script compiles, and its operand is narrowed if the address takes the long form. */
  lemma AssignmentCompiles(x: Name, b: bool, globals: seq<Global>, addr: nat)
    requires OneAddress(globals) && addr < |globals| && globals[addr] == Global(x, false)
    ensures Compiled(AssignmentTokens(x, b), globals) ==
      Code(AssignmentBytes(addr, b), ScriptScope(globals).(narrowed := addr > 255))
  {
    hide EmitPlain, EmitAddress, GenExpr, Parser.Program, Settled, AssignmentTokens;
    AssignmentParses(x, b);
    AssignmentGenerates(x, b, globals, addr);
    ScriptScopeSettled(globals);
    var s := ExprStmt(Assign(x, BoolLit(b)));
    var sc := ScriptScope(globals);
    assert GenStmt(s, sc).Code?;
    assert GenStmts(Empty, GenStmt(s, sc).scope) == Code([], GenStmt(s, sc).scope);
    assert GenStmts(Cons(s, Empty), sc) == Code(GenStmt(s, sc).bytes + [], GenStmt(s, sc).scope);
  }

  lemma ScriptScopeSettled(globals: seq<Global>)
    ensures Settled(ScriptScope(globals))
  {
  }

  // ----- the machine -----

  /** The global that the machine assigns. */
  function Assigned(addr: nat): nat {
    AddressRead(SetGlobal, addr)
  }

  lemma BytesPlaced(addr: nat, b: bool)
    ensures var code := AssignmentBytes(addr, b);
      var k := 1 + |EmitAddress(SetGlobal, addr)|;
      && CodeAt(code, 0, EmitPlain(if b then PushTrue else PushFalse)) && CodeAt(code, 1, EmitAddress(SetGlobal, addr))
      && CodeAt(code, k, EmitPlain(Pop)) && CodeAt(code, k + 1, EmitPlain(PushNil))
      && CodeAt(code, k + 2, EmitPlain(Return)) && |code| == k + 3
  {
    hide EmitPlain, EmitAddress, CodeAt;
    var code := AssignmentBytes(addr, b);
    var push := EmitPlain(if b then PushTrue else PushFalse);
    var store := EmitAddress(SetGlobal, addr);
    var end := EmitPlain(PushNil) + EmitPlain(Return);
    WholeCode(code);
    CodeAtSplit(code, 0, push + store + EmitPlain(Pop), end);
    CodeAtSplit(code, 0, push + store, EmitPlain(Pop));
    CodeAtSplit(code, 0, push, store);
    CodeAtSplit(code, |push + store + EmitPlain(Pop)|, EmitPlain(PushNil), EmitPlain(Return));
  }

  /** The machine up to and with the assignment. */
  lemma Assigns(fp: Arith, globals: seq<Global>, vals: seq<Option<Value>>, output: seq<Value>, addr: nat, b: bool)
    ensures var t := CompiledTarget(fp, globals, addr, b);
      var st := RunFor(fp, t.chunk, Running(StartOf(vals, output)), 2);
      var a := Assigned(addr);
      if a < |vals| && vals[a].Some? then
        st == Running(Vm(1 + |EmitAddress(SetGlobal, addr)|,
          [ScriptClosure, Bool(b)], vals[a := Some(Bool(b))], output))
      else st.Crashed? && st.vm.globals == vals && st.vm.output == output
  {
    hide EmitPlain, EmitAddress, CodeAt, RunFor, AssignmentBytes;
    BytesPlaced(addr, b);
    var t := CompiledTarget(fp, globals, addr, b);
    var vm := StartOf(vals, output);
    StepPlain(fp, t.chunk, vm, if b then PushTrue else PushFalse);
    var vm1 := vm.(pc := 1, stack := [ScriptClosure, Bool(b)]);
    Then(t, vm, 1, vm1, 1);
    StepAddress(fp, t.chunk, vm1, SetGlobal, addr);
  }

  lemma MachineEnds(fp: Arith, globals: seq<Global>, vals: seq<Option<Value>>, output: seq<Value>, addr: nat, b: bool)
    requires Assigned(addr) < |vals| && vals[Assigned(addr)].Some?
    ensures var t := CompiledTarget(fp, globals, addr, b);
      RunFor(fp, t.chunk, Running(StartOf(vals, output)), 5)
        == Halted(Vm(|t.chunk.code|, [], vals[Assigned(addr) := Some(Bool(b))], output))
  {
    hide EmitPlain, EmitAddress, CodeAt, RunFor, AssignmentBytes;
    BytesPlaced(addr, b);
    Assigns(fp, globals, vals, output, addr, b);
    var t := CompiledTarget(fp, globals, addr, b);
    var vm := StartOf(vals, output);
    var k := 1 + |EmitAddress(SetGlobal, addr)|;
    var vm2 := Vm(k, [ScriptClosure, Bool(b)], vals[Assigned(addr) := Some(Bool(b))], output);
    StepPlain(fp, t.chunk, vm2, Pop);
    var vm3 := vm2.(pc := k + 1, stack := [ScriptClosure]);
    Then(t, vm, 2, vm2, 1);
    StepPlain(fp, t.chunk, vm3, PushNil);
    var vm4 := vm3.(pc := k + 2, stack := [ScriptClosure, Nil]);
    Then(t, vm, 3, vm3, 1);
    StepPlain(fp, t.chunk, vm4, Return);
    Then(t, vm, 4, vm4, 1);
  }

  /** A run ends in one way only. */
  lemma EndsOnce(t: Target, vm: Vm, k: nat)
    requires !RunFor(t.fp, t.chunk, Running(vm), k).Running?
    ensures var st := RunFor(t.fp, t.chunk, Running(vm), k);
      && (forall vm1 :: Halts(t, vm, vm1) <==> st == Halted(vm1))
      && (forall vm1 :: Crashes(t, vm, vm1) <==> st == Crashed(vm1))
  {
    hide RunFor, Step;
    forall j: nat | !RunFor(t.fp, t.chunk, Running(vm), j).Running?
      ensures RunFor(t.fp, t.chunk, Running(vm), j) == RunFor(t.fp, t.chunk, Running(vm), k)
    {
      if j <= k {
        FinishedStays(t.fp, t.chunk, Running(vm), j, k);
      } else {
        FinishedStays(t.fp, t.chunk, Running(vm), k, j);
      }
    }
  }

  // ----- the program -----

  lemma ProgramRuns(fp: Arith, x: Name, b: bool, w: I.World, fuel: nat)
    requires w.scopes == []
    ensures I.ExecuteAll(fp, Assignment(x, b), w, fuel) ==
      if x in w.globals then I.Done(w.(globals := w.globals[x := Bool(b)])) else I.Error(w)
  {
    assert I.Eval(fp, BoolLit(b), w) == I.Value(Bool(b), w);
    assert I.ScopeOf(w.scopes, x).None?;
  }

  lemma ProgramEnds(fp: Arith, x: Name, b: bool, w: I.World)
    requires w.scopes == []
    ensures forall w1 :: Ends(fp, Assignment(x, b), w, w1) <==>
      x in w.globals && w1 == w.(globals := w.globals[x := Bool(b)])
    ensures forall w1 :: Fails(fp, Assignment(x, b), w, w1) <==> x !in w.globals && w1 == w
  {
    hide I.ExecuteAll;
    forall fuel
      ensures I.ExecuteAll(fp, Assignment(x, b), w, fuel) ==
        if x in w.globals then I.Done(w.(globals := w.globals[x := Bool(b)])) else I.Error(w)
    {
      ProgramRuns(fp, x, b, w, fuel);
    }
    assert I.ExecuteAll(fp, Assignment(x, b), w, 0) == I.ExecuteAll(fp, Assignment(x, b), w, 0);
  }

  // ----- when the two agree -----

  /** The machine ends with these globals, having printed nothing. */
  ghost predicate EndsWith(t: Target, start: Vm, env: I.Env) {
    exists vm1 :: Halts(t, start, vm1) && vm1.output == start.output && SameGlobals(t.names, vm1.globals, env)
  }

  ghost predicate FailsWith(t: Target, start: Vm, env: I.Env) {
    exists vm1 :: Crashes(t, start, vm1) && vm1.output == start.output && SameGlobals(t.names, vm1.globals, env)
  }

  /** With a high address, the assignment of x leaves x alone: it assigns the global at the low
      byte of the address, or fails if there is none. */
  lemma WideAssignmentStrays(fp: Arith, x: Name, b: bool, globals: seq<Global>, vals: seq<Option<Value>>, w: I.World,
      addr: nat)
    requires Setup(x, globals, vals, w, addr) && addr > 255
    ensures var g := Compiled(AssignmentTokens(x, b), globals);
      && g.Code? && g.scope.narrowed && globals[addr % 256].name != x
      && var y := globals[addr % 256].name;
      var t, start := TargetOf(fp, g), StartOf(vals, w.output);
      if y in w.globals then EndsWith(t, start, w.globals[y := Bool(b)]) else FailsWith(t, start, w.globals)
  {
    hide AssignmentBytes, AssignmentTokens, RunFor, Compiled;
    AssignmentCompiles(x, b, globals, addr);
    var t := CompiledTarget(fp, globals, addr, b);
    var start := StartOf(vals, w.output);
    if globals[addr % 256].name in w.globals {
      MachineEnds(fp, globals, vals, w.output, addr, b);
      GlobalWritten(t.names, vals, w.globals, addr % 256, Bool(b));
      assert Halts(t, start, Vm(|t.chunk.code|, [], vals[addr % 256 := Some(Bool(b))], w.output));
    } else {
      Assigns(fp, globals, vals, w.output, addr, b);
      assert Crashes(t, start, RunFor(fp, t.chunk, Running(start), 2).vm);
    }
  }

  /** The meaning that the main theorem promises for this script. */
  ghost predicate MeansAssignment(fp: Arith, x: Name, b: bool, globals: seq<Global>, vals: seq<Option<Value>>,
      w: I.World)
    requires Compiled(AssignmentTokens(x, b), globals).Code?
  {
    Means(TargetOf(fp, Compiled(AssignmentTokens(x, b), globals)), StartOf(vals, w.output), Assignment(x, b), w)
  }

  /** It is kept, for both values, exactly when the address fits one byte, or there is no global
      to be found at either address. */
  lemma WideAssignmentExact(fp: Arith, x: Name, globals: seq<Global>, vals: seq<Option<Value>>, w: I.World, addr: nat)
    requires Setup(x, globals, vals, w, addr) && SymmetricEq(fp)
    ensures forall b :: Compiled(AssignmentTokens(x, b), globals).Code?
    ensures (forall b :: MeansAssignment(fp, x, b, globals, vals, w)) <==>
      addr <= 255 || (x !in w.globals && globals[addr % 256].name !in w.globals)
  {
    hide AssignmentBytes, AssignmentTokens, Compiled, Means, SameGlobals;
    forall b
      ensures Compiled(AssignmentTokens(x, b), globals).Code?
    {
      AssignmentCompiles(x, b, globals, addr);
    }
    if addr <= 255 {
      forall b
        ensures MeansAssignment(fp, x, b, globals, vals, w)
      {
        AssignmentCompiles(x, b, globals, addr);
        AssignmentParses(x, b);
        CompilerCorrect(fp, AssignmentTokens(x, b), globals, vals, w);
      }
    } else if x !in w.globals && globals[addr % 256].name !in w.globals {
      forall b
        ensures MeansAssignment(fp, x, b, globals, vals, w)
      {
        BothFail(fp, x, b, globals, vals, w, addr);
      }
    } else {
      var b := w.globals != w.globals[x := Bool(true)];
      WrongMeaning(fp, x, b, globals, vals, w, addr);
    }
  }

  lemma BothFail(fp: Arith, x: Name, b: bool, globals: seq<Global>, vals: seq<Option<Value>>, w: I.World, addr: nat)
    requires Setup(x, globals, vals, w, addr) && addr > 255
    requires x !in w.globals && globals[addr % 256].name !in w.globals
    ensures Compiled(AssignmentTokens(x, b), globals).Code? && MeansAssignment(fp, x, b, globals, vals, w)
  {
    hide AssignmentBytes, AssignmentTokens, Compiled, RunFor;
    AssignmentCompiles(x, b, globals, addr);
    var t := CompiledTarget(fp, globals, addr, b);
    var start := StartOf(vals, w.output);
    Assigns(fp, globals, vals, w.output, addr, b);
    EndsOnce(t, start, 2);
    ProgramEnds(fp, x, b, w);
    var vm1 := RunFor(fp, t.chunk, Running(start), 2).vm;
    assert Crashes(t, start, vm1) && SameEffects(t, vm1, w);
    forall k
      ensures !RunFor(fp, t.chunk, Running(start), k).Stuck?
    {
      StackSafety.NeverStuck(fp, AssignmentTokens(x, b), globals, vals, w.output, k);
    }
  }

  /** A value that x does not have makes the difference visible. */
  lemma WrongMeaning(fp: Arith, x: Name, b: bool, globals: seq<Global>, vals: seq<Option<Value>>, w: I.World, addr: nat)
    requires Setup(x, globals, vals, w, addr) && addr > 255
    requires x in w.globals || globals[addr % 256].name in w.globals
    requires x in w.globals ==> w.globals[x] != Bool(b)
    ensures Compiled(AssignmentTokens(x, b), globals).Code? && !MeansAssignment(fp, x, b, globals, vals, w)
  {
    hide AssignmentBytes, AssignmentTokens, Compiled, RunFor;
    AssignmentCompiles(x, b, globals, addr);
    var t := CompiledTarget(fp, globals, addr, b);
    var start := StartOf(vals, w.output);
    var a := addr % 256;
    ProgramEnds(fp, x, b, w);
    if globals[a].name in w.globals {
      MachineEnds(fp, globals, vals, w.output, addr, b);
      var vm1 := Vm(|t.chunk.code|, [], vals[a := Some(Bool(b))], w.output);
      assert Halts(t, start, vm1);
      assert x in w.globals ==> vm1.globals[addr].value != Bool(b);
    } else {
      Assigns(fp, globals, vals, w.output, addr, b);
      assert Crashes(t, start, RunFor(fp, t.chunk, Running(start), 2).vm);
    }
  }

  // ----- a concrete table -----

  function Letters(n: nat): (r: Name)
    requires n > 0
    ensures |r| == n
  {
    var s := seq(n, _ => 'a');
    assert s[0] == 'a';
    s
  }

  /** Globals named a, aa, aaa, ... */
  function Lettered(n: nat): (r: seq<Global>)
    ensures |r| == n && OneAddress(r) && forall i :: 0 <= i < n ==> r[i] == Global(Letters(i + 1), false)
  {
    seq(n, i requires 0 <= i < n => Global(Letters(i + 1), false))
  }

  function AllNil(globals: seq<Global>): (r: I.Env)
    ensures forall i :: 0 <= i < |globals| ==> globals[i].name in r
    ensures forall x :: x in r ==> r[x] == Nil && Named(Names(globals), x)
  {
    if globals == [] then map[]
    else
      var n := |globals| - 1;
      var r := AllNil(globals[..n]);
      MoreNames(globals);
      assert Names(globals)[n] == globals[n].name;
      r[globals[n].name := Nil]
  }

  lemma MoreNames(globals: seq<Global>)
    requires globals != []
    ensures forall x :: Named(Names(globals[..|globals| - 1]), x) ==> Named(Names(globals), x)
  {
    forall x | Named(Names(globals[..|globals| - 1]), x)
      ensures Named(Names(globals), x)
    {
      var i :| 0 <= i < |globals| - 1 && Names(globals[..|globals| - 1])[i] == x;
      assert Names(globals)[i] == x;
    }
  }

  /** With the globals a, aa, aaa, ..., up to 257 letters, all nil, the assignment of the last one
      assigns the first: the main theorem is false of a script with a narrowed operand. */
  lemma MainTheoremNeedsWidth(fp: Arith)
    ensures var globals, vals := Lettered(257), seq(257, _ => Some(Nil));
      var w := I.World(AllNil(globals), [], []);
      var g := Compiled(AssignmentTokens(Letters(257), true), globals);
      && g.Code? && SameGlobals(Names(globals), vals, w.globals)
      && EndsWith(TargetOf(fp, g), StartOf(vals, []), w.globals[Letters(1) := Bool(true)])
      && !MeansAssignment(fp, Letters(257), true, globals, vals, w)
  {
    hide Compiled, AssignmentTokens, EndsWith, Means, AllNil, Letters;
    var globals, vals := Lettered(257), seq(257, _ => Some(Nil));
    var w := I.World(AllNil(globals), [], []);
    assert globals[256] == Global(Letters(257), false) && globals[0] == Global(Letters(1), false);
    assert Setup(Letters(257), globals, vals, w, 256);
    WideAssignmentStrays(fp, Letters(257), true, globals, vals, w, 256);
    WrongMeaning(fp, Letters(257), true, globals, vals, w, 256);
  }
}
