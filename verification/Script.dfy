/** Main theorem: a compiled script behaves as the tree interpreter says. */
module Script {
  import opened Values
  import opened Syntax
  import opened Bytecode
  import opened Codegen
  import opened Machine
  import opened ExprCorrect
  import opened StmtCorrect
  import Parser
  import I = Interpreter

  /** compile(): NULL, or the script's bytes and the tables it leaves. */
  function Compiled(ts: seq<Token>, globals: seq<Global>): Gen {
    match Parser.Program(ts)
    case None => Rejected
    case Some(ss) => GenScript(ss, globals)
  }

  function Names(globals: seq<Global>): (r: seq<string>)
    ensures |r| == |globals| && forall i :: 0 <= i < |globals| ==> r[i] == globals[i].name
  {
    seq(|globals|, i requires 0 <= i < |globals| => globals[i].name)
  }

  function TargetOf(fp: Arith, g: Gen): Target
    requires g.Code?
  {
    Target(fp, Chunk(g.bytes, g.scope.constants), Names(g.scope.globals))
  }

  /** The machine as interpret() sets it up to run a script. */
  function StartOf(globals: seq<Option<Value>>, output: seq<Value>): Vm {
    Vm(0, [ScriptClosure], globals, output)
  }

  /** A finished machine and a finished world with the same effects. */
  ghost predicate SameEffects(t: Target, vm: Vm, w: I.World) {
    SameGlobals(t.names, vm.globals, w.globals) && vm.output == w.output
  }

  /** A script that may be run: accepted, nothing narrowed, started in a state where the
      machine's globals are those of the world. */
  ghost predicate Launch(fp: Arith, ss: Stmts, globals: seq<Global>, vals: seq<Option<Value>>, w: I.World) {
    && SymmetricEq(fp) && WellFormedStmts(ss) && OneAddress(globals) && w.scopes == []
    && var g := GenScript(ss, globals);
    && g.Code? && !g.scope.narrowed && SameGlobals(Names(g.scope.globals), vals, w.globals)
  }

  /** For any amount of fuel the machine does what the interpreter does. */
  lemma ScriptRuns(fp: Arith, ss: Stmts, globals: seq<Global>, vals: seq<Option<Value>>, w: I.World, fuel: nat)
      returns (k: nat, vm1: Vm)
    requires Launch(fp, ss, globals, vals, w)
    ensures var t := TargetOf(fp, GenScript(ss, globals));
      var st := RunFor(fp, t.chunk, Running(StartOf(vals, w.output)), k);
      match I.ExecuteAll(fp, ss, w, fuel)
      case Done(w1) => st == Halted(vm1) && vm1.stack == [] && SameEffects(t, vm1, w1)
      case Error(w1) => st == Crashed(vm1) && SameEffects(t, vm1, w1)
      case OutOfFuel => st == Running(vm1) && k >= fuel
  {
    hide RunFor, AtRest, CodeAt, SameGlobals, SymmetricEq, GenStmts, Grows, Keeps, EmitPlain, ExecPlain;
    var t := TargetOf(fp, GenScript(ss, globals));
    var sc := ScriptScope(globals);
    var g := GenStmts(ss, sc);
    var vm := StartOf(vals, w.output);
    ScriptStarts(t, globals, vals, w);
    ScriptReady(t, ss, globals);
    k, vm1 := StmtsRun(t, ss, sc, vm, w, fuel);
    var r := I.ExecuteAll(fp, ss, w, fuel);
    if r.Done? {
      RestIsSettled(t, g.scope, vm1, r.w);
      NoLocalsLeft(sc, g.scope);
      StepPlain(fp, t.chunk, vm1, PushNil);
      Then(t, vm, k, vm1, 1);
      var vm2 := vm1.(pc := vm1.pc + 1, stack := vm1.stack + [Nil]);
      PushesNil(fp, vm1);
      StepPlain(fp, t.chunk, vm2, Return);
      Then(t, vm, k + 1, vm2, 1);
      Returns(fp, vm2);
      k, vm1 := k + 2, vm2.(pc := vm2.pc + 1, stack := []);
    }
  }

  lemma PushesNil(fp: Arith, vm: Vm)
    ensures ExecPlain(fp, PushNil, vm.pc + 1, vm) == Running(vm.(pc := vm.pc + 1, stack := vm.stack + [Nil]))
  {
  }

  lemma Returns(fp: Arith, vm: Vm)
    requires |vm.stack| == 2
    ensures ExecPlain(fp, Return, vm.pc + 1, vm) == Halted(vm.(pc := vm.pc + 1, stack := []))
  {
  }

  lemma ScriptStarts(t: Target, globals: seq<Global>, vals: seq<Option<Value>>, w: I.World)
    requires SameGlobals(t.names, vals, w.globals) && w.scopes == []
    ensures AtRest(t, ScriptScope(globals), StartOf(vals, w.output), w)
  {
    hide SameGlobals;
  }

  lemma ScriptReady(t: Target, ss: Stmts, globals: seq<Global>)
    requires GenScript(ss, globals).Code? && t == TargetOf(t.fp, GenScript(ss, globals)) && OneAddress(globals)
    requires !GenScript(ss, globals).scope.narrowed && SymmetricEq(t.fp)
    ensures var g := GenStmts(ss, ScriptScope(globals));
      && Ready(t, g, 0) && CodeAt(t.chunk.code, |g.bytes|, EmitPlain(PushNil))
      && CodeAt(t.chunk.code, |g.bytes| + 1, EmitPlain(Return))
  {
    hide CodeAt, GenStmts, SymmetricEq, EmitPlain;
    var g := GenStmts(ss, ScriptScope(globals));
    WholeCode(t.chunk.code);
    CodeAtSplit(t.chunk.code, 0, g.bytes, EmitPlain(PushNil) + EmitPlain(Return));
    CodeAtSplit(t.chunk.code, |g.bytes|, EmitPlain(PushNil), EmitPlain(Return));
  }

  lemma WholeCode(code: seq<Byte>)
    ensures CodeAt(code, 0, code)
  {
  }

  lemma NoLocalsLeft(sc: Scope, sc1: Scope)
    requires sc.depth == 0 && |sc.locals| == 1 && After(sc, sc1)
    ensures |sc1.locals| == 1
  {
    var last := sc1.locals[|sc1.locals| - 1];
    assert last.depth <= 0;
  }

  // ----- the theorem over whole runs -----

  ghost predicate Halts(t: Target, vm: Vm, vm1: Vm) {
    exists k :: RunFor(t.fp, t.chunk, Running(vm), k) == Halted(vm1)
  }

  ghost predicate Crashes(t: Target, vm: Vm, vm1: Vm) {
    exists k :: RunFor(t.fp, t.chunk, Running(vm), k) == Crashed(vm1)
  }

  ghost predicate Ends(fp: Arith, ss: Stmts, w: I.World, w1: I.World) {
    exists fuel :: I.ExecuteAll(fp, ss, w, fuel) == I.Done(w1)
  }

  ghost predicate Fails(fp: Arith, ss: Stmts, w: I.World, w1: I.World) {
    exists fuel :: I.ExecuteAll(fp, ss, w, fuel) == I.Error(w1)
  }

  /** A run that stops after k steps stops as the interpreter does. */
  lemma StopsAsMeant(fp: Arith, ss: Stmts, globals: seq<Global>, vals: seq<Option<Value>>, w: I.World, k: nat)
      returns (fuel: nat)
    requires Launch(fp, ss, globals, vals, w)
    ensures var t := TargetOf(fp, GenScript(ss, globals));
      match RunFor(fp, t.chunk, Running(StartOf(vals, w.output)), k)
      case Running(_) => true
      case Stuck => false
      case Halted(vm1) => vm1.stack == [] &&
        var r := I.ExecuteAll(fp, ss, w, fuel); r.Done? && SameEffects(t, vm1, r.w)
      case Crashed(vm1) =>
        var r := I.ExecuteAll(fp, ss, w, fuel); r.Error? && SameEffects(t, vm1, r.w)
  {
    hide RunFor, Step, SameGlobals, GenScript, SymmetricEq, WellFormedStmts, OneAddress;
    var t := TargetOf(fp, GenScript(ss, globals));
    var start := Running(StartOf(vals, w.output));
    fuel := k + 1;
    var j, vm1 := ScriptRuns(fp, ss, globals, vals, w, fuel);
    if !RunFor(fp, t.chunk, start, k).Running? {
      if j > k {
        FinishedStays(fp, t.chunk, start, k, j);
      } else if !RunFor(fp, t.chunk, start, j).Running? {
        FinishedStays(fp, t.chunk, start, j, k);
      }
    }
  }

  /** The machine halts (crashes) exactly when the program ends (fails), with the same output
      and globals and an empty stack, and it never does anything undefined. So it runs forever
      exactly when the program does. */
  ghost predicate Means(t: Target, start: Vm, ss: Stmts, w: I.World) {
    && (forall k :: !RunFor(t.fp, t.chunk, Running(start), k).Stuck?)
    && (forall vm1 :: Halts(t, start, vm1) ==>
          vm1.stack == [] && exists w1 :: Ends(t.fp, ss, w, w1) && SameEffects(t, vm1, w1))
    && (forall w1 :: Ends(t.fp, ss, w, w1) ==> exists vm1 :: Halts(t, start, vm1) && SameEffects(t, vm1, w1))
    && (forall vm1 :: Crashes(t, start, vm1) ==> exists w1 :: Fails(t.fp, ss, w, w1) && SameEffects(t, vm1, w1))
    && (forall w1 :: Fails(t.fp, ss, w, w1) ==> exists vm1 :: Crashes(t, start, vm1) && SameEffects(t, vm1, w1))
  }

  /** Main theorem. For every token string that compiles with no operand narrowed, the token
      string is that of a program, and running the bytes has the program's meaning. */
  lemma CompilerCorrect(fp: Arith, ts: seq<Token>, globals: seq<Global>, vals: seq<Option<Value>>, w: I.World)
    requires var g := Compiled(ts, globals);
      && g.Code? && !g.scope.narrowed && SymmetricEq(fp) && OneAddress(globals)
      && SameGlobals(Names(g.scope.globals), vals, w.globals) && w.scopes == []
    ensures Parser.Program(ts).Some?
    ensures var ss := Parser.Program(ts).value;
      && ts == SpellStmts(ss, []) && WellFormedStmts(ss)
      && Means(TargetOf(fp, Compiled(ts, globals)), StartOf(vals, w.output), ss, w)
  {
    hide RunFor, Step, SameGlobals, GenScript, SymmetricEq, WellFormedStmts, OneAddress, SameEffects;
    Parser.ProgramSound(ts);
    var ss := Parser.Program(ts).value;
    var t := TargetOf(fp, Compiled(ts, globals));
    var start := StartOf(vals, w.output);
    forall k
      ensures !RunFor(fp, t.chunk, Running(start), k).Stuck?
    {
      var _ := StopsAsMeant(fp, ss, globals, vals, w, k);
    }
    forall vm1 | Halts(t, start, vm1)
      ensures vm1.stack == [] && exists w1 :: Ends(fp, ss, w, w1) && SameEffects(t, vm1, w1)
    {
      var k :| RunFor(t.fp, t.chunk, Running(start), k) == Halted(vm1);
      var fuel := StopsAsMeant(fp, ss, globals, vals, w, k);
      assert Ends(fp, ss, w, I.ExecuteAll(fp, ss, w, fuel).w);
    }
    forall vm1 | Crashes(t, start, vm1)
      ensures exists w1 :: Fails(fp, ss, w, w1) && SameEffects(t, vm1, w1)
    {
      var k :| RunFor(t.fp, t.chunk, Running(start), k) == Crashed(vm1);
      var fuel := StopsAsMeant(fp, ss, globals, vals, w, k);
      assert Fails(fp, ss, w, I.ExecuteAll(fp, ss, w, fuel).w);
    }
    forall w1 | Ends(fp, ss, w, w1)
      ensures exists vm1 :: Halts(t, start, vm1) && SameEffects(t, vm1, w1)
    {
      var fuel :| I.ExecuteAll(fp, ss, w, fuel) == I.Done(w1);
      var k, vm1 := ScriptRuns(fp, ss, globals, vals, w, fuel);
      assert Halts(t, start, vm1);
    }
    forall w1 | Fails(fp, ss, w, w1)
      ensures exists vm1 :: Crashes(t, start, vm1) && SameEffects(t, vm1, w1)
    {
      var fuel :| I.ExecuteAll(fp, ss, w, fuel) == I.Error(w1);
      var k, vm1 := ScriptRuns(fp, ss, globals, vals, w, fuel);
      assert Crashes(t, start, vm1);
    }
  }
}
