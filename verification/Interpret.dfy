/** interpret() of src/vm.c: compile, then run. */
module Interpret {
  import opened Values
  import opened Syntax
  import opened Codegen
  import opened ExprCorrect
  import opened Script
  import M = Machine
  import P = Parser
  import I = Interpreter
  import C = Compiler
  import D = Dispatch
  import StackSafety

  /** Unfinished: the instruction budget was used up. */
  datatype Result = CompileError | Ok | RuntimeError | Unfinished

  function ChunkOf(g: Gen): M.Chunk
    requires g.Code?
  {
    M.Chunk(g.bytes, g.scope.constants)
  }

  /** What the theorem about compiled code asks for: no operand is narrowed, and the machine's
      globals are those of the world. */
  ghost predicate Mirrors(fp: Arith, g: Gen, globals: seq<Global>, vals: seq<Option<Value>>, w: I.World)
    requires g.Code?
  {
    && !g.scope.narrowed && SymmetricEq(fp) && OneAddress(globals)
    && SameGlobals(Names(g.scope.globals), vals, w.globals) && w.scopes == [] && w.output == []
  }

  /** What a run of interpret() means for the program that was passed in. The stack has room
      for the heights in the compiled code, which StackSafety.CodeSizeIsRoom bounds. */
  method Interpret(fp: Arith, tokens: seq<Token>, globals: seq<Global>, vals: seq<Option<Value>>,
      limit: nat, size: nat, ghost w: I.World)
      returns (r: Result, output: seq<Value>, vals1: seq<Option<Value>>, ghost ss: Stmts)
    requires TEof !in tokens
    requires var g := Compiled(tokens, globals); g.Code? ==> StackSafety.Room(ChunkOf(g), size)
    ensures r.CompileError? <==> Compiled(tokens, globals).Rejected?
    ensures !r.CompileError? ==>
      var st := M.RunFor(fp, ChunkOf(Compiled(tokens, globals)), M.Running(StartOf(vals, [])), limit);
      && WellFormedStmts(ss) && tokens == SpellStmts(ss, [])
      && (r.Unfinished? <==> st.Running?)
      && (r.Ok? <==> st.Halted?) && (r.RuntimeError? <==> st.Crashed?)
      && st.vm.output == output && st.vm.globals == vals1
    ensures (r.Ok? || r.RuntimeError?) && Mirrors(fp, Compiled(tokens, globals), globals, vals, w) ==>
      exists w1 ::
        && (if r.Ok? then Ends(fp, ss, w, w1) else Fails(fp, ss, w, w1))
        && output == w1.output && SameGlobals(Names(Compiled(tokens, globals).scope.globals), vals1, w1.globals)
  {
    hide M.RunFor, GenScript, WellFormedStmts, Compiled, StackSafety.Room, SameGlobals, Mirrors, Means, Ends, Fails;
    output, vals1, ss := [], vals, Empty;
    var compiler := new C.Compiler(tokens, globals);
    var chunk := compiler.Compile();
    if chunk.None? {
      r := CompileError;
      return;
    }
    ghost var g := Compiled(tokens, globals);
    ss := Program(tokens, globals);
    var outcome;
    outcome, output, vals1 := Execute(fp, chunk.value, vals, limit, size);
    r := if outcome == D.Continue then Unfinished else if outcome == D.Ok then Ok else RuntimeError;
    if Mirrors(fp, g, globals, vals, w) && r != Unfinished {
      Meaning(fp, tokens, globals, vals, w, limit);
    }
  }

  lemma Program(tokens: seq<Token>, globals: seq<Global>) returns (ss: Stmts)
    requires Compiled(tokens, globals).Code?
    ensures P.Program(tokens) == Some(ss) && WellFormedStmts(ss) && tokens == SpellStmts(ss, [])
  {
    P.ProgramSound(tokens);
    ss := P.Program(tokens).value;
  }

  /** The new machine, and its run. */
  method Execute(fp: Arith, chunk: M.Chunk, vals: seq<Option<Value>>, limit: nat, size: nat)
      returns (r: D.Outcome, output: seq<Value>, vals1: seq<Option<Value>>)
    requires StackSafety.Room(chunk, size)
    ensures var st := M.RunFor(fp, chunk, M.Running(StartOf(vals, [])), limit);
      && !st.Stuck? && st.vm.output == output && st.vm.globals == vals1
      && (r == D.Continue <==> st.Running?) && (r == D.Ok <==> st.Halted?)
  {
    hide M.RunFor, StackSafety.Room;
    StackSafety.StaysInRoom(fp, chunk, size, vals, [], 0);
    var vm := new D.VirtualMachine(fp, chunk, size, vals, []);
    vm.Push(ScriptClosure);
    assert vm.Now() == StartOf(vals, []);
    forall j | 0 <= j <= limit
      ensures match M.RunFor(fp, chunk, M.Running(vm.Now()), j)
        case Running(v) => |v.stack| < size
        case Stuck => false
        case _ => true
    {
      StackSafety.StaysInRoom(fp, chunk, size, vals, [], j);
    }
    r := vm.Run(limit);
    output, vals1 := vm.output, vm.globals;
  }

  /** A run that has ended, seen from the program. */
  lemma Meaning(fp: Arith, tokens: seq<Token>, globals: seq<Global>, vals: seq<Option<Value>>, w: I.World, limit: nat)
    requires Compiled(tokens, globals).Code? && Mirrors(fp, Compiled(tokens, globals), globals, vals, w)
    requires P.Program(tokens).Some?
    ensures var ss := P.Program(tokens).value;
      var t := TargetOf(fp, Compiled(tokens, globals));
      match M.RunFor(fp, t.chunk, M.Running(StartOf(vals, [])), limit)
      case Halted(vm) => exists w1 :: Ends(fp, ss, w, w1) && SameEffects(t, vm, w1)
      case Crashed(vm) => exists w1 :: Fails(fp, ss, w, w1) && SameEffects(t, vm, w1)
      case _ => true
  {
    hide M.RunFor, Compiled, SameGlobals, SymmetricEq, OneAddress, SameEffects, Ends, Fails;
    CompilerCorrect(fp, tokens, globals, vals, w);
    var t := TargetOf(fp, Compiled(tokens, globals));
    var start := StartOf(vals, []);
    var end := M.RunFor(fp, t.chunk, M.Running(start), limit);
    if end.Halted? {
      assert Halts(t, start, end.vm);
    } else if end.Crashed? {
      assert Crashes(t, start, end.vm);
    }
  }
}
