/** The dispatch loop of src/vm.c on the fragment: one frame, the script's, whose slots
    start at the bottom of the value stack. */
module Machine {
  import opened Values
  import opened Bytecode

  datatype Chunk = Chunk(code: seq<Byte>, constants: seq<Value>)

  /** `globals` holds None where the C array holds the null object or has not grown yet. */
  datatype Vm = Vm(pc: nat, stack: seq<Value>, globals: seq<Option<Value>>, output: seq<Value>)

  /** Crashed is a reported runtime error. Stuck is what C leaves undefined (stack
      underflow, reading outside an array) and opcodes outside the fragment. */
  datatype Status = Running(vm: Vm) | Halted(vm: Vm) | Crashed(vm: Vm) | Stuck

  function Push(vm: Vm, next: nat, v: Value): Status {
    Running(vm.(pc := next, stack := vm.stack + [v]))
  }

  /** Replace the top `n` values by `v`. */
  function Replace(vm: Vm, next: nat, n: nat, v: Value): Status
    requires n <= |vm.stack|
  {
    Running(vm.(pc := next, stack := vm.stack[..|vm.stack| - n] + [v]))
  }

  /** The value `distance` below the top. */
  function Peek(vm: Vm, distance: nat): Value
    requires distance < |vm.stack|
  {
    vm.stack[|vm.stack| - 1 - distance]
  }

  function CompareOp(vm: Vm, next: nat, op: (Num, Num) -> bool): Status {
    if |vm.stack| < 2 then Stuck
    else if !Peek(vm, 0).Number? || !Peek(vm, 1).Number? then Crashed(vm)
    else Replace(vm, next, 2, Bool(op(Peek(vm, 1).n, Peek(vm, 0).n)))
  }

  function ArithOp(vm: Vm, next: nat, op: (Num, Num) -> Num): Status {
    if |vm.stack| < 2 then Stuck
    else if !Peek(vm, 0).Number? || !Peek(vm, 1).Number? then Crashed(vm)
    else Replace(vm, next, 2, Number(op(Peek(vm, 1).n, Peek(vm, 0).n)))
  }

  function ExecPlain(fp: Arith, s: Simple, next: nat, vm: Vm): Status {
    match s
    case PushNil => Push(vm, next, Nil)
    case PushTrue => Push(vm, next, Bool(true))
    case PushFalse => Push(vm, next, Bool(false))
    case Pop =>
      if |vm.stack| < 1 then Stuck
      else Running(vm.(pc := next, stack := vm.stack[..|vm.stack| - 1]))
    case Equal =>
      if |vm.stack| < 2 then Stuck
      else Replace(vm, next, 2, Bool(ValuesEqual(fp, Peek(vm, 0), Peek(vm, 1))))
    case NotEqual =>
      if |vm.stack| < 2 then Stuck
      else Replace(vm, next, 2, Bool(!ValuesEqual(fp, Peek(vm, 0), Peek(vm, 1))))
    case Greater => CompareOp(vm, next, fp.gt)
    case GreaterEqual => CompareOp(vm, next, fp.ge)
    case Less => CompareOp(vm, next, fp.lt)
    case LessEqual => CompareOp(vm, next, fp.le)
    case Add =>
      if |vm.stack| < 2 then Stuck
      else if Peek(vm, 0).Str? && Peek(vm, 1).Str? then Replace(vm, next, 2, Str(Peek(vm, 1).s + Peek(vm, 0).s))
      else if Peek(vm, 0).Number? && Peek(vm, 1).Number? then
        Replace(vm, next, 2, Number(fp.add(Peek(vm, 1).n, Peek(vm, 0).n)))
      else Crashed(vm)
    case Subtract => ArithOp(vm, next, fp.sub)
    case Multiply => ArithOp(vm, next, fp.mul)
    case Divide => ArithOp(vm, next, fp.div)
    case Not =>
      if |vm.stack| < 1 then Stuck
      else Replace(vm, next, 1, Bool(IsFalsey(Peek(vm, 0))))
    case Negate =>
      if |vm.stack| < 1 then Stuck
      else if !Peek(vm, 0).Number? then Crashed(vm)
      else Replace(vm, next, 1, Number(fp.neg(Peek(vm, 0).n)))
    case Print =>
      if |vm.stack| < 1 then Stuck
      else Running(vm.(pc := next, stack := vm.stack[..|vm.stack| - 1], output := vm.output + [Peek(vm, 0)]))
    case Return =>
      if |vm.stack| < 2 then Stuck
      else Halted(vm.(pc := next, stack := vm.stack[..|vm.stack| - 2]))
  }

  function Undefineds(n: nat): (r: seq<Option<Value>>)
    ensures |r| == n && forall i :: 0 <= i < n ==> r[i] == None
  {
    seq(n, _ => None)
  }

  function ExecAddress(constants: seq<Value>, a: Addressed, addr: nat, next: nat, vm: Vm): Status {
    match a
    case Constant => if addr >= |constants| then Stuck else Push(vm, next, constants[addr])
    case GetLocal => if addr >= |vm.stack| then Stuck else Push(vm, next, vm.stack[addr])
    case SetLocal =>
      if addr >= |vm.stack| then Stuck
      else Running(vm.(pc := next, stack := vm.stack[addr := Peek(vm, 0)]))
    case GetGlobal =>
      if addr >= |vm.globals| || vm.globals[addr].None? then Crashed(vm)
      else Push(vm, next, vm.globals[addr].value)
    case DefineGlobal =>
      if |vm.stack| < 1 then Stuck
      else
        var grown := if addr >= |vm.globals| then vm.globals + Undefineds(addr + 1 - |vm.globals|) else vm.globals;
        Running(vm.(pc := next, stack := vm.stack[..|vm.stack| - 1], globals := grown[addr := Some(Peek(vm, 0))]))
    case SetGlobal =>
      if |vm.stack| < 1 then Stuck
      else if addr >= |vm.globals| || vm.globals[addr].None? then Crashed(vm)
      else Running(vm.(pc := next, globals := vm.globals[addr := Some(Peek(vm, 0))]))
  }

  function ExecBranch(j: Jumping, dist: nat, next: nat, vm: Vm): Status {
    match j
    case Jump => Running(vm.(pc := next + dist))
    case JumpIfFalse =>
      if |vm.stack| < 1 then Stuck
      else Running(vm.(pc := if IsFalsey(Peek(vm, 0)) then next + dist else next))
    case Loop => if dist > next then Stuck else Running(vm.(pc := next - dist))
  }

  function Exec(fp: Arith, constants: seq<Value>, i: Instr, next: nat, vm: Vm): Status {
    match i
    case Plain(s) => ExecPlain(fp, s, next, vm)
    case Address(a, addr) => ExecAddress(constants, a, addr, next, vm)
    case Branch(j, dist) => ExecBranch(j, dist, next, vm)
    case Undefined => Stuck
  }

  function Step(fp: Arith, chunk: Chunk, vm: Vm): Status {
    var f := Fetch(chunk.code, vm.pc);
    Exec(fp, chunk.constants, f.0, f.1, vm)
  }

  function RunFor(fp: Arith, chunk: Chunk, st: Status, k: nat): Status
    decreases k
  {
    if k == 0 || !st.Running? then st else RunFor(fp, chunk, Step(fp, chunk, st.vm), k - 1)
  }

  lemma {:induction false} RunAdd(fp: Arith, chunk: Chunk, st: Status, a: nat, b: nat)
    ensures RunFor(fp, chunk, st, a + b) == RunFor(fp, chunk, RunFor(fp, chunk, st, a), b)
    decreases a
  {
    if a > 0 && st.Running? {
      RunAdd(fp, chunk, Step(fp, chunk, st.vm), a - 1, b);
    }
  }

  lemma FinishedStays(fp: Arith, chunk: Chunk, st: Status, a: nat, b: nat)
    requires a <= b && !RunFor(fp, chunk, st, a).Running?
    ensures RunFor(fp, chunk, st, b) == RunFor(fp, chunk, st, a)
  {
    RunAdd(fp, chunk, st, a, b - a);
  }

  lemma OneMore(fp: Arith, chunk: Chunk, st: Status, n: nat)
    requires RunFor(fp, chunk, st, n).Running?
    ensures RunFor(fp, chunk, st, n + 1) == Step(fp, chunk, RunFor(fp, chunk, st, n).vm)
  {
    hide Step;
    RunAdd(fp, chunk, st, n, 1);
  }

  lemma StepPlain(fp: Arith, chunk: Chunk, vm: Vm, s: Simple)
    requires CodeAt(chunk.code, vm.pc, EmitPlain(s))
    ensures RunFor(fp, chunk, Running(vm), 1) == ExecPlain(fp, s, vm.pc + 1, vm)
  {
    FetchPlain(chunk.code, vm.pc, s);
  }

  lemma StepAddress(fp: Arith, chunk: Chunk, vm: Vm, a: Addressed, addr: nat)
    requires CodeAt(chunk.code, vm.pc, EmitAddress(a, addr))
    ensures RunFor(fp, chunk, Running(vm), 1)
         == ExecAddress(chunk.constants, a, AddressRead(a, addr), vm.pc + |EmitAddress(a, addr)|, vm)
  {
    FetchAddress(chunk.code, vm.pc, a, addr);
  }

  lemma StepBranch(fp: Arith, chunk: Chunk, vm: Vm, j: Jumping, dist: nat)
    requires CodeAt(chunk.code, vm.pc, EmitBranch(j, dist)) && dist < 65536
    ensures RunFor(fp, chunk, Running(vm), 1) == ExecBranch(j, dist, vm.pc + 3, vm)
  {
    FetchBranch(chunk.code, vm.pc, j, dist);
  }
}
