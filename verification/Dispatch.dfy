/** run() of src/vm.c as it is written: a value stack in a fixed array with a stack top, an
    instruction pointer, and a dispatch loop that changes them in place. Each method is
    proved to do what Machine says. */
module Dispatch {
  import opened Values
  import opened Bytecode
  import M = Machine

  datatype Outcome = Continue | Ok | RuntimeError

  class VirtualMachine {
    const fp: Arith
    const chunk: M.Chunk
    const stack: array<Value>
    var ip: nat
    var stackTop: nat
    var globals: seq<Option<Value>>
    var output: seq<Value>

    ghost predicate Valid()
      reads this
    {
      stackTop <= stack.Length
    }

    /** The machine as a value. */
    ghost function Now(): M.Vm
      requires Valid()
      reads this, stack
    {
      M.Vm(ip, stack[..stackTop], globals, output)
    }

    /** The state that an instruction is to leave. A runtime error empties the stack. */
    ghost predicate Reaches(st: M.Status, r: Outcome)
      requires Valid()
      reads this, stack
    {
      match st
      case Running(vm) => r == Continue && Now() == vm
      case Halted(vm) => r == Ok && Now() == vm
      case Crashed(vm) => r == RuntimeError && stackTop == 0 && globals == vm.globals && output == vm.output
      case Stuck => false
    }

    constructor (fp: Arith, chunk: M.Chunk, size: nat, globals: seq<Option<Value>>, output: seq<Value>)
      ensures Valid() && this.fp == fp && this.chunk == chunk && fresh(stack) && stack.Length == size
      ensures Now() == M.Vm(0, [], globals, output)
    {
      this.fp, this.chunk := fp, chunk;
      stack := new Value[size];
      ip, stackTop := 0, 0;
      this.globals, this.output := globals, output;
    }

    // ----- the stack -----

    method Push(v: Value)
      requires Valid() && stackTop < stack.Length
      modifies this`stackTop, stack
      ensures Valid() && Now() == old(Now()).(stack := old(stack[..stackTop]) + [v])
    {
      stack[stackTop] := v;
      stackTop := stackTop + 1;
    }

    method Pop() returns (v: Value)
      requires Valid() && stackTop > 0
      modifies this`stackTop
      ensures Valid() && v == M.Peek(old(Now()), 0)
      ensures Now() == old(Now()).(stack := old(stack[..stackTop])[..old(stackTop) - 1])
    {
      stackTop := stackTop - 1;
      v := stack[stackTop];
    }

    function Peek(distance: nat): (v: Value)
      requires Valid() && distance < stackTop
      reads this, stack
      ensures v == M.Peek(Now(), distance)
    {
      stack[stackTop - 1 - distance]
    }

    method Error() returns (r: Outcome)
      requires Valid()
      modifies this`stackTop
      ensures Valid() && Reaches(M.Crashed(old(Now())), r)
    {
      stackTop := 0;
      r := RuntimeError;
    }

    // ----- operands -----

    method ReadByte() returns (b: Byte)
      requires ip < |chunk.code|
      modifies this`ip
      ensures b == chunk.code[old(ip)] && ip == old(ip) + 1
    {
      b := chunk.code[ip];
      ip := ip + 1;
    }

    method ReadUint16() returns (n: nat)
      requires ip + 2 <= |chunk.code|
      modifies this`ip
      ensures ip == old(ip) + 2
      ensures n == var hi: int, lo: int := chunk.code[old(ip)], chunk.code[old(ip) + 1]; hi * 256 + lo
    {
      var hi: int := ReadByte();
      var lo: int := ReadByte();
      n := hi * 256 + lo;
    }

    method ReadUint24() returns (n: nat)
      requires ip + 3 <= |chunk.code|
      modifies this`ip
      ensures ip == old(ip) + 3
      ensures n == var hi: int, mid: int, lo: int :=
        chunk.code[old(ip)], chunk.code[old(ip) + 1], chunk.code[old(ip) + 2];
        hi * 65536 + mid * 256 + lo
    {
      var hi: int := ReadByte();
      var mid: int := ReadByte();
      var lo: int := ReadByte();
      n := hi * 65536 + mid * 256 + lo;
    }

    // ----- instructions; ip is already past the operands -----

    method Binary(v: Value)
      requires Valid() && stackTop >= 2
      modifies this`stackTop, stack
      ensures Valid() && Reaches(M.Replace(old(Now()), ip, 2, v), Continue)
    {
      var _ := Pop();
      var _ := Pop();
      Push(v);
    }

    method Unary(v: Value)
      requires Valid() && stackTop >= 1
      modifies this`stackTop, stack
      ensures Valid() && Reaches(M.Replace(old(Now()), ip, 1, v), Continue)
    {
      var _ := Pop();
      Push(v);
    }

    method Compare(op: (Num, Num) -> bool) returns (r: Outcome)
      requires Valid() && stackTop >= 2
      modifies this`stackTop, stack
      ensures Valid() && Reaches(M.CompareOp(old(Now()), ip, op), r)
    {
      if !Peek(0).Number? || !Peek(1).Number? {
        r := Error();
        return;
      }
      r := Continue;
      Binary(Bool(op(Peek(1).n, Peek(0).n)));
    }

    method Arithmetic(op: (Num, Num) -> Num) returns (r: Outcome)
      requires Valid() && stackTop >= 2
      modifies this`stackTop, stack
      ensures Valid() && Reaches(M.ArithOp(old(Now()), ip, op), r)
    {
      if !Peek(0).Number? || !Peek(1).Number? {
        r := Error();
        return;
      }
      r := Continue;
      Binary(Number(op(Peek(1).n, Peek(0).n)));
    }

    method Add() returns (r: Outcome)
      requires Valid() && stackTop >= 2
      modifies this`stackTop, stack
      ensures Valid() && Reaches(M.ExecPlain(fp, Simple.Add, ip, old(Now())), r)
    {
      r := Continue;
      if Peek(0).Str? && Peek(1).Str? {
        Binary(Str(Peek(1).s + Peek(0).s));
      } else if Peek(0).Number? && Peek(1).Number? {
        Binary(Number(fp.add(Peek(1).n, Peek(0).n)));
      } else {
        r := Error();
      }
    }

    method Negate() returns (r: Outcome)
      requires Valid() && stackTop >= 1
      modifies this`stackTop, stack
      ensures Valid() && Reaches(M.ExecPlain(fp, Simple.Negate, ip, old(Now())), r)
    {
      if !Peek(0).Number? {
        r := Error();
        return;
      }
      r := Continue;
      Unary(Number(fp.neg(Peek(0).n)));
    }

    method ExecPlain(s: Simple) returns (r: Outcome)
      requires Valid() && stackTop < stack.Length && !M.ExecPlain(fp, s, ip, Now()).Stuck?
      modifies this`stackTop, this`output, stack
      ensures Valid() && Reaches(M.ExecPlain(fp, s, ip, old(Now())), r)
    {
      r := Continue;
      match s
      case PushNil => Push(Nil);
      case PushTrue => Push(Bool(true));
      case PushFalse => Push(Bool(false));
      case Pop => var _ := Pop();
      case Equal => Binary(Bool(ValuesEqual(fp, Peek(0), Peek(1))));
      case NotEqual => Binary(Bool(!ValuesEqual(fp, Peek(0), Peek(1))));
      case Greater => r := Compare(fp.gt);
      case GreaterEqual => r := Compare(fp.ge);
      case Less => r := Compare(fp.lt);
      case LessEqual => r := Compare(fp.le);
      case Add => r := Add();
      case Subtract => r := Arithmetic(fp.sub);
      case Multiply => r := Arithmetic(fp.mul);
      case Divide => r := Arithmetic(fp.div);
      case Not => Unary(Bool(IsFalsey(Peek(0))));
      case Negate => r := Negate();
      case Print =>
        var v := Pop();
        output := output + [v];
      case Return =>
        var _ := Pop();
        var _ := Pop();
        r := Ok;
    }

    method DefineGlobal(addr: nat)
      requires Valid() && stackTop >= 1
      modifies this`stackTop, this`globals
      ensures Valid() && Reaches(M.ExecAddress(chunk.constants, Addressed.DefineGlobal, addr, ip, old(Now())), Continue)
    {
      while addr >= |globals|
        modifies this`globals
        invariant |globals| >= |old(globals)| && (|globals| <= |old(globals)| || |globals| <= addr + 1)
        invariant globals == old(globals) + M.Undefineds(|globals| - |old(globals)|)
        decreases addr + 1 - |globals|
      {
        globals := globals + [None];
      }
      globals := globals[addr := Some(Peek(0))];
      var _ := Pop();
    }

    method ExecAddress(a: Addressed, addr: nat) returns (r: Outcome)
      requires Valid() && stackTop < stack.Length && !M.ExecAddress(chunk.constants, a, addr, ip, Now()).Stuck?
      modifies this`stackTop, this`globals, stack
      ensures Valid() && Reaches(M.ExecAddress(chunk.constants, a, addr, ip, old(Now())), r)
    {
      r := Continue;
      match a
      case Constant => Push(chunk.constants[addr]);
      case GetLocal => Push(stack[addr]);
      case SetLocal => stack[addr] := Peek(0);
      case GetGlobal =>
        if addr >= |globals| || globals[addr].None? {
          r := Error();
        } else {
          Push(globals[addr].value);
        }
      case DefineGlobal => DefineGlobal(addr);
      case SetGlobal =>
        if addr >= |globals| || globals[addr].None? {
          r := Error();
        } else {
          globals := globals[addr := Some(Peek(0))];
        }
    }

    method ExecBranch(j: Jumping, dist: nat) returns (r: Outcome)
      requires Valid() && !M.ExecBranch(j, dist, ip, Now()).Stuck?
      modifies this`ip
      ensures Valid() && Reaches(M.ExecBranch(j, dist, old(ip), old(Now())), r)
    {
      r := Continue;
      match j
      case Jump => ip := ip + dist;
      case JumpIfFalse =>
        if IsFalsey(Peek(0)) {
          ip := ip + dist;
        }
      case Loop => ip := ip - dist;
    }

    /** One turn of the dispatch loop. */
    method Step() returns (r: Outcome)
      requires Valid() && stackTop < stack.Length && !M.Step(fp, chunk, Now()).Stuck?
      modifies this, stack
      ensures Valid() && Reaches(M.Step(fp, chunk, old(Now())), r)
    {
      hide M.ExecPlain, M.ExecAddress, M.ExecBranch;
      ghost var before := Now();
      var b := ReadByte();
      if SimpleOf(b).Some? {
        PlainIgnoresPc(SimpleOf(b).value, ip, before, ip);
        r := ExecPlain(SimpleOf(b).value);
      } else if ShortOf(b).Some? {
        var addr := ReadByte();
        AddressIgnoresPc(ShortOf(b).value, addr, ip, before, ip);
        r := ExecAddress(ShortOf(b).value, addr);
      } else if LongOf(b).Some? {
        var addr := ReadUint24();
        if b == OP_SET_GLOBAL_LONG {
          addr := addr % 256;
        }
        AddressIgnoresPc(LongOf(b).value, addr, ip, before, ip);
        r := ExecAddress(LongOf(b).value, addr);
      } else {
        var dist := ReadUint16();
        BranchIgnoresPc(BranchOf(b).value, dist, ip, before, ip);
        r := ExecBranch(BranchOf(b).value, dist);
      }
    }

    /** The stack has room for one more value in every state of the next k steps. The C code
        does not check this. */
    ghost predicate Roomy(k: nat)
      requires Valid()
      reads this, stack
    {
      forall j {:trigger M.RunFor(fp, chunk, M.Running(Now()), j)} :: 0 <= j <= k ==>
        match M.RunFor(fp, chunk, M.Running(Now()), j)
        case Running(vm) => |vm.stack| < stack.Length
        case Stuck => false
        case _ => true
    }

    /** The dispatch loop, for at most k instructions. */
    method Run(k: nat) returns (r: Outcome)
      requires Valid() && Roomy(k)
      modifies this, stack
      ensures Valid() && Reaches(M.RunFor(fp, chunk, M.Running(old(Now())), k), r)
    {
      hide M.Step, M.RunFor;
      ghost var start := M.Running(Now());
      ghost var room := stack.Length;
      r := Continue;
      var n := 0;
      RunStarts(start);
      while n < k && r == Continue
        invariant Valid() && n <= k && Reaches(M.RunFor(fp, chunk, start, n), r)
        invariant forall j {:trigger M.RunFor(fp, chunk, start, j)} :: 0 <= j <= k ==>
          match M.RunFor(fp, chunk, start, j)
          case Running(vm) => |vm.stack| < room
          case Stuck => false
          case _ => true
      {
        M.OneMore(fp, chunk, start, n);
        r := Step();
        n := n + 1;
      }
      if n < k {
        M.FinishedStays(fp, chunk, start, n, k);
      }
    }

    lemma RunStarts(st: M.Status)
      ensures M.RunFor(fp, chunk, st, 0) == st
    {
    }

    // What an instruction does depends on the pc only through `next`.

    lemma PlainIgnoresPc(s: Simple, next: nat, vm: M.Vm, pc: nat)
      ensures SameOutcome(M.ExecPlain(fp, s, next, vm), M.ExecPlain(fp, s, next, vm.(pc := pc)))
    {
    }

    lemma AddressIgnoresPc(a: Addressed, addr: nat, next: nat, vm: M.Vm, pc: nat)
      ensures SameOutcome(M.ExecAddress(chunk.constants, a, addr, next, vm),
                          M.ExecAddress(chunk.constants, a, addr, next, vm.(pc := pc)))
    {
    }

    lemma BranchIgnoresPc(j: Jumping, dist: nat, next: nat, vm: M.Vm, pc: nat)
      ensures M.ExecBranch(j, dist, next, vm) == M.ExecBranch(j, dist, next, vm.(pc := pc))
    {
    }
  }

  /** Equal but for the pc of a crashed machine. */
  ghost predicate SameOutcome(a: M.Status, b: M.Status) {
    a == b || (a.Crashed? && b.Crashed? && a.vm.(pc := b.vm.pc) == b.vm)
  }
}
