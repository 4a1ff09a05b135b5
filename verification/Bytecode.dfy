/** Instructions of the fragment, the bytes the compiler writes for them (src/compiler.c,
    src/chunk/chunk.h) and the way run() reads them back (src/vm.c). */
module Bytecode {
  import opened Values

  type Byte = b: int | 0 <= b < 256

  // Opcode numbers, in the order of the OpCode enumeration.
  const OP_CONSTANT: Byte := 0
  const OP_CONSTANT_LONG: Byte := 1
  const OP_NIL: Byte := 2
  const OP_TRUE: Byte := 3
  const OP_FALSE: Byte := 4
  const OP_POP: Byte := 5
  const OP_GET_LOCAL: Byte := 6
  const OP_GET_LOCAL_LONG: Byte := 7
  const OP_SET_LOCAL: Byte := 8
  const OP_SET_LOCAL_LONG: Byte := 9
  const OP_GET_GLOBAL: Byte := 10
  const OP_GET_GLOBAL_LONG: Byte := 11
  const OP_DEFINE_GLOBAL: Byte := 12
  const OP_DEFINE_GLOBAL_LONG: Byte := 13
  const OP_SET_GLOBAL: Byte := 14
  const OP_SET_GLOBAL_LONG: Byte := 15
  const OP_EQUAL: Byte := 26
  const OP_NOT_EQUAL: Byte := 27
  const OP_GREATER: Byte := 28
  const OP_GREATER_EQUAL: Byte := 29
  const OP_LESS: Byte := 30
  const OP_LESS_EQUAL: Byte := 31
  const OP_ADD: Byte := 32
  const OP_SUBTRACT: Byte := 33
  const OP_MULTIPLY: Byte := 34
  const OP_DIVIDE: Byte := 35
  const OP_NOT: Byte := 36
  const OP_NEGATE: Byte := 37
  const OP_PRINT: Byte := 38
  const OP_JUMP: Byte := 39
  const OP_JUMP_IF_FALSE: Byte := 40
  const OP_LOOP: Byte := 41
  const OP_RETURN: Byte := 50

  datatype Simple =
    | PushNil | PushTrue | PushFalse | Pop
    | Equal | NotEqual | Greater | GreaterEqual | Less | LessEqual
    | Add | Subtract | Multiply | Divide | Not | Negate
    | Print | Return

  /** Instructions with an address operand, in a short and a long form. */
  datatype Addressed = Constant | GetLocal | SetLocal | GetGlobal | DefineGlobal | SetGlobal

  datatype Jumping = Jump | JumpIfFalse | Loop

  datatype Instr =
    | Plain(s: Simple)
    | Address(a: Addressed, addr: nat)
    | Branch(j: Jumping, dist: nat)
    | Undefined

  function SimpleByte(s: Simple): Byte {
    match s
    case PushNil => OP_NIL
    case PushTrue => OP_TRUE
    case PushFalse => OP_FALSE
    case Pop => OP_POP
    case Equal => OP_EQUAL
    case NotEqual => OP_NOT_EQUAL
    case Greater => OP_GREATER
    case GreaterEqual => OP_GREATER_EQUAL
    case Less => OP_LESS
    case LessEqual => OP_LESS_EQUAL
    case Add => OP_ADD
    case Subtract => OP_SUBTRACT
    case Multiply => OP_MULTIPLY
    case Divide => OP_DIVIDE
    case Not => OP_NOT
    case Negate => OP_NEGATE
    case Print => OP_PRINT
    case Return => OP_RETURN
  }

  function ShortByte(a: Addressed): Byte {
    match a
    case Constant => OP_CONSTANT
    case GetLocal => OP_GET_LOCAL
    case SetLocal => OP_SET_LOCAL
    case GetGlobal => OP_GET_GLOBAL
    case DefineGlobal => OP_DEFINE_GLOBAL
    case SetGlobal => OP_SET_GLOBAL
  }

  function LongByte(a: Addressed): Byte {
    match a
    case Constant => OP_CONSTANT_LONG
    case GetLocal => OP_GET_LOCAL_LONG
    case SetLocal => OP_SET_LOCAL_LONG
    case GetGlobal => OP_GET_GLOBAL_LONG
    case DefineGlobal => OP_DEFINE_GLOBAL_LONG
    case SetGlobal => OP_SET_GLOBAL_LONG
  }

  function BranchByte(j: Jumping): Byte {
    match j
    case Jump => OP_JUMP
    case JumpIfFalse => OP_JUMP_IF_FALSE
    case Loop => OP_LOOP
  }

  // ----- writing -----

  function Bytes16(n: nat): seq<Byte> { [n / 256 % 256, n % 256] }

  function Bytes24(n: nat): seq<Byte> { [n / 65536 % 256, n / 256 % 256, n % 256] }

  /** emitConstant: addresses above 0xFF take the long form; bits above the 24th are dropped. */
  function EmitAddress(a: Addressed, addr: nat): (r: seq<Byte>)
    ensures |r| == if addr > 255 then 4 else 2
  {
    if addr > 255 then [LongByte(a)] + Bytes24(addr) else [ShortByte(a), addr]
  }

  function EmitPlain(s: Simple): (r: seq<Byte>)
    ensures |r| == 1
  {
    [SimpleByte(s)]
  }

  function EmitBranch(j: Jumping, dist: nat): (r: seq<Byte>)
    ensures |r| == 3
  {
    [BranchByte(j)] + Bytes16(dist)
  }

  // ----- reading -----

  function SimpleOf(b: Byte): Option<Simple> {
    if b == OP_NIL then Some(PushNil)
    else if b == OP_TRUE then Some(PushTrue)
    else if b == OP_FALSE then Some(PushFalse)
    else if b == OP_POP then Some(Pop)
    else if b == OP_EQUAL then Some(Equal)
    else if b == OP_NOT_EQUAL then Some(NotEqual)
    else if b == OP_GREATER then Some(Greater)
    else if b == OP_GREATER_EQUAL then Some(GreaterEqual)
    else if b == OP_LESS then Some(Less)
    else if b == OP_LESS_EQUAL then Some(LessEqual)
    else if b == OP_ADD then Some(Add)
    else if b == OP_SUBTRACT then Some(Subtract)
    else if b == OP_MULTIPLY then Some(Multiply)
    else if b == OP_DIVIDE then Some(Divide)
    else if b == OP_NOT then Some(Not)
    else if b == OP_NEGATE then Some(Negate)
    else if b == OP_PRINT then Some(Print)
    else if b == OP_RETURN then Some(Return)
    else None
  }

  function ShortOf(b: Byte): Option<Addressed> {
    if b == OP_CONSTANT then Some(Constant)
    else if b == OP_GET_LOCAL then Some(GetLocal)
    else if b == OP_SET_LOCAL then Some(SetLocal)
    else if b == OP_GET_GLOBAL then Some(GetGlobal)
    else if b == OP_DEFINE_GLOBAL then Some(DefineGlobal)
    else if b == OP_SET_GLOBAL then Some(SetGlobal)
    else None
  }

  function LongOf(b: Byte): Option<Addressed> {
    if b == OP_CONSTANT_LONG then Some(Constant)
    else if b == OP_GET_LOCAL_LONG then Some(GetLocal)
    else if b == OP_SET_LOCAL_LONG then Some(SetLocal)
    else if b == OP_GET_GLOBAL_LONG then Some(GetGlobal)
    else if b == OP_DEFINE_GLOBAL_LONG then Some(DefineGlobal)
    else if b == OP_SET_GLOBAL_LONG then Some(SetGlobal)
    else None
  }

  function BranchOf(b: Byte): Option<Jumping> {
    if b == OP_JUMP then Some(Jump)
    else if b == OP_JUMP_IF_FALSE then Some(JumpIfFalse)
    else if b == OP_LOOP then Some(Loop)
    else None
  }

  /** The instruction that run() reads at `pc` and the ip after its operands.
      OP_SET_GLOBAL_LONG stores its 24-bit operand in a uint8_t. */
  function Fetch(code: seq<Byte>, pc: nat): (r: (Instr, nat)) {
    if pc >= |code| then (Undefined, pc)
    else
      var b := code[pc];
      if SimpleOf(b).Some? then (Plain(SimpleOf(b).value), pc + 1)
      else if ShortOf(b).Some? && pc + 2 <= |code| then
        (Address(ShortOf(b).value, code[pc + 1]), pc + 2)
      else if LongOf(b).Some? && pc + 4 <= |code| then
        var hi: int, mid: int, lo: int := code[pc + 1], code[pc + 2], code[pc + 3];
        var operand := hi * 65536 + mid * 256 + lo;
        (Address(LongOf(b).value, if b == OP_SET_GLOBAL_LONG then operand % 256 else operand), pc + 4)
      else if BranchOf(b).Some? && pc + 3 <= |code| then
        var hi: int, lo: int := code[pc + 1], code[pc + 2];
        (Branch(BranchOf(b).value, hi * 256 + lo), pc + 3)
      else (Undefined, pc)
  }

  // ----- reading back what was written -----

  /** The address that the instruction written for `addr` works on when it is run. */
  function AddressRead(a: Addressed, addr: nat): nat {
    if addr <= 255 then addr
    else if a == SetGlobal then addr % 256
    else addr % 0x100_0000
  }

  ghost predicate CodeAt(code: seq<Byte>, pc: nat, bytes: seq<Byte>) {
    pc + |bytes| <= |code| && code[pc..pc + |bytes|] == bytes
  }

  lemma CodeAtSplit(code: seq<Byte>, pc: nat, a: seq<Byte>, b: seq<Byte>)
    requires CodeAt(code, pc, a + b)
    ensures CodeAt(code, pc, a) && CodeAt(code, pc + |a|, b)
  {
    assert code[pc..pc + |a|] == (a + b)[..|a|];
    assert code[pc + |a|..pc + |a| + |b|] == (a + b)[|a|..];
  }

  lemma FetchPlain(code: seq<Byte>, pc: nat, s: Simple)
    requires CodeAt(code, pc, EmitPlain(s))
    ensures Fetch(code, pc) == (Plain(s), pc + 1)
  {
    assert code[pc] == code[pc..pc + 1][0];
  }

  lemma FetchAddress(code: seq<Byte>, pc: nat, a: Addressed, addr: nat)
    requires CodeAt(code, pc, EmitAddress(a, addr))
    ensures Fetch(code, pc) == (Address(a, AddressRead(a, addr)), pc + |EmitAddress(a, addr)|)
  {
    var bytes := EmitAddress(a, addr);
    assert code[pc..pc + |bytes|][0] == bytes[0] && code[pc..pc + |bytes|][1] == bytes[1];
    if addr > 255 {
      assert code[pc..pc + 4][2] == bytes[2] && code[pc..pc + 4][3] == bytes[3];
      Reassemble24(addr);
    }
  }

  lemma Reassemble24(n: nat)
    ensures n / 65536 % 256 * 65536 + n / 256 % 256 * 256 + n % 256 == n % 0x100_0000
    ensures n % 0x100_0000 % 256 == n % 256
  {
    assert n / 65536 == n / 256 / 256;
    assert n % 0x100_0000 == n / 65536 % 256 * 65536 + n % 65536;
    assert n % 65536 == n / 256 % 256 * 256 + n % 256;
  }

  lemma FetchBranch(code: seq<Byte>, pc: nat, j: Jumping, dist: nat)
    requires CodeAt(code, pc, EmitBranch(j, dist)) && dist < 65536
    ensures Fetch(code, pc) == (Branch(j, dist), pc + 3)
  {
    var bytes := EmitBranch(j, dist);
    assert code[pc..pc + 3][0] == bytes[0] && code[pc..pc + 3][1] == bytes[1] && code[pc..pc + 3][2] == bytes[2];
    assert dist / 256 % 256 * 256 + dist % 256 == dist;
  }

  /** The width an address is read back with: one byte for the assignment of a global,
      three bytes for everything else. */
  predicate FitsOperand(a: Addressed, addr: nat) {
    addr < (if a == SetGlobal then 256 else 0x100_0000)
  }

  lemma OperandSurvives(a: Addressed, addr: nat)
    ensures AddressRead(a, addr) == addr <==> FitsOperand(a, addr)
  {
  }
}
