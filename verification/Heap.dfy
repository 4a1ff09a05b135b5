/** Heap objects and the values that refer to them (src/values/object.h, src/values/value.h). */
module Heap {

  type Word = n: int | 0 <= n < 0x1_0000_0000 witness 0

  /** `Ref(null)` is OBJ_VAL(NULL), which marks a global that is not defined. */
  datatype Value = Nil | Bool(b: bool) | Number(bits: int) | Ref(obj: Obj?)

  /** The union of a table entry. */
  datatype Payload = Val(v: Value) | Addr(n: Word)

  datatype Entry = Entry(key: Obj?, payload: Payload)

  /** What an object owns besides its header, for each object type. Tables are held by
      their entry arrays, which is what marking and freeing look at. */
  datatype Body =
    | Array(values: seq<Value>, capacity: nat)
    | BoundMethod(receiver: Value, bound: Obj?)
    | Class(name: Obj?, methods: seq<Entry>)
    | Closure(code: Obj?, upvalues: seq<Obj?>)
    | Function(name: Obj?, constants: seq<Value>, buffers: nat)
    | Instance(klass: Obj?, fields: seq<Entry>)
    | Native
    | Str
    | Upvalue(closed: Value)

  /** A heap object. The characters and the hash of a string never change. */
  class Obj {
    var isMarked: bool
    var next: Obj?
    var body: Body
    const chars: string
    const hash: Word

    constructor (body: Body, chars: string, hash: Word, next: Obj?)
      ensures this.body == body && this.chars == chars && this.hash == hash
      ensures this.next == next && !isMarked
    {
      this.body, this.chars, this.hash, this.next := body, chars, hash, next;
      isMarked := false;
    }
  }
}
