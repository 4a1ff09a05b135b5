/** Closures and their upvalues (src/values/object.h). */
module ClosureHeap {

  datatype Value = Nil | Data(d: int) | Fun(c: Closure)

  class Closure {
    var upvalues: seq<Upvalue>

    constructor ()
      ensures upvalues == []
    {
      upvalues := [];
    }
  }

  datatype Location = Slot(slot: nat) | Own

  /** An upvalue points into the stack while it is open, and to its own field afterwards. */
  class Upvalue {
    var location: Location
    var closed: Value
    var next: Upvalue?

    constructor (slot: nat, next: Upvalue?)
      ensures location == Slot(slot) && closed == Nil && this.next == next
    {
      location, closed, this.next := Slot(slot), Nil, next;
    }
  }

  datatype Frame = Frame(closure: Closure, base: nat)

  /** A variable of the running function: one of its slots, or one of its upvalues. These are
      the operand pairs of OP_CLOSURE. */
  datatype Capture = Capture(isLocal: bool, index: nat)
}
