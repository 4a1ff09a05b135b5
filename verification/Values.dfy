/** The values the compiled fragment computes with (src/values/value.h, src/values/value.c). */
module Values {

  datatype Option<+T> = None | Some(value: T)

  /** The bits of an IEEE double, as a number. Nothing below looks inside them. */
  type Num = int

  /** Strings are held by content: Interning shows that for interned strings this is
      the same as holding them by reference. Every other object, such as the native functions
      that initVM defines, is the same as itself and no other, and nothing else is done with it. */
  datatype Value = Nil | Bool(b: bool) | Number(n: Num) | Str(s: string) | Object(id: int)

  /** The closure in stack slot 0. */
  const ScriptClosure := Object(0)

  /** The floating point unit. Every theorem holds for whatever these operations compute. */
  datatype Arith = Arith(
    add: (Num, Num) -> Num,
    sub: (Num, Num) -> Num,
    mul: (Num, Num) -> Num,
    div: (Num, Num) -> Num,
    neg: Num -> Num,
    eq: (Num, Num) -> bool,
    gt: (Num, Num) -> bool,
    ge: (Num, Num) -> bool,
    lt: (Num, Num) -> bool,
    le: (Num, Num) -> bool)

  /** All that is assumed of it: IEEE equality is symmetric (it is not reflexive). */
  ghost predicate SymmetricEq(fp: Arith) {
    forall a: Num, b: Num :: fp.eq(a, b) == fp.eq(b, a)
  }

  predicate IsFalsey(v: Value) {
    v.Nil? || (v.Bool? && !v.b)
  }

  predicate ValuesEqual(fp: Arith, a: Value, b: Value) {
    if a.Number? && b.Number? then fp.eq(a.n, b.n) else a == b
  }
}
