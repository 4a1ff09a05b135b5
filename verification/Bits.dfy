/** The bit operations of the hash table and of string hashing, on unbounded numbers. */
module Bits {

  /** a & b */
  function And(a: nat, b: nat): nat
    decreases a
  {
    if a == 0 || b == 0 then 0 else 2 * And(a / 2, b / 2) + if a % 2 == 1 && b % 2 == 1 then 1 else 0
  }

  /** a ^ b */
  function Xor(a: nat, b: nat): nat
    decreases a + b
  {
    if a == 0 && b == 0 then 0 else 2 * Xor(a / 2, b / 2) + if a % 2 != b % 2 then 1 else 0
  }

  /** Binary digit i of n, from the right. */
  function Bit(n: nat, i: nat): nat
    decreases i
  {
    if i == 0 then n % 2 else Bit(n / 2, i - 1)
  }

  /** Digit by digit, & is both ... */
  lemma {:induction false} AndBits(a: nat, b: nat, i: nat)
    ensures Bit(And(a, b), i) == 1 <==> Bit(a, i) == 1 && Bit(b, i) == 1
    decreases i
  {
    hide And;
    AndStep(a, b);
    if i > 0 {
      AndBits(a / 2, b / 2, i - 1);
    }
  }

  /** ... and ^ is either. */
  lemma {:induction false} XorBits(a: nat, b: nat, i: nat)
    ensures Bit(Xor(a, b), i) == 1 <==> Bit(a, i) != Bit(b, i)
    decreases i
  {
    hide Xor;
    XorStep(a, b);
    if i > 0 {
      XorBits(a / 2, b / 2, i - 1);
    }
  }

  lemma AndStep(a: nat, b: nat)
    ensures And(a, b) == 2 * And(a / 2, b / 2) + if a % 2 == 1 && b % 2 == 1 then 1 else 0
  {
  }

  lemma XorStep(a: nat, b: nat)
    ensures Xor(a, b) == 2 * Xor(a / 2, b / 2) + if a % 2 != b % 2 then 1 else 0
  {
  }

  lemma {:induction false} XorZero(a: nat)
    ensures Xor(a, 0) == a
    decreases a
  {
    if a > 0 {
      XorZero(a / 2);
    }
  }

  predicate IsPowerOf2(n: nat)
    decreases n
  {
    n == 1 || (n > 1 && n % 2 == 0 && IsPowerOf2(n / 2))
  }

  /** Masking with a power of two less one is the remainder. */
  lemma {:induction false} MaskIsRemainder(a: nat, n: nat)
    requires IsPowerOf2(n)
    ensures And(a, n - 1) == a % n
    decreases n
  {
    if n > 1 {
      MaskIsRemainder(a / 2, n / 2);
      Doubled(a, n / 2);
    }
  }

  lemma Doubled(a: nat, m: nat)
    requires m > 0 && And(a / 2, m - 1) == a / 2 % m
    ensures And(a, 2 * m - 1) == a % (2 * m)
  {
    hide And;
    HalfRemainder(a, m);
    MaskStep(a, m);
  }

  lemma MaskStep(a: nat, m: nat)
    requires m > 0
    ensures And(a, 2 * m - 1) == 2 * And(a / 2, m - 1) + a % 2
  {
    assert (2 * m - 1) / 2 == m - 1 && (2 * m - 1) % 2 == 1;
  }

  lemma HalfRemainder(a: nat, m: nat)
    requires m > 0
    ensures a % (2 * m) == 2 * (a / 2 % m) + a % 2
  {
    var q := a / 2 / m;
    var r := a / 2 % m;
    assert a == 2 * (q * m + r) + a % 2;
    assert a == q * (2 * m) + (2 * r + a % 2);
    RemainderUnique(a, 2 * m, q, 2 * r + a % 2);
  }

  lemma RemainderUnique(a: int, n: int, q: int, r: int)
    requires a == q * n + r && 0 <= r < n
    ensures a % n == r
  {
    var d := a / n - q;
    assert d * n == r - a % n;
    assert d >= 1 ==> d * n >= n;
    assert d <= -1 ==> d * n <= -n;
  }
}
