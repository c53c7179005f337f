/** What several components need. */
module Basics {
  datatype Option<+T> = None | Some(value: T)

  function Pow2(n: nat): (p: nat)
    ensures p >= 1
  {
    if n == 0 then 1 else 2 * Pow2(n - 1)
  }

  lemma {:induction false} DivBounds(x: nat, d: nat)
    requires d > 0
    ensures x / d * d <= x < x / d * d + d
  {
    assert x == x / d * d + x % d;
  }

  lemma {:induction false} LessFactor(x: int, a: int, d: nat)
    requires x * d < a * d
    ensures x < a
  {
  }

  lemma {:induction false} CancelFactor(a: nat, q: nat, d: nat)
    requires d > 0 && q * d <= a * d < q * d + d
    ensures q == a
  {
    LessFactor(a, q + 1, d);
    LessFactor(q, a + 1, d);
  }

  lemma {:induction false} OneMoreFactor(q: nat, d: nat)
    ensures (q + 1) * d == q * d + d
  {
  }

  /** The quotient is the number with a remainder below the divisor. */
  lemma {:induction false} QuotientIs(x: nat, d: nat, q: nat, r: nat)
    requires r < d && x == q * d + r
    ensures x / d == q
  {
    var a := x / d;
    DivBounds(x, d);
    OneMoreFactor(q, d);
    OneMoreFactor(a, d);
    LessFactor(a, q + 1, d);
    LessFactor(q, a + 1, d);
  }

  lemma {:induction false} HalfQuotient(x: nat, p: nat, q: nat, r: nat)
    requires x == q * (2 * p) + r && r < 2 * p
    ensures x / 2 / p == q
  {
    assert q * (2 * p) == 2 * (q * p);
    assert x / 2 == q * p + r / 2;
    QuotientIs(x / 2, p, q, r / 2);
  }

  lemma {:induction false} SplitBy(x: nat, d: nat) returns (q: nat, r: nat)
    requires d > 0
    ensures q == x / d && x == q * d + r && r < d
  {
    q, r := x / d, x % d;
  }

  /** Halving and then dropping j bits drops one bit more. */
  lemma {:induction false} HalveFirst(x: nat, j: nat)
    ensures x / 2 / Pow2(j) == x / Pow2(j + 1)
  {
    var q, r := SplitBy(x, Pow2(j + 1));
    HalfQuotient(x, Pow2(j), q, r);
  }

  /** Bit i of a number, 0 for the lowest. */
  predicate BitAt(x: nat, i: nat) {
    x / Pow2(i) % 2 == 1
  }

  lemma {:induction false} HalfBit(x: nat, i: nat)
    ensures BitAt(x / 2, i) <==> BitAt(x, i + 1)
  {
    HalveFirst(x, i);
  }
}
