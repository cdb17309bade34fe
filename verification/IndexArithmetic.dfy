/** Index arithmetic: a few facts about products, and places in a circular buffer. */
module IndexArithmetic {

  lemma MulStep(a: int, b: int)
    ensures (a + 1) * b == a * b + b
  {}

  lemma MulMonotone(a: int, b: int, c: int)
    requires a <= b && c >= 0
    ensures a * c <= b * c
  {}

  /** A place counted on over the end of a buffer of n places. */
  function Wrap(x: nat, n: nat): nat {
    if x < n then x else x - n
  }

  lemma WrapIsMod(x: nat, n: nat)
    requires x < 2 * n
    ensures x % n == Wrap(x, n)
  {
    var q, r := x / n, x % n;
    assert x == n * q + r && 0 <= r < n;
    if q >= 2 {
      MulMonotone(2, q, n);
    }
    assert q == 0 || q == 1;
  }
}
