/** Facts about products, quotients and powers that several models need. */
module Arith {

  lemma MulOrder(a: int, b: int, c: int)
    requires c > 0
    ensures a <= b <==> a * c <= b * c
    ensures a < b <==> a * c < b * c
  {
  }

  lemma DivRange(x: int, d: int)
    requires d > 0
    ensures x / d * d <= x < (x / d + 1) * d
  {
    assert x == x / d * d + x % d;
  }

  /** The quotient is the only number whose multiple starts the block that holds `x`. */
  lemma DivUnique(x: int, d: int, q: int)
    requires d > 0
    ensures q * d <= x < (q + 1) * d <==> q == x / d
  {
    DivRange(x, d);
    MulOrder(q, x / d + 1, d);
    MulOrder(x / d, q + 1, d);
  }

  lemma DivMonotone(a: int, b: int, d: int)
    requires d > 0 && a <= b
    ensures a / d <= b / d
  {
    DivRange(a, d);
    DivRange(b, d);
    MulOrder(a / d, b / d + 1, d);
  }

  lemma DivBound(x: int, n: int, d: int)
    requires d > 0
    ensures x < n * d <==> x / d < n
  {
    DivRange(x, d);
    MulOrder(x / d, n, d);
    MulOrder(n, x / d + 1, d);
    MulOrder(n, x / d, d);
  }

  lemma ModShift(x: int, q: int, d: int)
    requires d > 0 && q * d <= x < (q + 1) * d
    ensures x % d == x - q * d
  {
    DivUnique(x, d, q);
  }
}
