/** The few facts about products and quotients that the solver needs handed to it. */
module Arith {

  lemma MulMono(k: int, x: int, y: int)
    requires 0 <= k && x <= y
    ensures k * x <= k * y
  {
  }

  lemma QuotientNonNegative(n: nat, d: int)
    requires d > 0
    ensures n / d >= 0
  {
  }

  lemma DivModEq(n: nat, d: int)
    requires d > 0
    ensures n == (n / d) * d + n % d && 0 <= n % d < d && 0 <= n / d <= n
  {
    QuotientNonNegative(n, d);
    MulMono(n / d, 1, d);
  }

  lemma QuotientUnique(n: int, d: int, q: int, r: int)
    requires d > 0 && n == q * d + r && 0 <= r < d
    ensures n / d == q && n % d == r
  {
    var q2, r2 := n / d, n % d;
    assert n == q2 * d + r2 && 0 <= r2 < d;
    assert d * (q - q2) == r2 - r;
    if q > q2 {
      MulMono(d, 1, q - q2);
    } else if q < q2 {
      MulMono(d, q - q2, -1);
    }
  }

  lemma FloorIsMonotone(x: int, y: int, d: int)
    requires d > 0 && x <= y
    ensures x / d <= y / d
  {
    assert d * (y / d + 1) == d * (y / d) + d;
    if x / d > y / d {
      MulMono(d, y / d + 1, x / d);
    }
  }
}
