/** Facts about products, quotients and remainders that the solver needs spelled out. */
module Arith {

  /** The difference, or 0 if it is negative. */
  function Minus(a: nat, b: nat): nat { if a > b then a - b else 0 }

  lemma ProductNonNegative(p: int, q: int)
    requires p >= 0 && q >= 0
    ensures p * q >= 0
  {
  }

  lemma DoubleMul(a: int, c: int)
    ensures a * (2 * c) == 2 * (a * c) == (2 * a) * c
  {
  }

  lemma AddMul(a: int, b: int, c: int)
    ensures (a + b) * c == a * c + b * c
  {
  }

  /** A sum with one term more, scaled. */
  lemma ScaleStep(s: real, d: real, s': real, x: real)
    requires s' == s + d
    ensures s' * x == s * x + d * x && 0.0 * x == 0.0
  {
  }

  /** Rows of width c: row a ends where or before row b starts. */
  lemma RowGap(a: int, b: int, c: int)
    requires 0 <= a < b && c >= 0
    ensures 0 <= a * c && a * c + c <= b * c
  {
    ProductNonNegative(a, c);
    ProductNonNegative(b - a - 1, c);
    assert (b - a - 1) * c == b * c - a * c - c;
  }

  lemma QuotientUnique(n: int, d: int, q: int, r: int)
    requires d > 0 && 0 <= r < d && n == q * d + r
    ensures n / d == q && n % d == r
  {
    var e := n / d - q;
    assert n == (n / d) * d + n % d;
    assert e * d == r - n % d by {
      assert e * d == (n / d) * d - q * d;
    }
    assert e >= 1 ==> e * d >= d;
    assert e <= -1 ==> e * d <= -d;
  }

  /** The row of a position that lies below b rows of width d. */
  lemma QuotientBound(n: int, d: int, b: int)
    requires d > 0 && 0 <= n < b * d
    ensures 0 <= n / d < b && n == (n / d) * d + n % d && 0 <= n % d < d
  {
    var q := n / d;
    assert n == q * d + n % d;
    assert q >= b ==> q * d >= b * d;
    assert q <= -1 ==> q * d <= -d;
  }

  lemma QuotientMonotone(m: int, n: int, d: int)
    requires d > 0 && m <= n
    ensures m / d <= n / d
  {
    var p, q := m / d, n / d;
    assert m == p * d + m % d && n == q * d + n % d;
    var e := p - q - 1;
    assert e * d == p * d - q * d - d;
    assert e >= 0 ==> e * d >= 0;
  }
}
