/** Small facts about products and quotients that the index arithmetic needs. */
module Arithmetic {
  lemma MulMonotone(a: int, b: int, c: int)
    requires a <= b && c >= 0
    ensures a * c <= b * c
  {}

  lemma MulNonNegative(a: int, b: int)
    requires a >= 0 && b >= 0
    ensures a * b >= 0
  {}

  lemma MulDistributes(a: int, b: int, c: int)
    ensures (a + b) * c == a * c + b * c
    ensures (a - b) * c == a * c - b * c
  {}

  lemma MulCommutes(a: int, b: int)
    ensures a * b == b * a
  {}

  lemma MulAssociates(a: int, b: int, c: int)
    ensures a * (b * c) == (a * b) * c
  {}

  /** x = q*d + r with 0 <= r < d determines q and r. */
  lemma {:induction false} QuotientUnique(d: int, q: int, r: int, q': int, r': int)
    requires 0 <= r < d && 0 <= r' < d
    requires q * d + r == q' * d + r'
    ensures q == q' && r == r'
  {
    if q < q' {
      MulMonotone(q + 1, q', d);
      MulDistributes(q, 1, d);
    } else if q' < q {
      MulMonotone(q' + 1, q, d);
      MulDistributes(q', 1, d);
    }
  }

  lemma DivModIs(x: int, d: int, q: int, r: int)
    requires 0 <= r < d && x == q * d + r
    ensures x / d == q && x % d == r
  {
    QuotientUnique(d, q, r, x / d, x % d);
  }

  lemma QuotientBelow(x: int, d: int, q: int)
    requires d > 0 && 0 <= x < q * d
    ensures 0 <= x / d < q
  {
    var e := x / d;
    assert x == e * d + x % d;
    if e >= q {
      MulMonotone(q, e, d);
    } else if e < 0 {
      MulMonotone(e, -1, d);
    }
  }
}
