/** Facts about products and quotients that the solver needs by name. */
module Arith {
  lemma MulLe(a: int, b: int, c: nat)
    requires a <= b
    ensures a * c <= b * c && c * a <= c * b
  {
    assert (b - a) * c >= 0;
  }

  /** A quotient is determined by its remainder's range. */
  lemma DivIs(x: int, d: int, q: int, r: int)
    requires d > 0 && x == d * q + r && 0 <= r < d
    ensures x / d == q && x % d == r
  {
    var k, m := x / d, x % d;
    assert x == k * d + m && 0 <= m < d;
    if k < q {
      MulLe(k + 1, q, d);
    } else if k > q {
      MulLe(q + 1, k, d);
    }
  }

  lemma QuotientBelow(x: nat, d: nat, n: nat)
    requires d > 0 && x < d * n
    ensures 0 <= x / d < n && 0 <= x - x / d * d < d
  {
    var q, r := x / d, x % d;
    assert x == q * d + r && 0 <= r < d;
    if q >= n {
      MulLe(n, q, d);
    }
  }

  function Div(x: nat, d: nat): (q: nat)
    requires d > 0
  {
    x / d
  }

  lemma DivBounds(x: nat, d: nat)
    requires d > 0
    ensures d * Div(x, d) <= x < d * Div(x, d) + d
  {
    var k, m := x / d, x % d;
    assert x == k * d + m && 0 <= m < d;
  }

  function Pow2(k: nat): (r: nat)
    ensures r >= 1
  {
    if k == 0 then 1 else 2 * Pow2(k - 1)
  }

  lemma {:induction false} Pow2Monotone(i: nat, j: nat)
    requires i <= j
    ensures Pow2(i) <= Pow2(j)
    decreases j
  {
    if i < j {
      Pow2Monotone(i, j - 1);
    }
  }

  lemma {:induction false} Pow2Add(i: nat, j: nat)
    ensures Pow2(i + j) == Pow2(i) * Pow2(j)
    decreases i
  {
    if i > 0 {
      Pow2Add(i - 1, j);
      assert 2 * (Pow2(i - 1) * Pow2(j)) == (2 * Pow2(i - 1)) * Pow2(j);
    }
  }

  /** Dividing by a product is dividing twice, whatever lies below the first factor. */
  lemma DivNested(low: nat, w: nat, f: nat, p: nat)
    requires low < w && p > 0
    ensures (low + w * f) / (w * p) == f / p
  {
    var q, r := f / p, f % p;
    assert f == p * q + r;
    assert w * f == w * p * q + w * r by { assert w * (p * q + r) == w * (p * q) + w * r; assert w * (p * q) == w * p * q; }
    MulLe(r + 1, p, w);
    assert w * (r + 1) == w * r + w;
    assert w * p > 0;
    DivIs(low + w * f, w * p, q, w * r + low);
  }

  /** Bit `k` of `m`. */
  function Bit(m: nat, k: nat): (b: nat)
    ensures b <= 1
  {
    Div(m, Pow2(k)) % 2
  }

  lemma HalfQuotient(m: nat, p: nat)
    requires p > 0
    ensures m / p == 2 * (m / (p * 2)) + (m / p) % 2
  {
    var q, r := m / p, m % p;
    var h, b := q / 2, q % 2;
    assert m == p * q + r && q == 2 * h + b;
    assert p * q == (p * 2) * h + p * b by { assert p * (2 * h + b) == p * (2 * h) + p * b; }
    assert 0 <= p * b <= p;
    DivIs(m, p * 2, h, p * b + r);
  }

  /** One bit more of the quotient by a power of two. */
  lemma NextBit(m: nat, k: nat)
    ensures Div(m, Pow2(k)) == 2 * Div(m, Pow2(k + 1)) + Bit(m, k)
  {
    HalfQuotient(m, Pow2(k));
  }
}
