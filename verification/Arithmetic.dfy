// Products, quotients and remainders.
module Arithmetic {

  lemma Distribute(a: int, b: int, c: int)
    ensures (a - b) * c == a * c - b * c
  {
  }

  lemma ProductAtLeast(a: int, m: int)
    requires a >= 1 && m >= 0
    ensures a * m >= m
  {
    Distribute(a, 1, m);
    assert (a - 1) * m >= 0;
  }

  // Products of smaller naturals are smaller.
  lemma ProductLess(a: int, b: int, c: int, d: int)
    requires 0 <= a <= c && 0 <= b < d && 0 < c
    ensures a * b < c * d
  {
    Distribute(c, a, b);
    Distribute(d, b, c);
    assert (c - a) * b >= 0;
    assert (d - b) * c > 0;
  }

  // Quotient and remainder are determined by the defining equation.
  lemma DivisionUnique(x: int, m: int, q: int, r: int)
    requires 0 <= r < m && x == q * m + r
    ensures x / m == q && x % m == r
  {
    var q', r' := x / m, x % m;
    assert x == q' * m + r';
    Distribute(q, q', m);
    Distribute(q', q, m);
    if q > q' {
      ProductAtLeast(q - q', m);
      assert false;
    }
    if q < q' {
      ProductAtLeast(q' - q, m);
      assert false;
    }
  }

  lemma MultipleDivides(q: int, d: int)
    requires d > 0
    ensures (q * d) % d == 0 && (q * d) / d == q
  {
    DivisionUnique(q * d, d, q, 0);
  }

  lemma FactorsEqual(s: int, t: int, u: int)
    requires s > 0 && s * t == s * u
    ensures t == u
  {
    MultipleDivides(t, s);
    MultipleDivides(u, s);
    assert t * s == u * s;
  }
}
