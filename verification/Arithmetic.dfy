/** Facts about products and quotients that the solver does not find by itself. */
module Arithmetic {

  function Max(a: int, b: int): int {
    if a >= b then a else b
  }

  function Min(a: int, b: int): int {
    if a <= b then a else b
  }

  lemma MulMonotone(m: nat, x: int, y: int)
    requires x <= y
    ensures m * x <= m * y
  {
  }

  lemma MulStep(m: nat, x: int, y: int)
    requires x < y
    ensures m * x + m <= m * y
  {
    MulMonotone(m, x + 1, y);
    assert m * (x + 1) == m * x + m;
  }

  lemma NextMultiple(x: int, steps: nat)
    ensures (steps + 1) * x == x * (steps + 1) == steps * x + x
  {
  }

  lemma QuotientForm(x: nat, d: nat)
    requires d > 0
    ensures d * (x / d) + x % d == x / d * d + x % d == x && 0 <= x % d < d && 0 <= x / d
  {
  }

  /** Quotient and remainder as plain numbers. */
  lemma Divide(x: nat, d: nat) returns (q: nat, r: nat)
    requires d > 0
    ensures q == x / d && r == x % d && r < d
    ensures d * q == q * d && x == q * d + r
  {
    QuotientForm(x, d);
    q, r := x / d, x % d;
  }

  /** Division with remainder is unique. */
  lemma QuotientIs(x: nat, d: nat, q: nat, r: nat)
    requires r < d && x == d * q + r
    ensures x / d == q && x % d == r
  {
    var q' := x / d;
    assert x == d * q' + x % d;
    if q < q' {
      MulStep(d, q, q');
    } else if q > q' {
      MulStep(d, q', q);
    }
  }

  lemma SmallQuotient(x: nat, d: nat)
    requires x < d
    ensures x / d == 0 && x % d == x
  {
  }

  lemma QuotientStep(x: nat, d: nat)
    requires 0 < d <= x
    ensures x / d == (x - d) / d + 1 && x % d == (x - d) % d
  {
    var q, r := (x - d) / d, (x - d) % d;
    QuotientForm(x - d, d);
    assert d * (q + 1) == d * q + d;
    QuotientIs(x, d, q + 1, r);
  }

  /** Dividing by `2 * p` is halving first. */
  lemma HalvedQuotient(x: nat, p: nat)
    requires p > 0
    ensures x / (2 * p) == x / 2 / p && x % (2 * p) == 2 * (x / 2 % p) + x % 2
  {
    var h := x / 2;
    QuotientForm(h, p);
    assert 2 * p * (h / p) == 2 * (p * (h / p));
    QuotientIs(x, 2 * p, h / p, 2 * (h % p) + x % 2);
  }

  /** Dividing by `p * m` is dividing by `p`, then by `m`. */
  lemma NestedQuotient(x: nat, p: nat, m: nat)
    requires p > 0 && m > 0
    ensures p * m > 0 && x / (p * m) == x / p / m
  {
    var h, r := x / p, x % p;
    var q, s := h / m, h % m;
    QuotientForm(x, p);
    QuotientForm(h, m);
    MulStep(p, s, m);
    MulStep(p, 0, m);
    MulMonotone(p, 0, s);
    assert p * h == p * m * q + p * s by {
      assert p * (m * q + s) == p * (m * q) + p * s;
      assert p * (m * q) == p * m * q;
    }
    QuotientIs(x, p * m, q, p * s + r);
  }
}
