/** Multiplication and division facts used across the project. */
module Arith {

  lemma NestedDigits(c: nat, d: nat, q: nat, r: nat, low: nat)
    requires r < d && low < c
    ensures c * (d * q + r) + low == (c * d) * q + (c * r + low)
    ensures c * r + low < c * d
  {
    MulMono(c, r, d);
    assert c * (d * q) == (c * d) * q;
  }

  lemma DivDiv(x: nat, c: nat, d: nat)
    requires c >= 1 && d >= 1 && c * d >= 1
    ensures x / c / d == x / (c * d)
  {
    var y := x / c;
    TwoDigits(x, c, d, y, x % c, y / d, y % d);
  }

  lemma TwoDigits(x: nat, c: nat, d: nat, y: nat, low: nat, q: nat, r: nat)
    requires c >= 1 && d >= 1 && c * d >= 1 && x == c * y + low && low < c && y == d * q + r && r < d
    ensures x / (c * d) == q
  {
    NestedDigits(c, d, q, r, low);
    QuotientUnique(x, c * d, q, c * r + low);
  }

  lemma {:induction false} MulMono(d: nat, a: nat, b: nat)
    requires a < b
    ensures d * a + d <= d * b
  {
    assert d * b == d * (b - 1) + d;
    if a < b - 1 { MulMono(d, a, b - 1); }
  }

  lemma QuotientUnique(x: nat, d: nat, q: nat, r: nat)
    requires d >= 1 && x == d * q + r && r < d
    ensures x / d == q && x % d == r
  {
    var q' := x / d;
    assert x == d * q' + x % d;
    if q' < q {
      MulMono(d, q', q);
    } else if q < q' {
      MulMono(d, q, q');
    }
  }

  lemma ModAdd(u: nat, k: nat, x: nat)
    requires u >= 1
    ensures (u * k + x) % u == x % u
  {
    var q, r := x / u, x % u;
    assert u * k + x == u * (k + q) + r;
    QuotientUnique(u * k + x, u, k + q, r);
  }

  /** A factor may be reduced before a product is. */
  lemma ModMul(a: nat, b: nat, u: nat)
    requires u >= 1
    ensures a % u * b % u == a * b % u
  {
    var q, r := a / u, a % u;
    assert a == u * q + r;
    assert a * b == u * (q * b) + r * b;
    ModAdd(u, q * b, r * b);
  }

  /** A multiple of d stays one modulo a multiple of d. */
  lemma ModMultiple(d: nat, k: nat, e: nat)
    requires d >= 1 && e >= 1 && d * e >= 1
    ensures d * k % (d * e) == d * (k % e)
  {
    var q, r := k / e, k % e;
    assert k == e * q + r;
    assert d * k == (d * e) * q + d * r;
    MulMono(d, r, e);
    QuotientUnique(d * k, d * e, q, d * r);
  }

  /** A common factor cancels from a quotient. */
  lemma ShiftDivide(v: nat, p: nat, d: nat)
    requires p >= 1 && d >= 1 && p * d >= 1
    ensures v * p / (p * d) == v / d
  {
    Cancel(v, p, d, v / d, v % d);
  }

  lemma Cancel(v: nat, p: nat, d: nat, q: nat, r: nat)
    requires p >= 1 && d >= 1 && p * d >= 1 && v == d * q + r && r < d
    ensures v * p / (p * d) == q
  {
    QuotientUnique(v * p, p * d, q, r * p);
  }

  lemma DivBelow(n: nat, d: nat, m: nat)
    requires d >= 1 && n < m * d
    ensures n / d < m
  {
  }

  lemma Grows(q: nat, d: nat)
    requires d >= 1
    ensures q <= q * d
  {
  }

  /** The three digits of k in mixed radix (x, y, z), recombined. */
  lemma MixedDigits(k: nat, x: nat, y: nat, z: nat)
    requires x >= 1 && y >= 1 && x * y >= 1 && k < x * y * z
    ensures k / (x * y) < z && (k / (x * y) * y + k / x % y) * x + k % x == k
  {
    var q := k / x;
    DivDiv(k, x, y);
    DivBelow(k, x, z * y);
    DivBelow(q, y, z);
  }
}
