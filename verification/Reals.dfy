/** Facts about products and quotients of reals. */
module Reals {

  lemma TimesSucc(n: nat, x: real)
    ensures (n + 1) as real * x == n as real * x + x
  {
  }

  lemma Distributes(c: real, a: real, b: real)
    ensures c * (a + b) == c * a + c * b
  {
  }

  lemma PositiveProduct(a: real, b: real)
    requires a > 0.0 && b > 0.0
    ensures a * b > 0.0 && 2.0 * a * b > 0.0
  {
  }

  lemma ProductZero(a: real, b: real)
    requires a >= 0.0 && b >= 0.0
    ensures a * b >= 0.0 && (a * b == 0.0 <==> a == 0.0 || b == 0.0)
  {
  }

  lemma ScaledSign(c: real, d: real)
    requires c > 0.0
    ensures c * d < 0.0 <==> d < 0.0
    ensures c * d <= 0.0 <==> d <= 0.0
    ensures -(c * d) == c * (-d)
  {
  }

  lemma SquareZero(d: real)
    ensures d * d >= 0.0
    ensures d * d == 0.0 <==> d == 0.0
  {
    var e := if d < 0.0 then -d else d;
    ProductZero(e, e);
    assert e * e == d * d;
  }

  lemma ProductMonotone(a: real, b: real, k: real)
    requires a <= b && k >= 0.0
    ensures a * k <= b * k
  {
  }

  lemma SquareGrows(s: real, t: real)
    requires s > t >= 0.0
    ensures s * s > t * t
  {
    PositiveProduct(s - t, s + t);
    assert (s - t) * (s + t) == s * s - t * t;
  }

  /** Squares of non-negative numbers are ordered as the numbers are. */
  lemma RootOrder(s: real, t: real)
    requires t >= 0.0 && s * s <= t * t
    ensures s <= t
  {
    if s > t { SquareGrows(s, t); }
  }

  lemma QuotientIs(y: real, q: real, d: real)
    requires d > 0.0 && y == q * d
    ensures y / d == q
  {
  }

  lemma QuotientMonotone(y: real, b: real, d: real)
    requires d > 0.0 && 0.0 <= y <= b * d
    ensures 0.0 <= y / d <= b
  {
  }

  lemma WholeQuotient(y: real, d: real)
    requires d > 0.0
    ensures y / d == 1.0 <==> y == d
  {
  }

  lemma QuotientInOrder(y: real, z: real, n: real)
    requires n > 0.0 && 0.0 <= y <= z
    ensures 0.0 <= y / n <= z / n
  {
  }

  lemma QuotientSign(y: real, w: real)
    requires w > 0.0 && y >= 0.0
    ensures y / w >= 0.0
    ensures y / w == 0.0 <==> y == 0.0
  {
  }

  lemma DivisionIsScaling(y: real, t: real)
    requires t > 0.0
    ensures y / t == (1.0 / t) * y
  {
  }
}
