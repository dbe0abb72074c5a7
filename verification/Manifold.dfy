/**
 The manifold-conformity scorer (detector/manifold.rs): standardise a raw projection, keep the
 retained features, and take the diagonal Mahalanobis distance to a cohort centroid.
 */
module Manifold {
  import opened Wrappers
  import opened Floats
  import opened Reals

  const PROJECTION_DIM: nat := 16

  datatype Bundle = Bundle(
    means: seq<Float>,
    stds: seq<Float>,
    retentionMask: seq<bool>,
    fieldOrder: seq<string>,
    imputation: map<string, Float>)

  datatype Centroid = Centroid(centroid: seq<Float>, variance: seq<Float>)

  datatype Outcome = Distance(sigma: real) | Unavailable

  /** The lengths the bundle's own validation enforces. */
  ghost predicate Validated(b: Bundle) {
    |b.means| == |b.stds| == |b.retentionMask| == |b.fieldOrder| == PROJECTION_DIM
  }

  function Imputed(raw: seq<Float>, b: Bundle, i: nat): Float
    requires Validated(b) && |raw| == PROJECTION_DIM && i < PROJECTION_DIM
  {
    if raw[i].Num? then raw[i] else Fallback(b, i)
  }

  function Fallback(b: Bundle, i: nat): Float
    requires Validated(b) && i < PROJECTION_DIM
  {
    if b.fieldOrder[i] in b.imputation then b.imputation[b.fieldOrder[i]] else NaN
  }

  /** The standard score of feature `i`, when it has one. */
  function Standardized(raw: seq<Float>, b: Bundle, i: nat): Option<real>
    requires Validated(b) && |raw| == PROJECTION_DIM && i < PROJECTION_DIM
  {
    var r, mean, std := Imputed(raw, b, i), b.means[i], b.stds[i];
    if r.Num? && mean.Num? && Positive(std) then Some((r.value - mean.value) / std.value) else None
  }

  /** The retained standard scores among the first `n` features; none if any of them is missing. */
  function RetainedUpTo(raw: seq<Float>, b: Bundle, n: nat): Option<seq<real>>
    requires Validated(b) && |raw| == PROJECTION_DIM && n <= PROJECTION_DIM
  {
    if n == 0 then Some([])
    else
      var before := RetainedUpTo(raw, b, n - 1);
      if before.None? || !b.retentionMask[n - 1] then before
      else
        match Standardized(raw, b, n - 1)
        case Some(z) => Some(before.value + [z])
        case None => None
  }

  function Retained(raw: seq<Float>, b: Bundle): Option<seq<real>>
    requires Validated(b) && |raw| == PROJECTION_DIM
  {
    RetainedUpTo(raw, b, PROJECTION_DIM)
  }

  method StandardizeAndRetain(raw: seq<Float>, b: Bundle) returns (r: Option<seq<Float>>)
    requires Validated(b) && |raw| == PROJECTION_DIM
    ensures r == if Retained(raw, b).Some? then Some(Nums(Retained(raw, b).value)) else None
  {
    var retained: seq<Float> := [];
    for i := 0 to PROJECTION_DIM
      invariant RetainedUpTo(raw, b, i).Some? && retained == Nums(RetainedUpTo(raw, b, i).value)
    {
      if !b.retentionMask[i] {
        continue;
      }
      var rawVal := Imputed(raw, b, i);
      var std := b.stds[i];
      if std.NaN? || std.value <= 0.0 {
        MissingStays(raw, b, i + 1, PROJECTION_DIM);
        return None;
      }
      var z := Over(Minus(rawVal, b.means[i]), std);
      if z.NaN? {
        MissingStays(raw, b, i + 1, PROJECTION_DIM);
        return None;
      }
      retained := retained + [z];
    }
    return Some(retained);
  }

  lemma {:induction false} MissingStays(raw: seq<Float>, b: Bundle, i: nat, n: nat)
    requires Validated(b) && |raw| == PROJECTION_DIM && i <= n <= PROJECTION_DIM
    requires RetainedUpTo(raw, b, i).None?
    ensures RetainedUpTo(raw, b, n).None?
    decreases n - i
  {
    if i < n { MissingStays(raw, b, i + 1, n); }
  }

  // ---- The squared distance -------------------------------------------------------------------------------

  /** How far three zipped sequences reach. */
  function Zipped(x: seq<Float>, c: Centroid): (n: nat)
    ensures n <= |x| && n <= |c.centroid| && n <= |c.variance|
    ensures n == |x| || n == |c.centroid| || n == |c.variance|
  {
    if |x| <= |c.centroid| && |x| <= |c.variance| then |x|
    else if |c.centroid| <= |c.variance| then |c.centroid|
    else |c.variance|
  }

  /** Everything the first `n` terms need is a number, and the variances are positive. */
  predicate Regular(x: seq<Float>, c: Centroid, n: nat)
    requires n <= Zipped(x, c)
  {
    forall i | 0 <= i < n :: x[i].Num? && c.centroid[i].Num? && Positive(c.variance[i])
  }

  function SquaresUpTo(x: seq<Float>, c: Centroid, n: nat): real
    requires n <= Zipped(x, c) && Regular(x, c, n)
  {
    if n == 0 then 0.0
    else
      var diff := x[n - 1].value - c.centroid[n - 1].value;
      SquaresUpTo(x, c, n - 1) + (diff * diff) / c.variance[n - 1].value
  }

  function SquaredDistance(x: seq<Float>, c: Centroid): Option<real> {
    if Regular(x, c, Zipped(x, c)) then Some(SquaresUpTo(x, c, Zipped(x, c))) else None
  }

  method MahalanobisSq(x: seq<Float>, c: Centroid) returns (d: Option<real>)
    ensures d == SquaredDistance(x, c)
  {
    var dSq := Num(0.0);
    var n := Zipped(x, c);
    for i := 0 to n
      invariant forall k | 0 <= k < i :: Positive(c.variance[k])
      invariant dSq.Num? <==> Regular(x, c, i)
      invariant dSq.Num? ==> dSq.value == SquaresUpTo(x, c, i)
    {
      var v := c.variance[i];
      if v.NaN? || v.value <= 0.0 {
        return None;
      }
      var diff := Minus(x[i], c.centroid[i]);
      dSq := Plus(dSq, Over(Times(diff, diff), v));
    }
    return if dSq.NaN? then None else Some(dSq.value);
  }

  ghost predicate IsSqrt(sqrt: real -> real) {
    forall y | y >= 0.0 :: sqrt(y) >= 0.0 && sqrt(y) * sqrt(y) == y
  }

  function Score(raw: seq<Float>, b: Bundle, c: Centroid, sqrt: real -> real): Outcome
    requires Validated(b) && |raw| == PROJECTION_DIM
  {
    match Retained(raw, b)
    case None => Unavailable
    case Some(x) =>
      match SquaredDistance(Nums(x), c)
      case Some(dSq) => Distance(sqrt(dSq))
      case None => Unavailable
  }

  method ScoreMahalanobis(raw: seq<Float>, b: Bundle, c: Centroid, sqrt: real -> real) returns (o: Outcome)
    requires Validated(b) && |raw| == PROJECTION_DIM
    ensures o == Score(raw, b, c, sqrt)
  {
    var x := StandardizeAndRetain(raw, b);
    if x.None? {
      return Unavailable;
    }
    var d := MahalanobisSq(x.value, c);
    match d {
      case Some(dSq) => return Distance(sqrt(dSq));
      case None => return Unavailable;
    }
  }

  // ---- Standardising ----------------------------------------------------------------------------------------

  /** How many of the first `n` features the mask retains. */
  function Kept(mask: seq<bool>, n: nat): (k: nat)
    requires n <= |mask|
    ensures k <= n
  {
    if n == 0 then 0 else Kept(mask, n - 1) + (if mask[n - 1] then 1 else 0)
  }

  lemma {:induction false} KeptGrows(mask: seq<bool>, i: nat, n: nat)
    requires i <= n <= |mask|
    ensures Kept(mask, i) <= Kept(mask, n)
  {
    if i < n { KeptGrows(mask, i, n - 1); }
  }

  /** Every retained feature has a numeric mean and a positive deviation. */
  ghost predicate Calibrated(b: Bundle)
    requires Validated(b)
  {
    forall i | 0 <= i < PROJECTION_DIM && b.retentionMask[i] :: b.means[i].Num? && Positive(b.stds[i])
  }

  /** A projection in raw units: `mean + std * z` on retained features, anything elsewhere. */
  ghost predicate Unstandardizes(raw: seq<Float>, b: Bundle, z: seq<real>)
    requires Validated(b) && Calibrated(b) && |raw| == PROJECTION_DIM
    requires |z| == Kept(b.retentionMask, PROJECTION_DIM)
  {
    forall i | 0 <= i < PROJECTION_DIM && b.retentionMask[i] ::
      Kept(b.retentionMask, i) < |z| && raw[i] == Num(b.means[i].value + b.stds[i].value * z[Kept(b.retentionMask, i)])
  }

  lemma RecoversFeature(raw: seq<Float>, b: Bundle, z: seq<real>, i: nat)
    requires Validated(b) && Calibrated(b) && |raw| == PROJECTION_DIM && i < PROJECTION_DIM && b.retentionMask[i]
    requires |z| == Kept(b.retentionMask, PROJECTION_DIM) && Unstandardizes(raw, b, z)
    ensures Kept(b.retentionMask, i) < |z|
    ensures Standardized(raw, b, i) == Some(z[Kept(b.retentionMask, i)])
  {
    hide Kept;
    Unscaled(raw[i].value, b.means[i].value, b.stds[i].value, z[Kept(b.retentionMask, i)]);
  }

  lemma {:induction false} RecoversUpTo(raw: seq<Float>, b: Bundle, z: seq<real>, n: nat)
    requires Validated(b) && Calibrated(b) && |raw| == PROJECTION_DIM && n <= PROJECTION_DIM
    requires |z| == Kept(b.retentionMask, PROJECTION_DIM) && Unstandardizes(raw, b, z)
    ensures Kept(b.retentionMask, n) <= |z|
    ensures RetainedUpTo(raw, b, n) == Some(z[..Kept(b.retentionMask, n)])
  {
    hide Standardized, Unstandardizes, Calibrated;
    KeptGrows(b.retentionMask, n, PROJECTION_DIM);
    if n > 0 {
      RecoversUpTo(raw, b, z, n - 1);
      if b.retentionMask[n - 1] {
        RecoversFeature(raw, b, z, n - 1);
        var k := Kept(b.retentionMask, n - 1);
        assert z[..k] + [z[k]] == z[..k + 1];
      }
    }
  }

  lemma Unscaled(r: real, mean: real, std: real, z: real)
    requires std > 0.0 && r == mean + std * z
    ensures (r - mean) / std == z
  {
    QuotientIs(r - mean, z, std);
  }

  /** Scoring an un-standardised vector recovers the vector and its distance. */
  lemma UnstandardizeRecovers(raw: seq<Float>, b: Bundle, z: seq<real>, c: Centroid, sqrt: real -> real)
    requires Validated(b) && Calibrated(b) && |raw| == PROJECTION_DIM
    requires |z| == Kept(b.retentionMask, PROJECTION_DIM) && Unstandardizes(raw, b, z)
    ensures Retained(raw, b) == Some(z)
    ensures Score(raw, b, c, sqrt)
         == match SquaredDistance(Nums(z), c) case Some(d) => Distance(sqrt(d)) case None => Unavailable
  {
    RecoversUpTo(raw, b, z, PROJECTION_DIM);
    assert z[..|z|] == z;
  }

  /** Retained features with equal standard scores give equal vectors. */
  lemma {:induction false} SameScores(raw: seq<Float>, b: Bundle, raw': seq<Float>, b': Bundle, n: nat)
    requires Validated(b) && Validated(b') && |raw| == |raw'| == PROJECTION_DIM && n <= PROJECTION_DIM
    requires b.retentionMask == b'.retentionMask
    requires forall i | 0 <= i < PROJECTION_DIM && b.retentionMask[i] ::
      Standardized(raw, b, i) == Standardized(raw', b', i)
    ensures RetainedUpTo(raw, b, n) == RetainedUpTo(raw', b', n)
  {
    if n > 0 { SameScores(raw, b, raw', b', n - 1); }
  }

  /** Nothing about a masked-out feature is read: not its value, mean, deviation or imputation. */
  lemma MaskedFeaturesIgnored(raw: seq<Float>, b: Bundle, raw': seq<Float>, b': Bundle, c: Centroid, sqrt: real -> real)
    requires Validated(b) && Validated(b') && |raw| == |raw'| == PROJECTION_DIM
    requires b.retentionMask == b'.retentionMask
    requires forall i | 0 <= i < PROJECTION_DIM && b.retentionMask[i] ::
      raw[i] == raw'[i] && b.means[i] == b'.means[i] && b.stds[i] == b'.stds[i] && Fallback(b, i) == Fallback(b', i)
    ensures Score(raw, b, c, sqrt) == Score(raw', b', c, sqrt)
  {
    SameScores(raw, b, raw', b', PROJECTION_DIM);
  }

  function Affine(a: real, c: real, f: Float): Float {
    Plus(Times(Num(a), f), Num(c))
  }

  /** `raw'` and `b'` measure each retained feature in another unit: `a[i] * value + c[i]`. */
  ghost predicate Rescaled(raw: seq<Float>, b: Bundle, raw': seq<Float>, b': Bundle, a: seq<real>, c: seq<real>)
    requires Validated(b) && Validated(b') && |raw| == |raw'| == PROJECTION_DIM && |a| == |c| == PROJECTION_DIM
  {
    && b.retentionMask == b'.retentionMask
    && (forall i | 0 <= i < PROJECTION_DIM && b.retentionMask[i] ::
        && a[i] > 0.0
        && raw'[i] == Affine(a[i], c[i], raw[i])
        && b'.means[i] == Affine(a[i], c[i], b.means[i])
        && b'.stds[i] == Times(Num(a[i]), b.stds[i])
        && Fallback(b', i) == Affine(a[i], c[i], Fallback(b, i)))
  }

  /** The score does not depend on the units of the features. */
  lemma UnitsDoNotMatter(raw: seq<Float>, b: Bundle, raw': seq<Float>, b': Bundle, a: seq<real>, c: seq<real>,
                         centroid: Centroid, sqrt: real -> real)
    requires Validated(b) && Validated(b') && |raw| == |raw'| == PROJECTION_DIM && |a| == |c| == PROJECTION_DIM
    requires Rescaled(raw, b, raw', b', a, c)
    ensures Score(raw, b, centroid, sqrt) == Score(raw', b', centroid, sqrt)
  {
    hide RetainedUpTo, SquaredDistance;
    forall i | 0 <= i < PROJECTION_DIM && b.retentionMask[i]
      ensures Standardized(raw, b, i) == Standardized(raw', b', i)
    {
      UnitOfFeature(raw, b, raw', b', a, c, i);
    }
    SameScores(raw, b, raw', b', PROJECTION_DIM);
  }

  lemma UnitOfFeature(raw: seq<Float>, b: Bundle, raw': seq<Float>, b': Bundle, a: seq<real>, c: seq<real>, i: nat)
    requires Validated(b) && Validated(b') && |raw| == |raw'| == PROJECTION_DIM && |a| == |c| == PROJECTION_DIM
    requires i < PROJECTION_DIM && b.retentionMask[i] && Rescaled(raw, b, raw', b', a, c)
    ensures Standardized(raw, b, i) == Standardized(raw', b', i)
  {
    var r, r' := Imputed(raw, b, i), Imputed(raw', b', i);
    assert r' == Affine(a[i], c[i], r);
    if r.Num? && b.means[i].Num? && b.stds[i].Num? {
      ScaledPositive(a[i], b.stds[i].value);
      if b.stds[i].value > 0.0 {
        QuotientUnit(a[i], c[i], r.value, r'.value, b.means[i].value, b'.means[i].value,
          b.stds[i].value, b'.stds[i].value);
      }
    }
  }

  lemma ScaledPositive(a: real, s: real)
    requires a > 0.0
    ensures a * s > 0.0 <==> s > 0.0
  {
  }

  lemma QuotientUnit(a: real, c: real, r: real, r': real, mean: real, mean': real, s: real, s': real)
    requires a > 0.0 && s > 0.0 && s' > 0.0
    requires r' == a * r + c && mean' == a * mean + c && s' == a * s
    ensures (r' - mean') / s' == (r - mean) / s
  {
    var q := (r - mean) / s;
    assert q * s == r - mean;
    assert q * (a * s) == a * (q * s) == a * (r - mean) == r' - mean';
    QuotientIs(r' - mean', q, s');
  }

  // ---- The distance is a norm -----------------------------------------------------------------------------

  ghost predicate Weights(w: seq<real>) {
    forall i | 0 <= i < |w| :: w[i] > 0.0
  }

  function Part(u: seq<real>, v: seq<real>, w: seq<real>, i: nat): real
    requires i < |u| && i < |v| && i < |w| && Weights(w)
  {
    u[i] * v[i] / w[i]
  }

  /** The inner product weighted by the inverse variances, over the first `n` coordinates. */
  function Dot(u: seq<real>, v: seq<real>, w: seq<real>, n: nat): real
    requires n <= |u| && n <= |v| && n <= |w| && Weights(w)
  {
    if n == 0 then 0.0 else Dot(u, v, w, n - 1) + Part(u, v, w, n - 1)
  }

  function Difference(x: seq<real>, y: seq<real>): (d: seq<real>)
    requires |x| == |y|
    ensures |d| == |x| && forall i | 0 <= i < |x| :: d[i] == x[i] - y[i]
  {
    seq(|x|, i requires 0 <= i < |x| => x[i] - y[i])
  }

  function Norm(u: seq<real>, w: seq<real>): real
    requires |u| == |w| && Weights(w)
  {
    Dot(u, u, w, |u|)
  }

  /** On numbers, the program's sum is the weighted norm of the difference. */
  lemma {:induction false} SquaresAreDot(x: seq<real>, mu: seq<real>, w: seq<real>, n: nat)
    requires n <= |x| == |mu| == |w| && Weights(w)
    ensures Regular(Nums(x), Centroid(Nums(mu), Nums(w)), n)
    ensures SquaresUpTo(Nums(x), Centroid(Nums(mu), Nums(w)), n) == Dot(Difference(x, mu), Difference(x, mu), w, n)
  {
    if n > 0 { SquaresAreDot(x, mu, w, n - 1); }
  }

  lemma DistanceIsNorm(x: seq<real>, mu: seq<real>, w: seq<real>)
    requires |x| == |mu| == |w| && Weights(w)
    ensures SquaredDistance(Nums(x), Centroid(Nums(mu), Nums(w))) == Some(Norm(Difference(x, mu), w))
  {
    SquaresAreDot(x, mu, w, |x|);
  }

  lemma {:induction false} DotSign(u: seq<real>, w: seq<real>, n: nat)
    requires n <= |u| && n <= |w| && Weights(w)
    ensures Dot(u, u, w, n) >= 0.0
    ensures Dot(u, u, w, n) == 0.0 <==> forall i | 0 <= i < n :: u[i] == 0.0
  {
    if n > 0 {
      DotSign(u, w, n - 1);
      SquareZero(u[n - 1]);
      QuotientSign(u[n - 1] * u[n - 1], w[n - 1]);
    }
  }

  /** The distance is zero exactly at the centroid. */
  lemma ZeroIffAtCentroid(x: seq<real>, mu: seq<real>, w: seq<real>)
    requires |x| == |mu| == |w| && Weights(w)
    ensures SquaredDistance(Nums(x), Centroid(Nums(mu), Nums(w))) == Some(0.0) <==> x == mu
  {
    DistanceIsNorm(x, mu, w);
    DotSign(Difference(x, mu), w, |x|);
    hide Dot, SquaredDistance;
    if forall i | 0 <= i < |x| :: Difference(x, mu)[i] == 0.0 {
      assert forall i | 0 <= i < |x| :: x[i] == mu[i] + Difference(x, mu)[i];
      assert x == mu;
    }
  }

  /** The weighted Cauchy-Schwarz inequality. */
  lemma {:induction false} CauchySchwarz(u: seq<real>, v: seq<real>, w: seq<real>, n: nat)
    requires n <= |u| && n <= |v| && n <= |w| && Weights(w)
    ensures Dot(u, v, w, n) * Dot(u, v, w, n) <= Dot(u, u, w, n) * Dot(v, v, w, n)
  {
    hide Dot, Part;
    if n == 0 {
      DotNone(u, v, w);
    } else {
      CauchySchwarz(u, v, w, n - 1);
      DotSign(u, w, n - 1);
      DotSign(v, w, n - 1);
      DotStep(u, u, w, n);
      DotStep(v, v, w, n);
      DotStep(u, v, w, n);
      CauchyParts(u, v, w, n - 1, Dot(u, u, w, n - 1), Dot(v, v, w, n - 1), Dot(u, v, w, n - 1));
    }
  }

  lemma CauchyParts(u: seq<real>, v: seq<real>, w: seq<real>, i: nat, a: real, b: real, c: real)
    requires i < |u| && i < |v| && i < |w| && Weights(w)
    requires a >= 0.0 && b >= 0.0 && c * c <= a * b
    ensures (c + Part(u, v, w, i)) * (c + Part(u, v, w, i)) <= (a + Part(u, u, w, i)) * (b + Part(v, v, w, i))
  {
    CauchyStep(a, b, c, Part(u, u, w, i), Part(v, v, w, i), Part(u, v, w, i), u[i], v[i], w[i]);
  }

  lemma DotNone(u: seq<real>, v: seq<real>, w: seq<real>)
    requires Weights(w)
    ensures Dot(u, v, w, 0) == 0.0
    ensures Dot(u, v, w, 0) * Dot(u, v, w, 0) <= Dot(u, u, w, 0) * Dot(v, v, w, 0)
  {
  }

  lemma DotStep(u: seq<real>, v: seq<real>, w: seq<real>, n: nat)
    requires 0 < n <= |u| && n <= |v| && n <= |w| && Weights(w)
    ensures Dot(u, v, w, n) == Dot(u, v, w, n - 1) + Part(u, v, w, n - 1)
  {
  }

  lemma CauchyStep(a: real, b: real, c: real, pp: real, qq: real, pq: real, p: real, q: real, w: real)
    requires a >= 0.0 && b >= 0.0 && w > 0.0 && c * c <= a * b
    requires pp == p * p / w && qq == q * q / w && pq == p * q / w
    ensures (c + pq) * (c + pq) <= (a + pp) * (b + qq)
  {
    var k := 1.0 / w;
    DivisionIsScaling(p * p, w);
    DivisionIsScaling(q * q, w);
    DivisionIsScaling(p * q, w);
    SameSquare(k, p, q, pp, qq, pq);
    CrossTerm(a, b, c, p, q);
    ProductMonotone(2.0 * c * (p * q), a * (q * q) + b * (p * p), k);
    assert 2.0 * c * pq <= a * qq + b * pp;
    assert (c + pq) * (c + pq) == c * c + 2.0 * c * pq + pq * pq;
    assert (a + pp) * (b + qq) == a * b + (a * qq + b * pp) + pp * qq;
  }

  lemma SameSquare(k: real, p: real, q: real, pp: real, qq: real, pq: real)
    requires pp == k * (p * p) && qq == k * (q * q) && pq == k * (p * q)
    ensures pq * pq == pp * qq
  {
    assert pq * pq == (k * k) * ((p * q) * (p * q));
    assert pp * qq == (k * k) * ((p * q) * (p * q));
  }

  /** `2cpq <= aq^2 + bp^2` when `c^2 <= ab`. */
  lemma CrossTerm(a: real, b: real, c: real, p: real, q: real)
    requires a >= 0.0 && b >= 0.0 && c * c <= a * b
    ensures 2.0 * c * (p * q) <= a * (q * q) + b * (p * p)
  {
    var x, y, z, k := a * (q * q), b * (p * p), c * (p * q), (p * q) * (p * q);
    SquareZero(p);
    SquareZero(q);
    SquareZero(p * q);
    ProductZero(a, q * q);
    ProductZero(b, p * p);
    assert z * z == (c * c) * k && x * y == (a * b) * k;
    ProductMonotone(c * c, a * b, k);
    MeanInequality(x, y, z);
  }

  lemma MeanInequality(x: real, y: real, z: real)
    requires x >= 0.0 && y >= 0.0 && z * z <= x * y
    ensures 2.0 * z <= x + y
  {
    SquareZero(x - y);
    assert (x + y) * (x + y) == (x - y) * (x - y) + 4.0 * (x * y);
    assert (2.0 * z) * (2.0 * z) == 4.0 * (z * z);
    RootOrder(2.0 * z, x + y);
  }

  lemma {:induction false} DotOfSum(u: seq<real>, v: seq<real>, s: seq<real>, w: seq<real>, n: nat)
    requires n <= |u| && |u| == |v| == |s| == |w| && Weights(w)
    requires forall i | 0 <= i < |u| :: s[i] == u[i] + v[i]
    ensures Dot(s, s, w, n) == Dot(u, u, w, n) + 2.0 * Dot(u, v, w, n) + Dot(v, v, w, n)
  {
    hide Part;
    if n > 0 {
      DotOfSum(u, v, s, w, n - 1);
      PartOfSum(u, v, s, w, n - 1);
    }
  }

  lemma PartOfSum(u: seq<real>, v: seq<real>, s: seq<real>, w: seq<real>, i: nat)
    requires i < |u| == |v| == |s| == |w| && Weights(w) && s[i] == u[i] + v[i]
    ensures Part(s, s, w, i) == Part(u, u, w, i) + 2.0 * Part(u, v, w, i) + Part(v, v, w, i)
  {
  }

  /** The triangle inequality for the root of the distance. */
  lemma Triangle(x: seq<real>, y: seq<real>, z: seq<real>, w: seq<real>, xy: real, yz: real, xz: real)
    requires |x| == |y| == |z| == |w| && Weights(w)
    requires xy >= 0.0 && xy * xy == Norm(Difference(x, y), w)
    requires yz >= 0.0 && yz * yz == Norm(Difference(y, z), w)
    requires xz >= 0.0 && xz * xz == Norm(Difference(x, z), w)
    ensures xz <= xy + yz
  {
    hide Dot;
    var u, v, n := Difference(x, y), Difference(y, z), |x|;
    DotOfSum(u, v, Difference(x, z), w, n);
    CauchySchwarz(u, v, w, n);
    RootsAdd(xy, yz, xz, Dot(u, u, w, n), Dot(v, v, w, n), Norm(Difference(x, z), w), Dot(u, v, w, n));
  }

  lemma RootsAdd(r: real, s: real, t: real, rr: real, ss: real, tt: real, c: real)
    requires r >= 0.0 && s >= 0.0 && t >= 0.0 && r * r == rr && s * s == ss && t * t == tt
    requires tt == rr + 2.0 * c + ss && c * c <= rr * ss
    ensures t <= r + s
  {
    assert (r * s) * (r * s) == (r * r) * (s * s);
    ProductZero(r, s);
    RootOrder(c, r * s);
    assert (r + s) * (r + s) == r * r + 2.0 * (r * s) + s * s;
    RootOrder(t, r + s);
  }

  lemma ScoreIsNorm(raw: seq<Float>, b: Bundle, mu: seq<real>, w: seq<real>, sqrt: real -> real)
    requires Validated(b) && |raw| == PROJECTION_DIM && Retained(raw, b).Some?
    requires |Retained(raw, b).value| == |mu| == |w| && Weights(w)
    ensures Score(raw, b, Centroid(Nums(mu), Nums(w)), sqrt)
      == Distance(sqrt(Norm(Difference(Retained(raw, b).value, mu), w)))
    ensures Norm(Difference(Retained(raw, b).value, mu), w) >= 0.0
  {
    hide Dot, SquaredDistance, RetainedUpTo;
    var x := Retained(raw, b).value;
    DistanceIsNorm(x, mu, w);
    DotSign(Difference(x, mu), w, |x|);
  }

  lemma {:induction false} DotOfOpposite(u: seq<real>, v: seq<real>, w: seq<real>, n: nat)
    requires n <= |u| == |v| == |w| && Weights(w)
    requires forall i | 0 <= i < |u| :: v[i] == -u[i]
    ensures Dot(v, v, w, n) == Dot(u, u, w, n)
  {
    if n > 0 { DotOfOpposite(u, v, w, n - 1); }
  }

  lemma NormSymmetric(x: seq<real>, y: seq<real>, w: seq<real>)
    requires |x| == |y| == |w| && Weights(w)
    ensures Norm(Difference(x, y), w) == Norm(Difference(y, x), w)
  {
    DotOfOpposite(Difference(y, x), Difference(x, y), w, |x|);
  }

  /** Scores of two projections against one cohort differ by at most their distance to each other. */
  lemma ScoresAreLipschitz(
    raw: seq<Float>, raw': seq<Float>, b: Bundle, mu: seq<real>, w: seq<real>, sqrt: real -> real)
    requires Validated(b) && |raw| == |raw'| == PROJECTION_DIM && IsSqrt(sqrt)
    requires Retained(raw, b).Some? && Retained(raw', b).Some?
    requires |Retained(raw, b).value| == |Retained(raw', b).value| == |mu| == |w| && Weights(w)
    ensures var between := Score(raw, b, Centroid(Nums(Retained(raw', b).value), Nums(w)), sqrt);
      var one := Score(raw, b, Centroid(Nums(mu), Nums(w)), sqrt);
      var other := Score(raw', b, Centroid(Nums(mu), Nums(w)), sqrt);
      && between.Distance? && one.Distance? && other.Distance?
      && -between.sigma <= one.sigma - other.sigma <= between.sigma
  {
    hide Norm, Difference, Retained, Score;
    var x, y := Retained(raw, b).value, Retained(raw', b).value;
    ScoreIsNorm(raw, b, mu, w, sqrt);
    ScoreIsNorm(raw', b, mu, w, sqrt);
    ScoreIsNorm(raw, b, y, w, sqrt);
    NormSymmetric(x, y, w);
    var xy, xm, ym := Norm(Difference(x, y), w), Norm(Difference(x, mu), w), Norm(Difference(y, mu), w);
    Triangle(x, y, mu, w, sqrt(xy), sqrt(ym), sqrt(xm));
    Triangle(y, x, mu, w, sqrt(xy), sqrt(xm), sqrt(ym));
  }

  // ---- When a projection can be scored -----------------------------------------------------------------------

  /** Every retained feature has a value, its own or the imputed one, a mean, and a positive deviation. */
  lemma RetainedIff(raw: seq<Float>, b: Bundle)
    requires Validated(b) && |raw| == PROJECTION_DIM
    ensures Retained(raw, b).Some? <==> forall i | 0 <= i < 16 && b.retentionMask[i] ::
      && (raw[i].Num? || (b.fieldOrder[i] in b.imputation && b.imputation[b.fieldOrder[i]].Num?))
      && b.means[i].Num? && b.stds[i].Num? && b.stds[i].value > 0.0
  {
    RetainedUpToIff(raw, b, PROJECTION_DIM);
  }

  lemma {:induction false} RetainedUpToIff(raw: seq<Float>, b: Bundle, n: nat)
    requires Validated(b) && |raw| == PROJECTION_DIM && n <= PROJECTION_DIM
    ensures RetainedUpTo(raw, b, n).Some? <==>
      forall i | 0 <= i < n && b.retentionMask[i] :: Standardized(raw, b, i).Some?
  {
    hide Standardized;
    if n > 0 { RetainedUpToIff(raw, b, n - 1); }
  }

  /** A missing value stands for the imputed one, and for nothing else. */
  lemma ImputationStands(raw: seq<Float>, b: Bundle, i: nat)
    requires Validated(b) && |raw| == PROJECTION_DIM && i < PROJECTION_DIM && raw[i].NaN?
    requires b.fieldOrder[i] in b.imputation
    ensures Retained(raw, b) == Retained(raw[i := b.imputation[b.fieldOrder[i]]], b)
  {
    SameScores(raw, b, raw[i := b.imputation[b.fieldOrder[i]]], b, PROJECTION_DIM);
  }
}
