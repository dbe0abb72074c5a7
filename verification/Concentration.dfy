/**
 The concentration metrics of a cohort (detector/axis_metrics.rs), over exact reals: the Gini
 coefficient, the Herfindahl-Hirschman index, the fraction below the median, and the diversity of
 capabilities.
 */
module Concentration {
  import opened Wrappers
  import opened Floats
  import opened Ordering
  import opened Sorting
  import opened Sums
  import opened Reals

  // ---- Gini -------------------------------------------------------------------------------------------

  function Itself(): real -> real {
    x => x
  }

  function DistanceTo(x: real): real -> real {
    y => if x < y then y - x else x - y
  }

  /** The distance of a value to the whole population. */
  function TotalDistance(xs: seq<real>): real -> real {
    x => SumBy(DistanceTo(x), xs)
  }

  function Sum(xs: seq<real>): real {
    SumBy(Itself(), xs)
  }

  function Spread(xs: seq<real>): real {
    SumBy(TotalDistance(xs), xs)
  }

  /** Twice the squared size times the mean. */
  function Scale(sum: real, n: real): (scale: real)
    requires n > 0.0 && sum > 0.0
    ensures scale == 2.0 * n * sum > 0.0
  {
    MeanScale(n, sum);
    2.0 * n * n * (sum / n)
  }

  function GiniOf(xs: seq<real>): Option<real> {
    if |xs| == 0 || Sum(xs) <= 0.0 then None
    else Some(Spread(xs) / Scale(Sum(xs), |xs| as real))
  }

  /** On floats: one NaN in the population makes the coefficient NaN. */
  function GiniOfFloats(values: seq<Float>): Option<Float> {
    if values == [] then None
    else if !AllNum(values) then Some(NaN)
    else
      match GiniOf(Values(values))
      case Some(g) => Some(Num(g))
      case None => None
  }

  /** On numbers it is the coefficient over the reals. */
  lemma GiniOnNumbers(xs: seq<real>)
    ensures GiniOfFloats(Nums(xs)) ==
      match GiniOf(xs)
      case Some(g) => Some(Num(g))
      case None => None
  {
    hide GiniOf;
    ValuesOfNums(xs);
    if xs == [] { NothingToMeasure(xs); }
  }

  lemma NothingToMeasure(xs: seq<real>)
    requires xs == []
    ensures GiniOf(xs) == None
  {
  }

  /** `sum` adds up the first `i` values when all of them are numbers, and is NaN once one is not. */
  ghost predicate Accumulates(sum: Float, values: seq<Float>, i: nat)
    requires i <= |values|
  {
    if AllNum(values[..i]) then sum == Num(Sum(Values(values[..i]))) else sum.NaN?
  }

  lemma AccumulatesNext(sum: Float, values: seq<Float>, i: nat)
    requires i < |values| && Accumulates(sum, values, i)
    ensures Accumulates(Plus(sum, values[i]), values, i + 1)
  {
    assert values[..i + 1] == values[..i] + [values[i]];
    if AllNum(values[..i + 1]) {
      assert forall k | 0 <= k < i :: values[..i][k] == values[..i + 1][k];
      var xs := Values(values[..i + 1]);
      assert xs[..i] == Values(values[..i]);
      SumSnoc(Itself(), xs, i);
      assert xs[..i + 1] == xs;
    } else if AllNum(values[..i]) {
      assert values[i].NaN?;
    }
  }

  lemma NothingAccumulated(values: seq<Float>)
    ensures Accumulates(Num(0.0), values, 0)
  {
  }

  method Gini(values: seq<Float>) returns (g: Option<Float>)
    ensures g == GiniOfFloats(values)
  {
    hide SumBy, Accumulates, Sum, Spread;
    var n := |values|;
    if n == 0 {
      return None;
    }
    var sum := Num(0.0);
    NothingAccumulated(values);
    for i := 0 to n
      invariant Accumulates(sum, values, i)
    {
      AccumulatesNext(sum, values, i);
      sum := Plus(sum, values[i]);
    }
    Accumulated(sum, values);
    if sum.Num? && sum.value <= 0.0 {
      return None;
    }
    var absDiffSum := Num(0.0);
    ghost var xs := if AllNum(values) then Values(values) else [];
    NoTerms(TotalDistance(xs), xs);
    for i := 0 to n
      invariant AllNum(values) ==> absDiffSum == Num(SumBy(TotalDistance(xs), xs[..i]))
    {
      if AllNum(values) { NoTerms(DistanceTo(xs[i]), xs); }
      for j := 0 to n
        invariant AllNum(values) ==>
          absDiffSum == Num(SumBy(TotalDistance(xs), xs[..i]) + SumBy(DistanceTo(xs[i]), xs[..j]))
      {
        if AllNum(values) { SumSnoc(DistanceTo(xs[i]), xs, j); }
        absDiffSum := Plus(absDiffSum, Absolute(Minus(values[i], values[j])));
      }
      if AllNum(values) {
        SumSnoc(TotalDistance(xs), xs, i);
        assert xs[..n] == xs;
      }
    }
    assert AllNum(values) ==> absDiffSum == Num(Spread(xs)) by { SpreadIs(xs); }
    var nf := Num(n as real);
    var mean := Over(sum, nf);
    var scale := Times(Times(Times(Num(2.0), nf), nf), mean);
    assert sum.Num? ==> scale == Num(Scale(sum.value, n as real));
    hide Scale;
    g := Some(Over(absDiffSum, scale));
  }

  lemma Accumulated(sum: Float, values: seq<Float>)
    requires Accumulates(sum, values, |values|)
    ensures if AllNum(values) then sum == Num(Sum(Values(values))) else sum.NaN?
  {
    assert values[..|values|] == values;
  }

  lemma SpreadIs(xs: seq<real>)
    ensures xs[..|xs|] == xs && Spread(xs) == SumBy(TotalDistance(xs), xs)
  {
  }

  ghost predicate NonNegative(xs: seq<real>) {
    forall i | 0 <= i < |xs| :: xs[i] >= 0.0
  }

  lemma MeanScale(n: real, sum: real)
    requires n > 0.0 && sum > 0.0
    ensures 2.0 * n * n * (sum / n) == 2.0 * n * sum > 0.0
  {
    var mean := sum / n;
    assert n * mean == sum;
    assert 2.0 * n * n * mean == 2.0 * n * (n * mean);
    PositiveProduct(n, sum);
  }

  /** The defining quotient, without the mean. */
  lemma GiniQuotient(xs: seq<real>)
    requires GiniOf(xs).Some?
    ensures |xs| > 0 && Sum(xs) > 0.0 && 2.0 * |xs| as real * Sum(xs) > 0.0
    ensures GiniOf(xs).value == Spread(xs) / (2.0 * |xs| as real * Sum(xs))
  {
    hide Sum, Spread, Scale;
  }

  lemma {:induction false} DistanceAtMost(x: real, xs: seq<real>)
    requires x >= 0.0 && NonNegative(xs)
    ensures SumBy(DistanceTo(x), xs) <= |xs| as real * x + SumBy(Itself(), xs)
  {
    if xs != [] {
      var n := |xs| - 1;
      DistanceAtMost(x, xs[..n]);
      TimesSucc(n, x);
      assert DistanceTo(x)(xs[n]) <= x + xs[n];
      assert Itself()(xs[n]) == xs[n];
    }
  }

  /** A member of the population is at no distance from itself. */
  lemma DistanceOfMember(x: real, xs: seq<real>, i: nat)
    requires i < |xs| && xs[i] == x && NonNegative(xs)
    ensures SumBy(DistanceTo(x), xs) <= (|xs| - 2) as real * x + SumBy(Itself(), xs)
  {
    hide SumBy;
    var front, back := xs[..i], xs[i + 1..];
    assert xs == front + [x] + back;
    DistanceAtMost(x, front + back);
    SumMiddle(DistanceTo(x), front, x, back);
    SumMiddle(Itself(), front, x, back);
    assert DistanceTo(x)(x) == 0.0 && Itself()(x) == x;
    assert |xs| - 2 == |front + back| - 1;
    TimesPred(|front + back|, x);
  }

  lemma TimesPred(k: nat, x: real)
    ensures (k - 1) as real * x == k as real * x - x
  {
  }

  function MemberBound(xs: seq<real>): real -> real {
    x => (|xs| - 2) as real * x + SumBy(Itself(), xs)
  }

  lemma SpreadAtMost(xs: seq<real>)
    requires NonNegative(xs)
    ensures Spread(xs) <= (2 * |xs| - 2) as real * Sum(xs)
  {
    hide SumBy;
    var c := (|xs| - 2) as real;
    forall i | 0 <= i < |xs|
      ensures TotalDistance(xs)(xs[i]) <= MemberBound(xs)(xs[i])
      ensures MemberBound(xs)(xs[i]) == c * Itself()(xs[i]) + Sum(xs)
    {
      DistanceOfMember(xs[i], xs, i);
    }
    SumAtMost(TotalDistance(xs), MemberBound(xs), xs);
    SumAffine(Itself(), MemberBound(xs), c, Sum(xs), xs);
    assert c * Sum(xs) + |xs| as real * Sum(xs) == (2 * |xs| - 2) as real * Sum(xs);
  }

  lemma SpreadNonNegative(xs: seq<real>)
    ensures Spread(xs) >= 0.0
    ensures forall x :: TotalDistance(xs)(x) >= 0.0
  {
    forall x ensures TotalDistance(xs)(x) >= 0.0 {
      assert forall i | 0 <= i < |xs| :: DistanceTo(x)(xs[i]) >= 0.0;
      SumZero(DistanceTo(x), xs);
    }
    SumZero(TotalDistance(xs), xs);
  }

  /** The Gini coefficient of non-negative values lies between 0 and `(n - 1) / n`. */
  lemma GiniRange(xs: seq<real>)
    requires NonNegative(xs) && GiniOf(xs).Some?
    ensures 0.0 <= GiniOf(xs).value <= (|xs| - 1) as real / |xs| as real
  {
    hide Sum, Spread, GiniOf;
    GiniQuotient(xs);
    SpreadAtMost(xs);
    SpreadNonNegative(xs);
    QuotientBound(Spread(xs), |xs| as real, Sum(xs));
  }

  lemma QuotientBound(spread: real, n: real, sum: real)
    requires n > 0.0 && sum > 0.0 && 0.0 <= spread <= (2.0 * n - 2.0) * sum && 2.0 * n * sum > 0.0
    ensures 0.0 <= spread / (2.0 * n * sum) <= (n - 1.0) / n
  {
    var d := 2.0 * n * sum;
    var b := (n - 1.0) / n;
    assert b * d == 2.0 * (b * n) * sum;
    assert spread <= b * d;
    QuotientMonotone(spread, b, d);
  }

  /** It is zero exactly for a perfectly equal population. */
  lemma GiniZero(xs: seq<real>)
    requires GiniOf(xs).Some?
    ensures GiniOf(xs).value == 0.0 <==> forall i, j | 0 <= i < |xs| && 0 <= j < |xs| :: xs[i] == xs[j]
  {
    hide Sum, SumBy, GiniOf, Spread;
    GiniQuotient(xs);
    SpreadZero(xs);
    var d := 2.0 * |xs| as real * Sum(xs);
    assert Spread(xs) / d == 0.0 <==> Spread(xs) == 0.0;
  }

  lemma SpreadZero(xs: seq<real>)
    ensures Spread(xs) == 0.0 <==> forall i, j | 0 <= i < |xs| && 0 <= j < |xs| :: xs[i] == xs[j]
  {
    hide SumBy;
    SpreadNonNegative(xs);
    SumZero(TotalDistance(xs), xs);
    forall i | 0 <= i < |xs|
      ensures TotalDistance(xs)(xs[i]) == 0.0 <==> forall j | 0 <= j < |xs| :: xs[i] == xs[j]
    {
      assert forall j | 0 <= j < |xs| :: DistanceTo(xs[i])(xs[j]) >= 0.0;
      SumZero(DistanceTo(xs[i]), xs);
      assert forall j | 0 <= j < |xs| :: DistanceTo(xs[i])(xs[j]) == 0.0 <==> xs[i] == xs[j];
    }
  }

  ghost predicate Zeros(xs: seq<real>) {
    forall i | 0 <= i < |xs| :: xs[i] == 0.0
  }

  /** A sum over one value and zeros. */
  lemma SumOverMonopoly(f: real -> real, front: seq<real>, x: real, back: seq<real>)
    requires Zeros(front + back)
    ensures SumBy(f, front + [x] + back) == f(x) + |front + back| as real * f(0.0)
  {
    hide SumBy;
    var zeros := front + back;
    SumMiddle(f, front, x, back);
    SumAffine(Itself(), f, 0.0, f(0.0), zeros);
  }

  lemma MonopolyDistances(front: seq<real>, x: real, back: seq<real>)
    requires x > 0.0 && Zeros(front + back)
    ensures var xs := front + [x] + back;
      TotalDistance(xs)(x) == |front + back| as real * x && TotalDistance(xs)(0.0) == x
  {
    hide SumBy;
    SumOverMonopoly(DistanceTo(x), front, x, back);
    SumOverMonopoly(DistanceTo(0.0), front, x, back);
  }

  lemma MonopolySums(front: seq<real>, x: real, back: seq<real>)
    requires x > 0.0 && Zeros(front + back)
    ensures Sum(front + [x] + back) == x
    ensures Spread(front + [x] + back) == 2.0 * (|front + back| as real * x)
  {
    hide SumBy, TotalDistance, Zeros;
    MonopolyDistances(front, x, back);
    SumOverMonopoly(Itself(), front, x, back);
    SumOverMonopoly(TotalDistance(front + [x] + back), front, x, back);
  }

  /** Where one member holds everything the coefficient is `(n - 1) / n`: the range is attained. */
  lemma GiniMonopoly(front: seq<real>, x: real, back: seq<real>)
    requires x > 0.0 && Zeros(front + back)
    ensures var n := |front| + 1 + |back|; GiniOf(front + [x] + back) == Some((n - 1) as real / n as real)
  {
    hide Spread, Sum, Scale, Zeros;
    var xs, k := front + [x] + back, |front + back|;
    MonopolySums(front, x, back);
    ScaleReads(xs);
    MonopolyQuotient(Spread(xs), Scale(Sum(xs), |xs| as real), |xs| as real, k as real, x);
    var n := |front| + 1 + |back|;
    SameQuotient(k as real, |xs| as real, (n - 1) as real, n as real);
  }

  lemma ScaleReads(xs: seq<real>)
    requires xs != [] && Sum(xs) > 0.0
    ensures GiniOf(xs) == Some(Spread(xs) / Scale(Sum(xs), |xs| as real))
  {
  }

  lemma SameQuotient(a: real, b: real, c: real, d: real)
    requires a == c && b == d && b != 0.0
    ensures a / b == c / d
  {
  }

  lemma MonopolyQuotient(spread: real, scale: real, n: real, k: real, x: real)
    requires k >= 0.0 && x > 0.0 && spread == 2.0 * (k * x) && n == k + 1.0 && scale == 2.0 * n * x > 0.0
    ensures spread / scale == k / n
  {
    var q := k / n;
    assert q * n == k;
    assert q * scale == 2.0 * (q * n) * x;
    QuotientIs(spread, q, scale);
  }

  /** The order of the population does not matter. */
  lemma GiniPermuted(xs: seq<real>, ys: seq<real>)
    requires multiset(xs) == multiset(ys)
    ensures GiniOf(xs) == GiniOf(ys)
  {
    hide SumBy, Scale;
    assert |multiset(xs)| == |multiset(ys)|;
    SumPermuted(Itself(), xs, ys);
    SumPermuted(TotalDistance(xs), xs, ys);
    forall i | 0 <= i < |ys| ensures TotalDistance(xs)(ys[i]) == TotalDistance(ys)(ys[i]) {
      SumPermuted(DistanceTo(ys[i]), xs, ys);
    }
    SumCongruent(TotalDistance(xs), TotalDistance(ys), ys);
    assert Sum(xs) == Sum(ys) && Spread(xs) == Spread(ys);
  }

  function Scaled(c: real, xs: seq<real>): (ys: seq<real>)
    ensures |ys| == |xs| && forall i | 0 <= i < |xs| :: ys[i] == c * xs[i]
  {
    seq(|xs|, i requires 0 <= i < |xs| => c * xs[i])
  }

  /** A sum scales when its terms do. */
  lemma {:induction false} SumScaled(f: real -> real, g: real -> real, c: real, xs: seq<real>, ys: seq<real>)
    requires |ys| == |xs|
    requires forall i | 0 <= i < |xs| :: g(ys[i]) == c * f(xs[i])
    ensures SumBy(g, ys) == c * SumBy(f, xs)
  {
    if xs != [] {
      var n := |xs| - 1;
      SumScaled(f, g, c, xs[..n], ys[..n]);
      Distributes(c, SumBy(f, xs[..n]), f(xs[n]));
    }
  }

  lemma DistanceScaled(c: real, x: real, y: real)
    requires c > 0.0
    ensures DistanceTo(c * x)(c * y) == c * DistanceTo(x)(y)
  {
    assert c * x - c * y == c * (x - y);
    ScaledSign(c, x - y);
  }

  lemma SpreadScaled(c: real, xs: seq<real>)
    requires c > 0.0
    ensures Spread(Scaled(c, xs)) == c * Spread(xs)
  {
    hide SumBy, Scaled;
    var ys := Scaled(c, xs);
    forall i | 0 <= i < |xs| ensures TotalDistance(ys)(ys[i]) == c * TotalDistance(xs)(xs[i]) {
      var x := xs[i];
      forall j | 0 <= j < |xs| ensures DistanceTo(ys[i])(ys[j]) == c * DistanceTo(x)(xs[j]) {
        DistanceScaled(c, x, xs[j]);
      }
      SumScaled(DistanceTo(x), DistanceTo(ys[i]), c, xs, ys);
    }
    SumScaled(TotalDistance(xs), TotalDistance(ys), c, xs, ys);
  }

  lemma TotalScaled(c: real, xs: seq<real>)
    ensures Sum(Scaled(c, xs)) == c * Sum(xs)
  {
    hide SumBy;
    SumScaled(Itself(), Itself(), c, xs, Scaled(c, xs));
  }

  /** Neither does the unit of measurement. */
  lemma GiniScaled(c: real, xs: seq<real>)
    requires c > 0.0
    ensures GiniOf(Scaled(c, xs)) == GiniOf(xs)
  {
    hide Sum, Spread, Scaled, Scale;
    TotalScaled(c, xs);
    SpreadScaled(c, xs);
    ScaledSign(c, Sum(xs));
    if |xs| > 0 && Sum(xs) > 0.0 {
      QuotientScaled(c, Spread(xs), Spread(Scaled(c, xs)), |xs| as real, Sum(xs), Sum(Scaled(c, xs)));
    }
  }

  lemma QuotientScaled(c: real, spread: real, spread': real, n: real, sum: real, sum': real)
    requires c > 0.0 && n > 0.0 && sum > 0.0 && sum' > 0.0 && sum' == c * sum && spread' == c * spread
    ensures spread' / Scale(sum', n) == spread / Scale(sum, n)
  {
    hide Scale;
    var d := Scale(sum, n);
    var q := spread / d;
    assert q * d == spread;
    assert Scale(sum', n) == c * d;
    assert q * (c * d) == c * (q * d);
    QuotientIs(spread', q, Scale(sum', n));
  }

  // ---- Herfindahl-Hirschman ---------------------------------------------------------------------------

  function AsReal(): nat -> real {
    (c: nat) => c as real
  }

  function Share(total: real): nat -> real
    requires total > 0.0
  {
    (c: nat) => c as real / total
  }

  function SquaredShare(total: real): nat -> real
    requires total > 0.0
  {
    (c: nat) => (c as real / total) * (c as real / total)
  }

  function TotalCount(counts: seq<nat>): (total: real) {
    SumBy(AsReal(), counts)
  }

  function Hhi(counts: seq<nat>): Option<real> {
    var total := TotalCount(counts);
    CountsNonNegative(counts);
    if total == 0.0 then None else Some(SumBy(SquaredShare(total), counts))
  }

  lemma CountsNonNegative(counts: seq<nat>)
    ensures TotalCount(counts) >= 0.0
    ensures TotalCount(counts) == 0.0 <==> forall i | 0 <= i < |counts| :: counts[i] == 0
  {
    assert forall i | 0 <= i < |counts| :: AsReal()(counts[i]) == counts[i] as real;
    SumZero(AsReal(), counts);
  }

  lemma SharesSumToOne(counts: seq<nat>)
    requires TotalCount(counts) > 0.0
    ensures SumBy(Share(TotalCount(counts)), counts) == 1.0
  {
    var t := TotalCount(counts);
    hide SumBy, TotalCount;
    forall i | 0 <= i < |counts| ensures Share(t)(counts[i]) == (1.0 / t) * AsReal()(counts[i]) + 0.0 {
      DivisionIsScaling(counts[i] as real, t);
    }
    SumAffine(AsReal(), Share(t), 1.0 / t, 0.0, counts);
    assert SumBy(AsReal(), counts) == t by { TotalIs(counts); }
    assert (1.0 / t) * t == 1.0;
  }

  lemma TotalIs(counts: seq<nat>)
    ensures SumBy(AsReal(), counts) == TotalCount(counts)
  {
  }

  lemma ShareRange(counts: seq<nat>, i: nat)
    requires i < |counts| && TotalCount(counts) > 0.0
    ensures 0.0 <= Share(TotalCount(counts))(counts[i]) <= 1.0
    ensures Share(TotalCount(counts))(counts[i]) == 1.0 <==> counts[i] as real == TotalCount(counts)
  {
    var t := TotalCount(counts);
    var front, x, back := counts[..i], counts[i], counts[i + 1..];
    assert counts == front + [x] + back;
    SumMiddle(AsReal(), front, x, back);
    CountsNonNegative(front + back);
    hide TotalCount, SumBy;
    QuotientMonotone(x as real, 1.0, t);
    WholeQuotient(x as real, t);
  }

  function Deviation(k: real, total: real): nat -> real
    requires total > 0.0 && k > 0.0
  {
    (c: nat) => (c as real / total - 1.0 / k) * (c as real / total - 1.0 / k)
  }

  /** `HHI - 1/K` is the sum of the squared deviations of the shares from `1/K`. */
  lemma HhiIsDeviation(counts: seq<nat>)
    requires Hhi(counts).Some?
    ensures |counts| > 0 && TotalCount(counts) > 0.0
    ensures Hhi(counts).value
         == 1.0 / |counts| as real + SumBy(Deviation(|counts| as real, TotalCount(counts)), counts)
  {
    hide TotalCount, Deviation, SquaredShare, Share;
    CountsNonNegative(counts);
    var t := TotalCount(counts);
    assert |counts| > 0 by { TotalIs([]); }
    SharesSumToOne(counts);
    var k := |counts| as real;
    DeviationSum(k, t, counts);
    MeanSquare(k);
  }

  lemma MeanSquare(k: real)
    requires k > 0.0
    ensures k * ((1.0 / k) * (1.0 / k)) == 1.0 / k
  {
    assert k * (1.0 / k) == 1.0;
  }

  lemma {:induction false} DeviationSum(k: real, t: real, part: seq<nat>)
    requires t > 0.0 && k > 0.0
    ensures SumBy(Deviation(k, t), part) == SumBy(SquaredShare(t), part)
         - 2.0 * (1.0 / k) * SumBy(Share(t), part) + |part| as real * ((1.0 / k) * (1.0 / k))
  {
    hide Deviation, SquaredShare, Share;
    if part != [] {
      var n := |part| - 1;
      DeviationSum(k, t, part[..n]);
      var s, u := Share(t)(part[n]), 1.0 / k;
      DeviationOf(k, t, part[n]);
      DeviationStep(s, u,
        SumBy(Deviation(k, t), part[..n]), SumBy(SquaredShare(t), part[..n]), SumBy(Share(t), part[..n]), n);
    }
  }

  lemma DeviationOf(k: real, t: real, c: nat)
    requires t > 0.0 && k > 0.0
    ensures Deviation(k, t)(c) == (Share(t)(c) - 1.0 / k) * (Share(t)(c) - 1.0 / k)
    ensures SquaredShare(t)(c) == Share(t)(c) * Share(t)(c)
  {
  }

  lemma DeviationStep(s: real, u: real, deviations: real, squares: real, shares: real, n: nat)
    requires deviations == squares - 2.0 * u * shares + n as real * (u * u)
    ensures deviations + (s - u) * (s - u)
         == squares + s * s - 2.0 * u * (shares + s) + (n + 1) as real * (u * u)
  {
    Distributes(2.0 * u, shares, s);
    TimesSucc(n, u * u);
    assert (s - u) * (s - u) == s * s - 2.0 * u * s + u * u;
  }

  /** The index is at least `1/K`, and exactly that only when the categories are equally used. */
  lemma HhiAtLeast(counts: seq<nat>)
    requires Hhi(counts).Some?
    ensures |counts| > 0 && Hhi(counts).value >= 1.0 / |counts| as real
    ensures Hhi(counts).value == 1.0 / |counts| as real <==>
      forall i | 0 <= i < |counts| :: |counts| as real * counts[i] as real == TotalCount(counts)
  {
    hide Hhi, TotalCount, SumBy, Deviation;
    HhiIsDeviation(counts);
    var k, t := |counts| as real, TotalCount(counts);
    forall i | 0 <= i < |counts|
      ensures Deviation(k, t)(counts[i]) >= 0.0
      ensures Deviation(k, t)(counts[i]) == 0.0 <==> k * counts[i] as real == t
    {
      DeviationZero(k, t, counts[i]);
    }
    SumZero(Deviation(k, t), counts);
  }

  lemma DeviationZero(k: real, t: real, c: nat)
    requires t > 0.0 && k > 0.0
    ensures Deviation(k, t)(c) >= 0.0
    ensures Deviation(k, t)(c) == 0.0 <==> k * c as real == t
  {
    var d := c as real / t - 1.0 / k;
    assert Deviation(k, t)(c) == d * d;
    hide Deviation;
    SquareZero(d);
    EqualQuotients(c as real, t, k);
  }

  lemma EqualQuotients(c: real, t: real, k: real)
    requires t > 0.0 && k > 0.0
    ensures c / t == 1.0 / k <==> k * c == t
  {
    var q, r := c / t, 1.0 / k;
    assert q * t == c && r * k == 1.0;
    if q == r { assert k * c == (r * k) * t; }
    if k * c == t {
      assert (q * k) * t == t;
      assert (q * k - 1.0) * t == 0.0;
      assert q * k == 1.0;
      assert q == 1.0 / k;
    }
  }

  function Slack(total: real): nat -> real
    requires total > 0.0
  {
    (c: nat) => c as real / total - (c as real / total) * (c as real / total)
  }

  lemma {:induction false} SlackSum(t: real, part: seq<nat>)
    requires t > 0.0
    ensures SumBy(Slack(t), part) == SumBy(Share(t), part) - SumBy(SquaredShare(t), part)
  {
    if part != [] {
      SlackSum(t, part[..|part| - 1]);
    }
  }

  /** The index is at most 1, and exactly 1 only when one category holds everything. */
  lemma HhiAtMost(counts: seq<nat>)
    requires Hhi(counts).Some?
    ensures Hhi(counts).value <= 1.0
    ensures Hhi(counts).value == 1.0 <==> exists i :: 0 <= i < |counts| && counts[i] as real == TotalCount(counts)
  {
    hide SumBy, TotalCount, Slack, Share, SquaredShare;
    CountsNonNegative(counts);
    var t := TotalCount(counts);
    SharesSumToOne(counts);
    SlackSum(t, counts);
    forall i | 0 <= i < |counts|
      ensures Slack(t)(counts[i]) >= 0.0
      ensures Slack(t)(counts[i]) == 0.0 <==> counts[i] == 0 || counts[i] as real == t
    {
      SlackAt(counts, i);
    }
    SumZero(Slack(t), counts);
    if i :| 0 <= i < |counts| && counts[i] as real == t {
      OthersEmpty(counts, i);
    } else {
      var i :| 0 <= i < |counts| && counts[i] != 0;
    }
  }

  lemma SlackAt(counts: seq<nat>, i: nat)
    requires i < |counts| && TotalCount(counts) > 0.0
    ensures var t := TotalCount(counts);
      && Slack(t)(counts[i]) >= 0.0
      && (Slack(t)(counts[i]) == 0.0 <==> counts[i] == 0 || counts[i] as real == t)
  {
    hide TotalCount;
    ShareRange(counts, i);
    SlackOf(counts[i] as real, TotalCount(counts));
  }

  lemma SlackOf(c: real, t: real)
    requires t > 0.0 && 0.0 <= c / t <= 1.0
    ensures c / t - (c / t) * (c / t) >= 0.0
    ensures c / t - (c / t) * (c / t) == 0.0 <==> c == 0.0 || c == t
  {
    var q := c / t;
    assert q * t == c;
    assert q - q * q == q * (1.0 - q);
    ProductZero(q, 1.0 - q);
  }

  lemma OthersEmpty(counts: seq<nat>, i: nat)
    requires i < |counts| && counts[i] as real == TotalCount(counts)
    ensures forall j | 0 <= j < |counts| && j != i :: counts[j] == 0
  {
    var front, back := counts[..i], counts[i + 1..];
    assert counts == front + [counts[i]] + back;
    SumMiddle(AsReal(), front, counts[i], back);
    CountsNonNegative(front + back);
    forall j | 0 <= j < |counts| && j != i ensures counts[j] == 0 {
      var k := if j < i then j else j - 1;
      assert (front + back)[k] == counts[j];
    }
  }

  lemma MergeKeepsTotal(a: nat, b: nat, front: seq<nat>, middle: seq<nat>, back: seq<nat>)
    ensures TotalCount(front + [a + b] + middle + back) == TotalCount(front + [a] + middle + [b] + back)
  {
    hide SumBy;
    SumApart(AsReal(), a, b, front, middle, back);
    SumFolded(AsReal(), a + b, front, middle, back);
  }

  lemma MergeRaisesSquares(t: real, a: nat, b: nat, front: seq<nat>, middle: seq<nat>, back: seq<nat>)
    requires t > 0.0
    ensures SumBy<nat>(SquaredShare(t), front + [a + b] + middle + back)
         >= SumBy<nat>(SquaredShare(t), front + [a] + middle + [b] + back)
  {
    hide SumBy;
    SumApart(SquaredShare(t), a, b, front, middle, back);
    SumFolded(SquaredShare(t), a + b, front, middle, back);
    SquaredShareOfSum(t, a, b);
  }

  lemma SquaredShareOfSum(t: real, a: nat, b: nat)
    requires t > 0.0
    ensures SquaredShare(t)(a + b) >= SquaredShare(t)(a) + SquaredShare(t)(b)
  {
    SquareOfSum(a as real, b as real, t);
    assert (a + b) as real == a as real + b as real;
  }

  /** Folding one category into another never lowers the index. */
  lemma HhiMerge(a: nat, b: nat, front: seq<nat>, middle: seq<nat>, back: seq<nat>)
    requires Hhi(front + [a] + middle + [b] + back).Some?
    ensures Hhi(front + [a + b] + middle + back).Some?
    ensures Hhi(front + [a + b] + middle + back).value >= Hhi(front + [a] + middle + [b] + back).value
  {
    hide SumBy, TotalCount, SquaredShare;
    var split := front + [a] + middle + [b] + back;
    CountsNonNegative(split);
    MergeKeepsTotal(a, b, front, middle, back);
    MergeRaisesSquares(TotalCount(split), a, b, front, middle, back);
  }

  lemma SquareOfSum(a: real, b: real, t: real)
    requires a >= 0.0 && b >= 0.0 && t > 0.0
    ensures ((a + b) / t) * ((a + b) / t) >= (a / t) * (a / t) + (b / t) * (b / t)
  {
    var p, q := a / t, b / t;
    assert (a + b) / t == p + q;
    assert (p + q) * (p + q) == p * p + q * q + 2.0 * (p * q);
    ProductZero(p, q);
  }

  lemma SumApart(f: nat -> real, a: nat, b: nat, front: seq<nat>, middle: seq<nat>, back: seq<nat>)
    ensures SumBy(f, front + [a] + middle + [b] + back) == f(a) + f(b) + SumBy(f, front + middle + back)
  {
    hide SumBy;
    SumMiddle(f, front + [a] + middle, b, back);
    assert front + [a] + middle + back == front + [a] + (middle + back);
    SumMiddle(f, front, a, middle + back);
    assert front + middle + back == front + (middle + back);
  }

  lemma SumFolded(f: nat -> real, c: nat, front: seq<nat>, middle: seq<nat>, back: seq<nat>)
    ensures SumBy(f, front + [c] + middle + back) == f(c) + SumBy(f, front + middle + back)
  {
    hide SumBy;
    assert front + [c] + middle + back == front + [c] + (middle + back);
    SumMiddle(f, front, c, middle + back);
    assert front + middle + back == front + (middle + back);
  }

  // ---- Fraction below the median ------------------------------------------------------------------------

  function AtMost(): (real, real) -> bool {
    (x: real, y: real) => x <= y
  }

  function Median(sorted: seq<real>): real
    requires sorted != []
  {
    var n := |sorted|;
    if n % 2 == 1 then sorted[n / 2] else (sorted[n / 2 - 1] + sorted[n / 2]) / 2.0
  }

  function IsBelow(m: real): real -> real {
    v => if v < m then 1.0 else 0.0
  }

  function FractionBelowMedian(values: seq<real>): Option<real> {
    if values == [] then None
    else
      SortPermutes(values, AtMost());
      var median := Median(StableSort(values, AtMost()));
      Some(SumBy(IsBelow(median), values) / |values| as real)
  }

  /** At most half the population, rounded down, is strictly below the median. */
  lemma BelowMedianAtMostHalf(values: seq<real>)
    requires values != []
    ensures FractionBelowMedian(values).Some?
    ensures 0.0 <= FractionBelowMedian(values).value <= (|values| / 2) as real / |values| as real
  {
    hide SumBy, StableSort, Median, Sorted;
    var sorted := StableSort(values, AtMost());
    SortPermutes(values, AtMost());
    RealsSort(values);
    SumPermuted(IsBelow(Median(sorted)), sorted, values);
    BelowInSorted(sorted);
    QuotientInOrder(SumBy(IsBelow(Median(sorted)), values), (|values| / 2) as real, |values| as real);
  }

  lemma RealsSort(values: seq<real>)
    ensures Sorted(StableSort(values, AtMost()), AtMost())
  {
    hide StableSort;
    SortSorts(values, AtMost());
  }

  /** From the middle of a sorted sequence on, nothing is below its median. */
  lemma UpperHalf(sorted: seq<real>, k: nat)
    requires Sorted(sorted, AtMost()) && |sorted| / 2 <= k < |sorted|
    ensures sorted[k] >= Median(sorted)
  {
  }

  lemma BelowInSorted(sorted: seq<real>)
    requires sorted != [] && Sorted(sorted, AtMost())
    ensures 0.0 <= SumBy(IsBelow(Median(sorted)), sorted) <= (|sorted| / 2) as real
  {
    hide SumBy, Median, Sorted;
    var m, h := Median(sorted), |sorted| / 2;
    var low, high := sorted[..h], sorted[h..];
    assert sorted == low + high;
    forall i | 0 <= i < |high| ensures IsBelow(m)(high[i]) == 0.0 {
      UpperHalf(sorted, h + i);
    }
    SumAppend(IsBelow(m), low, high);
    SumZero(IsBelow(m), high);
    SumZero(IsBelow(m), low);
    IndicatorAtMost(IsBelow(m), low);
  }

  lemma {:induction false} IndicatorAtMost(f: real -> real, xs: seq<real>)
    requires forall i | 0 <= i < |xs| :: f(xs[i]) <= 1.0
    ensures SumBy(f, xs) <= |xs| as real
  {
    if xs != [] { IndicatorAtMost(f, xs[..|xs| - 1]); }
  }

  function IsAbove(m: real): real -> real {
    v => if v > m then 1.0 else 0.0
  }

  /** Up to the middle of a sorted sequence nothing is above its median. */
  lemma LowerHalf(sorted: seq<real>, k: nat)
    requires Sorted(sorted, AtMost()) && k < |sorted| - |sorted| / 2
    ensures sorted[k] <= Median(sorted)
  {
    var h := |sorted| / 2;
    if |sorted| % 2 == 0 {
      assert k == h - 1 || AtMost()(sorted[k], sorted[h - 1]);
      assert AtMost()(sorted[h - 1], sorted[h]);
    } else {
      assert k == h || AtMost()(sorted[k], sorted[h]);
    }
  }

  lemma AboveInSorted(sorted: seq<real>)
    requires sorted != [] && Sorted(sorted, AtMost())
    ensures SumBy(IsAbove(Median(sorted)), sorted) <= (|sorted| / 2) as real
  {
    hide SumBy, Median, Sorted;
    var m, h := Median(sorted), |sorted| - |sorted| / 2;
    var low, high := sorted[..h], sorted[h..];
    assert sorted == low + high;
    forall i | 0 <= i < |low| ensures IsAbove(m)(low[i]) == 0.0 {
      LowerHalf(sorted, i);
    }
    SumAppend(IsAbove(m), low, high);
    SumZero(IsAbove(m), low);
    IndicatorAtMost(IsAbove(m), high);
  }

  /** Nor is more than half the population strictly above the median, so that the median stands in the middle. */
  lemma AboveMedianAtMostHalf(values: seq<real>)
    requires values != []
    ensures multiset(StableSort(values, AtMost())) == multiset(values) && StableSort(values, AtMost()) != []
    ensures SumBy(IsAbove(Median(StableSort(values, AtMost()))), values) <= (|values| / 2) as real
  {
    hide SumBy, StableSort, Median, Sorted;
    var sorted := StableSort(values, AtMost());
    SortPermutes(values, AtMost());
    RealsSort(values);
    SumPermuted(IsAbove(Median(sorted)), sorted, values);
    AboveInSorted(sorted);
  }

  lemma {:induction false} AllCounted(f: real -> real, xs: seq<real>)
    requires forall i | 0 <= i < |xs| :: f(xs[i]) == 1.0
    ensures SumBy(f, xs) == |xs| as real
  {
    if xs != [] { AllCounted(f, xs[..|xs| - 1]); }
  }

  /** When no two values are equal, exactly half of them, rounded down, are below the median. */
  lemma BelowMedianExact(values: seq<real>)
    requires values != [] && forall i, j | 0 <= i < j < |values| :: values[i] != values[j]
    ensures FractionBelowMedian(values) == Some((|values| / 2) as real / |values| as real)
  {
    hide SumBy, StableSort, Median, Sorted;
    var sorted := StableSort(values, AtMost());
    SortPermutes(values, AtMost());
    RealsSort(values);
    DistinctSorted(values, sorted);
    var m, h := Median(sorted), |sorted| / 2;
    SumPermuted(IsBelow(m), sorted, values);
    BelowInSorted(sorted);
    var low, high := sorted[..h], sorted[h..];
    assert sorted == low + high;
    forall i | 0 <= i < |low| ensures IsBelow(m)(low[i]) == 1.0 { StrictlyBelow(sorted, i); }
    AllCounted(IsBelow(m), low);
    SumAppend(IsBelow(m), low, high);
    SumZero(IsBelow(m), high);
  }

  lemma StrictlyBelow(sorted: seq<real>, k: nat)
    requires (forall i, j | 0 <= i < j < |sorted| :: sorted[i] < sorted[j]) && k < |sorted| / 2
    ensures sorted[k] < Median(sorted)
  {
    assert sorted[k] < sorted[|sorted| / 2];
    if |sorted| % 2 == 0 { assert k == |sorted| / 2 - 1 || sorted[k] < sorted[|sorted| / 2 - 1]; }
  }

  lemma DistinctSorted(values: seq<real>, sorted: seq<real>)
    requires multiset(sorted) == multiset(values) && Sorted(sorted, AtMost())
    requires forall i, j | 0 <= i < j < |values| :: values[i] != values[j]
    ensures forall i, j | 0 <= i < j < |sorted| :: sorted[i] < sorted[j]
  {
    forall i, j | 0 <= i < j < |sorted| ensures sorted[i] < sorted[j] {
      assert AtMost()(sorted[i], sorted[j]);
      if sorted[i] == sorted[j] {
        Twice(sorted, i, j);
        OnceEach(values, sorted[i]);
      }
    }
  }

  lemma Twice(xs: seq<real>, i: nat, j: nat)
    requires i < j < |xs| && xs[i] == xs[j]
    ensures multiset(xs)[xs[i]] >= 2
  {
    assert xs == xs[..i] + [xs[i]] + xs[i + 1..j] + [xs[j]] + xs[j + 1..];
  }

  lemma {:induction false} OnceEach(xs: seq<real>, x: real)
    requires forall i, j | 0 <= i < j < |xs| :: xs[i] != xs[j]
    ensures multiset(xs)[x] <= 1
  {
    if xs != [] {
      var n := |xs| - 1;
      assert xs == xs[..n] + [xs[n]];
      OnceEach(xs[..n], x);
      if xs[n] == x {
        assert x !in xs[..n];
      }
    }
  }

  lemma FractionBelowPermuted(xs: seq<real>, ys: seq<real>)
    requires multiset(xs) == multiset(ys)
    ensures FractionBelowMedian(xs) == FractionBelowMedian(ys)
  {
    assert |multiset(xs)| == |multiset(ys)|;
    SortPermutes(xs, AtMost());
    SortPermutes(ys, AtMost());
    SortSorts(xs, AtMost());
    SortSorts(ys, AtMost());
    SortedUnique(StableSort(xs, AtMost()), StableSort(ys, AtMost()), AtMost());
    if xs != [] {
      SumPermuted(IsBelow(Median(StableSort(xs, AtMost()))), xs, ys);
    }
  }

  // ---- Diversity of capabilities --------------------------------------------------------------------------

  type Capability = (string, string)

  /** Tuples compare by their first component, then their second. */
  predicate TupleLeq(a: Capability, b: Capability) {
    if a.0 == b.0 then LexLeq(a.1, b.1) else LexLeq(a.0, b.0)
  }

  /** Keep one of each run of equal neighbours. */
  function Dedup<T(==)>(s: seq<T>): seq<T> {
    if |s| < 2 then s
    else if s[0] == s[1] then Dedup(s[1..])
    else [s[0]] + Dedup(s[1..])
  }

  function CapabilityDiversity(tuples: seq<Capability>): Option<real> {
    if tuples == [] then None
    else Some(|Dedup(StableSort(tuples, TupleLeq))| as real / |tuples| as real)
  }

  function Elements<T>(s: seq<T>): set<T> {
    set x | x in s
  }

  /** On a sorted sequence, dropping equal neighbours leaves one of each value. */
  lemma {:induction false} DedupCounts<T>(s: seq<T>, le: (T, T) -> bool)
    requires Sorted(s, le) && Separates(le, s)
    ensures |Dedup(s)| == |Elements(s)|
  {
    if s == [] {
      assert Elements(s) == {};
    } else if |s| == 1 {
      assert Elements(s) == {s[0]};
    } else {
      DedupCounts(s[1..], le);
      if s[0] == s[1] {
        assert Elements(s) == Elements(s[1..]);
      } else {
        HeadIsNew(s, le);
        assert Elements(s) == Elements(s[1..]) + {s[0]};
      }
    }
  }

  lemma HeadIsNew<T>(s: seq<T>, le: (T, T) -> bool)
    requires |s| >= 2 && Sorted(s, le) && Separates(le, s) && s[0] != s[1]
    ensures s[0] !in s[1..]
  {
  }

  lemma TupleOrder()
    ensures TotalPreorder(TupleLeq)
    ensures forall a, b :: TupleLeq(a, b) && TupleLeq(b, a) ==> a == b
  {
    forall a: Capability, b: Capability ensures TupleLeq(a, b) || TupleLeq(b, a) {
      LexTotal(a.0, b.0);
      LexTotal(a.1, b.1);
    }
    forall a: Capability, b: Capability | TupleLeq(a, b) && TupleLeq(b, a) ensures a == b {
      if a.0 == b.0 { LexAntisymmetric(a.1, b.1); } else { LexAntisymmetric(a.0, b.0); }
    }
    forall a: Capability, b: Capability, c: Capability | TupleLeq(a, b) && TupleLeq(b, c) ensures TupleLeq(a, c) {
      TupleTransitive(a, b, c);
    }
  }

  lemma TupleTransitive(a: Capability, b: Capability, c: Capability)
    requires TupleLeq(a, b) && TupleLeq(b, c)
    ensures TupleLeq(a, c)
  {
    hide LexLeq;
    if a.0 == b.0 == c.0 {
      LexTransitive(a.1, b.1, c.1);
    } else if a.0 != b.0 && b.0 != c.0 {
      LexTransitive(a.0, b.0, c.0);
      if a.0 == c.0 { LexAntisymmetric(a.0, b.0); }
    }
  }

  /** Sorting and removing equal neighbours counts the distinct tuples. */
  lemma DiversityCountsDistinct(tuples: seq<Capability>)
    requires tuples != []
    ensures CapabilityDiversity(tuples) == Some(|Elements(tuples)| as real / |tuples| as real)
  {
    var sorted := StableSort(tuples, TupleLeq);
    TupleOrder();
    SortPermutes(tuples, TupleLeq);
    SortSorts(tuples, TupleLeq);
    DedupCounts(sorted, TupleLeq);
    assert Elements(sorted) == Elements(tuples) by {
      forall x ensures x in sorted <==> x in tuples {
        assert x in multiset(sorted) <==> x in multiset(tuples);
      }
    }
  }
}
