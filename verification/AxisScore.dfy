/**
 Threshold-with-polarity scoring of an axis metric (detector/axis_metrics.rs,
 scoring/axis_calibration.rs).  A metric is a float: a number or NaN; the calibrated constants are
 numbers.
 */
module AxisScore {
  import opened Wrappers
  import opened Floats
  import opened Reals
  import opened Concentration

  datatype Direction = AtOrAbove | AtOrBelow | OutsideCorridor

  datatype Corridor = Corridor(upperBound: Option<real>, lowerBound: Option<real>)

  datatype ThresholdFunction = ThresholdFunction(
    metric: string,
    thresholdValue: real,
    thresholdPctile: real,
    scoreAtThreshold: real,
    zeroVariance: bool,
    directionField: Option<Direction>,
    corridor: Option<Corridor>)

  datatype Conformity = Numeric(score: real) | AwaitingCalibration

  /** The explicit direction, or the one the percentile tail implies. */
  function ConcernDirection(tf: ThresholdFunction): Direction {
    match tf.directionField
    case Some(direction) => direction
    case None => if tf.thresholdPctile <= 0.5 then AtOrBelow else AtOrAbove
  }

  function CorridorUpperBound(tf: ThresholdFunction): real {
    if tf.corridor.Some? && tf.corridor.value.upperBound.Some? then tf.corridor.value.upperBound.value
    else tf.thresholdValue
  }

  function CorridorLowerBound(tf: ThresholdFunction): Option<real> {
    if tf.corridor.Some? then tf.corridor.value.lowerBound else None
  }

  const UNIT_METRICS: set<string> :=
    {"compute_gini", "models_hhi", "part_excl_frac", "pdma_rate_within", "nonmember_frac"}

  function Ceiling(tf: ThresholdFunction): real {
    if tf.metric in UNIT_METRICS then 1.0 else 2.0 * tf.thresholdValue
  }

  function Clamp(r: real): real {
    if r < 0.0 then 0.0 else if r > 1.0 then 1.0 else r
  }

  function SeverityScaledScore(m: real, tf: ThresholdFunction): real {
    var s0, t := tf.scoreAtThreshold, tf.thresholdValue;
    match ConcernDirection(tf)
    case AtOrBelow =>
      if t <= 0.0 then s0 else s0 * (1.0 + Clamp((t - m) / t))
    case _ =>
      if Ceiling(tf) <= t then s0 else s0 * (1.0 + Clamp((m - t) / (Ceiling(tf) - t)))
  }

  predicate Crosses(m: Float, tf: ThresholdFunction) {
    && m.Num?
    && match ConcernDirection(tf)
       case AtOrAbove => m.value >= tf.thresholdValue
       case AtOrBelow => m.value <= tf.thresholdValue
       case OutsideCorridor =>
         var above := m.value >= CorridorUpperBound(tf);
         var below := CorridorLowerBound(tf).Some? && m.value <= CorridorLowerBound(tf).value;
         above || below
  }

  function ScoreAgainstAxis(m: Float, tf: ThresholdFunction): Conformity {
    if tf.zeroVariance && m.Num? && m.value <= 0.0 then AwaitingCalibration
    else if Crosses(m, tf) then Numeric(SeverityScaledScore(m.value, tf))
    else Numeric(0.0)
  }

  /** A missing metric is a missing signal, not a calibrated zero. */
  function ScoreMetric(metric: Option<Float>, tf: ThresholdFunction): Conformity {
    match metric
    case Some(m) => ScoreAgainstAxis(m, tf)
    case None => AwaitingCalibration
  }

  /** How far, from 0 to 1, a metric has travelled into the concern region. */
  function Severity(m: real, tf: ThresholdFunction): real {
    var t := tf.thresholdValue;
    match ConcernDirection(tf)
    case AtOrBelow => if t <= 0.0 then 0.0 else Clamp((t - m) / t)
    case _ => if Ceiling(tf) <= t then 0.0 else Clamp((m - t) / (Ceiling(tf) - t))
  }

  lemma ScoreBySeverity(m: real, tf: ThresholdFunction)
    ensures SeverityScaledScore(m, tf) == tf.scoreAtThreshold * (1.0 + Severity(m, tf))
    ensures 0.0 <= Severity(m, tf) <= 1.0
  {
  }

  lemma Ramp(s0: real, f: real)
    requires s0 < 0.0 && 0.0 <= f <= 1.0
    ensures 2.0 * s0 <= s0 * (1.0 + f) <= s0
    ensures s0 * (1.0 + f) == s0 <==> f == 0.0
    ensures s0 * (1.0 + f) == 2.0 * s0 <==> f == 1.0
  {
    ProductZero(-s0, f);
    ProductZero(-s0, 1.0 - f);
    assert s0 * (1.0 + f) == s0 - (-s0) * f == 2.0 * s0 + (-s0) * (1.0 - f);
  }

  /** Every numeric score is 0 or lies between twice the anchor and the anchor. */
  lemma ScoreRange(m: Float, tf: ThresholdFunction)
    requires tf.scoreAtThreshold < 0.0 && ScoreAgainstAxis(m, tf).Numeric?
    ensures var score := ScoreAgainstAxis(m, tf).score;
      score == 0.0 || 2.0 * tf.scoreAtThreshold <= score <= tf.scoreAtThreshold
  {
    hide SeverityScaledScore, Severity, Crosses;
    if Crosses(m, tf) {
      assert m.Num? by { OnlyNumbersCross(m, tf); }
      ScoreBySeverity(m.value, tf);
      Ramp(tf.scoreAtThreshold, Severity(m.value, tf));
      assert ScoreAgainstAxis(m, tf).score == SeverityScaledScore(m.value, tf);
    }
  }

  lemma OnlyNumbersCross(m: Float, tf: ThresholdFunction)
    requires Crosses(m, tf)
    ensures m.Num?
  {
  }

  /**
   The verdict is withheld exactly for a number at or below 0 on a zero-variance axis; otherwise the
   score is non-zero exactly when the metric crosses in its direction of concern, which NaN never does.
   */
  lemma NonzeroIffConcern(m: Float, tf: ThresholdFunction)
    requires tf.scoreAtThreshold < 0.0
    ensures ScoreAgainstAxis(m, tf) == AwaitingCalibration <==> tf.zeroVariance && m.Num? && m.value <= 0.0
    ensures ScoreAgainstAxis(m, tf).Numeric? ==> (ScoreAgainstAxis(m, tf).score != 0.0 <==> Crosses(m, tf))
    ensures m.NaN? ==> ScoreAgainstAxis(m, tf) == Numeric(0.0)
  {
    hide SeverityScaledScore, Severity;
    if m.Num? {
      ScoreBySeverity(m.value, tf);
      Ramp(tf.scoreAtThreshold, Severity(m.value, tf));
    }
  }

  /** The anchor is the score exactly at the threshold, and exactly beyond the ceiling it doubles. */
  lemma AnchorAndSaturation(m: real, tf: ThresholdFunction)
    requires tf.scoreAtThreshold < 0.0 && Crosses(Num(m), tf) && ScoreAgainstAxis(Num(m), tf).Numeric?
    ensures var t, score := tf.thresholdValue, ScoreAgainstAxis(Num(m), tf).score;
      match ConcernDirection(tf)
      case AtOrBelow =>
        && (score == tf.scoreAtThreshold <==> t <= 0.0 || m == t)
        && (score == 2.0 * tf.scoreAtThreshold <==> t > 0.0 && m <= 0.0)
      case AtOrAbove =>
        && (score == tf.scoreAtThreshold <==> Ceiling(tf) <= t || m == t)
        && (score == 2.0 * tf.scoreAtThreshold <==> Ceiling(tf) > t && m >= Ceiling(tf))
      case OutsideCorridor =>
        && (score == tf.scoreAtThreshold <==> Ceiling(tf) <= t || m <= t)
        && (score == 2.0 * tf.scoreAtThreshold <==> Ceiling(tf) > t && m >= Ceiling(tf))
  {
    SeverityEnds(m, tf);
    ScoreBySeverity(m, tf);
    hide SeverityScaledScore, Severity, Ceiling;
    Ramp(tf.scoreAtThreshold, Severity(m, tf));
  }

  lemma SeverityEnds(m: real, tf: ThresholdFunction)
    ensures var t := tf.thresholdValue;
      if ConcernDirection(tf).AtOrBelow? then
        && (Severity(m, tf) == 0.0 <==> t <= 0.0 || m >= t)
        && (Severity(m, tf) == 1.0 <==> t > 0.0 && m <= 0.0)
      else
        && (Severity(m, tf) == 0.0 <==> Ceiling(tf) <= t || m <= t)
        && (Severity(m, tf) == 1.0 <==> Ceiling(tf) > t && m >= Ceiling(tf))
  {
    hide Ceiling;
    var t, c := tf.thresholdValue, Ceiling(tf);
    if t > 0.0 { ClampedQuotient(t - m, t); }
    if c > t { ClampedQuotient(m - t, c - t); }
  }

  lemma ClampedQuotient(a: real, b: real)
    requires b > 0.0
    ensures Clamp(a / b) == 0.0 <==> a <= 0.0
    ensures Clamp(a / b) == 1.0 <==> a >= b
  {
    var q := a / b;
    assert q * b == a;
    ScaledSign(b, q);
    ScaledSign(b, q - 1.0);
    assert b * (q - 1.0) == a - b;
  }

  lemma ClampedMonotone(a: real, b: real, d: real)
    requires d > 0.0 && a <= b
    ensures Clamp(a / d) <= Clamp(b / d)
    ensures a < b && 0.0 <= a && b <= d ==> Clamp(a / d) < Clamp(b / d)
  {
    var p, q := a / d, b / d;
    assert p * d == a && q * d == b;
    assert d * (p - q) == a - b;
    ScaledSign(d, p - q);
    ScaledSign(d, -p);
    ScaledSign(d, q - 1.0);
    assert d * (-p) == -a && d * (q - 1.0) == b - d;
  }

  /** Upper-tail concern: a higher metric never scores better, and scores worse below the ceiling. */
  lemma HigherIsWorse(m: real, higher: real, tf: ThresholdFunction)
    requires tf.scoreAtThreshold < 0.0 && ConcernDirection(tf) == AtOrAbove && m <= higher
    requires ScoreAgainstAxis(Num(m), tf).Numeric? && ScoreAgainstAxis(Num(higher), tf).Numeric?
    ensures ScoreAgainstAxis(Num(higher), tf).score <= ScoreAgainstAxis(Num(m), tf).score
    ensures tf.thresholdValue <= m < higher <= Ceiling(tf) ==>
      ScoreAgainstAxis(Num(higher), tf).score < ScoreAgainstAxis(Num(m), tf).score
  {
    var t, c := tf.thresholdValue, Ceiling(tf);
    if c > t { ClampedMonotone(m - t, higher - t, c - t); }
    MoreSevere(m, higher, tf);
  }

  /** Lower-tail concern: a lower metric never scores better, and scores worse above zero. */
  lemma LowerIsWorse(m: real, lower: real, tf: ThresholdFunction)
    requires tf.scoreAtThreshold < 0.0 && ConcernDirection(tf) == AtOrBelow && lower <= m
    requires ScoreAgainstAxis(Num(m), tf).Numeric? && ScoreAgainstAxis(Num(lower), tf).Numeric?
    ensures ScoreAgainstAxis(Num(lower), tf).score <= ScoreAgainstAxis(Num(m), tf).score
    ensures 0.0 <= lower < m <= tf.thresholdValue ==>
      ScoreAgainstAxis(Num(lower), tf).score < ScoreAgainstAxis(Num(m), tf).score
  {
    var t := tf.thresholdValue;
    if t > 0.0 { ClampedMonotone(t - m, t - lower, t); }
    MoreSevere(m, lower, tf);
  }

  /** Above the corridor a higher metric never scores better, and scores worse between threshold and ceiling. */
  lemma HigherIsWorseAboveCorridor(m: real, higher: real, tf: ThresholdFunction)
    requires tf.scoreAtThreshold < 0.0 && ConcernDirection(tf) == OutsideCorridor
    requires CorridorUpperBound(tf) <= m <= higher
    requires ScoreAgainstAxis(Num(m), tf).Numeric? && ScoreAgainstAxis(Num(higher), tf).Numeric?
    ensures ScoreAgainstAxis(Num(higher), tf).score <= ScoreAgainstAxis(Num(m), tf).score
    ensures tf.thresholdValue <= m < higher <= Ceiling(tf) ==>
      ScoreAgainstAxis(Num(higher), tf).score < ScoreAgainstAxis(Num(m), tf).score
  {
    var t, c := tf.thresholdValue, Ceiling(tf);
    if c > t { ClampedMonotone(m - t, higher - t, c - t); }
    MoreSevere(m, higher, tf);
  }

  lemma MoreSevere(m: real, worse: real, tf: ThresholdFunction)
    requires tf.scoreAtThreshold < 0.0 && (Crosses(Num(m), tf) ==> Crosses(Num(worse), tf))
    requires ScoreAgainstAxis(Num(m), tf).Numeric? && ScoreAgainstAxis(Num(worse), tf).Numeric?
    requires Severity(m, tf) <= Severity(worse, tf)
    ensures ScoreAgainstAxis(Num(worse), tf).score <= ScoreAgainstAxis(Num(m), tf).score
    ensures Crosses(Num(m), tf) && Severity(m, tf) < Severity(worse, tf) ==>
      ScoreAgainstAxis(Num(worse), tf).score < ScoreAgainstAxis(Num(m), tf).score
  {
    hide SeverityScaledScore, Severity, Crosses;
    var s0 := tf.scoreAtThreshold;
    ScoreBySeverity(m, tf);
    ScoreBySeverity(worse, tf);
    Ramp(s0, Severity(worse, tf));
    Steeper(s0, Severity(m, tf), Severity(worse, tf));
  }

  lemma Steeper(s0: real, f: real, g: real)
    requires s0 < 0.0 && f <= g
    ensures s0 * (1.0 + g) <= s0 * (1.0 + f)
    ensures f < g ==> s0 * (1.0 + g) < s0 * (1.0 + f)
  {
    assert s0 * (1.0 + g) == s0 * (1.0 + f) - (-s0) * (g - f);
    ProductZero(-s0, g - f);
  }

  // ---- The lower pole of a corridor ----------------------------------------------------------------------

  /** At or below both the lower bound and the threshold the score is the anchor. */
  lemma LowerPoleIsFlat(m: real, lower: real, tf: ThresholdFunction)
    requires tf.scoreAtThreshold < 0.0 && ConcernDirection(tf) == OutsideCorridor
    requires CorridorLowerBound(tf).Some? && lower <= m <= CorridorLowerBound(tf).value && m <= tf.thresholdValue
    requires ScoreAgainstAxis(Num(m), tf).Numeric? && ScoreAgainstAxis(Num(lower), tf).Numeric?
    ensures ScoreAgainstAxis(Num(lower), tf) == ScoreAgainstAxis(Num(m), tf) == Numeric(tf.scoreAtThreshold)
  {
    AnchorAndSaturation(m, tf);
    AnchorAndSaturation(lower, tf);
  }

  /** The ramp follows the upper pole only: below the corridor a lower metric never scores worse. */
  lemma LowerPoleNeverWorsens(m: real, lower: real, tf: ThresholdFunction)
    requires tf.scoreAtThreshold < 0.0 && ConcernDirection(tf) == OutsideCorridor
    requires CorridorLowerBound(tf).Some? && lower <= m <= CorridorLowerBound(tf).value
    requires ScoreAgainstAxis(Num(m), tf).Numeric? && ScoreAgainstAxis(Num(lower), tf).Numeric?
    ensures ScoreAgainstAxis(Num(lower), tf).score >= ScoreAgainstAxis(Num(m), tf).score
  {
    var t, c := tf.thresholdValue, Ceiling(tf);
    if c > t { ClampedMonotone(lower - t, m - t, c - t); }
    MoreSevere(lower, m, tf);
  }

  /** Below the corridor, falling further never improves the score. */
  ghost predicate MonotoneBelowCorridor(tf: ThresholdFunction)
    requires CorridorLowerBound(tf).Some?
  {
    forall lower: real, m: real | lower <= m <= CorridorLowerBound(tf).value ::
      NotBetter(ScoreAgainstAxis(Num(lower), tf), ScoreAgainstAxis(Num(m), tf))
  }

  /** A numeric verdict is no better than another; one that is withheld compares with nothing. */
  predicate NotBetter(verdict: Conformity, other: Conformity) {
    verdict.Numeric? && other.Numeric? ==> verdict.score <= other.score
  }

  /**
   The severity ramp is monotone below the corridor exactly when there is no head-room above the
   threshold, or the lower bound does not exceed the threshold, or the axis withholds every verdict there.
   */
  lemma LowerPoleMonotoneIff(tf: ThresholdFunction)
    requires tf.scoreAtThreshold < 0.0 && ConcernDirection(tf) == OutsideCorridor && CorridorLowerBound(tf).Some?
    ensures MonotoneBelowCorridor(tf) <==>
      var t, bound := tf.thresholdValue, CorridorLowerBound(tf).value;
      Ceiling(tf) <= t || bound <= t || (tf.zeroVariance && bound <= 0.0)
  {
    var t, bound := tf.thresholdValue, CorridorLowerBound(tf).value;
    if Ceiling(tf) <= t || bound <= t || (tf.zeroVariance && bound <= 0.0) {
      forall lower: real, m: real | lower <= m <= bound
        ensures NotBetter(ScoreAgainstAxis(Num(lower), tf), ScoreAgainstAxis(Num(m), tf))
      {
        NoImprovement(lower, m, tf);
      }
    } else {
      var lower := Improving(tf);
      assert !NotBetter(ScoreAgainstAxis(Num(lower), tf), ScoreAgainstAxis(Num(bound), tf));
    }
  }

  lemma NoImprovement(lower: real, m: real, tf: ThresholdFunction)
    requires tf.scoreAtThreshold < 0.0 && ConcernDirection(tf) == OutsideCorridor && CorridorLowerBound(tf).Some?
    requires lower <= m <= CorridorLowerBound(tf).value
    requires var t, bound := tf.thresholdValue, CorridorLowerBound(tf).value;
      Ceiling(tf) <= t || bound <= t || (tf.zeroVariance && bound <= 0.0)
    ensures NotBetter(ScoreAgainstAxis(Num(lower), tf), ScoreAgainstAxis(Num(m), tf))
  {
    hide Ceiling, SeverityScaledScore;
    if ScoreAgainstAxis(Num(lower), tf).Numeric? && ScoreAgainstAxis(Num(m), tf).Numeric? {
      AnchorAndSaturation(m, tf);
      AnchorAndSaturation(lower, tf);
    }
  }

  /** A metric below the lower bound that scores better than the bound itself. */
  lemma Improving(tf: ThresholdFunction) returns (lower: real)
    requires tf.scoreAtThreshold < 0.0 && ConcernDirection(tf) == OutsideCorridor && CorridorLowerBound(tf).Some?
    requires Ceiling(tf) > tf.thresholdValue && CorridorLowerBound(tf).value > tf.thresholdValue
    requires tf.zeroVariance ==> CorridorLowerBound(tf).value > 0.0
    ensures var bound := CorridorLowerBound(tf).value;
      && lower <= bound
      && ScoreAgainstAxis(Num(lower), tf).Numeric? && ScoreAgainstAxis(Num(bound), tf).Numeric?
      && ScoreAgainstAxis(Num(lower), tf).score > ScoreAgainstAxis(Num(bound), tf).score
  {
    var t, c, bound := tf.thresholdValue, Ceiling(tf), CorridorLowerBound(tf).value;
    var inside := if bound < c then bound else c;
    lower := if tf.zeroVariance && t <= 0.0 then inside / 2.0 else t;
    ClampedMonotone(lower - t, inside - t, c - t);
    ClampedMonotone(inside - t, bound - t, c - t);
    MoreSevere(lower, bound, tf);
  }

  /** With the threshold below the corridor, falling from 0.5 to 0.25 brings the score back to the anchor. */
  lemma LowerPoleImproves() returns (tf: ThresholdFunction)
    ensures tf.metric == "compute_gini" && tf.thresholdValue == 0.25 && tf.scoreAtThreshold == -1.0
    ensures ConcernDirection(tf) == OutsideCorridor
      && CorridorLowerBound(tf) == Some(0.6) && CorridorUpperBound(tf) == 0.9
    ensures ScoreAgainstAxis(Num(0.25), tf) == Numeric(-1.0)
    ensures ScoreAgainstAxis(Num(0.5), tf) == Numeric(-4.0 / 3.0)
  {
    var corridor := Corridor(Some(0.9), Some(0.6));
    tf := ThresholdFunction("compute_gini", 0.25, 0.75, -1.0, false, Some(OutsideCorridor), Some(corridor));
  }

  // ---- The metrics meet their scores --------------------------------------------------------------------

  /** With head-room below 1, no population of non-negative values can reach the worst Gini score. */
  lemma GiniNeverSaturates(xs: seq<real>, tf: ThresholdFunction)
    requires NonNegative(xs) && GiniOf(xs).Some?
    requires tf.metric == "compute_gini" && !ConcernDirection(tf).AtOrBelow?
    requires tf.scoreAtThreshold < 0.0
    requires ScoreMetric(Some(Num(GiniOf(xs).value)), tf).Numeric?
    ensures ScoreMetric(Some(Num(GiniOf(xs).value)), tf).score > 2.0 * tf.scoreAtThreshold
  {
    hide GiniOf, SeverityScaledScore;
    GiniRange(xs);
    GiniDefined(xs);
    var g, n := GiniOf(xs).value, |xs| as real;
    assert (n - 1.0) / n < 1.0;
    ScoreRange(Num(g), tf);
    if Crosses(Num(g), tf) { AnchorAndSaturation(g, tf); }
  }

  lemma GiniDefined(xs: seq<real>)
    requires GiniOf(xs).Some?
    ensures |xs| > 0
  {
  }

  /** The worst model-concentration score is reached exactly by a monopoly. */
  lemma WorstHhiIffMonopoly(counts: seq<nat>, tf: ThresholdFunction)
    requires Hhi(counts).Some?
    requires tf.metric == "models_hhi" && !ConcernDirection(tf).AtOrBelow?
    requires tf.scoreAtThreshold < 0.0 && tf.thresholdValue < 1.0 && CorridorUpperBound(tf) <= 1.0
    ensures ScoreMetric(Some(Num(Hhi(counts).value)), tf) == Numeric(2.0 * tf.scoreAtThreshold) <==>
      exists i :: 0 <= i < |counts| && counts[i] as real == TotalCount(counts)
  {
    hide Hhi, SeverityScaledScore, TotalCount;
    HhiAtMost(counts);
    HhiAtLeast(counts);
    var h := Hhi(counts).value;
    assert h > 0.0 by { assert 1.0 / |counts| as real > 0.0; }
    if Crosses(Num(h), tf) { AnchorAndSaturation(h, tf); }
  }

  /** A participation-exclusion axis with its threshold above one half can never fire. */
  lemma ExclusionAboveHalfIsSilent(values: seq<real>, tf: ThresholdFunction)
    requires values != [] && FractionBelowMedian(values).Some?
    requires ConcernDirection(tf) == AtOrAbove && tf.thresholdValue > 0.5 && !tf.zeroVariance
    ensures ScoreMetric(Some(Num(FractionBelowMedian(values).value)), tf) == Numeric(0.0)
  {
    hide FractionBelowMedian, SeverityScaledScore;
    BelowMedianAtMostHalf(values);
    var n := |values|;
    QuotientInOrder((n / 2) as real, n as real * 0.5, n as real);
    assert (n as real * 0.5) / n as real == 0.5;
  }

  /** One NaN in the population makes the Gini axis read as in-band, whatever the other values. */
  lemma NaNReadsInBand(values: seq<Float>, tf: ThresholdFunction)
    requires !AllNum(values)
    ensures ScoreMetric(GiniOfFloats(values), tf) == Numeric(0.0)
  {
  }

  // ---- The verdict in the words of the calibration ---------------------------------------------------------

  /** The metric is of concern: at or past the threshold itself, in the direction the calibration names or implies. */
  predicate OfConcern(m: real, tf: ThresholdFunction) {
    var t := tf.thresholdValue;
    if tf.directionField == Some(AtOrAbove) || (tf.directionField == None && tf.thresholdPctile > 0.5) then m >= t
    else if tf.directionField == Some(AtOrBelow) || tf.directionField == None then m <= t
    else
      var upper := if tf.corridor.Some? then tf.corridor.value.upperBound else None;
      || m >= (if upper.Some? then upper.value else t)
      || (tf.corridor.Some? && tf.corridor.value.lowerBound.Some? && m <= tf.corridor.value.lowerBound.value)
  }

  /** A verdict is withheld, in-band or negative exactly as the calibration and the metric say. */
  lemma VerdictReads(m: real, tf: ThresholdFunction)
    requires tf.scoreAtThreshold < 0.0
    ensures var verdict := ScoreMetric(Some(Num(m)), tf);
      if tf.zeroVariance && m <= 0.0 then verdict == AwaitingCalibration
      else if OfConcern(m, tf) then verdict.Numeric? && verdict.score < 0.0
      else verdict == Numeric(0.0)
    ensures ScoreMetric(None, tf) == AwaitingCalibration
  {
    hide SeverityScaledScore;
    assert Crosses(Num(m), tf) <==> OfConcern(m, tf);
    NonzeroIffConcern(Num(m), tf);
    if ScoreAgainstAxis(Num(m), tf).Numeric? { ScoreRange(Num(m), tf); }
  }

  /** The ceiling is 1 for the five metrics that cannot exceed it, and twice the threshold for the others. */
  lemma CeilingReads(tf: ThresholdFunction)
    ensures Ceiling(tf) ==
      if tf.metric == "compute_gini" || tf.metric == "models_hhi" || tf.metric == "part_excl_frac"
         || tf.metric == "pdma_rate_within" || tf.metric == "nonmember_frac" then 1.0
      else 2.0 * tf.thresholdValue
  {
  }

  /** Between the anchor and saturation the ramp is a straight line: halfway between two metrics, halfway in score. */
  lemma RampIsLinear(m: real, other: real, tf: ThresholdFunction)
    requires var t := tf.thresholdValue;
      if ConcernDirection(tf) == AtOrBelow then t > 0.0 && 0.0 <= m <= t && 0.0 <= other <= t
      else t < Ceiling(tf) && t <= m <= Ceiling(tf) && t <= other <= Ceiling(tf)
    ensures 2.0 * SeverityScaledScore((m + other) / 2.0, tf) ==
      SeverityScaledScore(m, tf) + SeverityScaledScore(other, tf)
  {
    hide SeverityScaledScore, Severity, Ceiling;
    HalfwayOf(m, other, tf);
    ScoreBySeverity(m, tf);
    ScoreBySeverity(other, tf);
    ScoreBySeverity((m + other) / 2.0, tf);
    HalfwayScore(tf.scoreAtThreshold, Severity(m, tf), Severity(other, tf), Severity((m + other) / 2.0, tf));
  }

  lemma HalfwayOf(m: real, other: real, tf: ThresholdFunction)
    requires var t := tf.thresholdValue;
      if ConcernDirection(tf) == AtOrBelow then t > 0.0 && 0.0 <= m <= t && 0.0 <= other <= t
      else t < Ceiling(tf) && t <= m <= Ceiling(tf) && t <= other <= Ceiling(tf)
    ensures 2.0 * Severity((m + other) / 2.0, tf) == Severity(m, tf) + Severity(other, tf)
  {
    hide Ceiling, Clamp;
    var t, c := tf.thresholdValue, Ceiling(tf);
    if ConcernDirection(tf) == AtOrBelow {
      HalfwaySeverity(t - m, t - other, t - (m + other) / 2.0, t);
    } else {
      HalfwaySeverity(m - t, other - t, (m + other) / 2.0 - t, c - t);
    }
  }

  lemma HalfwaySeverity(a: real, b: real, half: real, d: real)
    requires d > 0.0 && 0.0 <= a <= d && 0.0 <= b <= d && 2.0 * half == a + b
    ensures 2.0 * Clamp(half / d) == Clamp(a / d) + Clamp(b / d)
  {
    QuotientMonotone(a, 1.0, d);
    QuotientMonotone(b, 1.0, d);
    QuotientMonotone(half, 1.0, d);
    DivisionIsScaling(a, d);
    DivisionIsScaling(b, d);
    DivisionIsScaling(half, d);
    Distributes(1.0 / d, a, b);
  }

  lemma HalfwayScore(s0: real, f: real, g: real, h: real)
    requires 2.0 * h == f + g
    ensures 2.0 * (s0 * (1.0 + h)) == s0 * (1.0 + f) + s0 * (1.0 + g)
  {
    Distributes(s0, 1.0 + f, 1.0 + g);
  }
}
