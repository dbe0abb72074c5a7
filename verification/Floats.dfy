/** Floating-point values as exact reals and one NaN, which every operation propagates. */
module Floats {
  datatype Float = NaN | Num(value: real)

  function Plus(a: Float, b: Float): Float {
    if a.Num? && b.Num? then Num(a.value + b.value) else NaN
  }

  function Minus(a: Float, b: Float): Float {
    if a.Num? && b.Num? then Num(a.value - b.value) else NaN
  }

  function Times(a: Float, b: Float): Float {
    if a.Num? && b.Num? then Num(a.value * b.value) else NaN
  }

  /** Division, asked for by the program only when the divisor is positive or NaN. */
  function Over(a: Float, b: Float): Float
    requires b.Num? ==> b.value != 0.0
  {
    if a.Num? && b.Num? then Num(a.value / b.value) else NaN
  }

  predicate Positive(a: Float) {
    a.Num? && a.value > 0.0
  }

  function Absolute(a: Float): Float {
    if a.Num? && a.value < 0.0 then Num(-a.value) else a
  }

  predicate AllNum(fs: seq<Float>) {
    forall i | 0 <= i < |fs| :: fs[i].Num?
  }

  function Nums(xs: seq<real>): (fs: seq<Float>)
    ensures |fs| == |xs| && forall i | 0 <= i < |xs| :: fs[i] == Num(xs[i])
  {
    seq(|xs|, i requires 0 <= i < |xs| => Num(xs[i]))
  }

  function Values(fs: seq<Float>): (xs: seq<real>)
    requires AllNum(fs)
    ensures |xs| == |fs| && forall i | 0 <= i < |fs| :: fs[i] == Num(xs[i])
  {
    seq(|fs|, i requires 0 <= i < |fs| => fs[i].value)
  }

  lemma ValuesOfNums(xs: seq<real>)
    ensures AllNum(Nums(xs)) && Values(Nums(xs)) == xs
  {
  }
}
