/** Finite sums of a real-valued function over a sequence, and their algebra. */
module Sums {
  import opened Sorting

  function SumBy<T>(f: T -> real, xs: seq<T>): real {
    if xs == [] then 0.0 else SumBy(f, xs[..|xs| - 1]) + f(xs[|xs| - 1])
  }

  lemma NoTerms<T>(f: T -> real, xs: seq<T>)
    ensures SumBy(f, xs[..0]) == 0.0
  {
  }

  lemma SumSnoc<T>(f: T -> real, xs: seq<T>, i: nat)
    requires i < |xs|
    ensures SumBy(f, xs[..i + 1]) == SumBy(f, xs[..i]) + f(xs[i])
  {
    assert xs[..i + 1][..i] == xs[..i];
  }

  lemma {:induction false} SumAppend<T>(f: T -> real, a: seq<T>, b: seq<T>)
    ensures SumBy(f, a + b) == SumBy(f, a) + SumBy(f, b)
  {
    if b == [] {
      assert a + b == a;
    } else {
      var last := |b| - 1;
      assert (a + b)[..|a + b| - 1] == a + b[..last];
      SumAppend(f, a, b[..last]);
    }
  }

  lemma SumMiddle<T>(f: T -> real, front: seq<T>, x: T, back: seq<T>)
    ensures SumBy(f, front + [x] + back) == f(x) + SumBy(f, front + back)
  {
    SumAppend(f, front, [x]);
    SumAppend(f, front + [x], back);
    SumAppend(f, front, back);
  }

  lemma {:induction false} SumPermuted<T>(f: T -> real, a: seq<T>, b: seq<T>)
    requires multiset(a) == multiset(b)
    ensures SumBy(f, a) == SumBy(f, b)
  {
    hide SumBy;
    assert |multiset(a)| == |multiset(b)|;
    if a == [] {
      assert a == b;
    } else {
      var front, back := FindFirst(a, b);
      SumPermuted(f, a[1..], front + back);
      SumMiddle(f, [], a[0], a[1..]);
      SumMiddle(f, front, a[0], back);
      assert [] + [a[0]] + a[1..] == a && [] + a[1..] == a[1..];
    }
  }

  /** A sum of non-negative terms is zero only when every term is. */
  lemma {:induction false} SumZero<T>(f: T -> real, xs: seq<T>)
    requires forall i | 0 <= i < |xs| :: f(xs[i]) >= 0.0
    ensures SumBy(f, xs) >= 0.0
    ensures SumBy(f, xs) == 0.0 <==> forall i | 0 <= i < |xs| :: f(xs[i]) == 0.0
  {
    if xs != [] {
      var n := |xs| - 1;
      SumZero(f, xs[..n]);
      assert forall i | 0 <= i < n :: xs[..n][i] == xs[i];
    }
  }

  lemma {:induction false} SumCongruent<T>(f: T -> real, g: T -> real, xs: seq<T>)
    requires forall i | 0 <= i < |xs| :: f(xs[i]) == g(xs[i])
    ensures SumBy(f, xs) == SumBy(g, xs)
  {
    if xs != [] { SumCongruent(f, g, xs[..|xs| - 1]); }
  }

  lemma {:induction false} SumAtMost<T>(f: T -> real, g: T -> real, xs: seq<T>)
    requires forall i | 0 <= i < |xs| :: f(xs[i]) <= g(xs[i])
    ensures SumBy(f, xs) <= SumBy(g, xs)
  {
    if xs != [] { SumAtMost(f, g, xs[..|xs| - 1]); }
  }

  /** The sum of `a * f(x) + c` over `xs`. */
  lemma {:induction false} SumAffine<T>(f: T -> real, g: T -> real, a: real, c: real, xs: seq<T>)
    requires forall i | 0 <= i < |xs| :: g(xs[i]) == a * f(xs[i]) + c
    ensures SumBy(g, xs) == a * SumBy(f, xs) + |xs| as real * c
  {
    if xs != [] {
      var n := |xs| - 1;
      SumAffine(f, g, a, c, xs[..n]);
      AffineStep(a, SumBy(f, xs[..n]), f(xs[n]), c, n);
    }
  }

  lemma AffineStep(a: real, s: real, y: real, c: real, n: nat)
    ensures a * s + n as real * c + (a * y + c) == a * (s + y) + (n + 1) as real * c
  {
  }
}
