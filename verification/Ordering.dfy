/**
 The byte-lexicographic order on strings.  It is the order in which a JSON object yields its
 members, and the tie-break on attestation ids.
 */
module Ordering {

  predicate LexLeq(a: string, b: string) {
    if a == [] then true
    else if b == [] then false
    else a[0] < b[0] || (a[0] == b[0] && LexLeq(a[1..], b[1..]))
  }

  /** `a` comes before `b` in byte order: it ends first, or has the smaller byte at the first difference. */
  predicate ComesBefore(a: string, b: string) {
    exists n :: 0 <= n <= |a| && n <= |b| && SplitAt(a, b, n)
  }

  predicate SplitAt(a: string, b: string, n: nat)
    requires n <= |a| && n <= |b|
  {
    && a[..n] == b[..n]
    && n < |b| && (n == |a| || a[n] < b[n])
  }

  /** The comparison is byte order. */
  lemma {:induction false} LexIsByteOrder(a: string, b: string)
    ensures LexLeq(a, b) <==> a == b || ComesBefore(a, b)
  {
    if a == [] || b == [] {
      if a == [] && b != [] { assert SplitAt(a, b, 0); }
    } else if a[0] != b[0] {
      if a[0] < b[0] { assert SplitAt(a, b, 0); }
      if n :| 0 <= n <= |a| && n <= |b| && SplitAt(a, b, n) {
        if n > 0 { SameHead(a, b, n); }
      }
    } else {
      LexIsByteOrder(a[1..], b[1..]);
      TailOrder(a, b);
      assert a == [a[0]] + a[1..] && b == [b[0]] + b[1..];
    }
  }

  lemma SameHead(a: string, b: string, n: nat)
    requires 0 < n <= |a| && n <= |b| && SplitAt(a, b, n)
    ensures a[0] == b[0]
  {
    assert a[..n][0] == b[..n][0];
  }

  lemma TailOrder(a: string, b: string)
    requires a != [] && b != [] && a[0] == b[0]
    ensures ComesBefore(a, b) <==> ComesBefore(a[1..], b[1..])
  {
    if n :| 0 <= n <= |a| && n <= |b| && SplitAt(a, b, n) {
      assert n > 0;
      assert a[1..][..n - 1] == a[..n][1..] && b[1..][..n - 1] == b[..n][1..];
      assert SplitAt(a[1..], b[1..], n - 1);
    }
    if n :| 0 <= n <= |a[1..]| && n <= |b[1..]| && SplitAt(a[1..], b[1..], n) {
      assert a[..n + 1] == [a[0]] + a[1..][..n] && b[..n + 1] == [b[0]] + b[1..][..n];
      assert SplitAt(a, b, n + 1);
    }
  }

  lemma {:induction false} LexTotal(a: string, b: string)
    ensures LexLeq(a, b) || LexLeq(b, a)
  {
    if a != [] && b != [] && a[0] == b[0] {
      LexTotal(a[1..], b[1..]);
    }
  }

  lemma {:induction false} LexAntisymmetric(a: string, b: string)
    requires LexLeq(a, b) && LexLeq(b, a)
    ensures a == b
  {
    if a != [] {
      LexAntisymmetric(a[1..], b[1..]);
      assert a == [a[0]] + a[1..] && b == [b[0]] + b[1..];
    }
  }

  lemma {:induction false} LexTransitive(a: string, b: string, c: string)
    requires LexLeq(a, b) && LexLeq(b, c)
    ensures LexLeq(a, c)
  {
    if a != [] && a[0] == b[0] == c[0] {
      LexTransitive(a[1..], b[1..], c[1..]);
    }
  }

  lemma {:induction false} LeastExists(s: set<string>)
    requires s != {}
    ensures exists k :: k in s && forall j | j in s :: LexLeq(k, j)
  {
    var x :| x in s;
    if s == {x} {
      LexTotal(x, x);
      assert forall j | j in s :: j == x;
    } else {
      var rest := s - {x};
      assert s == rest + {x};
      LeastExists(rest);
      var k :| k in rest && forall j | j in rest :: LexLeq(k, j);
      LexTotal(k, x);
      LexTotal(x, x);
      if LexLeq(k, x) {
        assert forall j | j in s :: LexLeq(k, j);
      } else {
        forall j | j in s ensures LexLeq(x, j) {
          if j in rest { LexTransitive(x, k, j); }
        }
      }
    }
  }

  lemma LeastUnique(s: set<string>)
    ensures forall k, l | k in s && l in s
      && (forall j | j in s :: LexLeq(k, j)) && (forall j | j in s :: LexLeq(l, j)) :: k == l
  {
    forall k, l | k in s && l in s && (forall j | j in s :: LexLeq(k, j)) && (forall j | j in s :: LexLeq(l, j))
      ensures k == l
    {
      LexAntisymmetric(k, l);
    }
  }

  function Least(s: set<string>): (k: string)
    requires s != {}
    ensures k in s && forall j | j in s :: LexLeq(k, j)
  {
    LeastExists(s);
    LeastUnique(s);
    var k :| k in s && forall j | j in s :: LexLeq(k, j);
    k
  }

  /** The elements of a finite set in increasing order. */
  function SortedKeys(s: set<string>): (ks: seq<string>)
    ensures forall i | 0 <= i < |ks| :: ks[i] in s
    decreases s
  {
    if s == {} then []
    else
      var k := Least(s);
      [k] + SortedKeys(s - {k})
  }

  /** Every element is listed, once, and in order. */
  lemma {:induction false} SortedKeysExact(s: set<string>)
    ensures forall k | k in s :: exists i :: 0 <= i < |SortedKeys(s)| && SortedKeys(s)[i] == k
    ensures forall i, j | 0 <= i < j < |SortedKeys(s)| ::
      SortedKeys(s)[i] != SortedKeys(s)[j] && LexLeq(SortedKeys(s)[i], SortedKeys(s)[j])
    decreases s
  {
    hide LexLeq;
    if s != {} {
      var least := Least(s);
      var rest := SortedKeys(s - {least});
      SortedKeysExact(s - {least});
      assert SortedKeys(s) == [least] + rest;
      forall k | k in s ensures exists i :: 0 <= i < |SortedKeys(s)| && SortedKeys(s)[i] == k {
        if k == least {
          assert SortedKeys(s)[0] == k;
        } else {
          assert k in s - {least};
          var i :| 0 <= i < |rest| && rest[i] == k;
          assert SortedKeys(s)[i + 1] == k;
        }
      }
    }
  }
}
