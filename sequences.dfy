/**
 * Generic facts about sequences used by the dashboard: boolean-mask selection,
 * subsequences, means of real columns and the code-point order on strings.
 */
module Sequences {

  /** `a` can be obtained from `b` by deleting elements, keeping the order of the rest. */
  predicate SubseqOf<T(==)>(a: seq<T>, b: seq<T>)
    decreases |b|
  {
    if b == [] then a == []
    else (a != [] && a[0] == b[0] && SubseqOf(a[1..], b[1..])) || SubseqOf(a, b[1..])
  }

  lemma {:induction false} SubseqTrans<T>(a: seq<T>, b: seq<T>, c: seq<T>)
    requires SubseqOf(a, b) && SubseqOf(b, c)
    ensures SubseqOf(a, c)
    decreases |c|
  {
    if c == [] {
    } else if b != [] && b[0] == c[0] && SubseqOf(b[1..], c[1..]) {
      if a != [] && a[0] == b[0] && SubseqOf(a[1..], b[1..]) {
        SubseqTrans(a[1..], b[1..], c[1..]);
      } else {
        SubseqTrans(a, b[1..], c[1..]);
      }
    } else {
      SubseqTrans(a, b, c[1..]);
    }
  }

  /**
   * The boolean-mask selection `s[mask]`: the elements of `s` for which `p`
   * holds, in their original order, each as often as it occurs in `s`.
   */
  function Where<T(!new)>(s: seq<T>, p: T -> bool): (r: seq<T>)
    ensures |r| <= |s|
    ensures forall x :: x in r <==> x in s && p(x)
    ensures forall x :: multiset(r)[x] == if p(x) then multiset(s)[x] else 0
    ensures SubseqOf(r, s)
  {
    if s == [] then []
    else
      var rest := Where(s[1..], p);
      assert s == [s[0]] + s[1..];
      if p(s[0]) then
        assert ([s[0]] + rest)[1..] == rest;
        [s[0]] + rest
      else
        rest
  }

  /** Selecting nothing: when no element passes, the selection is empty. */
  lemma NothingSelected<T(!new)>(r: seq<T>)
    requires forall x :: multiset(r)[x] == 0
    ensures r == []
  {
    assert multiset(r) == multiset{};
    assert |r| == |multiset(r)|;
  }

  /** The first components of a sequence of pairs: a frame's column names, a series' index. */
  function Keys<K, V>(ps: seq<(K, V)>): (ks: seq<K>)
    ensures |ks| == |ps|
    ensures forall i :: 0 <= i < |ps| ==> ks[i] == ps[i].0
  {
    seq(|ps|, i requires 0 <= i < |ps| => ps[i].0)
  }

  function Sum(xs: seq<real>): real
  {
    if xs == [] then 0.0 else xs[0] + Sum(xs[1..])
  }

  function MinOf(xs: seq<real>): (m: real)
    requires xs != []
    ensures m in xs && forall x :: x in xs ==> m <= x
  {
    if |xs| == 1 then xs[0]
    else
      var rest := MinOf(xs[1..]);
      assert xs == [xs[0]] + xs[1..];
      if xs[0] <= rest then xs[0] else rest
  }

  function MaxOf(xs: seq<real>): (m: real)
    requires xs != []
    ensures m in xs && forall x :: x in xs ==> x <= m
  {
    if |xs| == 1 then xs[0]
    else
      var rest := MaxOf(xs[1..]);
      assert xs == [xs[0]] + xs[1..];
      if xs[0] >= rest then xs[0] else rest
  }

  /** A sum of n terms lies between n times the smallest and n times the largest term. */
  lemma {:induction false} SumBetween(xs: seq<real>, lo: real, hi: real)
    requires forall i :: 0 <= i < |xs| ==> lo <= xs[i] <= hi
    ensures |xs| as real * lo <= Sum(xs) <= |xs| as real * hi
  {
    if xs != [] {
      var rest := xs[1..];
      assert forall i :: 0 <= i < |rest| ==> rest[i] == xs[i + 1];
      SumBetween(rest, lo, hi);
      var n := |rest| as real;
      assert lo <= xs[0] <= hi && Sum(xs) == xs[0] + Sum(rest);
      assert |xs| as real == n + 1.0;
      OneMore(n, lo);
      OneMore(n, hi);
    }
  }

  lemma OneMore(n: real, x: real)
    ensures (n + 1.0) * x == n * x + x
  {
  }

  lemma QuotientBetween(s: real, n: real, lo: real, hi: real)
    requires n > 0.0 && n * lo <= s <= n * hi
    ensures lo <= s / n <= hi
  {
    assert s / n * n == s;
  }

  /** `a / n` as a real, the share of `a` items among `n`; 0 for an empty group. */
  function Fraction(a: nat, n: nat): (x: real)
    requires a <= n
    ensures 0.0 <= x <= 1.0
    ensures n > 0 ==> x == a as real / n as real
    ensures n == 0 ==> x == 0.0
  {
    if n == 0 then 0.0
    else
      QuotientBetween(a as real, n as real, 0.0, 1.0);
      assert a as real / n as real * n as real == a as real;
      a as real / n as real
  }

  /** The arithmetic mean, as pandas' `mean()` of a non-empty column. */
  function Mean(xs: seq<real>): (m: real)
    requires xs != []
    ensures MinOf(xs) <= m <= MaxOf(xs)
  {
    var lo, hi := MinOf(xs), MaxOf(xs);
    assert forall i :: 0 <= i < |xs| ==> lo <= xs[i] <= hi by {
      forall i | 0 <= i < |xs| ensures lo <= xs[i] <= hi {
        assert xs[i] in xs;
      }
    }
    MeanBetween(xs, lo, hi);
    Sum(xs) / |xs| as real
  }

  /** A mean lies within any bounds of its terms. */
  lemma MeanBetween(xs: seq<real>, lo: real, hi: real)
    requires xs != []
    requires forall i :: 0 <= i < |xs| ==> lo <= xs[i] <= hi
    ensures lo <= Sum(xs) / |xs| as real <= hi
  {
    SumBetween(xs, lo, hi);
    QuotientBetween(Sum(xs), |xs| as real, lo, hi);
  }

  /**
   * Python's `<` on `str`: lexicographic comparison by code point, a proper
   * prefix coming first.  This is the order in which `groupby` sorts its keys.
   */
  predicate StrLess(a: string, b: string)
  {
    if a == [] then b != []
    else b != [] && (a[0] < b[0] || (a[0] == b[0] && StrLess(a[1..], b[1..])))
  }

  lemma {:induction false} StrLessAsymmetric(a: string, b: string)
    requires StrLess(a, b)
    ensures !StrLess(b, a)
  {
    if a != [] && b != [] && a[0] == b[0] {
      StrLessAsymmetric(a[1..], b[1..]);
    }
  }

  lemma {:induction false} StrLessTransitive(a: string, b: string, c: string)
    requires StrLess(a, b) && StrLess(b, c)
    ensures StrLess(a, c)
  {
    if a != [] && a[0] == b[0] && b[0] == c[0] {
      StrLessTransitive(a[1..], b[1..], c[1..]);
    }
  }

  lemma {:induction false} StrLessTotal(a: string, b: string)
    requires a != b
    ensures StrLess(a, b) || StrLess(b, a)
  {
    if a != [] && b != [] && a[0] == b[0] {
      assert a == [a[0]] + a[1..] && b == [b[0]] + b[1..];
      StrLessTotal(a[1..], b[1..]);
    }
  }
}
