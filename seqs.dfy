/** Sequence helpers shared by the dashboard model: an Option type for
    missing table cells, order-preserving filtering, counting, the minimum,
    maximum and sum of a column of reals, and Python's `int()` on a float. */
module Seqs {

  datatype Option<+T> = None | Some(value: T)

  /** `sub` is `s` with some elements left out, the rest kept in order. */
  ghost predicate IsSubsequence<T>(sub: seq<T>, s: seq<T>)
    decreases |s|
  {
    if sub == [] then true
    else if s == [] then false
    else if sub[0] == s[0] then IsSubsequence(sub[1..], s[1..])
    else IsSubsequence(sub, s[1..])
  }

  /** Number of elements of `s` that satisfy `p`. */
  function Count<T>(s: seq<T>, p: T -> bool): (n: nat)
    ensures n <= |s|
  {
    if s == [] then 0 else (if p(s[0]) then 1 else 0) + Count(s[1..], p)
  }

  /** All elements satisfy `p` exactly when all are counted, and none
      does exactly when none is. */
  lemma {:induction false} CountExtremes<T>(s: seq<T>, p: T -> bool)
    ensures Count(s, p) == |s| <==> forall i :: 0 <= i < |s| ==> p(s[i])
    ensures Count(s, p) == 0 <==> forall i :: 0 <= i < |s| ==> !p(s[i])
  {
    if s != [] {
      CountExtremes(s[1..], p);
      assert forall i :: 1 <= i < |s| ==> s[i] == s[1..][i - 1];
    }
  }

  /** Keeps exactly the elements of `s` that satisfy `p`, in their order:
      the boolean-mask indexing `df[mask]` and the list comprehension
      `[c for c in cols if ...]` of the dashboard. */
  function Filter<T(!new)>(s: seq<T>, p: T -> bool): (r: seq<T>)
    ensures |r| == Count(s, p)
    ensures forall x :: x in r <==> x in s && p(x)
    ensures IsSubsequence(r, s)
  {
    if s == [] then []
    else if p(s[0]) then [s[0]] + Filter(s[1..], p)
    else Filter(s[1..], p)
  }

  /** Filtering a concatenation filters each part. */
  lemma {:induction false} FilterAppend<T(!new)>(a: seq<T>, b: seq<T>, p: T -> bool)
    ensures Filter(a + b, p) == Filter(a, p) + Filter(b, p)
  {
    if a != [] {
      FilterAppend(a[1..], b, p);
      assert (a + b)[1..] == a[1..] + b;
    } else {
      assert a + b == b;
    }
  }

  /** Filtering keeps a sequence whose elements all pass unchanged. */
  lemma {:induction false} FilterAll<T(!new)>(s: seq<T>, p: T -> bool)
    requires forall i :: 0 <= i < |s| ==> p(s[i])
    ensures Filter(s, p) == s
  {
    if s != [] {
      FilterAll(s[1..], p);
    }
  }

  /** A prefix whose elements all pass survives filtering as a prefix. */
  lemma FilterKeepsPassingPrefix<T(!new)>(a: seq<T>, b: seq<T>, p: T -> bool)
    requires forall i :: 0 <= i < |a| ==> p(a[i])
    ensures |Filter(a + b, p)| >= |a|
    ensures Filter(a + b, p)[..|a|] == a
  {
    FilterAppend(a, b, p);
    FilterAll(a, p);
    assert (Filter(a, p) + Filter(b, p))[..|a|] == a;
  }

  /** The values of the non-missing entries, in order (what pandas'
      NaN-skipping reductions see). */
  function Present(s: seq<Option<real>>): (r: seq<real>)
    ensures |r| <= |s|
    ensures forall x :: x in r <==> Some(x) in s
  {
    if s == [] then []
    else
      assert forall o :: o in s <==> o == s[0] || o in s[1..];
      (if s[0].Some? then [s[0].value] else []) + Present(s[1..])
  }

  /** Each number occurs in Present(s) as often as it occurs in `s`, so
      a NaN-skipping sum adds every known value once per row. */
  lemma {:induction false} PresentCounts(s: seq<Option<real>>)
    ensures forall x :: multiset(Present(s))[x] == multiset(s)[Some(x)]
  {
    if s != [] {
      PresentCounts(s[1..]);
      var head: seq<real> := if s[0].Some? then [s[0].value] else [];
      assert s == [s[0]] + s[1..];
      assert Present(s) == head + Present(s[1..]);
      assert forall x :: multiset(head)[x] == multiset([s[0]])[Some(x)];
    }
  }

  /** Smallest element (pandas `Series.min`). */
  function Min(s: seq<real>): (m: real)
    requires |s| > 0
    ensures m in s
    ensures forall x :: x in s ==> m <= x
  {
    if |s| == 1 then s[0]
    else
      var rest := Min(s[1..]);
      assert forall x :: x in s ==> x == s[0] || x in s[1..];
      if s[0] <= rest then s[0] else rest
  }

  /** Largest element (pandas `Series.max`). */
  function Max(s: seq<real>): (m: real)
    requires |s| > 0
    ensures m in s
    ensures forall x :: x in s ==> x <= m
  {
    if |s| == 1 then s[0]
    else
      var rest := Max(s[1..]);
      assert forall x :: x in s ==> x == s[0] || x in s[1..];
      if s[0] >= rest then s[0] else rest
  }

  function Sum(s: seq<real>): real
  {
    if s == [] then 0.0 else s[0] + Sum(s[1..])
  }

  /** A sum of |s| terms, each between `lo` and `hi`, lies between |s|
      times `lo` and |s| times `hi`. */
  lemma {:induction false} SumBounds(s: seq<real>, lo: real, hi: real)
    requires forall x :: x in s ==> lo <= x <= hi
    ensures |s| as real * lo <= Sum(s) <= |s| as real * hi
  {
    if s != [] {
      var tail := s[1..];
      assert forall x :: x in tail ==> x in s;
      SumBounds(tail, lo, hi);
      assert s[0] in s;
      assert Sum(s) == s[0] + Sum(tail);
      AddOneBound(|tail| as real, |s| as real, lo, hi, s[0], Sum(tail));
    }
  }

  /** Arithmetic mean of a non-empty column (pandas `Series.mean`). */
  function Average(s: seq<real>): real
    requires |s| > 0
  {
    Sum(s) / |s| as real
  }

  /** The mean lies between the smallest and the largest element. */
  lemma AverageBounds(s: seq<real>)
    requires |s| > 0
    ensures Min(s) <= Average(s) <= Max(s)
  {
    AverageBetween(s, Min(s), Max(s));
  }

  /** Elements between `lo` and `hi` average to a value between them. */
  lemma AverageBetween(s: seq<real>, lo: real, hi: real)
    requires |s| > 0
    requires forall x :: x in s ==> lo <= x <= hi
    ensures lo <= Average(s) <= hi
  {
    SumBounds(s, lo, hi);
    MeanBetween(|s| as real, lo, hi, Sum(s));
  }

  /** The arithmetic of a mean, on reals alone. */
  lemma MeanBetween(n: real, lo: real, hi: real, total: real)
    requires n > 0.0 && n * lo <= total <= n * hi
    ensures lo <= total / n <= hi
  {
    assert total / n * n == total;
  }

  /** A sum of non-negative terms is non-negative. */
  lemma {:induction false} SumNonNegative(s: seq<real>)
    requires forall x :: x in s ==> 0.0 <= x
    ensures 0.0 <= Sum(s)
  {
    if s != [] {
      assert forall x :: x in s[1..] ==> x in s;
      SumNonNegative(s[1..]);
      assert s[0] in s;
    }
  }

  /** Python's `int()` on a float: the whole part, rounding toward zero. */
  function Trunc(x: real): (n: int)
    ensures 0.0 <= x ==> 0 <= n && n as real <= x < n as real + 1.0
    ensures x < 0.0 ==> n <= 0 && n as real - 1.0 < x <= n as real
  {
    if x >= 0.0 then x.Floor else -((-x).Floor)
  }

  /** The arithmetic step of SumBounds, kept apart from the
      sequence facts so that the solver sees only reals. */
  lemma AddOneBound(n: real, m: real, lo: real, hi: real, x: real, tailSum: real)
    requires m == n + 1.0
    requires lo <= x <= hi
    requires n * lo <= tailSum <= n * hi
    ensures m * lo <= x + tailSum <= m * hi
  {
    assert m * lo == n * lo + lo;
    assert m * hi == n * hi + hi;
  }
}
