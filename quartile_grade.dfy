/** Quartile grading (assign_grade_by_quartile): the 25th, 50th and 75th
    percentiles of the score column, taken with pandas' default linear
    interpolation, split the scores into grades A (at or above q75),
    B (at or above q50), C (at or above q25) and D. */
module QuartileGrade {
  import opened Seqs
  import opened Facilities

  predicate Sorted(s: seq<real>)
  {
    forall i, j :: 0 <= i <= j < |s| ==> s[i] <= s[j]
  }

  /** Inserts `x` into a sorted sequence, before the first larger element. */
  function Insert(x: real, s: seq<real>): (r: seq<real>)
    requires Sorted(s)
    ensures |r| == |s| + 1
    ensures Sorted(r)
    ensures multiset(r) == multiset(s) + multiset{x}
  {
    if s == [] then [x]
    else if x <= s[0] then [x] + s
    else
      var rest := Insert(x, s[1..]);
      assert s == [s[0]] + s[1..];
      assert forall y :: y in rest ==> s[0] <= y by {
        forall y | y in rest ensures s[0] <= y {
          assert y in multiset(rest);
          if y != x {
            assert y in multiset(s[1..]);
          }
        }
      }
      SortedCons(s[0], rest);
      [s[0]] + rest
  }

  lemma SortedCons(h: real, t: seq<real>)
    requires Sorted(t)
    requires forall y :: y in t ==> h <= y
    ensures Sorted([h] + t)
  {
    forall i, j | 0 <= i <= j < |[h] + t| ensures ([h] + t)[i] <= ([h] + t)[j] {
      if i > 0 {
        assert ([h] + t)[i] == t[i - 1] && ([h] + t)[j] == t[j - 1];
      } else {
        assert ([h] + t)[j] in [h] + t;
      }
    }
  }

  /** The score column in ascending order (the sort pandas' quantile does). */
  function SortAscending(s: seq<real>): (r: seq<real>)
    ensures |r| == |s|
    ensures Sorted(r)
    ensures multiset(r) == multiset(s)
  {
    if s == [] then []
    else
      assert s == [s[0]] + s[1..];
      Insert(s[0], SortAscending(s[1..]))
  }

  /** Sorting a column that is already ascending changes nothing. */
  lemma {:induction false} SortAscendingSorted(s: seq<real>)
    requires Sorted(s)
    ensures SortAscending(s) == s
  {
    if s != [] {
      SortAscendingSorted(s[1..]);
      assert s == [s[0]] + s[1..];
    }
  }

  /** pandas' default ("linear") quantile of a sorted column, at the
      position pos/4 (in quarters of an index): the value at the whole part
      k = pos / 4 plus the fractional part times the gap to the next value. */
  function Interpolate(sorted: seq<real>, pos: nat): (q: real)
    requires |sorted| > 0 && pos <= 4 * (|sorted| - 1) && Sorted(sorted)
    ensures sorted[pos / 4] <= q
    ensures pos % 4 == 0 ==> q == sorted[pos / 4]
    ensures pos % 4 != 0 ==> q <= sorted[pos / 4 + 1]
  {
    var k, rem := pos / 4, pos % 4;
    if rem == 0 then sorted[k]
    else
      var lo, hi := sorted[k], sorted[k + 1];
      InterpolationBetween(lo, hi, rem as real / 4.0);
      lo + (rem as real / 4.0) * (hi - lo)
  }

  lemma InterpolationBetween(lo: real, hi: real, frac: real)
    requires lo <= hi && 0.0 <= frac <= 1.0
    ensures lo <= lo + frac * (hi - lo) <= hi
  {
    assert frac * (hi - lo) <= 1.0 * (hi - lo);
  }

  lemma InterpolationMonotone(lo: real, hi: real, f1: real, f2: real)
    requires lo <= hi && 0.0 <= f1 <= f2
    ensures lo + f1 * (hi - lo) <= lo + f2 * (hi - lo)
  {
  }

  /** A later position never gives a smaller quantile. */
  lemma InterpolateMonotone(sorted: seq<real>, pa: nat, pb: nat)
    requires |sorted| > 0 && pa <= pb <= 4 * (|sorted| - 1) && Sorted(sorted)
    ensures Interpolate(sorted, pa) <= Interpolate(sorted, pb)
  {
    var ka, kb := pa / 4, pb / 4;
    if ka < kb {
      if pa % 4 != 0 {
        assert Interpolate(sorted, pa) <= sorted[ka + 1] <= sorted[kb];
      }
    } else if pa % 4 != 0 {
      var lo, hi := sorted[ka], sorted[ka + 1];
      InterpolationMonotone(lo, hi, (pa % 4) as real / 4.0, (pb % 4) as real / 4.0);
    }
  }

  /** The position, in quarters of an index, of the num-th quartile of a
      column of `n` values: (n - 1) * num / 4 as pandas computes it. */
  function QuartilePosition(n: nat, num: nat): (pos: nat)
    requires n > 0 && 1 <= num <= 3
    ensures pos <= 4 * (n - 1)
  {
    // num * (n - 1), written case by case to keep the arithmetic linear
    if num == 1 then n - 1 else if num == 2 then 2 * (n - 1) else 3 * (n - 1)
  }

  /** `scores.quantile(num / 4)`. */
  function Quantile(scores: seq<real>, num: nat): (q: real)
    requires |scores| > 0 && 1 <= num <= 3
    ensures Min(scores) <= q <= Max(scores)
  {
    var sorted := SortAscending(scores);
    var pos := QuartilePosition(|scores|, num);
    var last := |sorted| - 1;
    assert sorted[0] in scores && sorted[last] in scores by {
      assert sorted[0] in multiset(sorted) && sorted[last] in multiset(sorted);
    }
    Interpolate(sorted, pos)
  }

  datatype Quartiles = Quartiles(q25: real, q50: real, q75: real)

  /** q25, q50, q75 of a non-empty score column: ordered, and within the
      column's range. */
  function QuartilesOf(scores: seq<real>): (q: Quartiles)
    requires |scores| > 0
    ensures Min(scores) <= q.q25 <= q.q50 <= q.q75 <= Max(scores)
  {
    var sorted, n := SortAscending(scores), |scores|;
    InterpolateMonotone(sorted, QuartilePosition(n, 1), QuartilePosition(n, 2));
    InterpolateMonotone(sorted, QuartilePosition(n, 2), QuartilePosition(n, 3));
    Quartiles(Quantile(scores, 1), Quantile(scores, 2), Quantile(scores, 3))
  }

  /** The nested `_grade`: a score reaches a grade exactly when it is at or
      above that grade's cut point, a score on a cut point taking the
      higher grade. */
  function GradeFor(s: real, q: Quartiles): (g: Grade)
    ensures g == A <==> s >= q.q75
    ensures Rank(g) <= Rank(B) <==> s >= q.q75 || s >= q.q50
    ensures Rank(g) <= Rank(C) <==> s >= q.q75 || s >= q.q50 || s >= q.q25
  {
    if s >= q.q75 then A
    else if s >= q.q50 then B
    else if s >= q.q25 then C
    else D
  }

  /** assign_grade_by_quartile: one grade per score, against the quartiles
      of the same column. A higher score never gets a worse grade, and the
      top score always gets A. */
  function AssignGrades(scores: seq<real>): (g: seq<Grade>)
    ensures |g| == |scores|
    ensures forall i, j :: 0 <= i < |scores| && 0 <= j < |scores| && scores[i] >= scores[j]
              ==> Rank(g[i]) <= Rank(g[j])
    ensures forall i :: 0 <= i < |scores| && scores[i] == Max(scores) ==> g[i] == A
  {
    if |scores| == 0 then []
    else
      var q := QuartilesOf(scores);
      seq(|scores|, i requires 0 <= i < |scores| => GradeFor(scores[i], q))
  }

  /** Equal scores everywhere (every weight 0, for one) put every record
      in grade A. */
  lemma ConstantScoresAllA(scores: seq<real>, i: nat)
    requires i < |scores|
    requires forall j :: 0 <= j < |scores| ==> scores[j] == scores[0]
    ensures AssignGrades(scores)[i] == A
  {
    assert Max(scores) == scores[0] by {
      assert Max(scores) in scores;
    }
  }

  /** The scores 10, 20, ..., 100 have quartiles 32.5, 55 and 77.5 (linear
      interpolation between neighbouring values) ... */
  lemma TenScoresQuartiles(s: seq<real>)
    requires s == [10.0, 20.0, 30.0, 40.0, 50.0, 60.0, 70.0, 80.0, 90.0, 100.0]
    ensures QuartilesOf(s) == Quartiles(32.5, 55.0, 77.5)
  {
    assert Sorted(s);
    assert Interpolate(s, 9) == 32.5 by {
      assert Interpolate(s, 9) == 30.0 + (1 as real / 4.0) * (40.0 - 30.0);
    }
    assert Interpolate(s, 18) == 55.0 by {
      assert Interpolate(s, 18) == 50.0 + (2 as real / 4.0) * (60.0 - 50.0);
    }
    assert Interpolate(s, 27) == 77.5 by {
      assert Interpolate(s, 27) == 70.0 + (3 as real / 4.0) * (80.0 - 70.0);
    }
    SortAscendingSorted(s);
  }

  /** ... so 80 gets A, 60 and 55 get B, 35 gets C and 30 gets D. */
  lemma TenScoresExample(s: seq<real>)
    requires s == [10.0, 20.0, 30.0, 40.0, 50.0, 60.0, 70.0, 80.0, 90.0, 100.0]
    ensures GradeFor(80.0, QuartilesOf(s)) == A
    ensures GradeFor(60.0, QuartilesOf(s)) == B
    ensures GradeFor(55.0, QuartilesOf(s)) == B
    ensures GradeFor(35.0, QuartilesOf(s)) == C
    ensures GradeFor(30.0, QuartilesOf(s)) == D
  {
    TenScoresQuartiles(s);
  }
}
