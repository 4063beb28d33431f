/** The user-weighted safety score (calculate_custom_score): every weighted
    indicator column is min-max normalised over the current table, risk
    indicators are inverted, the normalised terms are accumulated with the
    absolute weights, and the sum is rescaled to 0-100 by the total
    absolute weight. */
module CustomScore {
  import opened Seqs
  import opened Facilities

  /** Indicators for which a higher raw value means more risk; their
      normalised value is inverted. */
  const RiskFeatures: set<string> := {"발생건수", "생활안전CCTV", "무인교통단속카메라"}

  /** The weights dictionary, as (feature, slider value) pairs in insertion
      order. Its keys are distinct, as the keys of a dict are; no lemma
      here depends on that. */
  type Weights = seq<(string, int)>

  function Abs(w: int): nat
  {
    if w < 0 then -w else w
  }

  /** The cell of `f` in `r` with NaN filled by 0 (`fillna(0)`). */
  function Filled(r: Facility, f: string): real
  {
    match Cell(r, f)
    case Some(v) => v
    case None => 0.0
  }

  function FilledColumn(rows: seq<Facility>, f: string): (col: seq<real>)
    ensures |col| == |rows|
  {
    seq(|rows|, i requires 0 <= i < |rows| => Filled(rows[i], f))
  }

  /** Min-max normalisation of entry `i` of `col` over the whole column,
      with 0.5 for a constant column, inverted for a risk indicator. */
  function Normalise(col: seq<real>, i: nat, risk: bool): (r: real)
    requires i < |col|
    ensures 0.0 <= r <= 1.0
    ensures Min(col) == Max(col) ==> r == 0.5
  {
    var mn, mx := Min(col), Max(col);
    assert mn <= col[i] <= mx by { assert col[i] in col; }
    var norm := if mx > mn then UnitQuotient(col[i] - mn, mx - mn); (col[i] - mn) / (mx - mn) else 0.5;
    if risk then 1.0 - norm else norm
  }

  lemma UnitQuotient(a: real, c: real)
    requires 0.0 <= a <= c && c > 0.0
    ensures 0.0 <= a / c <= 1.0
  {
  }

  /** The normalised term of feature `f` for record `i`. */
  function Term(d: Dataset, f: string, i: nat): (r: real)
    requires i < |d.rows|
    ensures 0.0 <= r <= 1.0
  {
    Normalise(FilledColumn(d.rows, f), i, f in RiskFeatures)
  }

  /** A weight takes part in the accumulation only if its feature is a
      column of the table and the weight is not 0. */
  predicate Contributes(d: Dataset, entry: (string, int))
  {
    entry.0 in d.columns && entry.1 != 0
  }

  /** What one (feature, weight) entry adds to record `i`'s sum. */
  function Contribution(d: Dataset, entry: (string, int), i: nat): (c: real)
    requires i < |d.rows|
    ensures 0.0 <= c
    ensures c <= (if Contributes(d, entry) then Abs(entry.1) as real else 0.0)
  {
    if Contributes(d, entry) then
      Weigh(Term(d, entry.0, i), Abs(entry.1))
    else 0.0
  }

  /** `norm * abs(w)`: a term in [0, 1] scaled by a weight magnitude
      stays between 0 and that magnitude. */
  function Weigh(t: real, w: nat): (c: real)
    requires 0.0 <= t <= 1.0
    ensures 0.0 <= c <= w as real
  {
    t * w as real
  }

  lemma ContributionOf(d: Dataset, entry: (string, int), i: nat, term: real)
    requires i < |d.rows| && Contributes(d, entry) && term == Term(d, entry.0, i)
    ensures Contribution(d, entry, i) == Weigh(term, Abs(entry.1))
  {
  }

  /** The accumulator `scores` for record `i` after the loop has visited
      the entries of `ws`. */
  function Accumulated(d: Dataset, ws: Weights, i: nat): real
    requires i < |d.rows|
    decreases |ws|
  {
    if ws == [] then 0.0
    else
      Accumulated(d, ws[..|ws| - 1], i) + Contribution(d, ws[|ws| - 1], i)
  }

  /** total_w: the sum of |w| over every nonzero weight, whether or not its
      feature is a column of the table. */
  function TotalWeight(ws: Weights): nat
    decreases |ws|
  {
    if ws == [] then 0
    else
      var w := ws[|ws| - 1].1;
      TotalWeight(ws[..|ws| - 1]) + (if w != 0 then Abs(w) else 0)
  }

  /** The part of the total weight whose features are columns of the table. */
  function PresentWeight(d: Dataset, ws: Weights): nat
    decreases |ws|
  {
    if ws == [] then 0
    else
      var last := ws[|ws| - 1];
      PresentWeight(d, ws[..|ws| - 1]) + (if Contributes(d, last) then Abs(last.1) else 0)
  }

  /** The score calculate_custom_score returns for record `i`. */
  function CustomScore(d: Dataset, ws: Weights, i: nat): real
    requires i < |d.rows|
  {
    var acc := Accumulated(d, ws, i);
    var total := TotalWeight(ws);
    if total > 0 then acc / total as real * 100.0 else acc
  }

  /** The score column over the whole table. */
  function CustomScores(d: Dataset, ws: Weights): (scores: seq<real>)
    ensures |scores| == |d.rows|
  {
    seq(|d.rows|, i requires 0 <= i < |d.rows| => CustomScore(d, ws, i))
  }

  /** calculate_custom_score, with the accumulator series as an array that
      each weighted feature adds its column of terms to. */
  method CalculateCustomScore(d: Dataset, ws: Weights) returns (scores: seq<real>)
    ensures |scores| == |d.rows|
    ensures forall i :: 0 <= i < |d.rows| ==> scores[i] == CustomScore(d, ws, i)
  {
    var n := |d.rows|;
    var acc := new real[n](_ => 0.0);
    var k := 0;
    while k < |ws|
      invariant 0 <= k <= |ws|
      invariant forall i :: 0 <= i < n ==> acc[i] == Accumulated(d, ws[..k], i)
    {
      assert ws[..k + 1][..k] == ws[..k];
      var (f, w) := ws[k];
      assert forall i :: 0 <= i < n ==>
        Accumulated(d, ws[..k + 1], i) == Accumulated(d, ws[..k], i) + Contribution(d, ws[k], i);
      if f in d.columns && w != 0 {
        AddWeightedTerms(acc, d, f, w);
      }
      k := k + 1;
    }
    assert ws[..|ws|] == ws;
    var total := TotalWeight(ws);
    if total > 0 {
      var j := 0;
      while j < n
        invariant 0 <= j <= n
        invariant forall i :: 0 <= i < j ==> acc[i] == Accumulated(d, ws, i) / total as real * 100.0
        invariant forall i :: j <= i < n ==> acc[i] == Accumulated(d, ws, i)
      {
        acc[j] := acc[j] / total as real * 100.0;
        j := j + 1;
      }
    }
    scores := acc[..];
  }

  /** `scores += norm * abs(w)`: adds feature `f`'s normalised column,
      scaled by |w|, to the accumulator. */
  method AddWeightedTerms(acc: array<real>, d: Dataset, f: string, w: int)
    requires acc.Length == |d.rows| && Contributes(d, (f, w))
    modifies acc
    ensures forall i :: 0 <= i < acc.Length ==> acc[i] == old(acc[i]) + Contribution(d, (f, w), i)
  {
    var n := acc.Length;
    if n == 0 {
      // an empty table has no minimum or maximum, and no entry to update
      return;
    }
    var col := FilledColumn(d.rows, f);
    var mn, mx := Min(col), Max(col);
    var risk := f in RiskFeatures;
    var j := 0;
    while j < n
      invariant 0 <= j <= n
      invariant forall i :: 0 <= i < j ==> acc[i] == old(acc[i]) + Contribution(d, (f, w), i)
      invariant forall i :: j <= i < n ==> acc[i] == old(acc[i])
    {
      var norm := if mx > mn then (col[j] - mn) / (mx - mn) else 0.5;
      if risk {
        norm := 1.0 - norm;
      }
      assert norm == Term(d, f, j);
      var added := Weigh(norm, Abs(w));
      assert added == Contribution(d, (f, w), j) by {
        ContributionOf(d, (f, w), j, norm);
      }
      acc[j] := acc[j] + added;
      j := j + 1;
    }
  }

  // ---------------------------------------------------------------------
  // Properties of the normalised terms

  /** A column whose filled values are all equal (a single row, say) gives
      every record the term 0.5, whatever the feature's polarity. */
  lemma ConstantColumnTerm(d: Dataset, f: string, i: nat)
    requires i < |d.rows|
    requires forall j :: 0 <= j < |d.rows| ==> Filled(d.rows[j], f) == Filled(d.rows[0], f)
    ensures Term(d, f, i) == 0.5
  {
    var col := FilledColumn(d.rows, f);
    assert forall x :: x in col ==> x == col[0];
    assert Min(col) == col[0] == Max(col);
  }

  /** A higher raw value never lowers the term of a safety indicator and
      never raises the term of a risk indicator. */
  lemma TermMonotone(d: Dataset, f: string, i: nat, j: nat)
    requires i < |d.rows| && j < |d.rows|
    requires Filled(d.rows[i], f) <= Filled(d.rows[j], f)
    ensures f !in RiskFeatures ==> Term(d, f, i) <= Term(d, f, j)
    ensures f in RiskFeatures ==> Term(d, f, i) >= Term(d, f, j)
  {
    var col := FilledColumn(d.rows, f);
    var mn, mx := Min(col), Max(col);
    if mx > mn {
      DivideMonotone(col[i] - mn, col[j] - mn, mx - mn);
    }
  }

  lemma DivideMonotone(a: real, b: real, c: real)
    requires a <= b && c > 0.0
    ensures a / c <= b / c
  {
  }

  /** Risk and safety polarity give complementary terms on the same column. */
  lemma PolarityComplement(col: seq<real>, i: nat)
    requires i < |col|
    ensures Normalise(col, i, true) == 1.0 - Normalise(col, i, false)
  {
  }

  // ---------------------------------------------------------------------
  // Properties of the accumulation and of the score

  /** Each record's accumulated sum lies between 0 and the weight of the
      features the table has. */
  lemma {:induction false} AccumulatedBounds(d: Dataset, ws: Weights, i: nat)
    requires i < |d.rows|
    ensures 0.0 <= Accumulated(d, ws, i) <= PresentWeight(d, ws) as real
    decreases |ws|
  {
    if ws != [] {
      AccumulatedBounds(d, ws[..|ws| - 1], i);
    }
  }

  /** The weight of present features never exceeds the total weight, and
      falls short of it as soon as one weighted feature is absent. */
  lemma {:induction false} PresentWithinTotal(d: Dataset, ws: Weights)
    ensures PresentWeight(d, ws) <= TotalWeight(ws)
    ensures (exists k :: 0 <= k < |ws| && ws[k].0 !in d.columns && ws[k].1 != 0)
            ==> PresentWeight(d, ws) < TotalWeight(ws)
    decreases |ws|
  {
    if ws != [] {
      var prefix := ws[..|ws| - 1];
      PresentWithinTotal(d, prefix);
      if exists k :: 0 <= k < |ws| && ws[k].0 !in d.columns && ws[k].1 != 0 {
        var k :| 0 <= k < |ws| && ws[k].0 !in d.columns && ws[k].1 != 0;
        if k < |ws| - 1 {
          assert prefix[k] == ws[k];
        }
      }
    }
  }

  /** With some nonzero weight, every score lies in [0, 100], and in fact
      at most 100 times the share of the weight whose features are present. */
  lemma ScoreInRange(d: Dataset, ws: Weights, i: nat)
    requires i < |d.rows|
    requires TotalWeight(ws) > 0
    ensures 0.0 <= CustomScore(d, ws, i)
    ensures CustomScore(d, ws, i) <= PresentWeight(d, ws) as real / TotalWeight(ws) as real * 100.0
    ensures CustomScore(d, ws, i) <= 100.0
  {
    AccumulatedBounds(d, ws, i);
    PresentWithinTotal(d, ws);
    RescaleBounds(Accumulated(d, ws, i), PresentWeight(d, ws) as real, TotalWeight(ws) as real);
  }

  lemma RescaleBounds(acc: real, present: real, total: real)
    requires 0.0 <= acc <= present <= total && total > 0.0
    ensures 0.0 <= acc / total * 100.0 <= present / total * 100.0 <= 100.0
  {
    DivideMonotone(acc, present, total);
    DivideMonotone(present, total, total);
  }

  /** A weighted feature the table lacks still counts in the divisor, so no
      record can reach 100. */
  lemma AbsentFeatureCapsScore(d: Dataset, ws: Weights, i: nat, k: nat)
    requires i < |d.rows| && k < |ws|
    requires ws[k].0 !in d.columns && ws[k].1 != 0
    ensures CustomScore(d, ws, i) < 100.0
  {
    PresentWithinTotal(d, ws);
    ScoreInRange(d, ws, i);
    ShareBelowOne(PresentWeight(d, ws) as real, TotalWeight(ws) as real);
  }

  lemma ShareBelowOne(present: real, total: real)
    requires 0.0 <= present < total
    ensures present / total * 100.0 < 100.0
  {
  }

  /** When every weight is 0, nothing is accumulated and nothing is divided:
      every score is 0. */
  lemma {:induction false} ZeroWeightsScoreZero(d: Dataset, ws: Weights, i: nat)
    requires i < |d.rows|
    requires TotalWeight(ws) == 0
    ensures CustomScore(d, ws, i) == 0.0
    decreases |ws|
  {
    if ws != [] {
      ZeroWeightsScoreZero(d, ws[..|ws| - 1], i);
    }
  }

  /** `vs` weights the same features, in the same order, with weights of
      the same magnitude; the signs may differ entry by entry. */
  predicate SameMagnitudes(ws: Weights, vs: Weights)
  {
    |vs| == |ws| &&
    forall k :: 0 <= k < |ws| ==> vs[k].0 == ws[k].0 && Abs(vs[k].1) == Abs(ws[k].1)
  }

  /** Only the magnitude of each weight matters: flipping the sign of any
      weights, one by one or all together, changes no sum, no total and no
      score. */
  lemma {:induction false} SignIgnored(d: Dataset, ws: Weights, vs: Weights, i: nat)
    requires i < |d.rows|
    requires SameMagnitudes(ws, vs)
    ensures Accumulated(d, vs, i) == Accumulated(d, ws, i)
    ensures TotalWeight(vs) == TotalWeight(ws)
    ensures CustomScore(d, vs, i) == CustomScore(d, ws, i)
    decreases |ws|
  {
    if ws != [] {
      var n := |ws| - 1;
      assert SameMagnitudes(ws[..n], vs[..n]);
      assert Contributes(d, vs[n]) == Contributes(d, ws[n]);
      assert Contribution(d, vs[n], i) == Contribution(d, ws[n], i);
      SignIgnored(d, ws[..n], vs[..n], i);
    }
  }

  /** The weights with every sign flipped. */
  function Negated(ws: Weights): (r: Weights)
    ensures SameMagnitudes(ws, r)
  {
    seq(|ws|, k requires 0 <= k < |ws| => (ws[k].0, -ws[k].1))
  }

  /** In particular, negating every weight leaves every score unchanged. */
  lemma NegatedScoresAlike(d: Dataset, ws: Weights, i: nat)
    requires i < |d.rows|
    ensures CustomScore(d, Negated(ws), i) == CustomScore(d, ws, i)
  {
    SignIgnored(d, ws, Negated(ws), i);
  }

  /** Accumulation over concatenated weight lists adds up. */
  lemma {:induction false} AccumulatedAppend(d: Dataset, a: Weights, b: Weights, i: nat)
    requires i < |d.rows|
    ensures Accumulated(d, a + b, i) == Accumulated(d, a, i) + Accumulated(d, b, i)
    ensures TotalWeight(a + b) == TotalWeight(a) + TotalWeight(b)
    decreases |b|
  {
    if b == [] {
      assert a + b == a;
    } else {
      assert (a + b)[..|a + b| - 1] == a + b[..|b| - 1];
      AccumulatedAppend(d, a, b[..|b| - 1], i);
    }
  }

  /** A weight of 0, or one whose feature the table lacks, adds nothing to
      any record's sum; a weight of 0 also leaves every score unchanged. */
  lemma NonContributingAddsNothing(d: Dataset, ws: Weights, k: nat, i: nat)
    requires i < |d.rows| && k < |ws|
    requires ws[k].0 !in d.columns || ws[k].1 == 0
    ensures Accumulated(d, ws[..k] + ws[k + 1..], i) == Accumulated(d, ws, i)
    ensures ws[k].1 == 0 ==> CustomScore(d, ws[..k] + ws[k + 1..], i) == CustomScore(d, ws, i)
  {
    assert ws == ws[..k] + [ws[k]] + ws[k + 1..];
    AccumulatedAppend(d, ws[..k], ws[k + 1..], i);
    AccumulatedAppend(d, ws[..k] + [ws[k]], ws[k + 1..], i);
    AccumulatedAppend(d, ws[..k], [ws[k]], i);
    assert [ws[k]][..0] == [];
  }

  /** If record `i` has no higher term than record `j` on any contributing
      feature, its score is no higher. */
  lemma {:induction false} AccumulatedMonotone(d: Dataset, ws: Weights, i: nat, j: nat)
    requires i < |d.rows| && j < |d.rows|
    requires forall k :: 0 <= k < |ws| && Contributes(d, ws[k]) ==> Term(d, ws[k].0, i) <= Term(d, ws[k].0, j)
    ensures Accumulated(d, ws, i) <= Accumulated(d, ws, j)
    decreases |ws|
  {
    if ws != [] {
      var prefix := ws[..|ws| - 1];
      var last := ws[|ws| - 1];
      assert forall k :: 0 <= k < |prefix| ==> prefix[k] == ws[k];
      AccumulatedMonotone(d, prefix, i, j);
      if Contributes(d, last) {
        ContributionMonotone(d, last, i, j);
      }
    }
  }

  /** A larger term never contributes less. */
  lemma ContributionMonotone(d: Dataset, entry: (string, int), i: nat, j: nat)
    requires i < |d.rows| && j < |d.rows| && Contributes(d, entry)
    requires Term(d, entry.0, i) <= Term(d, entry.0, j)
    ensures Contribution(d, entry, i) <= Contribution(d, entry, j)
  {
    WeighMonotone(Term(d, entry.0, i), Term(d, entry.0, j), Abs(entry.1));
  }

  lemma WeighMonotone(t1: real, t2: real, w: nat)
    requires 0.0 <= t1 <= t2 <= 1.0
    ensures Weigh(t1, w) <= Weigh(t2, w)
  {
    calc {
      Weigh(t1, w);
      t1 * w as real;
    <=  { ScaleMonotone(w as real, t1, t2); }
      t2 * w as real;
      Weigh(t2, w);
    }
  }

  lemma ScaleMonotone(k: real, a: real, b: real)
    requires k >= 0.0 && a <= b
    ensures a * k <= b * k
  {
  }

  /** Record `i` is no better than record `j` on every weighted feature
      the table has (a zero weight or an absent feature imposes nothing):
      no more of any safety indicator and no less of any risk indicator. */
  predicate Dominated(d: Dataset, ws: Weights, i: nat, j: nat)
    requires i < |d.rows| && j < |d.rows|
  {
    forall k :: 0 <= k < |ws| && Contributes(d, ws[k]) ==>
      (ws[k].0 in RiskFeatures ==> Filled(d.rows[i], ws[k].0) >= Filled(d.rows[j], ws[k].0)) &&
      (ws[k].0 !in RiskFeatures ==> Filled(d.rows[i], ws[k].0) <= Filled(d.rows[j], ws[k].0))
  }

  /** Raising a safety indicator never lowers a score and raising a risk
      indicator never raises it: a dominated record never scores higher. */
  lemma DominatedScoresLower(d: Dataset, ws: Weights, i: nat, j: nat)
    requires i < |d.rows| && j < |d.rows|
    requires Dominated(d, ws, i, j)
    ensures CustomScore(d, ws, i) <= CustomScore(d, ws, j)
  {
    forall k | 0 <= k < |ws| && Contributes(d, ws[k])
      ensures Term(d, ws[k].0, i) <= Term(d, ws[k].0, j)
    {
      var f := ws[k].0;
      if f in RiskFeatures {
        TermMonotone(d, f, j, i);
      } else {
        TermMonotone(d, f, i, j);
      }
    }
    AccumulatedMonotone(d, ws, i, j);
    if TotalWeight(ws) > 0 {
      var total := TotalWeight(ws) as real;
      DivideMonotone(Accumulated(d, ws, i), Accumulated(d, ws, j), total);
      ScaleMonotone(100.0, Accumulated(d, ws, i) / total, Accumulated(d, ws, j) / total);
    }
  }
}
