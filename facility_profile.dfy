/** The per-site views of the analysis tab: the radar chart of the six
    facility columns (each as a percentage of the column maximum) and the
    improvement suggestion shown for every grade-D site (the facility
    column in which the site is furthest below the best site). */
module FacilityProfile {
  import opened Seqs
  import opened Facilities

  /** `df[f].max()`: the largest value of column `f`, skipping NaN; NaN
      (`None`) when every value is NaN or the table is empty. */
  function ColumnMax(rows: seq<Facility>, f: string): Option<real>
  {
    if rows == [] then None
    else
      var rest := ColumnMax(rows[1..], f);
      match Cell(rows[0], f)
      case None => rest
      case Some(v) => if rest.Some? && rest.value > v then rest else Some(v)
  }

  /** ColumnMax is NaN exactly when the column holds no number; otherwise
      it is one of the column's numbers and no number exceeds it. */
  lemma {:induction false} ColumnMaxIsMax(rows: seq<Facility>, f: string)
    ensures ColumnMax(rows, f).None? <==> forall r :: r in rows ==> Cell(r, f).None?
    ensures ColumnMax(rows, f).Some? ==> exists r :: r in rows && Cell(r, f) == ColumnMax(rows, f)
    ensures ColumnMax(rows, f).Some? ==>
              forall r :: r in rows && Cell(r, f).Some? ==> Cell(r, f).value <= ColumnMax(rows, f).value
  {
    if rows != [] {
      ColumnMaxIsMax(rows[1..], f);
      assert forall r :: r in rows ==> r == rows[0] || r in rows[1..];
      assert rows[0] in rows;
      if ColumnMax(rows[1..], f).Some? {
        var r0 :| r0 in rows[1..] && Cell(r0, f) == ColumnMax(rows[1..], f);
        assert r0 in rows;
      }
    }
  }

  /** `df[df["시설물명"] == name].iloc[0]`: the first site with that name. */
  function FirstNamed(rows: seq<Facility>, name: string): (r: Option<Facility>)
    ensures r.None? <==> forall k :: 0 <= k < |rows| ==> rows[k].name != name
    ensures r.Some? ==> exists k :: 0 <= k < |rows| && rows[k] == r.value && rows[k].name == name &&
                          forall j :: 0 <= j < k ==> rows[j].name != name
  {
    if rows == [] then None
    else if rows[0].name == name then Some(rows[0])
    else
      var rest := FirstNamed(rows[1..], name);
      assert forall k :: 1 <= k < |rows| ==> rows[k] == rows[1..][k - 1];
      rest
  }

  // ---------------------------------------------------------------------
  // Radar chart (one point per facility column, then the first again)
  // ---------------------------------------------------------------------

  /** One radar value: the site's count as a percentage of the column
      maximum when that maximum is positive, 0 otherwise (a NaN maximum
      included), and NaN when the site's own count is NaN. */
  function RadarPoint(rows: seq<Facility>, row: Facility, f: string): Option<real>
  {
    var mx := ColumnMax(rows, f);
    if mx.Some? && mx.value > 0.0 then
      match Cell(row, f)
      case None => None
      case Some(v) => Some(v / mx.value * 100.0)
    else Some(0.0)
  }

  /** A radar point is NaN only for a NaN count against a positive
      maximum, 0 when the column has no positive maximum, on the 0-100 axis
      for a known non-negative count of a site of the table, and exactly
      100 for the site that holds the maximum. */
  lemma RadarPointRange(rows: seq<Facility>, row: Facility, f: string)
    ensures RadarPoint(rows, row, f).None? <==>
              Cell(row, f).None? && ColumnMax(rows, f).Some? && ColumnMax(rows, f).value > 0.0
    ensures ColumnMax(rows, f).None? || ColumnMax(rows, f).value <= 0.0 ==> RadarPoint(rows, row, f) == Some(0.0)
    ensures row in rows && Cell(row, f).Some? && Cell(row, f).value >= 0.0 ==>
              RadarPoint(rows, row, f).Some? && 0.0 <= RadarPoint(rows, row, f).value <= 100.0
    ensures Cell(row, f).Some? && Cell(row, f) == ColumnMax(rows, f) && Cell(row, f).value > 0.0 ==>
              RadarPoint(rows, row, f) == Some(100.0)
  {
    var mx := ColumnMax(rows, f);
    if mx.Some? && mx.value > 0.0 && Cell(row, f).Some? {
      ColumnMaxIsMax(rows, f);
      PercentOfMax(Cell(row, f).value, mx.value);
    }
  }

  /** The arithmetic of a share of a positive maximum, on reals alone. */
  lemma PercentOfMax(v: real, mx: real)
    requires mx > 0.0
    ensures 0.0 <= v <= mx ==> 0.0 <= v / mx <= 1.0 && 0.0 <= v / mx * 100.0 <= 100.0
    ensures v < mx ==> v / mx < 1.0
    ensures v == mx ==> v / mx == 1.0 && v / mx * 100.0 == 100.0
  {
    var q := v / mx;
    assert q * mx == v;
    if q > 1.0 {
      assert q * mx > 1.0 * mx;
    }
    if q < 0.0 {
      assert q * mx < 0.0 * mx;
    }
  }

  /** The radar trace for one site: a value per facility column, in
      column order, and the first value repeated at the end so that the
      polygon closes; the axis labels are closed the same way. */
  method RadarValues(rows: seq<Facility>, row: Facility) returns (vals: seq<Option<real>>, labels: seq<string>)
    ensures |vals| == |FacilityCols| + 1
    ensures forall k :: 0 <= k < |FacilityCols| ==> vals[k] == RadarPoint(rows, row, FacilityCols[k])
    ensures vals[|FacilityCols|] == vals[0]
    ensures labels == FacilityCols + [FacilityCols[0]]
  {
    var feats := FacilityCols;
    vals := [];
    var i := 0;
    while i < |feats|
      invariant 0 <= i <= |feats|
      invariant |vals| == i
      invariant forall k :: 0 <= k < i ==> vals[k] == RadarPoint(rows, row, feats[k])
    {
      vals := vals + [RadarPoint(rows, row, feats[i])];
      i := i + 1;
    }
    vals := vals + [vals[0]];
    labels := feats + [feats[0]];
  }

  // ---------------------------------------------------------------------
  // Improvement suggestion for a grade-D site
  // ---------------------------------------------------------------------

  /** What the suggestion card says: reinforce a facility column (with the
      site's current count, truncated to an integer), or the fallback
      "추가 분석 필요" when no column qualifies. */
  datatype Suggestion = Reinforce(feature: string, current: int) | NeedsAnalysis

  /** The site's count in column `f` as a share of the column maximum,
      where the scan computes one: the maximum is positive and the count
      is known (a NaN count gives a NaN share, which never compares less). */
  function Share(rows: seq<Facility>, row: Facility, f: string): Option<real>
  {
    var mx := ColumnMax(rows, f);
    if mx.Some? && mx.value > 0.0 && Cell(row, f).Some? then Some(Cell(row, f).value / mx.value)
    else None
  }

  /** A share exists exactly where the scan computes one, and for a known,
      non-negative count of a site of the table it is at most 1. */
  lemma ShareBounds(rows: seq<Facility>, row: Facility, f: string)
    ensures Share(rows, row, f).Some? <==>
              ColumnMax(rows, f).Some? && ColumnMax(rows, f).value > 0.0 && Cell(row, f).Some?
    ensures Share(rows, row, f).Some? && row in rows && Cell(row, f).value >= 0.0 ==>
              0.0 <= Share(rows, row, f).value <= 1.0
  {
    if Share(rows, row, f).Some? {
      ColumnMaxIsMax(rows, f);
      PercentOfMax(Cell(row, f).value, ColumnMax(rows, f).value);
    }
  }

  /** Column `f` can be suggested: the site is strictly below the column
      maximum there (the scan starts from a share of 1.0 and keeps only
      strictly smaller ones). */
  predicate Lacking(rows: seq<Facility>, row: Facility, f: string)
  {
    BelowOne(Share(rows, row, f))
  }

  predicate BelowOne(share: Option<real>)
  {
    share.Some? && share.value < 1.0
  }

  /** Column index `k` of `cols` is the one the scan settles on: it is
      lacking, no lacking column has a smaller share, and every earlier
      lacking column has a strictly larger one (a tie keeps the first). */
  predicate IsWorst(rows: seq<Facility>, row: Facility, cols: seq<string>, k: nat)
  {
    k < |cols| && Lacking(rows, row, cols[k]) &&
    (forall j :: 0 <= j < k && Lacking(rows, row, cols[j]) ==>
       Share(rows, row, cols[j]).value > Share(rows, row, cols[k]).value) &&
    (forall j :: k < j < |cols| && Lacking(rows, row, cols[j]) ==>
       Share(rows, row, cols[j]).value >= Share(rows, row, cols[k]).value)
  }

  /** The scan over the facility columns `cols` (the six of FacilityCols,
      in that order) for the one with the smallest share of the column
      maximum. It suggests the fallback exactly when no column is lacking;
      otherwise it names the first column with the smallest share, with
      the site's count there. */
  method SuggestImprovement(rows: seq<Facility>, row: Facility, cols: seq<string>) returns (s: Suggestion)
    ensures s.NeedsAnalysis? <==> forall k :: 0 <= k < |cols| ==> !Lacking(rows, row, cols[k])
    ensures s.Reinforce? ==> exists k: nat :: IsWorst(rows, row, cols, k) && s.feature == cols[k] &&
                                Cell(row, s.feature).Some? && s.current == Trunc(Cell(row, s.feature).value)
  {
    var worst: Option<string> := None;
    var worstPct := 1.0;
    ghost var shares: seq<Option<real>> := [];
    ghost var wk: nat := 0;
    var i := 0;
    while i < |cols|
      invariant 0 <= i <= |cols| && |shares| == i
      invariant forall j :: 0 <= j < i ==> shares[j] == Share(rows, row, cols[j])
      invariant worst.None? ==> worstPct == 1.0 && forall j :: 0 <= j < i ==> !BelowOne(shares[j])
      invariant forall j :: 0 <= j < i && BelowOne(shares[j]) ==> shares[j].value >= worstPct
      invariant worst.Some? ==>
        wk < i && worst.value == cols[wk] && shares[wk] == Some(worstPct) && worstPct < 1.0 &&
        forall j :: 0 <= j < wk && BelowOne(shares[j]) ==> shares[j].value > worstPct
    {
      var f := cols[i];
      var mx := ColumnMax(rows, f);
      if mx.Some? && mx.value > 0.0 {
        var v := Cell(row, f);
        if v.Some? {
          var pct := v.value / mx.value;
          shares := shares + [Some(pct)];
          if pct < worstPct {
            worstPct := pct;
            worst := Some(f);
            wk := i;
          }
        } else {
          shares := shares + [None];
        }
      } else {
        shares := shares + [None];
      }
      i := i + 1;
    }
    // Every column name is non-empty, so `if worst` is `worst.Some?`.
    if worst.Some? {
      assert IsWorst(rows, row, cols, wk);
      s := Reinforce(worst.value, Trunc(Cell(row, worst.value).value));
    } else {
      s := NeedsAnalysis;
    }
  }

  /** The scan's choice is determined: at most one column index is the
      worst. */
  lemma WorstUnique(rows: seq<Facility>, row: Facility, cols: seq<string>, k1: nat, k2: nat)
    requires IsWorst(rows, row, cols, k1) && IsWorst(rows, row, cols, k2)
    ensures k1 == k2
  {
  }

  /** A site of the table that holds the column maximum in every facility
      column lacks nothing, so it gets the fallback suggestion. */
  lemma AtMaximumLacksNothing(rows: seq<Facility>, row: Facility, cols: seq<string>)
    requires row in rows
    requires forall k :: 0 <= k < |cols| ==> Cell(row, cols[k]) == ColumnMax(rows, cols[k])
    ensures forall k :: 0 <= k < |cols| ==> !Lacking(rows, row, cols[k])
  {
    forall k | 0 <= k < |cols|
      ensures !Lacking(rows, row, cols[k])
    {
      var f := cols[k];
      if Share(rows, row, f).Some? {
        PercentOfMax(Cell(row, f).value, ColumnMax(rows, f).value);
      }
    }
  }

  /** A known count below a positive column maximum makes that column
      lacking, so such a site is always given a column to reinforce. */
  lemma BelowMaximumLacks(rows: seq<Facility>, row: Facility, f: string)
    requires ColumnMax(rows, f).Some? && ColumnMax(rows, f).value > 0.0
    requires Cell(row, f).Some? && Cell(row, f).value < ColumnMax(rows, f).value
    ensures Lacking(rows, row, f)
  {
    PercentOfMax(Cell(row, f).value, ColumnMax(rows, f).value);
  }
}
