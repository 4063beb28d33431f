/** The working table the dashboard shows: the scoring scheme picked in
    the sidebar decides which score and grade every site carries (and, for
    the 50/30/20 scheme, which sites remain); the type, district and grade
    filters select the rows; the KPI cards, the grade-D banner and the CSV
    export are computed from the result. */
module WorkingSet {
  import opened Seqs
  import opened Facilities
  import opened CustomScore
  import opened QuartileGrade

  /** The three entries of the "점수 산출 방식" radio button. */
  datatype Scheme =
    | V6                       // 시언 V6 안전점수 (142개소)
    | GM                       // 광민 100점 안전점수 (60개소)
    | Custom(weights: Weights) // 가중치 직접 설정, with the eight slider values

  /** One row of the working table: the site, its 활성_안전점수 and its 등급
      (`None` when the grade column holds NaN or a value outside A-D). */
  datatype Active = Active(site: Facility, score: real, grade: Option<Grade>)

  predicate HasGmScore(r: Facility)
  {
    r.gmScore.Some?
  }

  function Sites(ws: seq<Active>): (sites: seq<Facility>)
    ensures |sites| == |ws|
  {
    seq(|ws|, i requires 0 <= i < |ws| => ws[i].site)
  }

  function Scores(ws: seq<Active>): (scores: seq<real>)
    ensures |scores| == |ws|
  {
    seq(|ws|, i requires 0 <= i < |ws| => ws[i].score)
  }

  // ---------------------------------------------------------------------
  // Scheme selection
  // ---------------------------------------------------------------------

  /** The working table after the scheme is chosen. V6 keeps every site
      with its V6 score and grade; 50/30/20 keeps only the sites that have
      that score (the `notna()` filter) with its score and grade; the
      custom scheme keeps every site, scores it with the slider weights
      (what CalculateCustomScore returns) and grades the scores by their
      own quartiles. */
  function Activate(d: Dataset, scheme: Scheme): (ws: seq<Active>)
    ensures Sites(ws) == (if scheme.GM? then Filter(d.rows, HasGmScore) else d.rows)
  {
    match scheme
    case V6 => V6Table(d.rows)
    case GM => GmTable(d.rows)
    case Custom(w) => CustomTable(d, w)
  }

  function V6Table(rows: seq<Facility>): (ws: seq<Active>)
    ensures Sites(ws) == rows
  {
    seq(|rows|, i requires 0 <= i < |rows| => Active(rows[i], rows[i].v6Score, rows[i].v6Grade))
  }

  function GmTable(rows: seq<Facility>): (ws: seq<Active>)
    ensures Sites(ws) == Filter(rows, HasGmScore)
  {
    var kept := Filter(rows, HasGmScore);
    seq(|kept|, i requires 0 <= i < |kept| =>
      assert kept[i] in kept;
      Active(kept[i], kept[i].gmScore.value, kept[i].gmGrade))
  }

  function CustomTable(d: Dataset, w: Weights): (ws: seq<Active>)
    ensures Sites(ws) == d.rows
  {
    var scores := CustomScores(d, w);
    var grades := AssignGrades(scores);
    seq(|d.rows|, i requires 0 <= i < |d.rows| => Active(d.rows[i], scores[i], Some(grades[i])))
  }

  /** Under the 50/30/20 scheme the working table holds exactly the sites
      that have a 50/30/20 score, in table order, each carrying that score
      and its own grade; the other two schemes keep every site. */
  lemma GmCoverage(d: Dataset)
    ensures |Activate(d, GM)| == Count(d.rows, HasGmScore)
    ensures forall a :: a in Activate(d, GM) ==>
              a.site in d.rows && a.site.gmScore == Some(a.score) && a.grade == a.site.gmGrade
    ensures forall r :: r in d.rows && HasGmScore(r) ==> r in Sites(Activate(d, GM))
    ensures |Activate(d, V6)| == |d.rows|
  {
    var ws := Activate(d, GM);
    forall a | a in ws
      ensures a.site in d.rows && a.site.gmScore == Some(a.score) && a.grade == a.site.gmGrade
    {
      var i :| 0 <= i < |ws| && ws[i] == a;
      assert Sites(ws)[i] == a.site;
    }
    assert |Sites(Activate(d, V6))| == |d.rows|;
  }

  /** Under the V6 scheme every site carries its V6 score and grade. */
  lemma V6Carried(d: Dataset, i: nat)
    requires i < |d.rows|
    ensures Activate(d, V6)[i].score == d.rows[i].v6Score
    ensures Activate(d, V6)[i].grade == d.rows[i].v6Grade
  {
    assert |Sites(Activate(d, V6))| == |d.rows|;
  }

  /** Under the custom scheme every site has a grade, scores lie in 0-100
      when some weight is nonzero, a higher score never has a worse grade,
      and the best score is graded A. */
  lemma CustomGraded(d: Dataset, w: Weights, i: nat, j: nat)
    requires i < |d.rows| && j < |d.rows|
    ensures Activate(d, Custom(w))[i].grade.Some?
    ensures Activate(d, Custom(w))[i].score == CustomScore.CustomScore(d, w, i)
    ensures TotalWeight(w) > 0 ==> 0.0 <= Activate(d, Custom(w))[i].score <= 100.0
    ensures Activate(d, Custom(w))[i].score >= Activate(d, Custom(w))[j].score ==>
              Rank(Activate(d, Custom(w))[i].grade.value) <= Rank(Activate(d, Custom(w))[j].grade.value)
    ensures Activate(d, Custom(w))[i].score == Max(Scores(Activate(d, Custom(w)))) ==>
              Activate(d, Custom(w))[i].grade == Some(A)
  {
    var ws := CustomTable(d, w);
    assert Activate(d, Custom(w)) == ws;
    var scores := CustomScores(d, w);
    assert |Sites(ws)| == |d.rows|;
    assert ws[i].score == scores[i] && ws[j].score == scores[j];
    assert ws[i].grade == Some(AssignGrades(scores)[i]);
    assert ws[j].grade == Some(AssignGrades(scores)[j]);
    if TotalWeight(w) > 0 {
      ScoreInRange(d, w, i);
    }
    assert Scores(ws) == scores;
  }

  // ---------------------------------------------------------------------
  // Row filter
  // ---------------------------------------------------------------------

  /** The 안전등급 label of a row: NaN when the grade is. */
  function LabelOf(a: Active): Option<string>
  {
    if a.grade.Some? then Some(Label(a.grade.value)) else None
  }

  /** pandas `isin`: a NaN cell matches no selection. */
  predicate IsIn(v: Option<string>, selection: set<string>)
  {
    v.Some? && v.value in selection
  }

  predicate Selected(a: Active, types: set<string>, districts: set<string>, labels: set<string>)
  {
    IsIn(a.site.kind, types) && IsIn(a.site.district, districts) && IsIn(LabelOf(a), labels)
  }

  /** filtered_df: the rows whose type, district and grade label are all
      selected, in their original order. */
  function FilterRows(ws: seq<Active>, types: set<string>, districts: set<string>, labels: set<string>)
    : (r: seq<Active>)
    ensures forall a :: a in r <==> a in ws && Selected(a, types, districts, labels)
    ensures |r| == Count(ws, Selection(types, districts, labels))
    ensures IsSubsequence(r, ws)
  {
    Filter(ws, Selection(types, districts, labels))
  }

  /** The combined mask of the three `isin` conditions. */
  function Selection(types: set<string>, districts: set<string>, labels: set<string>): Active -> bool
  {
    a => Selected(a, types, districts, labels)
  }

  /** The options (and defaults) of the type and district multiselects:
      every value the working table holds, NaN dropped. */
  function KindsPresent(ws: seq<Active>): set<string>
  {
    set a | a in ws && a.site.kind.Some? :: a.site.kind.value
  }

  function DistrictsPresent(ws: seq<Active>): set<string>
  {
    set a | a in ws && a.site.district.Some? :: a.site.district.value
  }

  const AllGrades: seq<Grade> := [A, B, C, D]

  /** Some row of the working table has grade `g`. */
  predicate Occurs(ws: seq<Active>, g: Grade)
  {
    exists a :: a in ws && a.grade == Some(g)
  }

  /** The options (and default) of the grade multiselect: the labels of
      A, B, C, D, in that order, that occur in the working table. */
  function GradeOptions(ws: seq<Active>): seq<string>
  {
    var present := Filter(AllGrades, g => Occurs(ws, g));
    seq(|present|, k requires 0 <= k < |present| => Label(present[k]))
  }

  /** The grade options are exactly the labels the working table holds. */
  lemma GradeOptionsExact(ws: seq<Active>)
    ensures forall l :: l in GradeOptions(ws) <==> exists a :: a in ws && LabelOf(a) == Some(l)
  {
    var present := Filter(AllGrades, g => Occurs(ws, g));
    var opts := GradeOptions(ws);
    forall l | l in opts ensures exists a :: a in ws && LabelOf(a) == Some(l) {
      var k :| 0 <= k < |present| && opts[k] == l;
      assert present[k] in present;
    }
    forall a | a in ws && a.grade.Some? ensures Label(a.grade.value) in opts {
      var g := a.grade.value;
      assert g in AllGrades by {
        match g
        case A => assert AllGrades[0] == A;
        case B => assert AllGrades[1] == B;
        case C => assert AllGrades[2] == C;
        case D => assert AllGrades[3] == D;
      }
      assert g in present;
      var k :| 0 <= k < |present| && present[k] == g;
      assert opts[k] == Label(g);
    }
  }

  /** With every option selected (the sidebar's default), the filter keeps
      exactly the rows whose type, district and grade are all known. */
  lemma DefaultSelectionKeepsKnown(ws: seq<Active>, a: Active)
    requires a in ws
    ensures a in FilterRows(ws, KindsPresent(ws), DistrictsPresent(ws), set l | l in GradeOptions(ws)) <==>
              a.site.kind.Some? && a.site.district.Some? && a.grade.Some?
  {
    GradeOptionsExact(ws);
  }

  // ---------------------------------------------------------------------
  // KPI cards
  // ---------------------------------------------------------------------

  /** 평균 안전점수: the mean score of the filtered rows, 0 when none remain. */
  function MeanScore(ws: seq<Active>): real
  {
    if |ws| == 0 then 0.0 else Average(Scores(ws))
  }

  /** The mean is 0 for an empty table and otherwise lies between the
      lowest and the highest score. */
  lemma MeanWithinRange(ws: seq<Active>)
    ensures |ws| == 0 ==> MeanScore(ws) == 0.0
    ensures |ws| > 0 ==> Min(Scores(ws)) <= MeanScore(ws) <= Max(Scores(ws))
  {
    if |ws| > 0 {
      AverageBounds(Scores(ws));
    }
  }

  predicate IsSafe(a: Active)
  {
    a.grade == Some(A) || a.grade == Some(B)
  }

  /** 안전(A+B) 비율: the percentage of filtered rows graded A or B, 0 when
      none remain; it is 100 exactly when every row is A or B and 0 exactly
      when the table is empty or no row is. */
  function SafeRatio(ws: seq<Active>): (r: real)
    ensures 0.0 <= r <= 100.0
    ensures r == 100.0 <==> |ws| > 0 && forall i :: 0 <= i < |ws| ==> IsSafe(ws[i])
    ensures r == 0.0 <==> forall i :: 0 <= i < |ws| ==> !IsSafe(ws[i])
  {
    if |ws| == 0 then 0.0
    else
      var safe := Count(ws, IsSafe);
      CountExtremes(ws, IsSafe);
      PercentOfCount(safe as real, |ws| as real);
      safe as real / |ws| as real * 100.0
  }

  /** The arithmetic of a percentage of a count, on reals alone. */
  lemma PercentOfCount(k: real, n: real)
    requires 0.0 <= k <= n && n > 0.0
    ensures 0.0 <= k / n * 100.0 <= 100.0
    ensures k / n * 100.0 == 100.0 <==> k == n
    ensures k / n * 100.0 == 0.0 <==> k == 0.0
  {
    assert k / n * n == k;
  }

  /** The known accident counts (발생건수) of the rows, NaN skipped. */
  function AccidentCounts(ws: seq<Active>): seq<real>
  {
    Present(seq(|ws|, i requires 0 <= i < |ws| => Cell(ws[i].site, "발생건수")))
  }

  /** 사고건수 합계: the known accident counts added up and truncated to
      an integer. */
  function AccidentTotal(ws: seq<Active>): int
  {
    Trunc(Sum(AccidentCounts(ws)))
  }

  /** The accident total is never negative when no count is. */
  lemma AccidentTotalNonNegative(ws: seq<Active>)
    requires forall a :: a in ws && Cell(a.site, "발생건수").Some? ==> Cell(a.site, "발생건수").value >= 0.0
    ensures AccidentTotal(ws) >= 0
  {
    var counts := AccidentCounts(ws);
    forall x | x in counts ensures 0.0 <= x {
      var i :| 0 <= i < |ws| && Cell(ws[i].site, "발생건수") == Some(x);
      assert ws[i] in ws;
    }
    SumNonNegative(counts);
  }

  // ---------------------------------------------------------------------
  // Grade-D banner
  // ---------------------------------------------------------------------

  predicate IsD(a: Active)
  {
    a.grade == Some(D)
  }

  /** The grade-D rows, in table order: the sites the banner lists (of the
      filtered table) and the sites that get an improvement suggestion (of
      the whole working table, where they are then ordered by score). */
  function DRows(ws: seq<Active>): (low: seq<Active>)
    ensures forall a :: a in low <==> a in ws && a.grade == Some(D)
    ensures |low| == Count(ws, IsD)
    ensures IsSubsequence(low, ws)
  {
    Filter(ws, IsD)
  }

  /** The banner over the map: how many filtered sites are graded D, the
      names of the first ten of them, and how many more there are (shown
      as "외 n개" only when n is positive). */
  datatype Banner = Banner(count: nat, shown: seq<string>, more: nat)

  function Names(ws: seq<Active>): (names: seq<string>)
    ensures |names| == |ws|
  {
    seq(|ws|, i requires 0 <= i < |ws| => ws[i].site.name)
  }

  /** No banner when no filtered site is graded D; otherwise at most ten
      names, in table order, with the rest counted. */
  function DBanner(ws: seq<Active>): (b: Option<Banner>)
    ensures b.None? <==> forall a :: a in ws ==> !IsD(a)
    ensures b.Some? ==> b.value.count == Count(ws, IsD) > 0
    ensures b.Some? ==> |b.value.shown| <= 10 && |b.value.shown| + b.value.more == b.value.count
    ensures b.Some? ==> b.value.more > 0 ==> |b.value.shown| == 10
    ensures b.Some? ==> forall k :: 0 <= k < |b.value.shown| ==>
              exists a :: a in ws && IsD(a) && a.site.name == b.value.shown[k]
  {
    var low := DRows(ws);
    if |low| > 0 then
      var names := Names(low);
      var shown := if |names| > 10 then names[..10] else names;
      assert forall k :: 0 <= k < |shown| ==> low[k] in low && shown[k] == low[k].site.name;
      Some(Banner(|low|, shown, if |low| > 10 then |low| - 10 else 0))
    else
      assert forall a :: a in ws ==> !IsD(a);
      None
  }

  /** The grade-D sites the banner lists are the first ones of the
      filtered table: its names are a prefix of the D-graded names. */
  lemma BannerPrefix(ws: seq<Active>)
    requires DBanner(ws).Some?
    ensures DBanner(ws).value.shown <= Names(DRows(ws))
  {
  }

  // ---------------------------------------------------------------------
  // CSV export
  // ---------------------------------------------------------------------

  const BaseCsvCols: seq<string> := ["시설물명", "시설유형", "구", "안전등급", "활성_안전점수"]

  /** The chosen scheme's score breakdown columns. */
  function SchemeCsvCols(scheme: Scheme): seq<string>
  {
    match scheme
    case GM => ["시설물_점수(50점)", "사고이력_점수(30점)", "인구환경_점수(20점)"]
    case V6 => ["가산점_시설_V6", "가산점_보너스_V6", "감산점_합계_V6"]
    case Custom(_) => []
  }

  /** The columns the export asks for, before the presence filter: the
      base columns, the scheme's breakdown, the six facility columns, the
      accident count and the child ratio. */
  function CsvCandidates(scheme: Scheme): seq<string>
  {
    BaseCsvCols + SchemeCsvCols(scheme) + FacilityCols + ["발생건수", "어린이비율"]
  }

  /** Column `c` is one the working table has. */
  function Presence(present: set<string>): string -> bool
  {
    c => c in present
  }

  /** csv_cols: the candidates the working table actually has, in
      candidate order. */
  function CsvColumns(scheme: Scheme, present: set<string>): (cols: seq<string>)
    ensures forall c :: c in cols <==> c in CsvCandidates(scheme) && c in present
    ensures IsSubsequence(cols, CsvCandidates(scheme))
  {
    Filter(CsvCandidates(scheme), Presence(present))
  }

  /** The working table always has the five base columns, so the export
      starts with them, in that order. */
  lemma CsvStartsWithBase(scheme: Scheme, present: set<string>)
    requires forall c :: c in BaseCsvCols ==> c in present
    ensures |CsvColumns(scheme, present)| >= 5
    ensures CsvColumns(scheme, present)[..5] == BaseCsvCols
  {
    var base := BaseCsvCols;
    var rest := SchemeCsvCols(scheme) + FacilityCols + ["발생건수", "어린이비율"];
    assert CsvCandidates(scheme) == base + rest;
    FilterKeepsPassingPrefix(base, rest, Presence(present));
  }
}
