/** The facility table the dashboard works on: one record per school-zone
    site with its descriptive columns, its raw indicator counts and the two
    precomputed score/grade column pairs (V6 and 50/30/20). */
module Facilities {
  import opened Seqs

  /** Safety grade, best to worst. */
  datatype Grade = A | B | C | D

  /** Position of a grade in the order A > B > C > D (0 is best). */
  function Rank(g: Grade): nat
  {
    match g
    case A => 0
    case B => 1
    case C => 2
    case D => 3
  }

  /** GRADE_LABELS: the label the grade filter and the tables show. */
  function Label(g: Grade): string
  {
    match g
    case A => "A (우수)"
    case B => "B (양호)"
    case C => "C (보통)"
    case D => "D (주의)"
  }

  /** One row of the facility table. A cell that holds NaN is `None`;
      a grade column value outside A-D (or NaN) is `None` as well, since the
      label lookup turns it into NaN. */
  datatype Facility = Facility(
    name: string,                        // 시설물명
    kind: Option<string>,                // 시설유형
    district: Option<string>,            // 구
    indicators: map<string, Option<real>>,  // numeric indicator columns
    v6Score: real,                       // 최종안전점수_V6
    v6Grade: Option<Grade>,              // 등급_V6
    gmScore: Option<real>,               // 최종_안전점수 (50/30/20 scheme, 60 sites)
    gmGrade: Option<Grade>               // 등급_광민
  )

  /** The table: the set of indicator column names it has, and its rows. */
  datatype Dataset = Dataset(columns: set<string>, rows: seq<Facility>)

  /** The value of indicator `f` in row `r`; a row without the key reads as NaN. */
  function Cell(r: Facility, f: string): Option<real>
  {
    if f in r.indicators then r.indicators[f] else None
  }

  /** COMMON_FACILITY_COLS: the six facility columns both precomputed
      schemes share, in the order the radar chart and the improvement
      suggestion visit them. */
  const FacilityCols: seq<string> :=
    ["도로적색표면", "신호등", "횡단보도", "도로안전표지", "생활안전CCTV", "무인교통단속카메라"]
}
