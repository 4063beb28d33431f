# Seongnam school-zone safety dashboard: scoring and grading core

A Dafny model of the logic at the heart of the school-zone safety
dashboard (`app.py`), which scores and grades each child protection zone
site of Seongnam. The model covers:

- **Custom score.** The user-weighted safety score `calculate_custom_score`.
  Each weighted indicator column is min-max normalised with NaN filled by 0.
  The three risk indicators are inverted. The terms are accumulated with the
  absolute weights and rescaled to 0–100 by the total absolute weight.
- **Quartile grades.** `assign_grade_by_quartile` compares every score with
  the 25th, 50th and 75th percentiles of its own column. The percentiles use
  pandas' linear interpolation, and a score on a cut point takes the higher
  grade.
- **Working table.** Choosing a scheme sets the working table: the V6
  score, the 50/30/20 score with its `notna()` site filter, or the custom
  score with quartile grades. Then come the type, district and grade
  filter, the KPI cards (count, mean, A+B ratio, accident total), the
  grade-D banner and the CSV export column list.
- **Facility profile.** The radar values for one site (each facility count
  as a percentage of the column maximum, with the polygon closed) and the
  improvement suggestion for a grade-D site (the first facility column with
  the smallest share of the column maximum, or "추가 분석 필요").

Files:

- `seqs.dfy`: an Option type for NaN cells, order-preserving filtering,
  counting, and Min/Max/Sum/mean with NaN skipped. It also holds Python's
  `int()` on a float.
- `facilities.dfy`: the grade type with `GRADE_LABELS`, the facility record
  and table, and `COMMON_FACILITY_COLS`.
- `custom_score.dfy`: the custom score. It is specified by functions.
  `CalculateCustomScore` is the imperative version with an array
  accumulator, proved equal to those functions.
- `quartile_grade.dfy`: the linear-interpolation quantile and the quartile
  grades.
- `facility_profile.dfy`: the radar loop and the suggestion scan, both as
  methods.
- `working_set.dfy`: scheme selection, the filter, the KPIs, the banner and
  the CSV columns.

Three consequences of the code are worth stating on their own:

- When every weight is 0, `calculate_custom_score` divides by nothing and
  returns 0.0 for every site (`ZeroWeightsScoreZero`).
- The divisor `total_w` adds `|w|` for every nonzero weight, including
  weights whose feature is not a column of the table. Only the accumulation
  skips absent features, so such a weight keeps every score below 100
  (`AbsentFeatureCapsScore`).
- For the scores 10, 20, …, 100, pandas' linear quantile puts the quartiles
  at 32.5, 55 and 77.5, so 60 is graded B (`TenScoresQuartiles`,
  `TenScoresExample`).

`app.py` grades only by the precomputed grade columns or by quartiles; it
has no fixed-threshold grading.

## Model

| member | source | states |
|---|---|---|
| Seqs.Filter | app.py:543-547 | The boolean-mask selection `df[mask]`: the result holds exactly the elements that pass, as many as `Count` says, in their original order (a subsequence) |
| Seqs.CountExtremes | app.py:585-588 | A count equals the length exactly when every element passes, and is 0 exactly when none does |
| Seqs.FilterKeepsPassingPrefix | app.py:531 | A prefix whose elements all pass the filter survives as the prefix of the result |
| Seqs.Present | app.py:590 | The NaN-skipping view of a column: a number is in it exactly when some cell holds it |
| Seqs.PresentCounts | app.py:590 | Each number occurs in the NaN-skipping view exactly as often as cells hold it, so the sum counts every known value once per row |
| Seqs.Min | app.py:175 | `col.min()`: an element of the column, and no element is smaller |
| Seqs.Max | app.py:175 | `col.max()`: an element of the column, and no element is larger |
| Seqs.AverageBounds | app.py:583 | The mean of a non-empty column lies between its smallest and largest element |
| Seqs.SumNonNegative | app.py:590 | A sum of non-negative terms is non-negative |
| Seqs.Trunc | app.py:590 | Python `int()` on a float truncates toward zero: the result is the whole part, at most 1 away from the value, and on the value's side of 0 |
| CustomScore.Normalise | app.py:175-182 | A min-max normalised term, inverted or not, lies in [0, 1], and it is exactly 0.5 when the column is constant |
| CustomScore.Term | app.py:174-182 | The term of every feature for every site, with NaN read as 0, lies in [0, 1] |
| CustomScore.Contribution | app.py:171-173 | What one (feature, weight) entry adds to a site's sum is non-negative. It is at most `abs(w)`, and it is 0 when the feature is absent or the weight is 0 |
| CustomScore.CalculateCustomScore | app.py:168-187 | The accumulator loop followed by the rescaling loop returns, for every site, the score defined by `CustomScore` (the weighted terms summed, then divided by `total_w` and times 100 when `total_w > 0`) |
| CustomScore.AddWeightedTerms | app.py:174-183 | `scores += norm * abs(w)` adds to every site's entry exactly that site's contribution for the feature and changes nothing else |
| CustomScore.ConstantColumnTerm | app.py:174-179 | A column whose filled values are all equal, such as a single-row table, gives every site the term 0.5, whatever its polarity |
| CustomScore.TermMonotone | app.py:176-182 | A higher raw value never lowers a safety indicator's term and never raises a risk indicator's term |
| CustomScore.PolarityComplement | app.py:181-182 | The risk and safety terms of the same column sum to 1 |
| CustomScore.AccumulatedBounds | app.py:170-183 | Every site's accumulated sum lies between 0 and the weight of the features the table has |
| CustomScore.PresentWithinTotal | app.py:172-184 | The weight of present features never exceeds `total_w`, and falls strictly short of it once a weighted feature is absent |
| CustomScore.ScoreInRange | app.py:184-187 | With `total_w > 0` every score lies in [0, 100], and is at most 100 times the present share of the weight |
| CustomScore.AbsentFeatureCapsScore | app.py:172-187 | A nonzero weight on a feature the table lacks keeps every score strictly below 100 |
| CustomScore.ZeroWeightsScoreZero | app.py:170-187 | With all weights 0 no division happens and every score is 0.0 |
| CustomScore.SignIgnored | app.py:183-184 | Only each weight's magnitude matters: any weight list with the same features and the same absolute weights, whatever the sign of each entry, gives the same sums, the same `total_w` and the same scores |
| CustomScore.NegatedScoresAlike | app.py:183-184 | In particular, negating every weight leaves every score unchanged |
| CustomScore.AccumulatedAppend | app.py:171-184 | The sums and `total_w` over two concatenated weight lists are the sums of the parts |
| CustomScore.NonContributingAddsNothing | app.py:171-173 | Removing a zero weight, or a weight on an absent feature, leaves every site's sum unchanged. Removing a zero weight also leaves every score unchanged |
| CustomScore.AccumulatedMonotone | app.py:171-183 | A site with no higher term than another site on any contributing feature has no higher sum |
| CustomScore.ContributionMonotone | app.py:183 | A larger term never contributes less |
| CustomScore.DominatedScoresLower | app.py:168-187 | A site with no more of any weighted safety indicator and no less of any weighted risk indicator than another site never scores higher; zero weights and features the table lacks impose nothing |
| QuartileGrade.Insert | app.py:192 | Insertion into a sorted column keeps it sorted and adds exactly the new value (as a multiset) |
| QuartileGrade.SortAscending | app.py:192 | The sort behind `quantile` yields an ascending permutation of the scores |
| QuartileGrade.SortAscendingSorted | app.py:192 | Sorting an ascending column changes nothing |
| QuartileGrade.Interpolate | app.py:192 | The linear interpolation at a position lies between the value at its whole part and the next value, and equals the former at a whole position |
| QuartileGrade.InterpolateMonotone | app.py:192 | A later position never gives a smaller quantile |
| QuartileGrade.QuartilePosition | app.py:192 | The quartile position `(n - 1) * p` falls within the column |
| QuartileGrade.Quantile | app.py:192 | `scores.quantile(p)` lies between the column's minimum and maximum |
| QuartileGrade.QuartilesOf | app.py:192 | q25 ≤ q50 ≤ q75, all within the column's range |
| QuartileGrade.GradeFor | app.py:193-200 | `_grade` gives A exactly at or above q75. It gives A or B exactly at or above q75 or q50, and A, B or C exactly at or above one of the three cut points. A score on a cut point takes the higher grade |
| QuartileGrade.AssignGrades | app.py:190-201 | One grade per score. A higher score never gets a worse grade, and the top score gets A |
| QuartileGrade.ConstantScoresAllA | app.py:190-201 | A constant score column, as with all weights 0, puts every site in grade A |
| QuartileGrade.TenScoresQuartiles | app.py:192 | The scores 10, 20, …, 100 have the quartiles 32.5, 55 and 77.5 |
| QuartileGrade.TenScoresExample | app.py:193-200 | Against those quartiles, 80 gets A, 60 and 55 get B, 35 gets C and 30 gets D |
| FacilityProfile.ColumnMaxIsMax | app.py:711 | `df[f].max()` is NaN exactly when the column holds no number. Otherwise it is one of the column's numbers and no number exceeds it |
| FacilityProfile.FirstNamed | app.py:704 | `.iloc[0]` of the name match is the row at the first index with that name, and there is none only when no row has the name |
| FacilityProfile.RadarPointRange | app.py:711-712 | A radar value is NaN only for a NaN count against a positive maximum. It is 0 when the maximum is NaN or not positive, within 0–100 for a known non-negative count of a table site, and exactly 100 at the maximum |
| FacilityProfile.RadarValues | app.py:709-714 | The values loop gives one radar value per facility column, in column order, then the first value again. The labels are closed the same way |
| FacilityProfile.ShareBounds | app.py:821-823 | The scan computes a share exactly when the column maximum is positive and the count is known. For a known non-negative count the share is at most 1 |
| FacilityProfile.SuggestImprovement | app.py:818-827 | The scan gives "추가 분석 필요" exactly when no facility column is below its maximum. Otherwise it names the first column with the strictly smallest share, with the site's truncated count there |
| FacilityProfile.WorstUnique | app.py:818-826 | At most one column index qualifies as the scan's choice |
| FacilityProfile.AtMaximumLacksNothing | app.py:818-827 | A site holding the column maximum in every facility column lacks nothing, so it gets the fallback |
| FacilityProfile.BelowMaximumLacks | app.py:821-826 | A known count below a positive column maximum makes that column a candidate, so such a site always gets a column to reinforce |
| WorkingSet.Activate | app.py:440-483 | The working table's sites are all sites, except that the 50/30/20 scheme keeps only the sites with that score, in table order |
| WorkingSet.V6Table | app.py:441-443 | The V6 table keeps every site, in order |
| WorkingSet.GmTable | app.py:447-450 | The 50/30/20 table's sites are exactly the sites with a 50/30/20 score, in order |
| WorkingSet.CustomTable | app.py:479-481 | The custom table keeps every site, in order |
| WorkingSet.GmCoverage | app.py:447-450 | Under 50/30/20 the table has one row per site with that score, and every such site appears. Each row carries its site's score and grade. V6 keeps every site |
| WorkingSet.V6Carried | app.py:441-443 | Under V6 every site carries its V6 score and V6 grade |
| WorkingSet.CustomGraded | app.py:479-481 | Under the custom scheme every site has a grade, and its score is the custom score, within 0–100 when some weight is nonzero. A higher score never has a worse grade, and the best score is graded A |
| WorkingSet.FilterRows | app.py:543-547 | The filtered table holds exactly the rows whose type, district and grade label are all selected (a NaN never matches), each as often as it occurs (the count of rows passing the mask), in original order |
| WorkingSet.GradeOptionsExact | app.py:496 | The grade options are exactly the labels the working table holds |
| WorkingSet.DefaultSelectionKeepsKnown | app.py:487-497 | With the default selections (every option), a row survives the filter exactly when its type, district and grade are all known |
| WorkingSet.MeanWithinRange | app.py:583 | The mean score is 0 for an empty filtered table, and otherwise lies between the lowest and highest score |
| WorkingSet.SafeRatio | app.py:585-588 | The A+B ratio lies in [0, 100]. It is 100 exactly when the table is non-empty and every row is A or B, and 0 exactly when the table is empty or no row is A or B |
| WorkingSet.AccidentTotalNonNegative | app.py:590 | The accident total is never negative when no count is |
| WorkingSet.DRows | app.py:568 | The grade-D rows are exactly the filtered rows graded D, as many as there are, in table order |
| WorkingSet.DBanner | app.py:568-574 | There is no banner exactly when no filtered row is graded D. Otherwise it gives the D count, at most ten names (ten whenever more remain) each belonging to a D row, and the rest counted, so shown plus more equals the count |
| WorkingSet.BannerPrefix | app.py:570 | The names shown are the first ones of the D rows, in table order |
| WorkingSet.CsvColumns | app.py:524-531 | The exported columns are exactly the candidate columns the table has, in candidate order |
| WorkingSet.CsvStartsWithBase | app.py:524-531 | When the table has the five base columns, the export starts with exactly those, in order |

## Left out

- Streamlit rendering, the sidebar widgets, the tabs, the HTML popups and legend, the folium map with its overlays, the plotly charts and their `groupby`/`melt` aggregations: display only.
- The cached CSV and GeoJSON loaders: file I/O. The table arrives as a `Dataset` value.
- Floating point: scores, means and ratios are exact reals. `.round(1)` and the `:.1f`/`:.0f` display formats are not modelled.
- The internals of the precomputed V6 and 50/30/20 scores and grades: they are columns of the table and are only selected.
- WorkingSet.Activate: the V6 score is taken to be present for every site. A grade value outside A–D (or NaN) is `None`, as the label lookup turns it into NaN.
- WorkingSet.CustomTable: uses the score function `CustomScore` that `CalculateCustomScore` is proved to compute, rather than calling the method.
- FacilityProfile.SuggestImprovement: the facility columns are a parameter, which the dashboard fixes to `COMMON_FACILITY_COLS`. It covers one site. The order in which the D-grade sites are listed (`sort_values` by score, whose tie order is pandas-internal) is not modelled.
- FacilityProfile.FirstNamed: returns `None` for a name no row has, where `iloc[0]` would raise. The dashboard only offers names from the table.
- WorkingSet.DBanner: the names are kept as a sequence. Joining them with " / " into one string is not modelled.
- WorkingSet.CsvColumns: the rename of `활성_안전점수` to `안전점수` in the exported file and the CSV encoding are not modelled.
- The individual-site dropdown's sorted name list, and the `nlargest`/`nsmallest` rankings of the analysis tab (pandas tie-breaking).
