# covid-dashboard data pipeline, modelled in Dafny

The covid-dashboard app shows India's COVID-19 epidemic state by state: a choropleth map, KPI cards and time-series plots. Behind these views sits a small pandas pipeline, and this project models it. The pipeline:

- cleans the state-wise daily report. Ladakh is folded into Jammu and Kashmir, unused columns are dropped, abbreviations become state names, and counts are made absolute.
- filters rows by status and builds month-by-month running totals.
- computes daily vaccination deltas per state, and the totals of those deltas.
- builds the per-state snapshot: confirmed cases are cut off `avg_days_to_death` days before the last date; per-million ratios, max-tie descending ranks and a national "India" row are added.
- builds the date-by-state table: a lagged case-fatality rate, per-million ratios and the vaccinated share, then +inf replaced by missing and linear interpolation.
- builds the national time series: the state columns summed, a fixed population and a case-fatality rate lagged 15 rows.
- builds the discrete colour scale of the map.
- provides the KPI text helpers: magnitude suffixes, percentages, the ▲/▼ delta and display names.

How things are represented:

- **Tables.** A dataframe is a `Frame` value: a row index and a map from column label to a column of `Num` cells. A frame that a function changes in place is a `DataFrame` object. The raw report that `clean_raw_data` rewrites is a `StateWiseFrame` object.
- **Cells.** A `Num` cell is a finite real, +inf, -inf or NaN ("missing").
- **Counts and dates.** Counts are integers and dates are day numbers.
- **Operations.** Each pandas step is a function on values. Each step the source performs by mutation is a method that is proved equal to that function. The properties the source relies on are lemmas about the functions.
- **Errors.** Each error path the source can hit is a `Result`/`Outcome` value: a `KeyError` for a missing column, and a `ZeroDivisionError` for an empty colour set.

Module layout:

- `Common`, `Numeric`, `Seqs`, `Frames`: shared types, IEEE-style cell arithmetic, sequence helpers and frames.
- `Helper`, `HelperTables`, `HelperMetrics`, `Format`: helper.py.
- `Vaccine`: vaccine.py.
- `Rank`, `StateFrame`, `StateLevel`: state_level.py.
- `DateWise`: date_wise.py.
- `IndiaOverall`: india_overall.py.
- `Graph`: `generateDiscreteColourScale` in graph.py.

Where the code and its description disagree, the model follows the code:

- The per-state snapshot has no `pct_vaccinated` column (state_level.py:26-29 computes four ratios).
- `get_india_df` takes one argument (india_overall.py:5), although main.py:18 passes two.

## Model

| member | source | states |
|---|---|---|
| Numeric.Div | state_level.py:29 | Finite over non-zero is the real quotient; x/0 is +inf, -inf or NaN by the sign of x; NaN in gives NaN out |
| Numeric.Scale | helper.py:135 | Multiplying by a positive constant keeps finiteness, scales a finite value and leaves ±inf and NaN as they are |
| Numeric.TotalOfFinite | state_level.py:34 | On a column of finite cells, the NaN-skipping `sum()` is the ordinary sum |
| Numeric.TotalIgnoresMissing | state_level.py:34 | Missing cells do not contribute to a column total |
| Numeric.ShiftAt | helper.py:138 | `shift(k)`: the first k rows are missing, and row i holds row i-k |
| Numeric.PerMillionFinite | state_level.py:26 | A count over a positive population is the exact ratio times 1000000 |
| Numeric.DivCol | state_level.py:29 | Column division is cell-by-cell division, length kept |
| Numeric.PerMillionCol | state_level.py:26-28 | Column per-million is cell-by-cell, length kept |
| Seqs.PrefixSumsAt | helper.py:125 | Element k of `cumsum()` is the sum of the first k+1 values |
| Seqs.PrefixSumsMonotone | helper.py:125 | With no negative value the running total never decreases |
| Seqs.SortedDistinct | helper.py:122 | The group keys are strictly increasing and are exactly the keys that occur |
| Seqs.KeepWhereIsSelect | helper.py:114-115 | Boolean-mask indexing keeps exactly the rows at the matching positions, in order |
| Seqs.PositionsSpec | helper.py:114 | The matching positions are increasing and are exactly the rows whose tag matches |
| Seqs.RowTotalsAt | india_overall.py:6 | Each row's total across the columns is the sum of that row's values |
| Seqs.SumExchange | india_overall.py:6-14 | Summing the kept rows' totals equals summing each column's kept rows |
| Frames.Frame.Assign | helper.py:135 | `df[c] = values` adds or replaces column c and leaves every other column as it was |
| Frames.ColumnSums | state_level.py:34 | `df.sum()` has one total per column |
| Frames.SetRow | state_level.py:34 | `.loc[key] = row` keeps the columns and appends `key` unless it is already in the index |
| Frames.SetRowAt | state_level.py:34 | Rows carrying `key` take the new values; every other row keeps its own |
| Frames.SetRowAppended | state_level.py:34 | A new key's appended row holds the given values |
| Frames.DataFrame.SetColumn | helper.py:135 | The in-place column assignment leaves the frame equal to `Assign` of its old value |
| Frames.LocSet | state_level.py:34 | The in-place row assignment leaves the frame equal to `SetRow` of its old value |
| Helper.StateIdRoundTrip | helper.py:56-93 | Every state id lies in 0..35, and the reverse map gives back the state |
| Helper.StateIdsDistinct | helper.py:56-93 | No two states share an id |
| Helper.RenamedStatesHaveIds | helper.py:5-44 | Every abbreviated state except Ladakh has a map id |
| Helper.RenameJK | helper.py:16 | `JK` is renamed to Jammu and Kashmir |
| Helper.RenameKeepsKind | helper.py:101 | Renaming leaves `Date`/`Status` labels alone and never turns a count label into one |
| Seqs.AddSeq | helper.py:97 | Column addition (`df['JK'] + df['LA']`, and each step of a row sum) is row by row, length kept |
| Helper.AbsCol | helper.py:104 | `abs()` takes the absolute value of every row, length kept |
| Helper.DropLabels | helper.py:98 | The drop removes exactly `Date`, `LA`, `UN`, `TT` and `DD`, and the other labels stay distinct and in order |
| Helper.RenameDate | helper.py:99 | `Date_YMD` becomes `Date`; every other label is kept in place |
| Helper.RenameAll | helper.py:101 | Each label becomes its abbreviation-table name or stays itself |
| Helper.CountLabels | helper.py:101 | The labels after `Date` and `Status` are the count labels, distinct |
| Helper.RenameAllDistinct | helper.py:101 | An injective renaming keeps the labels distinct |
| Helper.RenameKeys | helper.py:101 | The count columns are re-keyed by their new names, contents unchanged |
| Helper.RenameValid | helper.py:101 | After renaming, the labels and count columns stay in step, every column keeping its length |
| Helper.RenameAllNonCount | helper.py:101 | Renaming neither adds nor removes `Date`, `Date_YMD` or `Status` |
| Helper.DropCounts | helper.py:98 | Exactly the count columns not dropped survive, unchanged |
| Helper.DropValid | helper.py:98 | After the drop, the labels and count columns stay in step, and `Date_YMD` survives |
| Helper.AbsMap | helper.py:102-104 | After the loop every count is non-negative, and the columns are the same |
| Helper.CleanCountsKeys | helper.py:97-101 | The cleaned counts hold one column per surviving abbreviation, under its state name |
| Helper.CleanCountsValues | helper.py:97-104 | Jammu and Kashmir holds abs(JK + LA) row by row; every other surviving column holds abs of its old counts |
| Helper.CleanCountsNonNegative | helper.py:102-104 | No count is negative after cleaning |
| Helper.StateWiseFrame.Table | helper.py:96-105 | The frame read as the cleaned table is a valid table |
| Helper.StateWiseFrame.SetCount | helper.py:97 | Replaces one count column; labels, dates and statuses unchanged |
| Helper.StateWiseFrame.DropColumns | helper.py:98 | Succeeds iff all five labels exist, and then drops them; otherwise KeyError with nothing changed |
| Helper.StateWiseFrame.RenameDateColumn | helper.py:99 | The labels become `RenameDate` of the old ones, counts and rows unchanged |
| Helper.StateWiseFrame.RenameAbbreviations | helper.py:101 | Labels and count keys renamed in step; rows unchanged |
| Helper.StateWiseFrame.AbsCounts | helper.py:102-104 | Every count column made absolute; labels and row count unchanged |
| Helper.CleanRawData | helper.py:96-105 | Passes iff `JK`, `LA`, the dropped labels and `Date_YMD` exist. Then the labels and counts are the cleaned ones and the rows are unchanged. A missing JK/LA raises KeyError on that label before any change. A missing dropped label raises KeyError on a missing label with only `JK` updated. A missing `Date_YMD` raises KeyError("Date") after the update, the drop and the rename |
| HelperTables.FilterStatus | helper.py:113-116 | The result has the rows whose status is `st`, in order, no `Status` column, and the same state columns |
| HelperTables.FilterStatusRows | helper.py:113-116 | The kept positions are increasing and are exactly the rows with status `st` |
| HelperTables.MonthTotals | helper.py:122 | Each month key's cell is the sum of that month's rows |
| HelperTables.GroupByMonth | helper.py:121-122 | One row per distinct month, in increasing order, and each state's column holds the month totals |
| HelperTables.UpToMin | helper.py:125 | Before any earlier month, the running total is the month's own total |
| HelperTables.UpToStep | helper.py:125 | The running total at the next month adds that month's total |
| HelperTables.RunningMonthTotals | helper.py:122-125 | The running total of the month totals at month k is the sum of all rows up to month k |
| HelperTables.CumulativeMonthTotals | helper.py:121-125 | `cumsum` of the monthly totals is, month by month, the sum of every row of that month or earlier |
| HelperTables.SumUpToMonthMonotone | helper.py:125 | With non-negative counts the running total grows with the month |
| HelperTables.CumulateColumns | helper.py:123-125 | The listed columns become their running totals, and the others are unchanged |
| HelperTables.GetConfirmedCumSum | helper.py:119-129 | Months in increasing order; a state's value at month m is the sum of its rows of month ≤ m |
| HelperTables.CumSumNonDecreasing | helper.py:119-129 | With non-negative inputs each state's cumulative series is non-decreasing |
| HelperMetrics.DerivedMetrics | helper.py:134-140 | The frame after the four assignments keeps its index |
| HelperMetrics.DerivedMetricsOutcome | helper.py:134-140 | Succeeds iff `Confirmed`, `population`, `Deceased` and `vaccinations` all exist. KeyError("Confirmed") or KeyError("population") leaves the frame unchanged. A later failure adds at most the two per-million columns |
| HelperMetrics.DerivedMetricsKeepsOthers | helper.py:134-140 | Columns it does not write are unchanged |
| HelperMetrics.DerivedMetricsColumns | helper.py:135-138 | cases/deaths per million are count/population·10⁶; pct_vaccinated is vaccinations/population; cfr is Deceased over Confirmed shifted by the lag |
| HelperMetrics.CaseFatalityRateAt | helper.py:138 | The cfr is NaN on the first `lag` rows, and Deceased[i]/Confirmed[i-lag] after them |
| HelperMetrics.AddDerivedMetrics | helper.py:134-140 | The in-place version leaves exactly the frame and outcome of `DerivedMetrics` |
| HelperMetrics.IdColumn | helper.py:109 | One id cell per index row |
| HelperMetrics.IdColumnRoundTrip | helper.py:109 | A row has an id iff the state is in the id map: a whole number in 0..35 that maps back to the state. Otherwise NaN |
| HelperMetrics.IndiaHasNoId | helper.py:56-93 | "India" has no map id |
| HelperMetrics.GetModifiedStateMetrics | helper.py:108-110 | The frame gains exactly the `id` column |
| HelperMetrics.ModifyGeojson | helper.py:143-146 | Passes iff every feature has a state code, each feature's id then being its state code. Properties unchanged. On failure, KeyError at the first feature without one, with every earlier feature linked |
| Format.HumanFormattedShown | helper.py:149-162 | A suffixed number is shown in [1, 1000); an unsuffixed one is \|x\|; never negative |
| Format.HumanFormat | helper.py:149-162 | The while loop's result has suffix K iff 10³ ≤ \|x\| < 10⁶, and M iff 10⁶ ≤ \|x\| < 10⁹ |
| Format.BillionOrMore | helper.py:153-155 | Three or more divisions mean the number was at least 10⁹ |
| Format.LowerString | helper.py:166 | Lower-casing is character by character, length kept (ASCII letters only) |
| Format.PrintFormatted | helper.py:165-170 | A percentage (100·value) iff the lower-cased metric ends in `rate` or is `pct_vaccinated`; otherwise human_format |
| Format.PrintFormattedExamples | helper.py:165-170 | Sample metrics give the expected percentage or suffixed number |
| Format.RoundHalfEven | helper.py:184 | `round` is within 0.5 of its argument |
| Format.DeltaPrintPct | helper.py:173-186 | From 0: 0 iff now is 0, else "∞". Otherwise never "∞"; ">1000" iff \|now/prev − 1\| ≥ 10; any whole number is ≤ 1000 and within 0.5 of \|100·(now/prev − 1)\|. NaN cases |
| Format.PctOfChange | helper.py:182-186 | A finite change below 10 in absolute value gives a whole percentage ≤ 1000 within 0.5 of \|100·change\|; otherwise (and for inf or NaN) ">1000"; never "∞" |
| Format.DeltaPrintPctExamples | helper.py:173-186 | 0→0 gives 0, 0→5 gives ∞, 200→250 and 200→150 give 25, 10→110 gives >1000 |
| Format.NatToString | helper.py:191 | `str(n)` is non-empty decimal digits without a leading zero |
| Format.PrintDelta | helper.py:189-191 | Starts with ▲ iff now > prev and with ▼ otherwise, and ends with `%` |
| Format.ParseNatToString | helper.py:191 | Reading a printed natural number back gives the number |
| Format.DeltaTextRoundTrip | helper.py:191 | The percentage text of a delta reads back as that percentage |
| Format.PrintDeltaRoundTrip | helper.py:189-191 | The printed delta parses back to its direction and its `delta_print_pct` value |
| Format.Split | helper.py:201 | `split` gives at least one piece, none containing the separator |
| Format.ReplaceChar | helper.py:201 | Replacement is character by character, length kept |
| Format.JoinSplit | helper.py:201 | Joining the `_`-split pieces with spaces replaces every underscore by a space |
| Format.TitleFrom | helper.py:202 | `title()` keeps the length |
| Format.TitleFromAt | helper.py:202 | `title()` upper-cases exactly the word-initial ASCII letters, lower-cases other ASCII letters, and keeps the rest |
| Format.FixName | helper.py:194-202 | Confirmed→Cases, Deceased→Deaths, pct_vaccinated→Percentage vaccinated; any other name is prettified |
| Format.PrettySpec | helper.py:201-202 | A prettified name keeps its length and has no underscore; word-initial letters are upper-case and other letters lower-case |
| Format.FixNameExamples | helper.py:194-200 | The three fixed display names |
| Rank.GeReflexive | state_level.py:32 | The ranking order is reflexive on present values |
| Rank.GeTransitive | state_level.py:32 | The ranking order is transitive |
| Rank.GeTotal | state_level.py:32 | Any two present values are comparable |
| Rank.RankCol | state_level.py:32 | Missing iff the value is missing; otherwise the number of present values ≥ it |
| Rank.CountGeAntitone | state_level.py:32 | Raising the threshold never counts more values |
| Rank.RankBounds | state_level.py:32 | Every rank lies in 1..(number of ranked values) |
| Rank.RankStrict | state_level.py:32 | A strictly larger value ranks strictly better |
| Rank.RankTies | state_level.py:32 | Tied values share one rank |
| Rank.RankCountsTies | state_level.py:32 | That rank is the number strictly above plus the number tied (method='max') |
| Rank.RankUniqueMax | state_level.py:32 | A unique maximum ranks 1 |
| Vaccine.Diff | vaccine.py:7-8 | `diff()`: first row NaN, row i is s[i] − s[i−1] |
| Vaccine.DiffTelescopes | vaccine.py:7 | On finite totals the diffs after the first row sum to last − first |
| Vaccine.AddDailyVaccinations | vaccine.py:5-9 | Both diff columns are added iff both sources exist. Otherwise KeyError: nothing written when `Total Doses Administered` is missing, and `vaccinations` only when `Second Dose Administered` is missing |
| Vaccine.LastIndexOf | vaccine.py:21-28 | The last position of x, or none iff absent |
| Vaccine.FirstIndexOf | vaccine.py:21-28 | The first position of x, or none iff absent |
| Vaccine.GroupDiff | vaccine.py:13 | Row i is its difference from its state's previous report |
| Vaccine.GroupDiffPerGroup | vaccine.py:13 | Restricted to one state's rows, the grouped diff is that state's plain diff, so no difference spans two states |
| Vaccine.PreviousInGroup | vaccine.py:13 | Within one state, the previous report is the state's previous row; the first report has none |
| Vaccine.DailyVaccinationsRows | vaccine.py:13-17 | The daily table is exactly the reports whose two deltas exist, in order, with the four projected columns and no missing cell |
| Vaccine.FirstReportDropped | vaccine.py:17 | Each state's first report is dropped |
| Vaccine.LastDelta | vaccine.py:13-17 | The last report's delta is missing for a first report. Otherwise, with finite totals, it is kept, and it is the difference from the previous report |
| Vaccine.StateVaccineTotals | vaccine.py:21-28 | One total per state of the daily table |
| Vaccine.DeltaTotalTelescopes | vaccine.py:21-28 | With complete reports, a state's delta total is its last cumulative minus its first, or 0 when absent |
| Vaccine.StateTotalsTelescope | vaccine.py:13-28 | When every report of a state has both totals, its summed daily vaccinations and second doses telescope to last − first |
| StateFrame.WithRatios | state_level.py:26-29 | Adds exactly the four ratio columns, index kept |
| StateFrame.WithRatiosKeeps | state_level.py:26-29 | The columns that are not ratios are unchanged |
| StateFrame.WithRatiosOwn | state_level.py:26-29 | Every row holds the ratios of its own counts |
| StateFrame.WithRatiosAt | state_level.py:26-29 | Per row: cases/deaths/vaccinations per million of population, and Deceased/Confirmed |
| StateFrame.WithRanks | state_level.py:31-32 | The loop keeps every column and adds only rank columns |
| StateFrame.WithRanksKeeps | state_level.py:31-32 | The loop never overwrites a column that is not a rank column |
| StateFrame.WithRanksAt | state_level.py:31-32 | Each rank column ranks its column as before the loop |
| StateFrame.SetRowRatiosKeeps | state_level.py:34-39 | Setting the India row and recomputing the ratios leaves other rows' non-ratio cells unchanged |
| StateFrame.SetRowRatiosNewRow | state_level.py:34-39 | The appended row holds the given values in the non-ratio columns |
| StateFrame.Ranked | state_level.py:26-32 | The frame after the ratios and the rank loop keeps its index and the counts |
| StateFrame.Closed | state_level.py:26-39 | The frame after the India row and the second ratios is valid, with the counts |
| StateFrame.ClosedRows | state_level.py:34 | A new key is appended after the rows; an existing one stays in place |
| StateFrame.ClosedKeepsRaw | state_level.py:34-39 | Other rows' raw columns are those of the merged frame |
| StateFrame.ClosedRatios | state_level.py:36-39 | Every row, India's included, holds the ratios of its own counts |
| StateFrame.ClosedRatiosStable | state_level.py:36-39 | Recomputing leaves other rows' ratios as first computed |
| StateFrame.ClosedRanks | state_level.py:31-34 | Other rows' ranks rank the columns before the India row existed |
| StateFrame.ClosedKeyRow | state_level.py:34-39 | The new row holds the column totals, with ratios of the totals rather than totals of the ratios |
| StateFrame.ClosedKeyRowRaw | state_level.py:34 | Each raw cell of the new row is its column total |
| StateFrame.ClosedKeyRowRanks | state_level.py:34 | The new row's rank cells are the totals of the state ranks |
| StateFrame.AddRatios | state_level.py:26-29 | The in-place assignments leave `WithRatios` of the old frame |
| StateFrame.AddRanks | state_level.py:31-32 | The in-place loop leaves `WithRanks` of the old frame |
| StateFrame.Close | state_level.py:26-39 | The in-place lines 26-39 leave `Closed` of the old frame |
| StateLevel.MaxDate | state_level.py:11 | An upper bound of the dates that is one of them |
| StateLevel.StatusMask | state_level.py:11-16 | A row counts for `st` iff it has status `st` and is recovered, deceased, or dated ≤ max − lag |
| StateLevel.HasStatusIff | state_level.py:11-19 | Recovered/Deceased columns exist iff such rows exist; Confirmed iff a confirmed row is dated ≤ max − lag |
| StateLevel.StatusSumOtherThanConfirmed | state_level.py:12-19 | Recoveries and deaths are summed over every row of their status, for any lag |
| StateLevel.ConfirmedWithoutLag | state_level.py:13-19 | With lag 0 every confirmed row counts |
| StateLevel.ConfirmedLagMonotone | state_level.py:13 | With non-negative counts, a longer lag never raises the confirmed total |
| StateLevel.Joined | state_level.py:22-23 | The inner merges keep exactly the states in both tables |
| StateLevel.JoinMask | state_level.py:22-23 | Row i is kept iff its state is in both tables |
| StateLevel.JoinedOrder | state_level.py:22-23 | The joined states are the kept rows in their original order |
| StateLevel.JoinedDistinct | state_level.py:22-24 | The joined states are distinct, so `set_index` is well defined |
| StateLevel.StatusColumn | state_level.py:15-19 | Each status cell is the state's sum over the included rows |
| StateLevel.PopulationColumn | state_level.py:22 | The population cell is the population table's value |
| StateLevel.VaccinationsColumn | state_level.py:23 | The vaccinations cell is the state's vaccine total |
| StateLevel.SecondDosesColumn | state_level.py:23 | The second_doses cell is the state's second-dose total |
| StateLevel.StatusColumns | state_level.py:15-19 | A status column exists iff an included row has that status |
| StateLevel.StatusColumnsAt | state_level.py:15-19 | An existing status column holds the state sums |
| StateLevel.JoinedHaveCounts | state_level.py:22-23 | Every joined state has a count column |
| StateLevel.Merged | state_level.py:15-24 | Indexed by the joined states; raw columns only; a status column iff included rows; population and vaccine columns present |
| StateLevel.MergedStatus | state_level.py:15-24 | The merged status columns are the state sums |
| StateLevel.MergedJoinedColumns | state_level.py:22-24 | The merged population and vaccine columns are the joined tables' values |
| StateLevel.PresentStatuses | state_level.py:15-19 | The pivot's status columns are exactly those with included rows |
| StateLevel.AddedColumnsMembers | state_level.py:22-29 | The columns after the statuses are the population, the vaccine totals and the four ratios |
| StateLevel.RankedColumnsSpec | state_level.py:31 | The loop visits the columns before it, none a rank column |
| StateLevel.RankedColumnsPresent | state_level.py:26-31 | When the ratios run, the loop visits exactly the frame's columns after them |
| StateLevel.Snapshot | state_level.py:26-39 | The snapshot is valid, with its counts |
| StateLevel.StateMetricsOutcome | state_level.py:8-39 | KeyError("Confirmed") with no Confirmed column, KeyError("Deceased") with no Deceased column, and otherwise the snapshot |
| StateLevel.SnapshotRows | state_level.py:22-34 | The rows are the states in the counts, population and vaccine tables, in column order, then India, all distinct |
| StateLevel.SnapshotStatusCell | state_level.py:15-19 | A state's status cell is its sum over the included rows |
| StateLevel.SnapshotJoinedCells | state_level.py:22-23 | A state's population and vaccine cells are the joined tables' values |
| StateLevel.SnapshotRatios | state_level.py:26-39 | Every row, India's included, holds the ratios of its own counts |
| StateLevel.SnapshotRatiosStable | state_level.py:36-39 | Recomputing the ratios leaves every state row's ratios unchanged |
| StateLevel.SnapshotRanks | state_level.py:31-34 | State ranks are computed on the state rows only, so India affects none of them |
| StateLevel.SnapshotIndiaRow | state_level.py:34-39 | India's raw cells are the column sums, with ratios of the sums |
| StateLevel.SnapshotIndiaRanks | state_level.py:34 | India's rank cells are the totals of the state ranks |
| StateLevel.IndiaStatusIsSum | state_level.py:34 | India's status cell is the exact sum of the whole state counts |
| StateLevel.GetStateMetrics | state_level.py:8-41 | The statement-by-statement method returns exactly `StateMetrics` |
| DateWise.DayMask | date_wise.py:6-12 | Row i is in the (d, st) group iff it is dated d with status st |
| DateWise.WithRow | date_wise.py:6-12 | Adding a report row keeps the table valid with the same states |
| DateWise.ReportedOnWithRow | date_wise.py:6-12 | Duplicate (date, status) rows are summed: one more row adds to its own cell only |
| DateWise.ReportedOnNoRows | date_wise.py:6-12 | A date with no row of a status has 0 for it |
| DateWise.ReportedOnNonNegative | date_wise.py:6-12 | Non-negative counts give a non-negative cell |
| DateWise.VaccineMask | date_wise.py:18 | Row i of the vaccine table matches (d, s) iff it is dated d for state s |
| DateWise.VaccineRow | date_wise.py:18 | The first vaccine row for (d, s), or none iff there is no such row (one row per (date, state) assumed) |
| DateWise.PivotKeys | date_wise.py:19-25 | Exactly the (metric, state) labels of the second pivot |
| DateWise.Pivot | date_wise.py:6-25 | One row per distinct date, in order, and one column per (metric, state) |
| DateWise.PivotAt | date_wise.py:19-25 | Each pivot cell is that column's value on that date |
| DateWise.PerState | date_wise.py:27 | One label per state, in order |
| DateWise.PivotColumns | date_wise.py:27 | The captured column list holds only pivot columns |
| DateWise.PivotColumnsCover | date_wise.py:27 | The captured list holds every pivot column |
| DateWise.PivotColumnsInPivot | date_wise.py:27 | Every captured column is in the pivot |
| DateWise.DerivedFor | date_wise.py:29-37 | On success the body keeps the index and every column |
| DateWise.DerivedForOutcome | date_wise.py:29-37 | The body fails iff a column it reads is missing, and then on `Deceased` when population and vaccinations exist |
| DateWise.DerivedForKeeps | date_wise.py:29-37 | The body adds exactly the state's four derived columns and leaves the others unchanged |
| DateWise.DerivedForColumns | date_wise.py:30-37 | Its columns are the lagged cfr, the per-million ratios and the vaccinated share of the state |
| DateWise.AllDerived | date_wise.py:27-37 | On success the loop keeps the index and every column |
| DateWise.AllDerivedKeys | date_wise.py:27-37 | The loop adds only derived metrics of states with a captured Confirmed column |
| DateWise.AllDerivedKeeps | date_wise.py:27-37 | A column the loop does not write passes through unchanged |
| DateWise.AllDerivedOutcome | date_wise.py:27-37 | The loop succeeds iff every such state has the columns the body reads |
| DateWise.AllDerivedError | date_wise.py:27-37 | With population and vaccination columns present, a failure is KeyError("Deceased") |
| DateWise.AllDerivedColumns | date_wise.py:27-37 | Each state's derived columns are computed once from its columns before the loop, so added columns are not revisited |
| DateWise.DeriveInPlace | date_wise.py:29-37 | The in-place body leaves `DerivedFor` of the old frame or raises its error |
| DateWise.AddDerivedColumns | date_wise.py:27-37 | The in-place loop leaves `AllDerived` of the old frame or raises its error |
| DateWise.ReplaceInf | date_wise.py:39 | +inf becomes missing and every other value is kept |
| DateWise.ReplaceInfCol | date_wise.py:39 | Cell by cell |
| DateWise.ReplaceInfFrame | date_wise.py:39 | Every column replaced cell by cell, index and columns kept |
| DateWise.ReplaceInfIdempotent | date_wise.py:39 | Replacing twice is replacing once |
| DateWise.PrevPresent | date_wise.py:40 | The last present cell before i, or none iff all before are missing |
| DateWise.NextPresent | date_wise.py:40 | The first present cell after i, or none iff all after are missing |
| DateWise.Interpolate | date_wise.py:40 | `interpolate()` changes only missing cells |
| DateWise.InterpolateLeading | date_wise.py:40 | Leading missing cells stay missing |
| DateWise.InterpolateAllMissing | date_wise.py:40 | An all-missing column stays as it is |
| DateWise.InterpolateTrailing | date_wise.py:40 | Trailing missing cells take the last present value |
| DateWise.InterpolateBetween | date_wise.py:40 | A gap between two finite cells is filled with a value between them |
| DateWise.InterpolateFrame | date_wise.py:40 | Every column is interpolated, index and columns kept |
| DateWise.ReplaceInfInPlace | date_wise.py:39 | The in-place `applymap` leaves `ReplaceInfFrame` of the old frame |
| DateWise.InterpolateInPlace | date_wise.py:40 | The in-place interpolation leaves `InterpolateFrame` of the old frame |
| DateWise.GetDateWiseMetrics | date_wise.py:5-42 | The statement-by-statement method returns exactly `DateWiseMetrics` |
| DateWise.DateWiseOutcome | date_wise.py:5-42 | Fails iff some state has Confirmed but no Deceased row exists, and then with KeyError("Deceased") |
| DateWise.DerivedFails | date_wise.py:27-37 | Confirmed without Deceased makes the loop fail |
| DateWise.DerivedSucceeds | date_wise.py:27-37 | Otherwise the loop succeeds |
| DateWise.DerivedError | date_wise.py:27-37 | Its only error is KeyError("Deceased") |
| DateWise.DerivedKeys | date_wise.py:27-37 | The columns are the pivot's, plus four derived metrics for every state when Confirmed is reported |
| DateWise.DateWiseKeys | date_wise.py:27-40 | The result has those columns |
| DateWise.DerivedKeepsPivot | date_wise.py:27-37 | The pivot's own columns are unchanged by the loop |
| DateWise.DerivedStateColumns | date_wise.py:27-37 | Each state's derived columns are functions of the pivot's columns of that state |
| DateWise.DerivedCaseFatalityRate | date_wise.py:30-31 | The cfr at date i is Deceased[i, s] / Confirmed[i − lag, s]; missing for the first `lag` dates |
| DateWise.DerivedPerMillion | date_wise.py:32-35 | cases/deaths per million are the state's count / population · 10⁶ |
| DateWise.DerivedPctVaccinated | date_wise.py:36-37 | pct_vaccinated is that day's vaccination delta / population |
| DateWise.DateWiseKeepsPresent | date_wise.py:39-40 | The rewrites change no value that is present and not +inf |
| DateWise.DateWiseCaseFatalityLeading | date_wise.py:30-40 | The first `lag` cfr dates stay missing |
| DateWise.DateWiseMissingPopulation | date_wise.py:17-40 | A state without a population row has per-million ratios missing on every date |
| DateWise.OverZeroPopulation | date_wise.py:32-39 | A non-negative count per million of zero people becomes missing |
| IndiaOverall.StateColumns | india_overall.py:6 | Exactly the state count columns, in column order |
| IndiaOverall.NationalValues | india_overall.py:6 | One national value per report row |
| IndiaOverall.NationalValueAt | india_overall.py:6 | Each row's national value is the sum of its state counts |
| IndiaOverall.StatusMetrics | india_overall.py:8-14 | One column per reported status |
| IndiaOverall.NationalPivot | india_overall.py:8-14 | One row per distinct date, in order, and a column per status present |
| IndiaOverall.GetIndiaDf | india_overall.py:5-20 | The method assigning column after column returns exactly `IndiaTable` |
| IndiaOverall.IndiaOutcome | india_overall.py:16-18 | Succeeds iff Confirmed and Deceased are reported; otherwise KeyError on the first missing one |
| IndiaOverall.NationalCellIsStateSum | india_overall.py:6-14 | A (date, status) cell with rows is the sum over states of their summed counts; with none it is missing |
| IndiaOverall.IndiaStatusIsStateSum | india_overall.py:6-14 | National status on date t equals the sum over states of their entries on t; missing without rows |
| IndiaOverall.IndiaPopulationConstant | india_overall.py:15 | Population is 138000385 on every date |
| IndiaOverall.IndiaPerMillion | india_overall.py:16-17 | cases/deaths per million are the national count / 138000385 · 10⁶, missing where the count is |
| IndiaOverall.IndiaCaseFatalityRate | india_overall.py:18 | cfr[t] = Deceased[t] / Confirmed[t − 15]; the first 15 dates are missing |
| Graph.GenerateDiscreteColourScale | graph.py:4-21 | The nested loops return exactly `ColourScale`, errors included |
| Graph.PairStops | graph.py:15-18 | Two stops per sub-colour |
| Graph.SetStops | graph.py:11-18 | Two stops per sub-colour of all sets |
| Graph.TimesIsProduct | graph.py:19 | k cursor steps of width w add k·w |
| Graph.TimesDivides | graph.py:13 | n bands of width d/n fill exactly d |
| Graph.PairsIsPairStops | graph.py:15-19 | The inner loop appends the reference stops and advances the cursor by one band per sub-colour |
| Graph.SetsIsSetStops | graph.py:11-19 | With no empty set the outer loop succeeds, appends exactly the reference stops and advances the cursor by one share per set |
| Graph.SetsEmptySet | graph.py:13 | An empty set anywhere raises ZeroDivisionError |
| Graph.PairStopsAt | graph.py:16-19 | Pair k opens at c + k·w; its second stop sits w − 0.001 later; both carry sub-colour k |
| Graph.FlatAt | graph.py:11-15 | Sub-colour k of set i sits at offset(i) + k of the flattened list |
| Graph.SetStopsColour | graph.py:16-18 | Stop j carries flattened sub-colour j/2 |
| Graph.SetStopsAt | graph.py:11-19 | Stop b of sub-colour k of set i sits at c + i·d + k·w (+ w − 0.001 for the second) |
| Graph.SetStopsNext | graph.py:17-19 | The second stop is first + w − 0.001, and the next pair opens w past the first, within or across sets |
| Graph.ColourScaleOutcome | graph.py:8-20 | Built iff the colour set and every set are non-empty; the only error is ZeroDivisionError, so the last-element access never fails |
| Graph.ColourCursorReachesOne | graph.py:8-19 | In real arithmetic the cursor ends at exactly 1 |
| Graph.ColourScaleIsSetStops | graph.py:11-20 | The scale is the reference stops with the last position replaced by 1 |
| Graph.ColourScaleColours | graph.py:11-18 | Exactly two stops per sub-colour, in input order, each carrying its sub-colour |
| Graph.ColourScaleEnds | graph.py:9-20 | The first stop is at 0; the last is at 1 with the last sub-colour |
| Graph.ColourScalePositions | graph.py:8-19 | Sub-colour k of set i opens at i/num_colours + k·w, w = (1/num_colours)/num_subs. Its second stop is w − 0.001 later unless it is the last, and the next pair opens w later |
| Graph.PairStopsIncreasing | graph.py:15-19 | With bands wider than 0.001 one set's stops strictly increase within its share |
| Graph.SetStopsIncreasing | graph.py:11-19 | Then all the stops strictly increase |
| Graph.ColourScaleIncreasing | graph.py:4-21 | With every band wider than 0.001 the scale strictly increases within [0, 1] |
| Graph.ShippedColourScale | graph.py:30-35 | The map's scheme gives 64 stops: 20 grey, then 44 red, from 0 to 1, strictly increasing |

## Left out

- Reading the CSV and GeoJSON files (vaccine.py:12, main.py). The tables are inputs.
- Date parsing and formatting (helper.py:100, vaccine.py:16, the month strings of helper.py:121). Dates are integer day numbers, and months are an input column of ordered keys. `Helper.CleanRawData` keeps only the date parsing's KeyError when the `Date` column is absent.
- The source's `avg_days_to_death` comes from a config module that is not part of this model. It is a `lag` parameter.
- Floating point. Cells are exact reals with ±inf and NaN kept as constructors. Rounding to digits (`round(_, 2)`, `:.2f`) is not modelled: `Format` models which branch and suffix are chosen and the number shown before rounding. In Python floats the colour-scale cursor may miss 1 by a rounding error; `Graph.ColourCursorReachesOne` holds for reals only.
- Format.LowerString / Format.TitleFrom: map case on ASCII letters only. Python's Unicode case mapping (where one character can lower-case to two, and titlecase digraphs exist) is not modelled; the metric names the source passes are ASCII.
- Format.PrintFormatted: takes a real. NaN and ±inf values, for which the source prints `nan%`, `inf%` or `nan`, are not modelled.
- Error payloads: a `KeyError` carries one label. `Helper.StateWiseFrame.DropColumns` names the first missing label where pandas' `drop` lists every missing one, and `DateWise.DerivedFor` names only the metric (`KeyError("Deceased")`) where pandas names the column pair `('Deceased', state)`.
- Format.HumanFormat: takes a real, not a Num, because the source's loop never ends on +inf and keeps NaN unlabelled.
- Helper.RenameKeys: requires that the abbreviation renaming map no two surviving count labels to one name, because a map of columns cannot hold duplicate labels (pandas would keep both).
- Helper.CleanRawData: inherits that requirement through `RenameInjective`.
- pandas index mechanics. Stack/reset_index order and the alphabetical sorting of state labels in pivots are not modelled. Columns are a map, so their order does not matter except where a loop visits them. There the order is stated: status columns alphabetical, states in the report's column order.
- DateWise.VaccineRow: the vaccination table is assumed to hold at most one row per (date, state), and the model uses the first match. With k > 1 matching rows, the left merge on `Date` and `state` repeats that date's and state's stacked case row k times. The second pivot's `sum` then multiplies every cell of that date and state by k: `Confirmed`, `Deceased`, `Recovered` and `population`, as well as the vaccinations. `DateWise.ReportedOn`, `DateWise.PopulationOf`, and so `DerivedCaseFatalityRate`, `DerivedPerMillion` and `DerivedPctVaccinated`, describe the source only on input without such duplicates.
- The population table is assumed to have one row per state and only the columns `state` and `population`, and is given as a map from state to population. A repeated state would repeat rows through the merges of `get_state_metrics_df` and `get_date_wise_metrics`. An extra column would be ranked by the rank loop and pivoted by the second pivot. Neither case is modelled.
- DateWise.Interpolate: a gap next to -inf or +inf is left missing, where numpy's arithmetic would give inf or NaN. Interpolation over an index is by position, as pandas' default `linear` method is.
- The UI: the Dash layout, the KPI cards and callbacks of create_app.py, and the plot wrappers of graph.py (`get_choropleth`, `get_date_wise_plot`, `get_india_date_wise_plot`, `plot_metric`).
- The 7-day rolling means and date windows of the plots (main.py, graph.py).
- The first `color_schemes` list of graph.py:23-28 is overwritten at line 30 before use, so only the second is modelled.
- main.py:18 calls `get_india_df(df, vaccine_df)` with two arguments, but the definition takes one. `IndiaOverall.GetIndiaDf` follows the definition.
