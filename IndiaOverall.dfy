/**
 * `get_india_df`: the national time series. Every row's counts are summed
 * across the state columns, the totals are pivoted by date and status, and
 * a constant population and three ratio columns are assigned in turn.
 */
module IndiaOverall {
  import opened Common
  import opened Numeric
  import opened Seqs
  import opened Frames
  import opened DateWise

  /** The population written into every row. */
  const IndiaPopulation: int := 138000385

  /** The case-fatality lag, fixed at 15 rows here. */
  const IndiaLag: nat := 15

  /** The state columns of the cases table, in column order. */
  function StateColumns(t: Daily): (r: seq<seq<int>>)
    requires t.Valid()
    ensures |r| == |t.states|
    ensures forall j | 0 <= j < |r| :: r[j] == t.counts[t.states[j]] && |r[j]| == t.Rows()
  {
    assert forall j | 0 <= j < |t.states| :: t.states[j] in t.counts;
    seq(|t.states|, j requires 0 <= j < |t.states| => t.counts[t.states[j]])
  }

  /** Each row's counts summed over the states. */
  function NationalValues(t: Daily): (r: seq<int>)
    requires t.Valid()
    ensures |r| == t.Rows()
  {
    RowTotals(StateColumns(t), t.Rows())
  }

  /** Each row's national value is the sum of that row's state counts. */
  lemma NationalValueAt(t: Daily, i: nat)
    requires t.Valid() && i < t.Rows()
    ensures NationalValues(t)[i] == Sum(RowOf(StateColumns(t), t.Rows(), i))
    ensures forall j | 0 <= j < |t.states| :: RowOf(StateColumns(t), t.Rows(), i)[j] == t.counts[t.states[j]][i]
  {
    RowTotalsAt(StateColumns(t), t.Rows(), i);
  }

  /**
   * The pivot's cell: the national values summed over the rows dated `d`
   * with status `st`, missing when there is no such row.
   */
  function NationalCell(t: Daily, d: int, st: Status): Num
    requires t.Valid()
  {
    var mask := DayMask(t, d, st);
    if true in mask then OfInt(Sum(KeepWhere(NationalValues(t), mask, true))) else NaN
  }

  function StatusMetrics(t: Daily): (r: set<Metric>)
    ensures forall m :: m in r <==> m.Reported? && m.status in t.statuses
  {
    set st | st in t.statuses :: Reported(st)
  }

  /** The pivot of the national values by date and status, summing duplicates. */
  function NationalPivot(t: Daily): (r: Frame<int, Metric>)
    requires t.Valid()
    ensures r.Valid() && r.index == SortedDistinct(t.dates)
    ensures forall m :: m in r.cols <==> m.Reported? && m.status in t.statuses
  {
    var dates := SortedDistinct(t.dates);
    Frame(dates, map m | m in StatusMetrics(t) ::
      seq(|dates|, i requires 0 <= i < |dates| => NationalCell(t, dates[i], m.status)))
  }

  /** The result of `get_india_df`. */
  function IndiaTable(t: Daily): Result<Frame<int, Metric>>
    requires t.Valid()
  {
    var p := NationalPivot(t);
    if Reported(Confirmed) !in p.cols then Err(KeyError("Confirmed"))
    else if Reported(Deceased) !in p.cols then Err(KeyError("Deceased"))
    else
      var confirmed := p.cols[Reported(Confirmed)];
      var deceased := p.cols[Reported(Deceased)];
      var population := seq(|p.index|, i => OfInt(IndiaPopulation));
      Ok(Frame(p.index, p.cols
        [Population := population]
        [CasesPerMillion := PerMillionCol(confirmed, population)]
        [DeathsPerMillion := PerMillionCol(deceased, population)]
        [CaseFatalityRate := DivCol(deceased, Shift(confirmed, IndiaLag))]))
  }

  /** `get_india_df`, assigning one column after another into the pivot. */
  method GetIndiaDf(t: Daily) returns (r: Result<Frame<int, Metric>>)
    requires t.Valid()
    ensures r == IndiaTable(t)
  {
    var df := new DataFrame(NationalPivot(t));
    var population := seq(|df.index|, i => OfInt(IndiaPopulation));
    df.SetColumn(Population, population);
    if Reported(Confirmed) !in df.cols {
      return Err(KeyError("Confirmed"));
    }
    df.SetColumn(CasesPerMillion, PerMillionCol(df.cols[Reported(Confirmed)], df.cols[Population]));
    if Reported(Deceased) !in df.cols {
      return Err(KeyError("Deceased"));
    }
    df.SetColumn(DeathsPerMillion, PerMillionCol(df.cols[Reported(Deceased)], df.cols[Population]));
    df.SetColumn(CaseFatalityRate, DivCol(df.cols[Reported(Deceased)], Shift(df.cols[Reported(Confirmed)], IndiaLag)));
    return Ok(df.Value());
  }

  /**
   * The function fails exactly when the cases table has no `Confirmed` or
   * no `Deceased` row, on the first of the two lookups that misses.
   */
  lemma IndiaOutcome(t: Daily)
    requires t.Valid()
    ensures IndiaTable(t).Ok? <==> Confirmed in t.statuses && Deceased in t.statuses
    ensures Confirmed !in t.statuses ==> IndiaTable(t) == Err(KeyError("Confirmed"))
    ensures Confirmed in t.statuses && Deceased !in t.statuses ==> IndiaTable(t) == Err(KeyError("Deceased"))
  {
  }

  /**
   * The pivot's cell for a date and status that occur together is the sum
   * over the states of their own counts of that status on that date.
   */
  lemma NationalCellIsStateSum(t: Daily, d: int, st: Status)
    requires t.Valid()
    ensures (exists r | 0 <= r < t.Rows() :: t.dates[r] == d && t.statuses[r] == st) ==>
      NationalCell(t, d, st) == OfInt(Sum(seq(|t.states|, j requires 0 <= j < |t.states| => ReportedOn(t, t.states[j], d, st))))
    ensures (forall r | 0 <= r < t.Rows() :: !(t.dates[r] == d && t.statuses[r] == st)) ==> Missing(NationalCell(t, d, st))
  {
    var mask := DayMask(t, d, st);
    var cols := StateColumns(t);
    if exists r | 0 <= r < t.Rows() :: t.dates[r] == d && t.statuses[r] == st {
      var r :| 0 <= r < t.Rows() && t.dates[r] == d && t.statuses[r] == st;
      assert mask[r];
      var sums := MaskedSums(cols, mask);
      assert NationalValues(t) == RowTotals(cols, |mask|);
      SumExchange(cols, mask);
      assert NationalCell(t, d, st) == OfInt(Sum(sums));
      MaskedSumsAreReports(t, d, st);
    }
  }

  /** Each state's kept sum is that state's own report of the status on the date. */
  lemma MaskedSumsAreReports(t: Daily, d: int, st: Status)
    requires t.Valid()
    ensures MaskedSums(StateColumns(t), DayMask(t, d, st)) ==
      seq(|t.states|, j requires 0 <= j < |t.states| => ReportedOn(t, t.states[j], d, st))
  {
    var cols := StateColumns(t);
    var mask := DayMask(t, d, st);
    forall j | 0 <= j < |t.states|
      ensures MaskedSums(cols, mask)[j] == ReportedOn(t, t.states[j], d, st)
    {
      assert cols[j] == t.counts[t.states[j]];
    }
  }

  /**
   * The national count of a status on a date is the sum over the states
   * of their own counts of that status on that date, and is missing on a
   * date with no row of that status.
   */
  lemma IndiaStatusIsStateSum(t: Daily, st: Status, i: nat)
    requires t.Valid() && IndiaTable(t).Ok? && st in t.statuses && i < |SortedDistinct(t.dates)|
    ensures Reported(st) in IndiaTable(t).value.cols
    ensures var d := SortedDistinct(t.dates)[i];
      var cell := IndiaTable(t).value.cols[Reported(st)][i];
      && ((exists r | 0 <= r < t.Rows() :: t.dates[r] == d && t.statuses[r] == st) ==>
            cell == OfInt(Sum(seq(|t.states|, j requires 0 <= j < |t.states| => ReportedOn(t, t.states[j], d, st)))))
      && ((forall r | 0 <= r < t.Rows() :: !(t.dates[r] == d && t.statuses[r] == st)) ==> Missing(cell))
  {
    var d := SortedDistinct(t.dates)[i];
    assert IndiaTable(t).value.cols[Reported(st)][i] == NationalCell(t, d, st);
    NationalCellIsStateSum(t, d, st);
  }

  /** Every row carries the same population. */
  lemma IndiaPopulationConstant(t: Daily, i: nat)
    requires t.Valid() && IndiaTable(t).Ok? && i < |SortedDistinct(t.dates)|
    ensures Population in IndiaTable(t).value.cols
    ensures IndiaTable(t).value.cols[Population][i] == Fin(138000385.0)
  {
  }

  /**
   * `cases_per_million` and `deaths_per_million` are the national counts
   * per million of the fixed population, missing where the count is.
   */
  lemma IndiaPerMillion(t: Daily, i: nat)
    requires t.Valid() && IndiaTable(t).Ok? && i < |SortedDistinct(t.dates)|
    ensures var g := IndiaTable(t).value;
      && CasesPerMillion in g.cols && DeathsPerMillion in g.cols
      && Reported(Confirmed) in g.cols && Reported(Deceased) in g.cols
      && (g.cols[Reported(Confirmed)][i].Fin? ==>
            g.cols[CasesPerMillion][i] == Fin(g.cols[Reported(Confirmed)][i].v / 138000385.0 * 1000000.0))
      && (g.cols[Reported(Deceased)][i].Fin? ==>
            g.cols[DeathsPerMillion][i] == Fin(g.cols[Reported(Deceased)][i].v / 138000385.0 * 1000000.0))
      && (Missing(g.cols[Reported(Confirmed)][i]) ==> Missing(g.cols[CasesPerMillion][i]))
      && (Missing(g.cols[Reported(Deceased)][i]) ==> Missing(g.cols[DeathsPerMillion][i]))
  {
  }

  /**
   * `case_fatality_rate` on the i-th date is that date's deaths over the
   * confirmed count 15 dates earlier, and missing on the first 15 dates.
   */
  lemma IndiaCaseFatalityRate(t: Daily, i: nat)
    requires t.Valid() && IndiaTable(t).Ok? && i < |SortedDistinct(t.dates)|
    ensures var g := IndiaTable(t).value;
      && CaseFatalityRate in g.cols && Reported(Confirmed) in g.cols && Reported(Deceased) in g.cols
      && (i < 15 ==> Missing(g.cols[CaseFatalityRate][i]))
      && (i >= 15 ==>
            g.cols[CaseFatalityRate][i] == Div(g.cols[Reported(Deceased)][i], g.cols[Reported(Confirmed)][i - 15]))
  {
    var p := NationalPivot(t);
    ShiftAt(p.cols[Reported(Confirmed)], IndiaLag, i);
  }
}
