/**
 * The helpers of helper.py that cut the cleaned state-wise table down:
 * keeping the rows of one status, and the month-by-month running totals
 * the dashboard plots.
 */
module HelperTables {
  import opened Common
  import opened Seqs

  /**
   * A state-wise table without its `Status` column: one row per date
   * entry, one count column per state.
   */
  datatype Filtered = Filtered(dates: seq<int>, states: seq<string>, counts: map<string, seq<int>>)
  {
    predicate Valid()
    {
      && Distinct(states)
      && counts.Keys == set s | s in states
      && (forall s | s in counts :: |counts[s]| == |dates|)
    }
  }

  // ---------------------------------------------------------------------
  // filter_status
  // ---------------------------------------------------------------------

  /**
   * `filter_status(df, status)`: the rows whose `Status` is `st`, without
   * the `Status` column.
   */
  function FilterStatus(t: Daily, st: Status): (r: Filtered)
    requires t.Valid()
    ensures r.Valid()
    ensures r.states == t.states && r.counts.Keys == t.counts.Keys
    ensures r.dates == Select(t.dates, Positions(t.statuses, st))
    ensures forall s | s in r.counts :: r.counts[s] == Select(t.counts[s], Positions(t.statuses, st))
  {
    KeepWhereIsSelect(t.dates, t.statuses, st);
    assert forall s | s in t.counts :: KeepWhere(t.counts[s], t.statuses, st) == Select(t.counts[s], Positions(t.statuses, st)) by {
      forall s | s in t.counts
        ensures KeepWhere(t.counts[s], t.statuses, st) == Select(t.counts[s], Positions(t.statuses, st))
      {
        KeepWhereIsSelect(t.counts[s], t.statuses, st);
      }
    }
    Filtered(
      KeepWhere(t.dates, t.statuses, st),
      t.states,
      map s | s in t.counts :: KeepWhere(t.counts[s], t.statuses, st))
  }

  /**
   * Row k of the result is row `Positions(...)[k]` of the input, a row whose
   * status is `st`; every row with that status appears, and the rows keep
   * their order.
   */
  lemma FilterStatusRows(t: Daily, st: Status)
    requires t.Valid()
    ensures forall a, b | 0 <= a < b < |Positions(t.statuses, st)| ::
      Positions(t.statuses, st)[a] < Positions(t.statuses, st)[b]
    ensures forall i :: i in Positions(t.statuses, st) <==> 0 <= i < t.Rows() && t.statuses[i] == st
    ensures |FilterStatus(t, st).dates| == |Positions(t.statuses, st)|
  {
    PositionsSpec(t.statuses, st);
  }

  // ---------------------------------------------------------------------
  // get_confirmed_cum_sum_df
  // ---------------------------------------------------------------------

  /** Month-by-month table: one row per month, one column per state. */
  datatype Monthly = Monthly(months: seq<int>, states: seq<string>, counts: map<string, seq<int>>)
  {
    predicate Valid()
    {
      && StrictlyIncreasing(months)
      && Distinct(states)
      && counts.Keys == set s | s in states
      && (forall s | s in counts :: |counts[s]| == |months|)
    }
  }

  /** The sum of the rows of `col` whose month is `m`. */
  function SumInMonth(col: seq<int>, months: seq<int>, m: int): int
    requires |col| == |months|
  {
    if col == [] then 0
    else
      SumInMonth(col[..|col| - 1], months[..|months| - 1], m)
      + (if months[|months| - 1] == m then col[|col| - 1] else 0)
  }

  /** The sum of the rows of `col` whose month is `m` or earlier. */
  function SumUpToMonth(col: seq<int>, months: seq<int>, m: int): int
    requires |col| == |months|
  {
    if col == [] then 0
    else
      SumUpToMonth(col[..|col| - 1], months[..|months| - 1], m)
      + (if months[|months| - 1] <= m then col[|col| - 1] else 0)
  }

  /** Per month key, the month's total. */
  function MonthTotals(col: seq<int>, months: seq<int>, keys: seq<int>): (r: seq<int>)
    requires |col| == |months|
    ensures |r| == |keys|
    ensures forall k | 0 <= k < |keys| :: r[k] == SumInMonth(col, months, keys[k])
  {
    seq(|keys|, k requires 0 <= k < |keys| => SumInMonth(col, months, keys[k]))
  }

  /**
   * `groupby('month_year', as_index=False).sum()`: the months in increasing
   * order, and per state the total of each month. `months` is the month of
   * each row (`Date.dt.strftime('%Y-%m')`, as an ordered key).
   */
  function GroupByMonth(t: Filtered, months: seq<int>): (r: Monthly)
    requires t.Valid() && |months| == |t.dates|
    ensures r.Valid() && r.states == t.states && r.counts.Keys == t.counts.Keys
    ensures r.months == SortedDistinct(months)
    ensures forall s | s in r.counts :: r.counts[s] == MonthTotals(t.counts[s], months, r.months)
  {
    var keys := SortedDistinct(months);
    Monthly(keys, t.states, map s | s in t.counts :: MonthTotals(t.counts[s], months, keys))
  }

  /** No row is earlier than `b`: everything up to `b` is `b`'s month. */
  lemma {:induction false} UpToMin(col: seq<int>, months: seq<int>, b: int)
    requires |col| == |months|
    requires forall i | 0 <= i < |months| :: months[i] >= b
    ensures SumUpToMonth(col, months, b) == SumInMonth(col, months, b)
  {
    if col != [] {
      UpToMin(col[..|col| - 1], months[..|months| - 1], b);
    }
  }

  /**
   * With no row strictly between months `a` and `b`, the running total at
   * `b` is the running total at `a` plus `b`'s month.
   */
  lemma {:induction false} UpToStep(col: seq<int>, months: seq<int>, a: int, b: int)
    requires |col| == |months| && a < b
    requires forall i | 0 <= i < |months| :: !(a < months[i] < b)
    ensures SumUpToMonth(col, months, b) == SumUpToMonth(col, months, a) + SumInMonth(col, months, b)
  {
    if col != [] {
      UpToStep(col[..|col| - 1], months[..|months| - 1], a, b);
    }
  }

  /**
   * The running total of the month totals, at the k-th month, is the sum
   * of every row up to and including that month.
   */
  lemma {:induction false} RunningMonthTotals(col: seq<int>, months: seq<int>, keys: seq<int>, k: nat)
    requires |col| == |months| && k < |keys|
    requires StrictlyIncreasing(keys)
    requires forall i | 0 <= i < |months| :: months[i] in keys
    ensures Sum(MonthTotals(col, months, keys)[..k + 1]) == SumUpToMonth(col, months, keys[k])
  {
    var x := MonthTotals(col, months, keys);
    assert x[..k + 1][..k] == x[..k];
    if k == 0 {
      forall i | 0 <= i < |months|
        ensures months[i] >= keys[0]
      {
        var j :| 0 <= j < |keys| && keys[j] == months[i];
      }
      UpToMin(col, months, keys[0]);
    } else {
      RunningMonthTotals(col, months, keys, k - 1);
      assert x[..k] == x[..k - 1 + 1];
      forall i | 0 <= i < |months|
        ensures !(keys[k - 1] < months[i] < keys[k])
      {
        var j :| 0 <= j < |keys| && keys[j] == months[i];
      }
      UpToStep(col, months, keys[k - 1], keys[k]);
    }
  }

  /**
   * The running total of the month totals is, month by month, the sum of
   * every row of that month or earlier.
   */
  lemma CumulativeMonthTotals(col: seq<int>, months: seq<int>, k: nat)
    requires |col| == |months| && k < |SortedDistinct(months)|
    ensures PrefixSums(MonthTotals(col, months, SortedDistinct(months)))[k] ==
      SumUpToMonth(col, months, SortedDistinct(months)[k])
  {
    PrefixSumsAt(MonthTotals(col, months, SortedDistinct(months)), k);
    RunningMonthTotals(col, months, SortedDistinct(months), k);
  }

  /** With no negative count the running total never decreases with the month. */
  lemma {:induction false} SumUpToMonthMonotone(col: seq<int>, months: seq<int>, a: int, b: int)
    requires |col| == |months| && a <= b
    requires forall i | 0 <= i < |col| :: col[i] >= 0
    ensures SumUpToMonth(col, months, a) <= SumUpToMonth(col, months, b)
  {
    if col != [] {
      SumUpToMonthMonotone(col[..|col| - 1], months[..|months| - 1], a, b);
    }
  }

  /**
   * The loop over the monthly table's columns: each
   * listed column, in turn, replaced by its running total.
   */
  method CumulateColumns(names: seq<string>, cols: map<string, seq<int>>) returns (r: map<string, seq<int>>)
    requires Distinct(names) && forall j | 0 <= j < |names| :: names[j] in cols
    ensures r.Keys == cols.Keys
    ensures forall c | c in cols :: r[c] == if c in names then PrefixSums(cols[c]) else cols[c]
  {
    r := cols;
    for i := 0 to |names|
      invariant r.Keys == cols.Keys
      invariant forall c | c in cols :: r[c] == if c in names[..i] then PrefixSums(cols[c]) else cols[c]
    {
      var c := names[i];
      assert names[..i + 1] == names[..i] + [c];
      assert c !in names[..i];
      r := r[c := PrefixSums(r[c])];
    }
    assert names[..|names|] == names;
  }

  /**
   * `get_confirmed_cum_sum_df(confirmed_df)`: the monthly totals, then each
   * state column replaced by its running total. The value of a state at
   * month m is the sum of that state's rows of month m or earlier.
   */
  method GetConfirmedCumSum(t: Filtered, months: seq<int>) returns (r: Monthly)
    requires t.Valid() && |months| == |t.dates|
    ensures r.Valid() && r.states == t.states && r.counts.Keys == t.counts.Keys
    ensures r.months == SortedDistinct(months)
    ensures forall s, k | s in t.counts && 0 <= k < |r.months| ::
      r.counts[s][k] == SumUpToMonth(t.counts[s], months, r.months[k])
  {
    var g := GroupByMonth(t, months);
    var counts := CumulateColumns(g.states, g.counts);
    r := Monthly(g.months, g.states, counts);
    forall s, k | s in t.counts && 0 <= k < |r.months|
      ensures r.counts[s][k] == SumUpToMonth(t.counts[s], months, r.months[k])
    {
      CumulativeMonthTotals(t.counts[s], months, k);
    }
  }

  /**
   * With no negative count, every state's cumulative series is
   * non-decreasing from month to month.
   */
  lemma CumSumNonDecreasing(t: Filtered, months: seq<int>, r: Monthly, s: string, j: nat, k: nat)
    requires t.Valid() && |months| == |t.dates| && s in t.counts
    requires forall i | 0 <= i < |t.dates| :: t.counts[s][i] >= 0
    requires r.Valid() && r.counts.Keys == t.counts.Keys && j <= k < |r.months|
    requires forall k' | 0 <= k' < |r.months| :: r.counts[s][k'] == SumUpToMonth(t.counts[s], months, r.months[k'])
    ensures r.counts[s][j] <= r.counts[s][k]
  {
    SumUpToMonthMonotone(t.counts[s], months, r.months[j], r.months[k]);
  }
}
