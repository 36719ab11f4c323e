/**
 * state_level.py: the per-state snapshot behind the map, the table and the
 * KPI cards. Counts are summed per state and status (confirmed cases only
 * up to `avg_days_to_death` days before the last date), joined with the
 * population and the vaccination totals, turned into ratios and ranks, and
 * closed by a national "India" row.
 */
module StateLevel {
  import opened Common
  import opened Numeric
  import opened Seqs
  import opened Frames
  import opened Rank
  import opened StateFrame
  import HelperTables
  import Vaccine

  // ---------------------------------------------------------------------
  // The rows the pivot sums
  // ---------------------------------------------------------------------

  /** `df['Date'].max()`; with no row there is nothing to compare against it. */
  function MaxDate(dates: seq<int>): (r: int)
    ensures forall i | 0 <= i < |dates| :: dates[i] <= r
    ensures |dates| > 0 ==> r in dates
  {
    if dates == [] then 0
    else if |dates| == 1 then dates[0]
    else
      var m := MaxDate(dates[..|dates| - 1]);
      assert m in dates[..|dates| - 1];
      if dates[|dates| - 1] > m then dates[|dates| - 1] else m
  }

  /**
   * `date_mask | not_confirmed_mask` at row i: recoveries and deaths always
   * count, confirmed cases only up to `lag` days before the last date.
   */
  predicate Included(t: Daily, lag: nat, i: nat)
    requires t.Valid() && i < t.Rows()
  {
    t.statuses[i] != Confirmed || t.dates[i] <= MaxDate(t.dates) - lag
  }

  /** The rows the pivot adds up in the column of status `st`. */
  function StatusMask(t: Daily, lag: nat, st: Status): (r: seq<bool>)
    requires t.Valid()
    ensures |r| == t.Rows()
    ensures forall i | 0 <= i < t.Rows() :: r[i] == (t.statuses[i] == st && Included(t, lag, i))
  {
    seq(t.Rows(), i requires 0 <= i < t.Rows() => t.statuses[i] == st && Included(t, lag, i))
  }

  /** The pivot's cell for state `s` and status `st`. */
  function StatusSum(t: Daily, lag: nat, s: string, st: Status): int
    requires t.Valid() && s in t.counts
  {
    Sum(KeepWhere(t.counts[s], StatusMask(t, lag, st), true))
  }

  /** The pivot has a column for `st` when some included row has that status. */
  predicate HasStatus(t: Daily, lag: nat, st: Status)
    requires t.Valid()
  {
    true in StatusMask(t, lag, st)
  }

  /**
   * A status column exists exactly when a row of that status is included:
   * for recoveries and deaths, any row of theirs; for confirmed cases, one
   * dated at least `lag` days before the last date.
   */
  lemma HasStatusIff(t: Daily, lag: nat)
    requires t.Valid()
    ensures HasStatus(t, lag, Deceased) <==> Deceased in t.statuses
    ensures HasStatus(t, lag, Recovered) <==> Recovered in t.statuses
    ensures HasStatus(t, lag, Confirmed) <==>
      exists i | 0 <= i < t.Rows() :: t.statuses[i] == Confirmed && t.dates[i] <= MaxDate(t.dates) - lag
  {
    var m := StatusMask(t, lag, Deceased);
    if Deceased in t.statuses {
      var i :| 0 <= i < t.Rows() && t.statuses[i] == Deceased;
      assert m[i];
    }
    var m2 := StatusMask(t, lag, Recovered);
    if Recovered in t.statuses {
      var i :| 0 <= i < t.Rows() && t.statuses[i] == Recovered;
      assert m2[i];
    }
    var m3 := StatusMask(t, lag, Confirmed);
    if exists i | 0 <= i < t.Rows() :: t.statuses[i] == Confirmed && t.dates[i] <= MaxDate(t.dates) - lag {
      var i :| 0 <= i < t.Rows() && t.statuses[i] == Confirmed && t.dates[i] <= MaxDate(t.dates) - lag;
      assert m3[i];
    }
  }

  /**
   * Recoveries and deaths are summed over every row of their status, for
   * any lag: the total of that state's column after `filter_status`.
   */
  lemma StatusSumOtherThanConfirmed(t: Daily, lag: nat, s: string, st: Status)
    requires t.Valid() && s in t.counts && st != Confirmed
    ensures StatusSum(t, lag, s, st) == Sum(HelperTables.FilterStatus(t, st).counts[s])
  {
    KeepWhereSameMask(t.counts[s], StatusMask(t, lag, st), true, t.statuses, st);
    KeepWhereIsSelect(t.counts[s], t.statuses, st);
  }

  /** With no lag every confirmed row counts. */
  lemma ConfirmedWithoutLag(t: Daily, s: string)
    requires t.Valid() && s in t.counts
    ensures StatusSum(t, 0, s, Confirmed) == Sum(HelperTables.FilterStatus(t, Confirmed).counts[s])
  {
    KeepWhereSameMask(t.counts[s], StatusMask(t, 0, Confirmed), true, t.statuses, Confirmed);
    KeepWhereIsSelect(t.counts[s], t.statuses, Confirmed);
  }

  /** With no negative count, a longer lag never raises the confirmed total. */
  lemma ConfirmedLagMonotone(t: Daily, short: nat, long: nat, s: string)
    requires t.Valid() && s in t.counts && short <= long
    requires forall i | 0 <= i < t.Rows() :: t.counts[s][i] >= 0
    ensures StatusSum(t, long, s, Confirmed) <= StatusSum(t, short, s, Confirmed)
  {
    KeepWhereSumMonotone(t.counts[s], StatusMask(t, long, Confirmed), StatusMask(t, short, Confirmed));
  }

  // ---------------------------------------------------------------------
  // The two inner merges
  // ---------------------------------------------------------------------

  /**
   * `pd.merge(left, right, on='state')` twice: the keys of `keys` found in
   * both tables, in the order of `keys`.
   */
  function Joined<K(==), A, B>(keys: seq<K>, a: map<K, A>, b: map<K, B>): (r: seq<K>)
    ensures forall k | 0 <= k < |r| :: r[k] in keys && r[k] in a && r[k] in b
    ensures forall i | 0 <= i < |keys| && keys[i] in a && keys[i] in b :: keys[i] in r
  {
    if keys == [] then []
    else
      var n := |keys| - 1;
      assert keys == keys[..n] + [keys[n]];
      Joined(keys[..n], a, b) + (if keys[n] in a && keys[n] in b then [keys[n]] else [])
  }

  /** Which rows of `keys` the merges keep. */
  function JoinMask<K(==), A, B>(keys: seq<K>, a: map<K, A>, b: map<K, B>): (r: seq<bool>)
    ensures |r| == |keys|
    ensures forall i | 0 <= i < |keys| :: r[i] == (keys[i] in a && keys[i] in b)
  {
    seq(|keys|, i requires 0 <= i < |keys| => keys[i] in a && keys[i] in b)
  }

  /**
   * The joined keys are the rows of `keys` at the positions the merges
   * keep, in their original order, and stay distinct.
   */
  lemma {:induction false} JoinedOrder<K, A, B>(keys: seq<K>, a: map<K, A>, b: map<K, B>)
    ensures Joined(keys, a, b) == KeepWhere(keys, JoinMask(keys, a, b), true)
    ensures Joined(keys, a, b) == Select(keys, Positions(JoinMask(keys, a, b), true))
  {
    if keys != [] {
      var n := |keys| - 1;
      JoinedOrder(keys[..n], a, b);
      assert JoinMask(keys, a, b)[..n] == JoinMask(keys[..n], a, b);
    }
    KeepWhereIsSelect(keys, JoinMask(keys, a, b), true);
  }

  lemma {:induction false} JoinedDistinct<K, A, B>(keys: seq<K>, a: map<K, A>, b: map<K, B>)
    requires Distinct(keys)
    ensures Distinct(Joined(keys, a, b))
  {
    if keys != [] {
      var n := |keys| - 1;
      assert Distinct(keys[..n]);
      JoinedDistinct(keys[..n], a, b);
      assert keys[n] !in keys[..n];
    }
  }

  // ---------------------------------------------------------------------
  // The merged table
  // ---------------------------------------------------------------------

  /** A status column of the pivot, on the rows the merges keep. */
  function StatusColumn(t: Daily, lag: nat, rows: seq<string>, st: Status): (r: seq<Num>)
    requires t.Valid() && forall k | 0 <= k < |rows| :: rows[k] in t.counts
    ensures |r| == |rows|
    ensures forall k | 0 <= k < |rows| :: r[k] == OfInt(StatusSum(t, lag, rows[k], st))
  {
    seq(|rows|, k requires 0 <= k < |rows| => OfInt(StatusSum(t, lag, rows[k], st)))
  }

  /** The `population` column the first merge brings in. */
  function PopulationColumn(rows: seq<string>, population: map<string, int>): (r: seq<Num>)
    requires forall k | 0 <= k < |rows| :: rows[k] in population
    ensures |r| == |rows|
    ensures forall k | 0 <= k < |rows| :: r[k] == OfInt(population[rows[k]])
  {
    seq(|rows|, k requires 0 <= k < |rows| => OfInt(population[rows[k]]))
  }

  /** The `vaccinations` column the second merge brings in. */
  function VaccinationsColumn(rows: seq<string>, totals: map<string, Vaccine.Totals>): (r: seq<Num>)
    requires forall k | 0 <= k < |rows| :: rows[k] in totals
    ensures |r| == |rows|
    ensures forall k | 0 <= k < |rows| :: r[k] == totals[rows[k]].vaccinations
  {
    seq(|rows|, k requires 0 <= k < |rows| => totals[rows[k]].vaccinations)
  }

  /** The `second_doses` column the second merge brings in. */
  function SecondDosesColumn(rows: seq<string>, totals: map<string, Vaccine.Totals>): (r: seq<Num>)
    requires forall k | 0 <= k < |rows| :: rows[k] in totals
    ensures |r| == |rows|
    ensures forall k | 0 <= k < |rows| :: r[k] == totals[rows[k]].secondDoses
  {
    seq(|rows|, k requires 0 <= k < |rows| => totals[rows[k]].secondDoses)
  }

  /** The pivot's status columns on the joined rows: those with an included row. */
  function StatusColumns(t: Daily, lag: nat, rows: seq<string>): (r: map<Col, seq<Num>>)
    requires t.Valid() && forall k | 0 <= k < |rows| :: rows[k] in t.counts
    ensures forall c | c in r :: c.StatusCol? && |r[c]| == |rows|
    ensures forall st :: StatusCol(st) in r <==> HasStatus(t, lag, st)
  {
    var c0: map<Col, seq<Num>> := map[];
    var c1 := if HasStatus(t, lag, Confirmed) then c0[StatusCol(Confirmed) := StatusColumn(t, lag, rows, Confirmed)] else c0;
    var c2 := if HasStatus(t, lag, Deceased) then c1[StatusCol(Deceased) := StatusColumn(t, lag, rows, Deceased)] else c1;
    if HasStatus(t, lag, Recovered) then c2[StatusCol(Recovered) := StatusColumn(t, lag, rows, Recovered)] else c2
  }

  /** The column of a status with an included row is its sums. */
  lemma StatusColumnsAt(t: Daily, lag: nat, rows: seq<string>, st: Status)
    requires t.Valid() && forall k | 0 <= k < |rows| :: rows[k] in t.counts
    requires HasStatus(t, lag, st)
    ensures StatusCol(st) in StatusColumns(t, lag, rows)
    ensures StatusColumns(t, lag, rows)[StatusCol(st)] == StatusColumn(t, lag, rows, st)
  {
    match st
    case Confirmed =>
    case Deceased =>
    case Recovered =>
  }

  /** Every joined state has a count column. */
  lemma JoinedHaveCounts(t: Daily, population: map<string, int>, totals: map<string, Vaccine.Totals>)
    requires t.Valid()
    ensures forall k | 0 <= k < |Joined(t.states, population, totals)| :: Joined(t.states, population, totals)[k] in t.counts
  {
  }

  /**
   * The pivot by status, restricted by the two inner merges
   * to the states with a population and a vaccination total, keyed by
   * state.
   */
  function Merged(t: Daily, lag: nat, population: map<string, int>, totals: map<string, Vaccine.Totals>): (r: Frame<string, Col>)
    requires t.Valid()
    ensures r.Valid() && r.index == Joined(t.states, population, totals)
    ensures forall c | c in r.cols :: IsRaw(c)
    ensures forall st :: StatusCol(st) in r.cols <==> HasStatus(t, lag, st)
    ensures Population in r.cols && Vaccinations in r.cols && SecondDoses in r.cols
  {
    var rows := Joined(t.states, population, totals);
    JoinedHaveCounts(t, population, totals);
    var c := StatusColumns(t, lag, rows);
    Frame(rows, c[Population := PopulationColumn(rows, population)]
                 [SecondDoses := SecondDosesColumn(rows, totals)]
                 [Vaccinations := VaccinationsColumn(rows, totals)])
  }

  /** Each status column that exists holds the state's sums. */
  lemma MergedStatus(t: Daily, lag: nat, population: map<string, int>, totals: map<string, Vaccine.Totals>, st: Status)
    requires t.Valid() && HasStatus(t, lag, st)
    ensures var m := Merged(t, lag, population, totals);
      StatusCol(st) in m.cols && m.cols[StatusCol(st)] == StatusColumn(t, lag, m.index, st)
  {
    var rows := Joined(t.states, population, totals);
    JoinedHaveCounts(t, population, totals);
    StatusColumnsAt(t, lag, rows, st);
  }

  /** The population and vaccination columns are those of the joined tables. */
  lemma MergedJoinedColumns(t: Daily, lag: nat, population: map<string, int>, totals: map<string, Vaccine.Totals>)
    requires t.Valid()
    ensures var m := Merged(t, lag, population, totals);
      && m.cols[Population] == PopulationColumn(m.index, population)
      && m.cols[Vaccinations] == VaccinationsColumn(m.index, totals)
      && m.cols[SecondDoses] == SecondDosesColumn(m.index, totals)
  {
  }

  // ---------------------------------------------------------------------
  // The columns the rank loop visits
  // ---------------------------------------------------------------------

  /** The pivot's status columns, in its (alphabetical) order. */
  function PresentStatuses(t: Daily, lag: nat): (r: seq<Col>)
    requires t.Valid()
    ensures forall c | c in r :: c.StatusCol? && HasStatus(t, lag, c.status)
    ensures forall st | HasStatus(t, lag, st) :: StatusCol(st) in r
  {
    (if HasStatus(t, lag, Confirmed) then [StatusCol(Confirmed)] else [])
    + (if HasStatus(t, lag, Deceased) then [StatusCol(Deceased)] else [])
    + (if HasStatus(t, lag, Recovered) then [StatusCol(Recovered)] else [])
  }

  /** The columns the merges and the ratio assignments add after the status columns. */
  const AddedColumns: seq<Col> :=
    [Population, SecondDoses, Vaccinations, CasesPerMillion, DeathsPerMillion, VaccinationsPerMillion, CaseFatalityRate]

  lemma AddedColumnsMembers()
    ensures forall c :: c in AddedColumns <==> c == Population || c == SecondDoses || c == Vaccinations || IsRatio(c)
  {
  }

  /**
   * The columns the loop iterates: those of the frame before it, in their
   * order.
   */
  function RankedColumns(t: Daily, lag: nat): seq<Col>
    requires t.Valid()
  {
    PresentStatuses(t, lag) + AddedColumns
  }

  /** The columns of the frame the rank loop starts from. */
  predicate BeforeRanks(t: Daily, lag: nat, c: Col)
    requires t.Valid()
  {
    (c.StatusCol? && HasStatus(t, lag, c.status)) || c == Population || c == SecondDoses || c == Vaccinations || IsRatio(c)
  }

  /** The loop visits those columns, and none of them is a rank column. */
  lemma RankedColumnsSpec(t: Daily, lag: nat)
    requires t.Valid()
    ensures forall c :: c in RankedColumns(t, lag) <==> BeforeRanks(t, lag, c)
    ensures forall c | c in RankedColumns(t, lag) :: !c.RankOf?
  {
    AddedColumnsMembers();
  }

  // ---------------------------------------------------------------------
  // The snapshot
  // ---------------------------------------------------------------------

  /** Confirmed and deceased columns both exist, so the ratio assignments run. */
  predicate Succeeds(t: Daily, lag: nat)
    requires t.Valid()
  {
    HasStatus(t, lag, Confirmed) && HasStatus(t, lag, Deceased)
  }

  /**
   * When the ratio assignments run, the merged frame has what they read, and the loop
   * visits exactly the columns of the frame after them.
   */
  lemma RankedColumnsPresent(t: Daily, lag: nat, population: map<string, int>, totals: map<string, Vaccine.Totals>)
    requires t.Valid() && Succeeds(t, lag)
    ensures RawFrame(Merged(t, lag, population, totals))
    ensures RankableAfterRatios(Merged(t, lag, population, totals), RankedColumns(t, lag))
    ensures forall c :: c in RankedColumns(t, lag) <==> c in WithRatios(Merged(t, lag, population, totals)).cols
  {
    MergedRatioColumns(t, lag, population, totals);
    RankedColumnsSpec(t, lag);
  }

  /** The merged frame is raw, and after the ratios it has exactly the columns the rank loop starts from. */
  lemma MergedRatioColumns(t: Daily, lag: nat, population: map<string, int>, totals: map<string, Vaccine.Totals>)
    requires t.Valid() && Succeeds(t, lag)
    ensures RawFrame(Merged(t, lag, population, totals))
    ensures forall c :: c in WithRatios(Merged(t, lag, population, totals)).cols <==> BeforeRanks(t, lag, c)
  {
    var m := Merged(t, lag, population, totals);
    assert HasCounts(m);
    var w := WithRatios(m);
    forall c
      ensures c in w.cols <==> BeforeRanks(t, lag, c)
    {
      if c.StatusCol? {
        assert c == StatusCol(c.status);
      }
    }
  }

  /** Ratios, ranks and the India row on the merged frame: the snapshot. */
  function Snapshot(t: Daily, lag: nat, population: map<string, int>, totals: map<string, Vaccine.Totals>): (r: Frame<string, Col>)
    requires t.Valid() && Succeeds(t, lag)
    ensures r.Valid() && HasCounts(r)
  {
    RankedColumnsPresent(t, lag, population, totals);
    Closed(Merged(t, lag, population, totals), RankedColumns(t, lag), "India")
  }

  /**
   * `get_state_metrics_df(df, vaccine_df, state_population_df)`, with
   * `lag` for `avg_days_to_death` and `population` for the population
   * table: KeyError when the pivot has no confirmed or no deceased column.
   */
  function StateMetrics(t: Daily, lag: nat, population: map<string, int>, v: Vaccine.VaccineDaily): (r: Result<Frame<string, Col>>)
    requires t.Valid() && v.Valid()
  {
    var totals := Vaccine.StateVaccineTotals(v);
    var m := Merged(t, lag, population, totals);
    if StatusCol(Confirmed) !in m.cols then Err(KeyError("Confirmed"))
    else if StatusCol(Deceased) !in m.cols then Err(KeyError("Deceased"))
    else Ok(Snapshot(t, lag, population, totals))
  }

  /** The two error cases, and success otherwise. */
  lemma StateMetricsOutcome(t: Daily, lag: nat, population: map<string, int>, v: Vaccine.VaccineDaily)
    requires t.Valid() && v.Valid()
    ensures StateMetrics(t, lag, population, v).Ok? <==> Succeeds(t, lag)
    ensures !HasStatus(t, lag, Confirmed) ==> StateMetrics(t, lag, population, v) == Err(KeyError("Confirmed"))
    ensures HasStatus(t, lag, Confirmed) && !HasStatus(t, lag, Deceased) ==>
      StateMetrics(t, lag, population, v) == Err(KeyError("Deceased"))
    ensures Succeeds(t, lag) ==>
      StateMetrics(t, lag, population, v) == Ok(Snapshot(t, lag, population, Vaccine.StateVaccineTotals(v)))
  {
  }

  /**
   * The snapshot's rows: the states with counts, a population and a
   * vaccination total, in the order of the count columns, then India.
   */
  lemma SnapshotRows(t: Daily, lag: nat, population: map<string, int>, totals: map<string, Vaccine.Totals>)
    requires t.Valid() && Succeeds(t, lag)
    requires "India" !in t.states
    ensures Snapshot(t, lag, population, totals).index == Joined(t.states, population, totals) + ["India"]
    ensures Distinct(Snapshot(t, lag, population, totals).index)
    ensures forall s :: s in Joined(t.states, population, totals) <==> s in t.states && s in population && s in totals
  {
    var rows := Joined(t.states, population, totals);
    RankedColumnsPresent(t, lag, population, totals);
    ClosedRows(Merged(t, lag, population, totals), RankedColumns(t, lag), "India");
    JoinedDistinct(t.states, population, totals);
    assert "India" !in rows;
    DistinctSnoc(rows, "India");
  }

  /** A state's status cells are its sums over the included rows. */
  lemma SnapshotStatusCell(t: Daily, lag: nat, population: map<string, int>, totals: map<string, Vaccine.Totals>, st: Status, k: nat)
    requires t.Valid() && Succeeds(t, lag) && "India" !in t.states && HasStatus(t, lag, st)
    requires k < |Joined(t.states, population, totals)|
    ensures Joined(t.states, population, totals)[k] in t.counts
    ensures StatusCol(st) in Snapshot(t, lag, population, totals).cols
    ensures Snapshot(t, lag, population, totals).cols[StatusCol(st)][k] ==
      OfInt(StatusSum(t, lag, Joined(t.states, population, totals)[k], st))
  {
    var rows := Joined(t.states, population, totals);
    assert rows[k] in rows;
    RankedColumnsPresent(t, lag, population, totals);
    MergedStatus(t, lag, population, totals, st);
    ClosedKeepsRaw(Merged(t, lag, population, totals), RankedColumns(t, lag), "India", StatusCol(st), k);
  }

  /** A state's population and vaccination cells are those of the joined tables. */
  lemma SnapshotJoinedCells(t: Daily, lag: nat, population: map<string, int>, totals: map<string, Vaccine.Totals>, k: nat)
    requires t.Valid() && Succeeds(t, lag) && "India" !in t.states
    requires k < |Joined(t.states, population, totals)|
    ensures var s := Joined(t.states, population, totals)[k];
      var r := Snapshot(t, lag, population, totals);
      && s in t.states && s in population && s in totals
      && r.cols[Population][k] == OfInt(population[s])
      && r.cols[Vaccinations][k] == totals[s].vaccinations
      && r.cols[SecondDoses][k] == totals[s].secondDoses
  {
    var rows := Joined(t.states, population, totals);
    var m := Merged(t, lag, population, totals);
    var names := RankedColumns(t, lag);
    assert rows[k] in rows;
    RankedColumnsPresent(t, lag, population, totals);
    MergedJoinedColumns(t, lag, population, totals);
    ClosedKeepsRaw(m, names, "India", Population, k);
    ClosedKeepsRaw(m, names, "India", Vaccinations, k);
    ClosedKeepsRaw(m, names, "India", SecondDoses, k);
  }

  /**
   * Every row of the snapshot, India's included, holds the ratios of its
   * own counts.
   */
  lemma SnapshotRatios(t: Daily, lag: nat, population: map<string, int>, totals: map<string, Vaccine.Totals>, k: nat)
    requires t.Valid() && Succeeds(t, lag)
    requires k < |Snapshot(t, lag, population, totals).index|
    ensures OwnRatios(Snapshot(t, lag, population, totals), k)
  {
    RankedColumnsPresent(t, lag, population, totals);
    ClosedRatios(Merged(t, lag, population, totals), RankedColumns(t, lag), "India", k);
  }

  /**
   * Recomputing the ratios after the India row is added leaves every state
   * row's ratios as the first computation made them.
   */
  lemma SnapshotRatiosStable(t: Daily, lag: nat, population: map<string, int>, totals: map<string, Vaccine.Totals>, k: nat, c: Col)
    requires t.Valid() && Succeeds(t, lag) && "India" !in t.states
    requires k < |Joined(t.states, population, totals)| && IsRatio(c)
    ensures HasCounts(Merged(t, lag, population, totals))
    ensures c in Snapshot(t, lag, population, totals).cols
    ensures Snapshot(t, lag, population, totals).cols[c][k] == WithRatios(Merged(t, lag, population, totals)).cols[c][k]
  {
    var rows := Joined(t.states, population, totals);
    assert rows[k] in rows;
    RankedColumnsPresent(t, lag, population, totals);
    ClosedRatiosStable(Merged(t, lag, population, totals), RankedColumns(t, lag), "India", k, c);
  }

  /**
   * The ranks of the state rows are those of the columns before the India
   * row existed, computed on the state rows only, so India affects none of
   * them.
   */
  lemma SnapshotRanks(t: Daily, lag: nat, population: map<string, int>, totals: map<string, Vaccine.Totals>, c: Col, k: nat)
    requires t.Valid() && Succeeds(t, lag) && "India" !in t.states
    requires c in RankedColumns(t, lag) && k < |Joined(t.states, population, totals)|
    ensures HasCounts(Merged(t, lag, population, totals))
    ensures var before := WithRatios(Merged(t, lag, population, totals));
      && c in before.cols
      && RankOf(c) in Snapshot(t, lag, population, totals).cols
      && Snapshot(t, lag, population, totals).cols[RankOf(c)][k] == RankCol(before.cols[c])[k]
  {
    var rows := Joined(t.states, population, totals);
    assert rows[k] in rows;
    RankedColumnsPresent(t, lag, population, totals);
    ClosedRanks(Merged(t, lag, population, totals), RankedColumns(t, lag), "India", c, k);
  }

  /**
   * India's raw cells are the column sums over the states, and its ratios
   * are ratios of those sums, not sums of the state ratios.
   */
  lemma SnapshotIndiaRow(t: Daily, lag: nat, population: map<string, int>, totals: map<string, Vaccine.Totals>)
    requires t.Valid() && Succeeds(t, lag) && "India" !in t.states
    ensures var m := Merged(t, lag, population, totals);
      var r := Snapshot(t, lag, population, totals);
      var n := |m.index|;
      && HasCounts(m) && n < |r.index| && r.index[n] == "India"
      && (forall c | c in m.cols :: c in r.cols && r.cols[c][n] == Total(m.cols[c]))
      && r.cols[CasesPerMillion][n] == PerMillion(Total(m.cols[StatusCol(Confirmed)]), Total(m.cols[Population]))
      && r.cols[DeathsPerMillion][n] == PerMillion(Total(m.cols[StatusCol(Deceased)]), Total(m.cols[Population]))
      && r.cols[VaccinationsPerMillion][n] == PerMillion(Total(m.cols[Vaccinations]), Total(m.cols[Population]))
      && r.cols[CaseFatalityRate][n] == Div(Total(m.cols[StatusCol(Deceased)]), Total(m.cols[StatusCol(Confirmed)]))
  {
    var m := Merged(t, lag, population, totals);
    RankedColumnsPresent(t, lag, population, totals);
    assert "India" !in m.index;
    ClosedKeyRow(m, RankedColumns(t, lag), "India");
  }

  /** India's rank cells are the totals of the state ranks. */
  lemma SnapshotIndiaRanks(t: Daily, lag: nat, population: map<string, int>, totals: map<string, Vaccine.Totals>, c: Col)
    requires t.Valid() && Succeeds(t, lag) && "India" !in t.states && c in RankedColumns(t, lag)
    ensures HasCounts(Merged(t, lag, population, totals))
    ensures var m := Merged(t, lag, population, totals);
      && c in WithRatios(m).cols && RankOf(c) in Snapshot(t, lag, population, totals).cols
      && |m.index| < |Snapshot(t, lag, population, totals).index|
      && Snapshot(t, lag, population, totals).cols[RankOf(c)][|m.index|] == Total(RankCol(WithRatios(m).cols[c]))
  {
    var m := Merged(t, lag, population, totals);
    RankedColumnsPresent(t, lag, population, totals);
    assert "India" !in m.index;
    ClosedKeyRowRanks(m, RankedColumns(t, lag), "India", c);
  }

  /** The status cells hold whole counts, so India's is their exact sum. */
  lemma IndiaStatusIsSum(t: Daily, lag: nat, rows: seq<string>, st: Status)
    requires t.Valid() && forall k | 0 <= k < |rows| :: rows[k] in t.counts
    ensures Total(StatusColumn(t, lag, rows, st)) == Fin(FinSum(StatusColumn(t, lag, rows, st)))
  {
    TotalOfFinite(StatusColumn(t, lag, rows, st));
  }

  // ---------------------------------------------------------------------
  // The function, statement by statement
  // ---------------------------------------------------------------------

  /** `get_state_metrics_df`, building the frame in place as the source does. */
  method GetStateMetrics(t: Daily, lag: nat, population: map<string, int>, v: Vaccine.VaccineDaily)
    returns (r: Result<Frame<string, Col>>)
    requires t.Valid() && v.Valid()
    ensures r == StateMetrics(t, lag, population, v)
  {
    var totals := Vaccine.StateVaccineTotals(v);
    var merged := Merged(t, lag, population, totals);
    var df := new DataFrame(merged);
    if StatusCol(Confirmed) !in df.cols {
      return Err(KeyError("Confirmed"));
    }
    if StatusCol(Deceased) !in df.cols {
      return Err(KeyError("Deceased"));
    }
    RankedColumnsPresent(t, lag, population, totals);
    Close(df, RankedColumns(t, lag), "India");
    return Ok(df.Value());
  }
}
