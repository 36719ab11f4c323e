/**
 * `get_date_wise_metrics`: the date-by-state table behind the time-series
 * plots. The cases table is pivoted by date and status, stacked to one row
 * per (date, state), left-joined to the population and vaccination tables
 * and pivoted again to one column per (metric, state). A loop over that
 * pivot's columns then adds four derived columns for every state that has
 * a `Confirmed` column; finally +inf becomes missing and the missing cells
 * of each column are filled by linear interpolation down the dates.
 */
module DateWise {
  import opened Common
  import opened Numeric
  import opened Seqs
  import opened Frames
  import Vaccine

  /** The first level of the second pivot's column labels. */
  datatype Metric =
    | Reported(status: Status)
    | Population
    | SecondDoses
    | Vaccinations
    | CaseFatalityRate
    | CasesPerMillion
    | DeathsPerMillion
    | PctVaccinated

  /** The name pandas shows for a metric. */
  function MetricName(m: Metric): string
  {
    match m
    case Reported(st) => StatusName(st)
    case Population => "population"
    case SecondDoses => "second_doses"
    case Vaccinations => "vaccinations"
    case CaseFatalityRate => "case_fatality_rate"
    case CasesPerMillion => "cases_per_million"
    case DeathsPerMillion => "deaths_per_million"
    case PctVaccinated => "pct_vaccinated"
  }

  /** The four metrics the loop derives for a state. */
  predicate IsDerived(m: Metric)
  {
    m.CaseFatalityRate? || m.CasesPerMillion? || m.DeathsPerMillion? || m.PctVaccinated?
  }

  /** A column label `(metric, state)` of the second pivot. */
  datatype Key<S> = Key(metric: Metric, state: S)

  // ---------------------------------------------------------------------
  // The two pivots and the joins between them
  // ---------------------------------------------------------------------

  /** Row i of the cases table is dated `d` and reports `st`. */
  function DayMask(t: Daily, d: int, st: Status): (r: seq<bool>)
    requires t.Valid()
    ensures |r| == t.Rows()
    ensures forall i | 0 <= i < |r| :: r[i] == (t.dates[i] == d && t.statuses[i] == st)
  {
    seq(t.Rows(), i requires 0 <= i < t.Rows() => t.dates[i] == d && t.statuses[i] == st)
  }

  /**
   * The first pivot's cell: state `s`'s counts summed over every row dated
   * `d` with status `st`.
   */
  function ReportedOn(t: Daily, s: string, d: int, st: Status): int
    requires t.Valid() && s in t.counts
  {
    Sum(KeepWhere(t.counts[s], DayMask(t, d, st), true))
  }

  /** The cases table with one more row at the end. */
  function WithRow(t: Daily, d: int, st: Status, row: map<string, int>): (r: Daily)
    requires t.Valid() && t.counts.Keys <= row.Keys
    ensures r.Valid() && r.states == t.states && r.counts.Keys == t.counts.Keys
  {
    Daily(t.dates + [d], t.statuses + [st], t.states, map s | s in t.counts :: t.counts[s] + [row[s]])
  }

  /**
   * Duplicate (date, status) rows are summed: one more row adds its count
   * to the cell of its own date and status and leaves every other cell
   * alone.
   */
  lemma ReportedOnWithRow(t: Daily, d: int, st: Status, row: map<string, int>, s: string, e: int, su: Status)
    requires t.Valid() && t.counts.Keys <= row.Keys && s in t.counts
    ensures ReportedOn(WithRow(t, d, st, row), s, e, su) ==
      ReportedOn(t, s, e, su) + (if d == e && st == su then row[s] else 0)
  {
    var t2 := WithRow(t, d, st, row);
    assert DayMask(t2, e, su) == DayMask(t, e, su) + [d == e && st == su];
    assert t2.counts[s] == t.counts[s] + [row[s]];
    KeepWhereSnoc(t.counts[s], DayMask(t, e, su), row[s], d == e && st == su, true);
    var kept := KeepWhere(t.counts[s], DayMask(t, e, su), true);
    SumConcat(kept, if d == e && st == su then [row[s]] else []);
    assert Sum([row[s]]) == row[s] by {
      assert [row[s]][..0] == [];
    }
  }

  /** A date with no row of a status has 0 for it. */
  lemma ReportedOnNoRows(t: Daily, s: string, d: int, st: Status)
    requires t.Valid() && s in t.counts
    requires forall i | 0 <= i < t.Rows() :: !(t.dates[i] == d && t.statuses[i] == st)
    ensures ReportedOn(t, s, d, st) == 0
  {
    var mask := DayMask(t, d, st);
    KeepWhereIsSelect(t.counts[s], mask, true);
    PositionsSpec(mask, true);
    if Positions(mask, true) != [] {
      PositionsGap(mask, true, 0);
      assert false;
    }
  }

  /** Non-negative counts sum to a non-negative cell. */
  lemma ReportedOnNonNegative(t: Daily, s: string, d: int, st: Status)
    requires t.Valid() && s in t.counts
    requires forall i | 0 <= i < t.Rows() :: t.counts[s][i] >= 0
    ensures ReportedOn(t, s, d, st) >= 0
  {
    var mask := DayMask(t, d, st);
    KeepWhereIsSelect(t.counts[s], mask, true);
    SumNonNegative(KeepWhere(t.counts[s], mask, true));
  }

  /**
   * The population cell. The left join leaves it missing for a state the
   * population table lacks, and the second pivot's sum turns that missing
   * value into 0.
   */
  function PopulationOf(population: map<string, int>, s: string): Num
  {
    if s in population then OfInt(population[s]) else Fin(0.0)
  }

  /** Row i of the vaccination table is dated `d` and is about state `s`. */
  function VaccineMask(v: Vaccine.VaccineDaily, d: int, s: string): (r: seq<bool>)
    requires v.Valid()
    ensures |r| == |v.dates|
    ensures forall i | 0 <= i < |r| :: r[i] == (v.dates[i] == d && v.states[i] == s)
  {
    seq(|v.dates|, i requires 0 <= i < |v.dates| => v.dates[i] == d && v.states[i] == s)
  }

  /** The first vaccination row for (`d`, `s`), if any. */
  function VaccineRow(v: Vaccine.VaccineDaily, d: int, s: string): (r: Option<nat>)
    requires v.Valid()
    ensures r.Some? ==> r.value < |v.dates| && v.dates[r.value] == d && v.states[r.value] == s
    ensures r.Some? ==> forall i | 0 <= i < r.value :: !(v.dates[i] == d && v.states[i] == s)
    ensures r.None? ==> forall i | 0 <= i < |v.dates| :: !(v.dates[i] == d && v.states[i] == s)
  {
    var mask := VaccineMask(v, d, s);
    var p := Positions(mask, true);
    PositionsTail(mask, true);
    if p == [] then None
    else
      PositionsGap(mask, true, 0);
      Some(p[0])
  }

  /** A joined vaccination cell after the pivot's sum: missing becomes 0. */
  function VaccineCell(values: seq<Num>, row: Option<nat>): Num
    requires row.Some? ==> row.value < |values|
  {
    match row
    case None => Fin(0.0)
    case Some(i) => if Missing(values[i]) then Fin(0.0) else values[i]
  }

  /** The columns of the second pivot. */
  predicate IsPivotKey(t: Daily, k: Key<string>)
  {
    && k.state in t.states
    && match k.metric
       case Reported(st) => st in t.statuses
       case Population => true
       case SecondDoses => true
       case Vaccinations => true
       case _ => false
  }

  function PivotKeys(t: Daily): (r: set<Key<string>>)
    ensures forall k :: k in r <==> IsPivotKey(t, k)
  {
    (set st, s | st in t.statuses && s in t.states :: Key(Reported(st), s))
    + (set s | s in t.states :: Key(Population, s))
    + (set s | s in t.states :: Key(SecondDoses, s))
    + (set s | s in t.states :: Key(Vaccinations, s))
  }

  /** The second pivot's cell for column `k` on date `d`. */
  function PivotCell(t: Daily, population: map<string, int>, v: Vaccine.VaccineDaily, k: Key<string>, d: int): Num
    requires t.Valid() && v.Valid() && k.state in t.counts
  {
    match k.metric
    case Reported(st) => OfInt(ReportedOn(t, k.state, d, st))
    case Population => PopulationOf(population, k.state)
    case Vaccinations => VaccineCell(v.vaccinations, VaccineRow(v, d, k.state))
    case SecondDoses => VaccineCell(v.secondDoses, VaccineRow(v, d, k.state))
    case _ => NaN
  }

  /**
   * The second pivot: one row per distinct date, in date order, and one
   * column per (metric, state).
   */
  function Pivot(t: Daily, population: map<string, int>, v: Vaccine.VaccineDaily): (r: Frame<int, Key<string>>)
    requires t.Valid() && v.Valid()
    ensures r.Valid() && r.index == SortedDistinct(t.dates)
    ensures forall k :: k in r.cols <==> IsPivotKey(t, k)
  {
    var dates := SortedDistinct(t.dates);
    Frame(dates, map k | k in PivotKeys(t) ::
      seq(|dates|, i requires 0 <= i < |dates| => PivotCell(t, population, v, k, dates[i])))
  }

  lemma PivotAt(t: Daily, population: map<string, int>, v: Vaccine.VaccineDaily, k: Key<string>, i: nat)
    requires t.Valid() && v.Valid() && IsPivotKey(t, k) && i < |SortedDistinct(t.dates)|
    ensures k.state in t.counts
    ensures Pivot(t, population, v).cols[k][i] == PivotCell(t, population, v, k, SortedDistinct(t.dates)[i])
  {
  }

  /** A reported cell of the second pivot: the state's count of that status on that date. */
  lemma PivotReportedAt(t: Daily, population: map<string, int>, v: Vaccine.VaccineDaily, s: string, st: Status, i: nat)
    requires t.Valid() && v.Valid() && IsPivotKey(t, Key(Reported(st), s)) && i < |SortedDistinct(t.dates)|
    ensures s in t.counts
    ensures Pivot(t, population, v).cols[Key(Reported(st), s)][i] == OfInt(ReportedOn(t, s, SortedDistinct(t.dates)[i], st))
  {
    PivotAt(t, population, v, Key(Reported(st), s), i);
  }

  /** `(m, s)` for every state, in order. */
  function PerState(m: Metric, states: seq<string>): (r: seq<Key<string>>)
    ensures |r| == |states|
    ensures forall j | 0 <= j < |r| :: r[j] == Key(m, states[j])
  {
    seq(|states|, j requires 0 <= j < |states| => Key(m, states[j]))
  }

  /**
   * The pivot's column list as the loop captures it: metrics in name
   * order (`Confirmed`, `Deceased`, `Recovered`, `population`,
   * `second_doses`, `vaccinations`), each with every state.
   */
  function PivotColumns(t: Daily): (r: seq<Key<string>>)
    ensures forall j | 0 <= j < |r| :: IsPivotKey(t, r[j])
  {
    var c := if Confirmed in t.statuses then PerState(Reported(Confirmed), t.states) else [];
    var d := if Deceased in t.statuses then PerState(Reported(Deceased), t.states) else [];
    var e := if Recovered in t.statuses then PerState(Reported(Recovered), t.states) else [];
    var p, q, v := PerState(Population, t.states), PerState(SecondDoses, t.states), PerState(Vaccinations, t.states);
    PerStateKeys(t, Reported(Confirmed));
    PerStateKeys(t, Reported(Deceased));
    PerStateKeys(t, Reported(Recovered));
    PerStateKeys(t, Population);
    PerStateKeys(t, SecondDoses);
    PerStateKeys(t, Vaccinations);
    PivotKeysConcat(t, c, d);
    PivotKeysConcat(t, c + d, e);
    PivotKeysConcat(t, c + d + e, p);
    PivotKeysConcat(t, c + d + e + p, q);
    PivotKeysConcat(t, c + d + e + p + q, v);
    c + d + e + p + q + v
  }

  /** Every key of the list is a column of the second pivot. */
  predicate OnlyPivotKeys(t: Daily, ks: seq<Key<string>>)
  {
    forall j | 0 <= j < |ks| :: IsPivotKey(t, ks[j])
  }

  /** Each state with a metric the pivot has is one of its columns. */
  lemma PerStateKeys(t: Daily, m: Metric)
    requires !IsDerived(m)
    ensures (!m.Reported? || m.status in t.statuses) ==> OnlyPivotKeys(t, PerState(m, t.states))
  {
  }

  lemma PivotKeysConcat(t: Daily, a: seq<Key<string>>, b: seq<Key<string>>)
    requires OnlyPivotKeys(t, a) && OnlyPivotKeys(t, b)
    ensures OnlyPivotKeys(t, a + b)
  {
  }

  /** The captured list holds every column of the pivot. */
  lemma PivotColumnsCover(t: Daily, k: Key<string>)
    requires IsPivotKey(t, k)
    ensures k in PivotColumns(t)
  {
    var j :| 0 <= j < |t.states| && t.states[j] == k.state;
    var c := if Confirmed in t.statuses then PerState(Reported(Confirmed), t.states) else [];
    var d := if Deceased in t.statuses then PerState(Reported(Deceased), t.states) else [];
    var e := if Recovered in t.statuses then PerState(Reported(Recovered), t.states) else [];
    var p := PerState(Population, t.states);
    var q := PerState(SecondDoses, t.states);
    var v := PerState(Vaccinations, t.states);
    assert PivotColumns(t) == c + d + e + p + q + v;
    match k.metric
    case Reported(st) =>
      if st == Confirmed {
        assert c[j] == k;
      } else if st == Deceased {
        assert d[j] == k;
      } else {
        assert e[j] == k;
      }
    case Population =>
      assert p[j] == k;
    case SecondDoses =>
      assert q[j] == k;
    case Vaccinations =>
      assert v[j] == k;
  }

  // ---------------------------------------------------------------------
  // The loop over the captured columns
  // ---------------------------------------------------------------------

  /** The columns the loop body reads for state `s`, besides `Confirmed`. */
  predicate Ready<K, S(==)>(f: Frame<K, Key<S>>, s: S)
  {
    Key(Reported(Deceased), s) in f.cols && Key(Population, s) in f.cols && Key(Vaccinations, s) in f.cols
  }

  /**
   * The loop body for a `Confirmed` column of state `s`: the four derived
   * columns, or the KeyError of the first column it reads and cannot find.
   */
  function DerivedFor<K, S(==)>(f: Frame<K, Key<S>>, s: S, lag: nat): (r: Result<Frame<K, Key<S>>>)
    requires f.Valid() && Key(Reported(Confirmed), s) in f.cols
    ensures r.Ok? ==> r.value.Valid() && r.value.index == f.index && f.cols.Keys <= r.value.cols.Keys
  {
    if Key(Reported(Deceased), s) !in f.cols then Err(KeyError("Deceased"))
    else if Key(Population, s) !in f.cols then Err(KeyError("population"))
    else if Key(Vaccinations, s) !in f.cols then Err(KeyError("vaccinations"))
    else
      var confirmed := f.cols[Key(Reported(Confirmed), s)];
      var deceased := f.cols[Key(Reported(Deceased), s)];
      var population := f.cols[Key(Population, s)];
      Ok(Frame(f.index, f.cols
        [Key(CaseFatalityRate, s) := DivCol(deceased, Shift(confirmed, lag))]
        [Key(CasesPerMillion, s) := PerMillionCol(confirmed, population)]
        [Key(DeathsPerMillion, s) := PerMillionCol(deceased, population)]
        [Key(PctVaccinated, s) := DivCol(f.cols[Key(Vaccinations, s)], population)]))
  }

  /** The loop body fails exactly when a column it reads is missing. */
  lemma DerivedForOutcome<K, S>(f: Frame<K, Key<S>>, s: S, lag: nat)
    requires f.Valid() && Key(Reported(Confirmed), s) in f.cols
    ensures DerivedFor(f, s, lag).Ok? <==> Ready(f, s)
    ensures DerivedFor(f, s, lag).Err? && Key(Population, s) in f.cols && Key(Vaccinations, s) in f.cols ==>
      DerivedFor(f, s, lag).error == KeyError("Deceased")
  {
  }

  /**
   * The body adds the four derived columns of `s`, nothing else, and
   * leaves every other column as it was.
   */
  lemma DerivedForKeeps<K, S>(f: Frame<K, Key<S>>, s: S, lag: nat)
    requires f.Valid() && Key(Reported(Confirmed), s) in f.cols && Ready(f, s)
    ensures var g := DerivedFor(f, s, lag).value;
      && (forall k | k in g.cols :: k in f.cols || (k.state == s && IsDerived(k.metric)))
      && (forall m | IsDerived(m) :: Key(m, s) in g.cols)
      && (forall k | k in f.cols && !(k.state == s && IsDerived(k.metric)) :: g.cols[k] == f.cols[k])
  {
  }

  /** In particular the body keeps the columns that any state's body reads. */
  lemma DerivedForKeepsInputs<K, S>(f: Frame<K, Key<S>>, s0: S, lag: nat, s: S)
    requires f.Valid() && Key(Reported(Confirmed), s0) in f.cols && Ready(f, s0)
    requires Key(Reported(Confirmed), s) in f.cols && Ready(f, s)
    ensures var g := DerivedFor(f, s0, lag).value;
      && Key(Reported(Confirmed), s) in g.cols && Ready(g, s)
      && g.cols[Key(Reported(Confirmed), s)] == f.cols[Key(Reported(Confirmed), s)]
      && g.cols[Key(Reported(Deceased), s)] == f.cols[Key(Reported(Deceased), s)]
      && g.cols[Key(Population, s)] == f.cols[Key(Population, s)]
      && g.cols[Key(Vaccinations, s)] == f.cols[Key(Vaccinations, s)]
  {
    DerivedForKeeps(f, s0, lag);
  }

  /** The four derived columns of the body, in terms of the columns it reads. */
  predicate DerivedColumns<K, S(==)>(f: Frame<K, Key<S>>, g: Frame<K, Key<S>>, s: S, lag: nat)
    requires f.Valid() && Key(Reported(Confirmed), s) in f.cols && Ready(f, s)
  {
    var confirmed := f.cols[Key(Reported(Confirmed), s)];
    var deceased := f.cols[Key(Reported(Deceased), s)];
    var population := f.cols[Key(Population, s)];
    && Key(CaseFatalityRate, s) in g.cols && Key(CasesPerMillion, s) in g.cols
    && Key(DeathsPerMillion, s) in g.cols && Key(PctVaccinated, s) in g.cols
    && g.cols[Key(CaseFatalityRate, s)] == DivCol(deceased, Shift(confirmed, lag))
    && g.cols[Key(CasesPerMillion, s)] == PerMillionCol(confirmed, population)
    && g.cols[Key(DeathsPerMillion, s)] == PerMillionCol(deceased, population)
    && g.cols[Key(PctVaccinated, s)] == DivCol(f.cols[Key(Vaccinations, s)], population)
  }

  lemma DerivedForColumns<K, S>(f: Frame<K, Key<S>>, s: S, lag: nat)
    requires f.Valid() && Key(Reported(Confirmed), s) in f.cols && Ready(f, s)
    ensures DerivedColumns(f, DerivedFor(f, s, lag).value, s, lag)
  {
    var cfr, cpm, dpm, pct := Key(CaseFatalityRate, s), Key(CasesPerMillion, s), Key(DeathsPerMillion, s), Key(PctVaccinated, s);
    assert cfr != cpm && cfr != dpm && cfr != pct && cpm != dpm && cpm != pct && dpm != pct;
    var g := DerivedFor(f, s, lag).value;
    assert g.cols == f.cols[cfr := g.cols[cfr]][cpm := g.cols[cpm]][dpm := g.cols[dpm]][pct := g.cols[pct]];
  }

  /**
   * The whole loop over the captured column list `names`: every `Confirmed`
   * column runs the body, every other column is skipped, and the first
   * failing body ends the loop with its error.
   */
  function AllDerived<K, S(==)>(f: Frame<K, Key<S>>, names: seq<Key<S>>, lag: nat): (r: Result<Frame<K, Key<S>>>)
    requires f.Valid() && forall j | 0 <= j < |names| :: names[j] in f.cols
    ensures r.Ok? ==> r.value.Valid() && r.value.index == f.index && f.cols.Keys <= r.value.cols.Keys
    decreases |names|
  {
    if names == [] then Ok(f)
    else if names[0].metric != Reported(Confirmed) then AllDerived(f, names[1..], lag)
    else
      var step := DerivedFor(f, names[0].state, lag);
      if step.Err? then step else AllDerived(step.value, names[1..], lag)
  }

  /**
   * The loop adds no column but the derived metrics of the states with a
   * `Confirmed` column among `names`.
   */
  lemma {:induction false} AllDerivedKeys<K, S>(f: Frame<K, Key<S>>, names: seq<Key<S>>, lag: nat)
    requires f.Valid() && forall j | 0 <= j < |names| :: names[j] in f.cols
    requires AllDerived(f, names, lag).Ok?
    ensures var g := AllDerived(f, names, lag).value;
      forall k | k in g.cols :: k in f.cols || (IsDerived(k.metric) && Key(Reported(Confirmed), k.state) in names)
    decreases |names|
  {
    if names != [] {
      assert forall k | k in names[1..] :: k in names;
      if names[0].metric != Reported(Confirmed) {
        AllDerivedKeys(f, names[1..], lag);
      } else {
        assert names[0] == Key(Reported(Confirmed), names[0].state);
        DerivedForOutcome(f, names[0].state, lag);
        DerivedForKeeps(f, names[0].state, lag);
        AllDerivedKeys(DerivedFor(f, names[0].state, lag).value, names[1..], lag);
      }
    }
  }

  /**
   * A column the loop does not write passes through unchanged: one that is
   * not a derived metric, or the derived metric of a state with no
   * `Confirmed` column among `names`.
   */
  lemma {:induction false} AllDerivedKeeps<K, S>(f: Frame<K, Key<S>>, names: seq<Key<S>>, lag: nat, k: Key<S>)
    requires f.Valid() && forall j | 0 <= j < |names| :: names[j] in f.cols
    requires AllDerived(f, names, lag).Ok? && k in f.cols
    requires !IsDerived(k.metric) || Key(Reported(Confirmed), k.state) !in names
    ensures AllDerived(f, names, lag).value.cols[k] == f.cols[k]
    decreases |names|
  {
    if names != [] {
      assert names[0] in names;
      assert forall c | c in names[1..] :: c in names;
      if names[0].metric != Reported(Confirmed) {
        AllDerivedKeeps(f, names[1..], lag, k);
      } else {
        DerivedForOutcome(f, names[0].state, lag);
        DerivedForKeeps(f, names[0].state, lag);
        AllDerivedKeeps(DerivedFor(f, names[0].state, lag).value, names[1..], lag, k);
      }
    }
  }

  /**
   * The loop succeeds exactly when every state with a `Confirmed` column
   * among `names` also has the columns the body reads.
   */
  lemma {:induction false} AllDerivedOutcome<K, S>(f: Frame<K, Key<S>>, names: seq<Key<S>>, lag: nat)
    requires f.Valid() && forall j | 0 <= j < |names| :: names[j] in f.cols
    ensures AllDerived(f, names, lag).Ok? <==>
      forall j | 0 <= j < |names| && names[j].metric == Reported(Confirmed) :: Ready(f, names[j].state)
    decreases |names|
  {
    if names != [] {
      assert forall j | 1 <= j < |names| :: names[1..][j - 1] == names[j];
      if names[0].metric != Reported(Confirmed) {
        AllDerivedOutcome(f, names[1..], lag);
      } else {
        assert names[0] == Key(Reported(Confirmed), names[0].state);
        DerivedForOutcome(f, names[0].state, lag);
        if Ready(f, names[0].state) {
          DerivedForKeeps(f, names[0].state, lag);
          AllDerivedOutcome(DerivedFor(f, names[0].state, lag).value, names[1..], lag);
        }
      }
    }
  }

  /**
   * When every such state has its population and vaccination columns, a
   * failing loop fails on a missing `Deceased` column.
   */
  lemma {:induction false} AllDerivedError<K, S>(f: Frame<K, Key<S>>, names: seq<Key<S>>, lag: nat)
    requires f.Valid() && forall j | 0 <= j < |names| :: names[j] in f.cols
    requires forall j | 0 <= j < |names| && names[j].metric == Reported(Confirmed) ::
      Key(Population, names[j].state) in f.cols && Key(Vaccinations, names[j].state) in f.cols
    ensures AllDerived(f, names, lag).Err? ==> AllDerived(f, names, lag).error == KeyError("Deceased")
    decreases |names|
  {
    if names != [] {
      assert forall j | 1 <= j < |names| :: names[1..][j - 1] == names[j];
      if names[0].metric != Reported(Confirmed) {
        AllDerivedError(f, names[1..], lag);
      } else {
        assert names[0] == Key(Reported(Confirmed), names[0].state);
        DerivedForOutcome(f, names[0].state, lag);
        if Ready(f, names[0].state) {
          DerivedForKeeps(f, names[0].state, lag);
          AllDerivedError(DerivedFor(f, names[0].state, lag).value, names[1..], lag);
        }
      }
    }
  }

  /** `DerivedColumns` only looks at the columns the body reads. */
  lemma DerivedColumnsSameInputs<K, S>(f: Frame<K, Key<S>>, f2: Frame<K, Key<S>>, g: Frame<K, Key<S>>, s: S, lag: nat)
    requires f.Valid() && Key(Reported(Confirmed), s) in f.cols && Ready(f, s)
    requires f2.Valid() && Key(Reported(Confirmed), s) in f2.cols && Ready(f2, s)
    requires f2.cols[Key(Reported(Confirmed), s)] == f.cols[Key(Reported(Confirmed), s)]
    requires f2.cols[Key(Reported(Deceased), s)] == f.cols[Key(Reported(Deceased), s)]
    requires f2.cols[Key(Population, s)] == f.cols[Key(Population, s)]
    requires f2.cols[Key(Vaccinations, s)] == f.cols[Key(Vaccinations, s)]
    requires DerivedColumns(f2, g, s, lag)
    ensures DerivedColumns(f, g, s, lag)
  {
  }

  /**
   * Each derived column of a state is computed from that state's own
   * columns as they were before the loop, whichever of its bodies ran
   * last.
   */
  lemma {:induction false} AllDerivedColumns<K, S>(f: Frame<K, Key<S>>, names: seq<Key<S>>, lag: nat, s: S)
    requires f.Valid() && forall j | 0 <= j < |names| :: names[j] in f.cols
    requires AllDerived(f, names, lag).Ok? && Key(Reported(Confirmed), s) in names
    ensures Key(Reported(Confirmed), s) in f.cols && Ready(f, s)
    ensures DerivedColumns(f, AllDerived(f, names, lag).value, s, lag)
    decreases |names|
  {
    var c := Key(Reported(Confirmed), s);
    AllDerivedOutcome(f, names, lag);
    assert Ready(f, s) by {
      var j :| 0 <= j < |names| && names[j] == c;
    }
    assert forall k | k in names[1..] :: k in names;
    if names[0].metric != Reported(Confirmed) {
      assert c in names[1..] by {
        var j :| 0 <= j < |names| && names[j] == c;
        assert names[1..][j - 1] == c;
      }
      AllDerivedColumns(f, names[1..], lag, s);
    } else {
      var s0 := names[0].state;
      assert names[0] == Key(Reported(Confirmed), s0);
      DerivedForOutcome(f, s0, lag);
      DerivedForKeeps(f, s0, lag);
      var g := DerivedFor(f, s0, lag).value;
      if c in names[1..] {
        AllDerivedColumns(g, names[1..], lag, s);
        DerivedForKeepsInputs(f, s0, lag, s);
        DerivedColumnsSameInputs(f, g, AllDerived(f, names, lag).value, s, lag);
      } else {
        assert s0 == s;
        DerivedForColumns(f, s, lag);
        AllDerivedKeeps(g, names[1..], lag, Key(CaseFatalityRate, s));
        AllDerivedKeeps(g, names[1..], lag, Key(CasesPerMillion, s));
        AllDerivedKeeps(g, names[1..], lag, Key(DeathsPerMillion, s));
        AllDerivedKeeps(g, names[1..], lag, Key(PctVaccinated, s));
      }
    }
  }

  /**
   * The loop body of `get_date_wise_metrics` for the `Confirmed` column of
   * state `s`, writing into the frame as it goes; a column it cannot find
   * raises its KeyError.
   */
  method DeriveInPlace<K, S(==)>(df: DataFrame<K, Key<S>>, s: S, lag: nat) returns (outcome: Outcome)
    requires df.Valid() && Key(Reported(Confirmed), s) in df.cols
    modifies df
    ensures outcome.Pass? ==> df.Valid() && DerivedFor(old(df.Value()), s, lag) == Ok(df.Value())
    ensures outcome.Fail? ==> DerivedFor(old(df.Value()), s, lag) == Err(outcome.error)
  {
    var confirmed := Key(Reported(Confirmed), s);
    var deceased := Key(Reported(Deceased), s);
    var population := Key(Population, s);
    var vaccinations := Key(Vaccinations, s);
    if deceased !in df.cols {
      return Fail(KeyError("Deceased"));
    }
    df.SetColumn(Key(CaseFatalityRate, s), DivCol(df.cols[deceased], Shift(df.cols[confirmed], lag)));
    if population !in df.cols {
      return Fail(KeyError("population"));
    }
    df.SetColumn(Key(CasesPerMillion, s), PerMillionCol(df.cols[confirmed], df.cols[population]));
    df.SetColumn(Key(DeathsPerMillion, s), PerMillionCol(df.cols[deceased], df.cols[population]));
    if vaccinations !in df.cols {
      return Fail(KeyError("vaccinations"));
    }
    df.SetColumn(Key(PctVaccinated, s), DivCol(df.cols[vaccinations], df.cols[population]));
    return Pass;
  }

  /**
   * The loop of `get_date_wise_metrics` over the captured column list: it
   * runs the body for each `Confirmed` column. The columns the body adds
   * are not in `names`, so they are never visited.
   */
  method AddDerivedColumns<K, S(==)>(df: DataFrame<K, Key<S>>, names: seq<Key<S>>, lag: nat) returns (outcome: Outcome)
    requires df.Valid() && forall j | 0 <= j < |names| :: names[j] in df.cols
    modifies df
    ensures outcome.Pass? ==> df.Valid() && AllDerived(old(df.Value()), names, lag) == Ok(df.Value())
    ensures outcome.Fail? ==> AllDerived(old(df.Value()), names, lag) == Err(outcome.error)
  {
    ghost var before := df.Value();
    for i := 0 to |names|
      invariant df.Valid()
      invariant forall j | i <= j < |names| :: names[j] in df.cols
      invariant AllDerived(before, names, lag) == AllDerived(df.Value(), names[i..], lag)
    {
      assert names[i..][0] == names[i] && names[i..][1..] == names[i + 1..];
      if names[i].metric == Reported(Confirmed) {
        assert names[i] == Key(Reported(Confirmed), names[i].state);
        outcome := DeriveInPlace(df, names[i].state, lag);
        if outcome.Fail? {
          return;
        }
      }
    }
    return Pass;
  }

  // ---------------------------------------------------------------------
  // The whole-table rewrites
  // ---------------------------------------------------------------------

  /** +inf becomes missing; every other value is kept. */
  function ReplaceInf(x: Num): (r: Num)
    ensures r != PosInf
    ensures x != PosInf ==> r == x
    ensures x == PosInf ==> Missing(r)
  {
    if x == PosInf then NaN else x
  }

  function ReplaceInfCol(s: seq<Num>): (r: seq<Num>)
    ensures |r| == |s|
    ensures forall i | 0 <= i < |s| :: r[i] == ReplaceInf(s[i])
  {
    seq(|s|, i requires 0 <= i < |s| => ReplaceInf(s[i]))
  }

  /** `applymap` of the inf replacement over every cell. */
  function ReplaceInfFrame<K, C>(f: Frame<K, C>): (r: Frame<K, C>)
    requires f.Valid()
    ensures r.Valid() && r.index == f.index && r.cols.Keys == f.cols.Keys
    ensures forall c | c in f.cols :: r.cols[c] == ReplaceInfCol(f.cols[c])
  {
    Frame(f.index, map c | c in f.cols :: ReplaceInfCol(f.cols[c]))
  }

  /** Replacing twice is replacing once. */
  lemma ReplaceInfIdempotent<K, C>(f: Frame<K, C>)
    requires f.Valid()
    ensures ReplaceInfFrame(ReplaceInfFrame(f)) == ReplaceInfFrame(f)
  {
    var once := ReplaceInfFrame(f);
    forall c | c in f.cols
      ensures ReplaceInfCol(once.cols[c]) == once.cols[c]
    {
    }
  }

  /** The last present cell before position `i`. */
  function PrevPresent(s: seq<Num>, i: nat): (r: Option<nat>)
    requires i <= |s|
    ensures r.Some? ==> r.value < i && !Missing(s[r.value]) && forall j | r.value < j < i :: Missing(s[j])
    ensures r.None? ==> forall j | 0 <= j < i :: Missing(s[j])
  {
    if i == 0 then None
    else if !Missing(s[i - 1]) then Some(i - 1)
    else PrevPresent(s, i - 1)
  }

  /** The first present cell after position `i`. */
  function NextPresent(s: seq<Num>, i: nat): (r: Option<nat>)
    requires i < |s|
    ensures r.Some? ==> i < r.value < |s| && !Missing(s[r.value]) && forall j | i < j < r.value :: Missing(s[j])
    ensures r.None? ==> forall j | i < j < |s| :: Missing(s[j])
    decreases |s| - i
  {
    if i + 1 == |s| then None
    else if !Missing(s[i + 1]) then Some(i + 1)
    else NextPresent(s, i + 1)
  }

  /**
   * One cell of `interpolate()` (linear, by position, forward): a present
   * cell stays; a missing cell before the first present one stays missing;
   * one after the last present cell takes that cell's value; one between
   * two finite cells lies on the line through them.
   */
  function FillAt(s: seq<Num>, i: nat): Num
    requires i < |s|
  {
    if !Missing(s[i]) then s[i]
    else match PrevPresent(s, i)
      case None => NaN
      case Some(lo) =>
        match NextPresent(s, i)
        case None => s[lo]
        case Some(hi) =>
          if s[lo].Fin? && s[hi].Fin? then
            Fin(s[lo].v + (s[hi].v - s[lo].v) * ((i - lo) as real / (hi - lo) as real))
          else NaN
  }

  /** `Series.interpolate()`: only missing cells change. */
  function Interpolate(s: seq<Num>): (r: seq<Num>)
    ensures |r| == |s|
    ensures forall i | 0 <= i < |s| && !Missing(s[i]) :: r[i] == s[i]
  {
    seq(|s|, i requires 0 <= i < |s| => FillAt(s, i))
  }

  /** A cell with only missing cells up to it stays missing. */
  lemma InterpolateLeading(s: seq<Num>, i: nat)
    requires i < |s| && forall j | 0 <= j <= i :: Missing(s[j])
    ensures Missing(Interpolate(s)[i])
  {
  }

  /** A column with no present cell is left as it is. */
  lemma InterpolateAllMissing(s: seq<Num>)
    requires forall j | 0 <= j < |s| :: Missing(s[j])
    ensures forall j | 0 <= j < |s| :: Missing(Interpolate(s)[j])
  {
    forall i | 0 <= i < |s|
      ensures Missing(Interpolate(s)[i])
    {
      InterpolateLeading(s, i);
    }
  }

  /** A missing cell after the last present one takes that value. */
  lemma InterpolateTrailing(s: seq<Num>, lo: nat, i: nat)
    requires lo < i < |s| && !Missing(s[lo]) && forall j | lo < j < |s| :: Missing(s[j])
    ensures Interpolate(s)[i] == s[lo]
  {
  }

  /**
   * A missing cell between two finite cells is filled with a finite value
   * between them.
   */
  lemma InterpolateBetween(s: seq<Num>, lo: nat, i: nat, hi: nat)
    requires lo < i < hi < |s| && s[lo].Fin? && s[hi].Fin?
    requires forall j | lo < j < hi :: Missing(s[j])
    ensures Interpolate(s)[i].Fin?
    ensures Min(s[lo].v, s[hi].v) <= Interpolate(s)[i].v <= Max(s[lo].v, s[hi].v)
  {
    var a, b := s[lo].v, s[hi].v;
    var w := (i - lo) as real / (hi - lo) as real;
    FillAtBetween(s, lo, i, hi);
    assert Interpolate(s)[i] == FillAt(s, i);
    FractionInUnit(i - lo, hi - lo);
    LineBetween(a, b, w);
  }

  /** The fill of a missing cell between two finite cells, on the straight line through them. */
  lemma FillAtBetween(s: seq<Num>, lo: nat, i: nat, hi: nat)
    requires lo < i < hi < |s| && s[lo].Fin? && s[hi].Fin?
    requires forall j | lo < j < hi :: Missing(s[j])
    ensures FillAt(s, i) == Fin(s[lo].v + (s[hi].v - s[lo].v) * ((i - lo) as real / (hi - lo) as real))
  {
    assert PrevPresent(s, i) == Some(lo);
    assert NextPresent(s, i) == Some(hi);
  }

  lemma FractionInUnit(p: nat, q: nat)
    requires 0 < p < q
    ensures 0.0 < p as real / q as real < 1.0
  {
  }

  function Min(a: real, b: real): real { if a <= b then a else b }
  function Max(a: real, b: real): real { if a <= b then b else a }

  lemma LineBetween(a: real, b: real, w: real)
    requires 0.0 <= w <= 1.0
    ensures Min(a, b) <= a + (b - a) * w <= Max(a, b)
  {
    if a <= b {
      MulNonNegative(b - a, w);
      MulNonNegative(b - a, 1.0 - w);
    } else {
      MulNonNegative(a - b, w);
      MulNonNegative(a - b, 1.0 - w);
    }
  }

  lemma MulNonNegative(x: real, y: real)
    requires x >= 0.0 && y >= 0.0
    ensures x * y >= 0.0
  {
  }

  /** `DataFrame.interpolate()`, column by column. */
  function InterpolateFrame<K, C>(f: Frame<K, C>): (r: Frame<K, C>)
    requires f.Valid()
    ensures r.Valid() && r.index == f.index && r.cols.Keys == f.cols.Keys
    ensures forall c | c in f.cols :: r.cols[c] == Interpolate(f.cols[c])
  {
    Frame(f.index, map c | c in f.cols :: Interpolate(f.cols[c]))
  }

  method ReplaceInfInPlace<K, C>(df: DataFrame<K, C>)
    requires df.Valid()
    modifies df
    ensures df.Valid() && df.Value() == ReplaceInfFrame(old(df.Value()))
  {
    df.cols := map c | c in df.cols :: ReplaceInfCol(df.cols[c]);
  }

  method InterpolateInPlace<K, C>(df: DataFrame<K, C>)
    requires df.Valid()
    modifies df
    ensures df.Valid() && df.Value() == InterpolateFrame(old(df.Value()))
  {
    df.cols := map c | c in df.cols :: Interpolate(df.cols[c]);
  }

  // ---------------------------------------------------------------------
  // get_date_wise_metrics
  // ---------------------------------------------------------------------

  lemma PivotColumnsInPivot(t: Daily, population: map<string, int>, v: Vaccine.VaccineDaily)
    requires t.Valid() && v.Valid()
    ensures forall j | 0 <= j < |PivotColumns(t)| :: PivotColumns(t)[j] in Pivot(t, population, v).cols
  {
  }

  /** The table after the loop, before the rewrites. */
  function Derived(t: Daily, population: map<string, int>, v: Vaccine.VaccineDaily, lag: nat): Result<Frame<int, Key<string>>>
    requires t.Valid() && v.Valid()
  {
    PivotColumnsInPivot(t, population, v);
    AllDerived(Pivot(t, population, v), PivotColumns(t), lag)
  }

  /** The result of `get_date_wise_metrics`. */
  function DateWiseMetrics(t: Daily, population: map<string, int>, v: Vaccine.VaccineDaily, lag: nat): Result<Frame<int, Key<string>>>
    requires t.Valid() && v.Valid()
  {
    match Derived(t, population, v, lag)
    case Err(e) => Err(e)
    case Ok(g) => Ok(InterpolateFrame(ReplaceInfFrame(g)))
  }

  method GetDateWiseMetrics(t: Daily, population: map<string, int>, v: Vaccine.VaccineDaily, lag: nat)
    returns (r: Result<Frame<int, Key<string>>>)
    requires t.Valid() && v.Valid()
    ensures r == DateWiseMetrics(t, population, v, lag)
  {
    var df := new DataFrame(Pivot(t, population, v));
    PivotColumnsInPivot(t, population, v);
    var outcome := AddDerivedColumns(df, PivotColumns(t), lag);
    if outcome.Fail? {
      return Err(outcome.error);
    }
    ReplaceInfInPlace(df);
    InterpolateInPlace(df);
    return Ok(df.Value());
  }

  // ---------------------------------------------------------------------
  // What the result holds
  // ---------------------------------------------------------------------

  /**
   * The function fails only when some state has a `Confirmed` column but
   * the cases table has no `Deceased` row at all, and it then fails on the
   * first `Deceased` lookup.
   */
  lemma DateWiseOutcome(t: Daily, population: map<string, int>, v: Vaccine.VaccineDaily, lag: nat)
    requires t.Valid() && v.Valid()
    ensures DateWiseMetrics(t, population, v, lag).Err? <==>
      Confirmed in t.statuses && Deceased !in t.statuses && |t.states| > 0
    ensures DateWiseMetrics(t, population, v, lag).Err? ==>
      DateWiseMetrics(t, population, v, lag).error == KeyError("Deceased")
  {
    if Confirmed in t.statuses && Deceased !in t.statuses && |t.states| > 0 {
      DerivedFails(t, population, v, lag);
    } else {
      DerivedSucceeds(t, population, v, lag);
    }
    DerivedError(t, population, v, lag);
  }

  lemma DerivedFails(t: Daily, population: map<string, int>, v: Vaccine.VaccineDaily, lag: nat)
    requires t.Valid() && v.Valid()
    requires Confirmed in t.statuses && Deceased !in t.statuses && |t.states| > 0
    ensures Derived(t, population, v, lag).Err?
  {
    var names := PivotColumns(t);
    PivotColumnsInPivot(t, population, v);
    AllDerivedOutcome(Pivot(t, population, v), names, lag);
    var k := Key(Reported(Confirmed), t.states[0]);
    PivotColumnsCover(t, k);
    var j :| 0 <= j < |names| && names[j] == k;
    assert !IsPivotKey(t, Key(Reported(Deceased), names[j].state));
  }

  lemma DerivedSucceeds(t: Daily, population: map<string, int>, v: Vaccine.VaccineDaily, lag: nat)
    requires t.Valid() && v.Valid()
    requires !(Confirmed in t.statuses && Deceased !in t.statuses && |t.states| > 0)
    ensures Derived(t, population, v, lag).Ok?
  {
    var names := PivotColumns(t);
    PivotColumnsInPivot(t, population, v);
    AllDerivedOutcome(Pivot(t, population, v), names, lag);
  }

  lemma DerivedError(t: Daily, population: map<string, int>, v: Vaccine.VaccineDaily, lag: nat)
    requires t.Valid() && v.Valid()
    ensures Derived(t, population, v, lag).Err? ==> Derived(t, population, v, lag).error == KeyError("Deceased")
  {
    PivotColumnsInPivot(t, population, v);
    AllDerivedError(Pivot(t, population, v), PivotColumns(t), lag);
  }

  /**
   * The columns of the result: the pivot's, plus the four derived metrics
   * of every state when the cases table reports `Confirmed`.
   */
  lemma DerivedKeys(t: Daily, population: map<string, int>, v: Vaccine.VaccineDaily, lag: nat)
    requires t.Valid() && v.Valid() && Derived(t, population, v, lag).Ok?
    ensures forall k :: k in Derived(t, population, v, lag).value.cols <==>
      IsPivotKey(t, k) || (IsDerived(k.metric) && k.state in t.states && Confirmed in t.statuses)
  {
    var pivot := Pivot(t, population, v);
    var names := PivotColumns(t);
    var g := Derived(t, population, v, lag).value;
    PivotColumnsInPivot(t, population, v);
    AllDerivedKeys(pivot, names, lag);
    forall k: Key<string> | IsDerived(k.metric) && k.state in t.states && Confirmed in t.statuses
      ensures k in g.cols
    {
      PivotColumnsCover(t, Key(Reported(Confirmed), k.state));
      AllDerivedColumns(pivot, names, lag, k.state);
    }
  }

  lemma DateWiseKeys(t: Daily, population: map<string, int>, v: Vaccine.VaccineDaily, lag: nat)
    requires t.Valid() && v.Valid() && DateWiseMetrics(t, population, v, lag).Ok?
    ensures forall k :: k in DateWiseMetrics(t, population, v, lag).value.cols <==>
      IsPivotKey(t, k) || (IsDerived(k.metric) && k.state in t.states && Confirmed in t.statuses)
  {
    DerivedKeys(t, population, v, lag);
  }

  /** The loop leaves the pivot's own columns as they were. */
  lemma DerivedKeepsPivot(t: Daily, population: map<string, int>, v: Vaccine.VaccineDaily, lag: nat, k: Key<string>)
    requires t.Valid() && v.Valid() && Derived(t, population, v, lag).Ok? && IsPivotKey(t, k)
    ensures Derived(t, population, v, lag).value.cols[k] == Pivot(t, population, v).cols[k]
  {
    PivotColumnsInPivot(t, population, v);
    AllDerivedKeeps(Pivot(t, population, v), PivotColumns(t), lag, k);
  }

  /**
   * The derived columns of a state before the rewrites, as functions of
   * the pivot's columns for that state.
   */
  lemma DerivedStateColumns(t: Daily, population: map<string, int>, v: Vaccine.VaccineDaily, lag: nat, s: string)
    requires t.Valid() && v.Valid() && Derived(t, population, v, lag).Ok?
    requires s in t.states && Confirmed in t.statuses
    ensures Deceased in t.statuses
    ensures DerivedColumns(Pivot(t, population, v), Derived(t, population, v, lag).value, s, lag)
  {
    var pivot := Pivot(t, population, v);
    PivotColumnsInPivot(t, population, v);
    PivotColumnsCover(t, Key(Reported(Confirmed), s));
    AllDerivedColumns(pivot, PivotColumns(t), lag, s);
  }

  /** The rate column of a state on row `i`, from the deaths and the cases `lag` rows up. */
  lemma DerivedRateAt<K, S>(f: Frame<K, Key<S>>, g: Frame<K, Key<S>>, s: S, lag: nat, i: nat)
    requires f.Valid() && Key(Reported(Confirmed), s) in f.cols && Ready(f, s)
    requires DerivedColumns(f, g, s, lag) && i < |f.index|
    ensures Key(CaseFatalityRate, s) in g.cols && i < |g.cols[Key(CaseFatalityRate, s)]|
    ensures i < lag ==> Missing(g.cols[Key(CaseFatalityRate, s)][i])
    ensures i >= lag ==>
      g.cols[Key(CaseFatalityRate, s)][i] == Div(f.cols[Key(Reported(Deceased), s)][i], f.cols[Key(Reported(Confirmed), s)][i - lag])
  {
    ShiftAt(f.cols[Key(Reported(Confirmed), s)], lag, i);
  }

  /** What the later cell lemmas need of the pivot for state `s`. */
  predicate PivotReady(t: Daily, population: map<string, int>, v: Vaccine.VaccineDaily, s: string)
    requires t.Valid() && v.Valid()
  {
    Key(Reported(Confirmed), s) in Pivot(t, population, v).cols && Ready(Pivot(t, population, v), s)
  }

  lemma PivotReadyFor(t: Daily, population: map<string, int>, v: Vaccine.VaccineDaily, s: string)
    requires t.Valid() && v.Valid() && s in t.states && Confirmed in t.statuses && Deceased in t.statuses
    ensures PivotReady(t, population, v, s)
  {
    var pivot := Pivot(t, population, v);
    assert IsPivotKey(t, Key(Reported(Confirmed), s)) && IsPivotKey(t, Key(Reported(Deceased), s));
    assert IsPivotKey(t, Key(Population, s)) && IsPivotKey(t, Key(Vaccinations, s));
  }

  /** The rate cell of any frame holding the derived columns of state `s` of the pivot. */
  lemma PivotRateCell(t: Daily, population: map<string, int>, v: Vaccine.VaccineDaily, g: Frame<int, Key<string>>, lag: nat, s: string, i: nat)
    requires t.Valid() && v.Valid() && s in t.states && Confirmed in t.statuses && Deceased in t.statuses
    requires i < |SortedDistinct(t.dates)| && PivotReady(t, population, v, s)
    requires DerivedColumns(Pivot(t, population, v), g, s, lag)
    ensures s in t.counts && Key(CaseFatalityRate, s) in g.cols && i < |g.cols[Key(CaseFatalityRate, s)]|
    ensures var cell := g.cols[Key(CaseFatalityRate, s)][i];
      var dates := SortedDistinct(t.dates);
      && (i < lag ==> Missing(cell))
      && (i >= lag ==> cell == Div(OfInt(ReportedOn(t, s, dates[i], Deceased)), OfInt(ReportedOn(t, s, dates[i - lag], Confirmed))))
  {
    DerivedRateAt(Pivot(t, population, v), g, s, lag, i);
    if i >= lag {
      PivotReportedAt(t, population, v, s, Deceased, i);
      PivotReportedAt(t, population, v, s, Confirmed, i - lag);
    }
  }

  /**
   * `case_fatality_rate` on the i-th date is that date's deaths over the
   * confirmed cases `lag` dates earlier; the first `lag` dates have none.
   */
  lemma DerivedCaseFatalityRate(t: Daily, population: map<string, int>, v: Vaccine.VaccineDaily, lag: nat, s: string, i: nat)
    requires t.Valid() && v.Valid() && Derived(t, population, v, lag).Ok?
    requires s in t.states && Confirmed in t.statuses && i < |SortedDistinct(t.dates)|
    ensures s in t.counts && Key(CaseFatalityRate, s) in Derived(t, population, v, lag).value.cols
    ensures var cell := Derived(t, population, v, lag).value.cols[Key(CaseFatalityRate, s)][i];
      var dates := SortedDistinct(t.dates);
      && (i < lag ==> Missing(cell))
      && (i >= lag ==> cell == Div(OfInt(ReportedOn(t, s, dates[i], Deceased)), OfInt(ReportedOn(t, s, dates[i - lag], Confirmed))))
  {
    DerivedStateColumns(t, population, v, lag, s);
    PivotReadyFor(t, population, v, s);
    PivotRateCell(t, population, v, Derived(t, population, v, lag).value, lag, s, i);
  }

  /** The per-million cells of any frame holding the derived columns of state `s` of the pivot. */
  lemma PivotPerMillionCells(t: Daily, population: map<string, int>, v: Vaccine.VaccineDaily, g: Frame<int, Key<string>>, lag: nat, s: string, i: nat)
    requires t.Valid() && v.Valid() && s in t.states && Confirmed in t.statuses && Deceased in t.statuses
    requires i < |SortedDistinct(t.dates)| && PivotReady(t, population, v, s)
    requires DerivedColumns(Pivot(t, population, v), g, s, lag)
    ensures s in t.counts
    ensures Key(CasesPerMillion, s) in g.cols && Key(DeathsPerMillion, s) in g.cols
    ensures i < |g.cols[Key(CasesPerMillion, s)]| && i < |g.cols[Key(DeathsPerMillion, s)]|
    ensures var d := SortedDistinct(t.dates)[i];
      && g.cols[Key(CasesPerMillion, s)][i] == PerMillion(OfInt(ReportedOn(t, s, d, Confirmed)), PopulationOf(population, s))
      && g.cols[Key(DeathsPerMillion, s)][i] == PerMillion(OfInt(ReportedOn(t, s, d, Deceased)), PopulationOf(population, s))
  {
    PivotReportedAt(t, population, v, s, Confirmed, i);
    PivotReportedAt(t, population, v, s, Deceased, i);
    PivotAt(t, population, v, Key(Population, s), i);
  }

  /** `cases_per_million` and `deaths_per_million` on the i-th date. */
  lemma DerivedPerMillion(t: Daily, population: map<string, int>, v: Vaccine.VaccineDaily, lag: nat, s: string, i: nat)
    requires t.Valid() && v.Valid() && Derived(t, population, v, lag).Ok?
    requires s in t.states && Confirmed in t.statuses && i < |SortedDistinct(t.dates)|
    ensures s in t.counts
    ensures Key(CasesPerMillion, s) in Derived(t, population, v, lag).value.cols
    ensures Key(DeathsPerMillion, s) in Derived(t, population, v, lag).value.cols
    ensures var d := SortedDistinct(t.dates)[i];
      var g := Derived(t, population, v, lag).value;
      && g.cols[Key(CasesPerMillion, s)][i] == PerMillion(OfInt(ReportedOn(t, s, d, Confirmed)), PopulationOf(population, s))
      && g.cols[Key(DeathsPerMillion, s)][i] == PerMillion(OfInt(ReportedOn(t, s, d, Deceased)), PopulationOf(population, s))
  {
    DerivedStateColumns(t, population, v, lag, s);
    PivotReadyFor(t, population, v, s);
    PivotPerMillionCells(t, population, v, Derived(t, population, v, lag).value, lag, s, i);
  }

  /** The vaccinated share cell of any frame holding the derived columns of state `s` of the pivot. */
  lemma PivotPctCell(t: Daily, population: map<string, int>, v: Vaccine.VaccineDaily, g: Frame<int, Key<string>>, lag: nat, s: string, i: nat)
    requires t.Valid() && v.Valid() && s in t.states && Confirmed in t.statuses && Deceased in t.statuses
    requires i < |SortedDistinct(t.dates)| && PivotReady(t, population, v, s)
    requires DerivedColumns(Pivot(t, population, v), g, s, lag)
    ensures Key(PctVaccinated, s) in g.cols && i < |g.cols[Key(PctVaccinated, s)]|
    ensures var d := SortedDistinct(t.dates)[i];
      g.cols[Key(PctVaccinated, s)][i] == Div(VaccineCell(v.vaccinations, VaccineRow(v, d, s)), PopulationOf(population, s))
  {
    PivotAt(t, population, v, Key(Vaccinations, s), i);
    PivotAt(t, population, v, Key(Population, s), i);
  }

  /**
   * `pct_vaccinated` on the i-th date: that day's vaccinations (a daily
   * delta of the vaccination table) over the population.
   */
  lemma DerivedPctVaccinated(t: Daily, population: map<string, int>, v: Vaccine.VaccineDaily, lag: nat, s: string, i: nat)
    requires t.Valid() && v.Valid() && Derived(t, population, v, lag).Ok?
    requires s in t.states && Confirmed in t.statuses && i < |SortedDistinct(t.dates)|
    ensures Key(PctVaccinated, s) in Derived(t, population, v, lag).value.cols
    ensures var d := SortedDistinct(t.dates)[i];
      Derived(t, population, v, lag).value.cols[Key(PctVaccinated, s)][i] ==
        Div(VaccineCell(v.vaccinations, VaccineRow(v, d, s)), PopulationOf(population, s))
  {
    DerivedStateColumns(t, population, v, lag, s);
    PivotReadyFor(t, population, v, s);
    PivotPctCell(t, population, v, Derived(t, population, v, lag).value, lag, s, i);
  }

  /**
   * The rewrites change no present value except +inf: a cell that is
   * neither missing nor +inf after the loop is in the result unchanged.
   */
  lemma DateWiseKeepsPresent(t: Daily, population: map<string, int>, v: Vaccine.VaccineDaily, lag: nat, k: Key<string>, i: nat)
    requires t.Valid() && v.Valid() && Derived(t, population, v, lag).Ok?
    requires k in Derived(t, population, v, lag).value.cols && i < |SortedDistinct(t.dates)|
    ensures var x := Derived(t, population, v, lag).value.cols[k][i];
      !Missing(x) && x != PosInf ==> DateWiseMetrics(t, population, v, lag).value.cols[k][i] == x
  {
  }

  /**
   * The first `lag` dates of `case_fatality_rate` stay missing: there is
   * no present value before them to interpolate from.
   */
  lemma DateWiseCaseFatalityLeading(t: Daily, population: map<string, int>, v: Vaccine.VaccineDaily, lag: nat, s: string, i: nat)
    requires t.Valid() && v.Valid() && DateWiseMetrics(t, population, v, lag).Ok?
    requires s in t.states && Confirmed in t.statuses && i < lag && i < |SortedDistinct(t.dates)|
    ensures Key(CaseFatalityRate, s) in DateWiseMetrics(t, population, v, lag).value.cols
    ensures Missing(DateWiseMetrics(t, population, v, lag).value.cols[Key(CaseFatalityRate, s)][i])
  {
    var g := Derived(t, population, v, lag).value;
    DerivedStateColumns(t, population, v, lag, s);
    var cfr := g.cols[Key(CaseFatalityRate, s)];
    forall j | 0 <= j <= i
      ensures Missing(ReplaceInfCol(cfr)[j])
    {
      DerivedCaseFatalityRate(t, population, v, lag, s, j);
    }
    InterpolateLeading(ReplaceInfCol(cfr), i);
  }

  /**
   * A state the population table lacks gets population 0, so its
   * per-million ratios are +inf or 0/0 on every date; after the rewrites
   * they are missing throughout (counts are non-negative after cleaning).
   */
  lemma DateWiseMissingPopulation(t: Daily, population: map<string, int>, v: Vaccine.VaccineDaily, lag: nat, s: string, i: nat)
    requires t.Valid() && v.Valid() && DateWiseMetrics(t, population, v, lag).Ok?
    requires s in t.states && s !in population && Confirmed in t.statuses && i < |SortedDistinct(t.dates)|
    requires forall r | 0 <= r < t.Rows() :: t.counts[s][r] >= 0
    ensures Key(CasesPerMillion, s) in DateWiseMetrics(t, population, v, lag).value.cols
    ensures Key(DeathsPerMillion, s) in DateWiseMetrics(t, population, v, lag).value.cols
    ensures Missing(DateWiseMetrics(t, population, v, lag).value.cols[Key(CasesPerMillion, s)][i])
    ensures Missing(DateWiseMetrics(t, population, v, lag).value.cols[Key(DeathsPerMillion, s)][i])
  {
    var g := Derived(t, population, v, lag).value;
    DerivedStateColumns(t, population, v, lag, s);
    var cases := ReplaceInfCol(g.cols[Key(CasesPerMillion, s)]);
    var deaths := ReplaceInfCol(g.cols[Key(DeathsPerMillion, s)]);
    forall j | 0 <= j < |cases|
      ensures Missing(cases[j]) && Missing(deaths[j])
    {
      var d := SortedDistinct(t.dates)[j];
      DerivedPerMillion(t, population, v, lag, s, j);
      ReportedOnNonNegative(t, s, d, Confirmed);
      ReportedOnNonNegative(t, s, d, Deceased);
      OverZeroPopulation(ReportedOn(t, s, d, Confirmed));
      OverZeroPopulation(ReportedOn(t, s, d, Deceased));
    }
    InterpolateAllMissing(cases);
    InterpolateAllMissing(deaths);
  }

  /** A non-negative count per million of nobody is +inf or 0/0. */
  lemma OverZeroPopulation(n: int)
    requires n >= 0
    ensures Missing(ReplaceInf(PerMillion(OfInt(n), Fin(0.0))))
  {
  }
}
