/**
 * vaccine.py: the per-state daily vaccination deltas computed from the
 * cumulative totals of the vaccination report, and the per-state totals
 * of those deltas.
 */
module Vaccine {
  import opened Common
  import opened Numeric
  import opened Seqs
  import opened Frames

  // ---------------------------------------------------------------------
  // add_daily_vaccinations
  // ---------------------------------------------------------------------

  /** `Series.diff()`: each value minus the one before it; the first row has none. */
  function Diff(s: seq<Num>): (r: seq<Num>)
    ensures |r| == |s|
    ensures |s| > 0 ==> r[0] == NaN
    ensures forall i | 0 < i < |s| :: r[i] == Sub(s[i], s[i - 1])
  {
    seq(|s|, i requires 0 <= i < |s| => if i == 0 then NaN else Sub(s[i], s[i - 1]))
  }

  /**
   * On a column of finite running totals, the differences after the first
   * row add up to the last total minus the first.
   */
  lemma DiffTelescopes(s: seq<Num>, k: nat)
    requires k < |s| && forall i | 0 <= i < |s| :: s[i].Fin?
    ensures Total(Diff(s)[1..k + 1]) == Fin(s[k].v - s[0].v)
  {
    var d := Diff(s)[1..k + 1];
    var x := seq(k + 1, i requires 0 <= i < k + 1 => s[i].v);
    forall i | 0 <= i < k
      ensures d[i] == Fin(x[i + 1] - x[i])
    {
      assert d[i] == Sub(s[i + 1], s[i]);
    }
    FinSumTelescopes(d, x);
    TotalOfFinite(d);
  }

  /**
   * Finite cells that are the successive differences of `x` sum to its
   * last value minus its first.
   */
  lemma {:induction false} FinSumTelescopes(d: seq<Num>, x: seq<real>)
    requires |x| == |d| + 1
    requires forall i | 0 <= i < |d| :: d[i] == Fin(x[i + 1] - x[i])
    ensures forall i | 0 <= i < |d| :: d[i].Fin?
    ensures FinSum(d) == x[|d|] - x[0]
  {
    if d != [] {
      var n := |d| - 1;
      FinSumTelescopes(d[..n], x[..n + 1]);
      assert d[n] == Fin(x[n + 1] - x[n]);
      assert FinSum(d) == FinSum(d[..n]) + d[n].v;
    }
  }

  /**
   * `add_daily_vaccinations(state_df)` on one state's rows: the daily doses
   * and second doses are the first differences of the cumulative columns.
   * A missing column raises KeyError, the second one after `vaccinations`
   * has been written.
   */
  method AddDailyVaccinations<K>(df: DataFrame<K, string>) returns (outcome: Outcome)
    requires df.Valid()
    modifies df
    ensures df.Valid()
    ensures outcome.Pass? <==>
      "Total Doses Administered" in old(df.cols) && "Second Dose Administered" in old(df.cols)
    ensures "Total Doses Administered" !in old(df.cols) ==>
      outcome == Fail(KeyError("Total Doses Administered")) && df.Value() == old(df.Value())
    ensures "Total Doses Administered" in old(df.cols) && "Second Dose Administered" !in old(df.cols) ==>
      && outcome == Fail(KeyError("Second Dose Administered"))
      && df.Value() == old(df.Value()).Assign("vaccinations", Diff(old(df.cols["Total Doses Administered"])))
    ensures outcome.Pass? ==>
      df.Value() == old(df.Value())
        .Assign("vaccinations", Diff(old(df.cols["Total Doses Administered"])))
        .Assign("second_doses", Diff(old(df.cols["Second Dose Administered"])))
  {
    if "Total Doses Administered" !in df.cols {
      return Fail(KeyError("Total Doses Administered"));
    }
    df.SetColumn("vaccinations", Diff(df.cols["Total Doses Administered"]));
    if "Second Dose Administered" !in df.cols {
      return Fail(KeyError("Second Dose Administered"));
    }
    df.SetColumn("second_doses", Diff(df.cols["Second Dose Administered"]));
    return Pass;
  }

  // ---------------------------------------------------------------------
  // The module-level table: group by state, diff, project, dropna
  // ---------------------------------------------------------------------

  /** The columns of the vaccination report that are read, one row per report. */
  datatype VaccineCsv = VaccineCsv(
    updatedOn: seq<int>,
    state: seq<string>,
    totalDoses: seq<Num>,
    secondDoses: seq<Num>)
  {
    predicate Valid()
    {
      |state| == |updatedOn| && |totalDoses| == |updatedOn| && |secondDoses| == |updatedOn|
    }
  }

  /** The last position of `x` in `s`, if any. */
  function LastIndexOf<T(==)>(s: seq<T>, x: T): (r: Option<nat>)
    ensures r.Some? ==> r.value < |s| && s[r.value] == x && forall j | r.value < j < |s| :: s[j] != x
    ensures r.None? <==> x !in s
  {
    if s == [] then None
    else if s[|s| - 1] == x then Some(|s| - 1)
    else LastIndexOf(s[..|s| - 1], x)
  }

  /** The first position of `x` in `s`, if any. */
  function FirstIndexOf<T(==)>(s: seq<T>, x: T): (r: Option<nat>)
    ensures r.Some? ==> r.value < |s| && s[r.value] == x && forall j | 0 <= j < r.value :: s[j] != x
    ensures r.None? <==> x !in s
  {
    if s == [] then None
    else
      match FirstIndexOf(s[..|s| - 1], x)
      case Some(i) => Some(i)
      case None => if s[|s| - 1] == x then Some(|s| - 1) else None
  }

  /** The report before report i of the same state, if any. */
  function PreviousReport<K(==)>(keys: seq<K>, i: nat): Option<nat>
    requires i < |keys|
  {
    LastIndexOf(keys[..i], keys[i])
  }

  /** Report i's difference from the previous report of its state; none for a state's first report. */
  function GroupDelta<K(==)>(keys: seq<K>, values: seq<Num>, i: nat): Num
    requires i < |keys| == |values|
  {
    match PreviousReport(keys, i)
    case None => NaN
    case Some(j) => Sub(values[i], values[j])
  }

  /**
   * `groupby(keys).apply(...)` of a `diff`, read row by row. The rows keep
   * their order.
   */
  function GroupDiff<K(==)>(keys: seq<K>, values: seq<Num>): (r: seq<Num>)
    requires |keys| == |values|
    ensures |r| == |values|
    ensures forall i | 0 <= i < |values| :: r[i] == GroupDelta(keys, values, i)
  {
    seq(|values|, i requires 0 <= i < |values| => GroupDelta(keys, values, i))
  }

  /**
   * The row-wise reading is the per-group one: restricted to the rows of
   * one state, the grouped difference is the plain `diff` of that state's
   * rows, so no difference spans two states.
   */
  lemma GroupDiffPerGroup<K>(keys: seq<K>, values: seq<Num>, x: K)
    requires |keys| == |values|
    ensures Select(GroupDiff(keys, values), Positions(keys, x)) == Diff(Select(values, Positions(keys, x)))
  {
    var p := Positions(keys, x);
    var g := GroupDiff(keys, values);
    var sel := Select(values, p);
    var lhs := Select(g, p);
    var rhs := Diff(sel);
    forall k | 0 <= k < |p|
      ensures lhs[k] == rhs[k]
    {
      PreviousInGroup(keys, x, k);
      assert lhs[k] == g[p[k]];
      if k == 0 {
        assert rhs[k] == NaN;
      } else {
        assert rhs[k] == Sub(sel[k], sel[k - 1]);
        assert sel[k] == values[p[k]] && sel[k - 1] == values[p[k - 1]];
      }
    }
  }

  /**
   * Within the rows of one state, the previous row of the same state is the
   * state's previous row; its first row has none.
   */
  lemma PreviousInGroup<K>(keys: seq<K>, x: K, k: nat)
    requires k < |Positions(keys, x)|
    ensures keys[Positions(keys, x)[k]] == x
    ensures PreviousReport(keys, Positions(keys, x)[k]) ==
      if k == 0 then None else Some(Positions(keys, x)[k - 1])
  {
    var p := Positions(keys, x);
    PositionsGap(keys, x, k);
    var before := keys[..p[k]];
    if k == 0 {
      assert x !in before;
    } else {
      PositionsGap(keys, x, k - 1);
      assert before[p[k - 1]] == x;
    }
  }

  /** The daily table: columns Date, state, vaccinations, second_doses. */
  datatype VaccineDaily = VaccineDaily(
    dates: seq<int>,
    states: seq<string>,
    vaccinations: seq<Num>,
    secondDoses: seq<Num>)
  {
    predicate Valid()
    {
      |states| == |dates| && |vaccinations| == |dates| && |secondDoses| == |dates|
    }
  }

  /** A row survives `dropna` when neither delta is missing. */
  function Complete(a: seq<Num>, b: seq<Num>): (r: seq<bool>)
    requires |a| == |b|
    ensures |r| == |a|
  {
    seq(|a|, i requires 0 <= i < |a| => !Missing(a[i]) && !Missing(b[i]))
  }

  /** The rows of the report that reach the daily table. */
  function KeptRows(raw: VaccineCsv): seq<nat>
    requires raw.Valid()
  {
    Positions(Complete(GroupDiff(raw.state, raw.totalDoses), GroupDiff(raw.state, raw.secondDoses)), true)
  }

  /**
   * The daily vaccinations table: the deltas per state, the four columns kept
   * and renamed, then every row with a missing value dropped.
   */
  function DailyVaccinations(raw: VaccineCsv): (r: VaccineDaily)
    requires raw.Valid()
    ensures r.Valid()
  {
    var vaccinations := GroupDiff(raw.state, raw.totalDoses);
    var secondDoses := GroupDiff(raw.state, raw.secondDoses);
    var keep := Complete(vaccinations, secondDoses);
    KeepWhereIsSelect(raw.updatedOn, keep, true);
    KeepWhereIsSelect(raw.state, keep, true);
    KeepWhereIsSelect(vaccinations, keep, true);
    KeepWhereIsSelect(secondDoses, keep, true);
    VaccineDaily(
      KeepWhere(raw.updatedOn, keep, true),
      KeepWhere(raw.state, keep, true),
      KeepWhere(vaccinations, keep, true),
      KeepWhere(secondDoses, keep, true))
  }

  /**
   * The daily table holds, in report order, exactly the report rows whose
   * two deltas exist, and none of its cells is missing.
   */
  lemma DailyVaccinationsRows(raw: VaccineCsv)
    requires raw.Valid()
    ensures forall k | 0 <= k < |KeptRows(raw)| :: KeptRows(raw)[k] < |raw.updatedOn|
    ensures forall i :: i in KeptRows(raw) <==>
      && 0 <= i < |raw.updatedOn|
      && !Missing(GroupDiff(raw.state, raw.totalDoses)[i])
      && !Missing(GroupDiff(raw.state, raw.secondDoses)[i])
    ensures DailyVaccinations(raw).dates == Select(raw.updatedOn, KeptRows(raw))
    ensures DailyVaccinations(raw).states == Select(raw.state, KeptRows(raw))
    ensures DailyVaccinations(raw).vaccinations == Select(GroupDiff(raw.state, raw.totalDoses), KeptRows(raw))
    ensures DailyVaccinations(raw).secondDoses == Select(GroupDiff(raw.state, raw.secondDoses), KeptRows(raw))
    ensures forall k | 0 <= k < |DailyVaccinations(raw).dates| ::
      !Missing(DailyVaccinations(raw).vaccinations[k]) && !Missing(DailyVaccinations(raw).secondDoses[k])
  {
    var vaccinations := GroupDiff(raw.state, raw.totalDoses);
    var secondDoses := GroupDiff(raw.state, raw.secondDoses);
    var keep := Complete(vaccinations, secondDoses);
    PositionsSpec(keep, true);
    KeepWhereIsSelect(raw.updatedOn, keep, true);
    KeepWhereIsSelect(raw.state, keep, true);
    KeepWhereIsSelect(vaccinations, keep, true);
    KeepWhereIsSelect(secondDoses, keep, true);
  }

  /** Each state's first report has no delta and is dropped. */
  lemma FirstReportDropped(raw: VaccineCsv, i: nat)
    requires raw.Valid() && i < |raw.updatedOn|
    requires raw.state[i] !in raw.state[..i]
    ensures i !in KeptRows(raw)
  {
    DailyVaccinationsRows(raw);
  }

  // ---------------------------------------------------------------------
  // get_state_vaccine_totals_df
  // ---------------------------------------------------------------------

  datatype Totals = Totals(vaccinations: Num, secondDoses: Num)

  /**
   * `get_state_vaccine_totals_df(vaccine_df)`: per state of the daily
   * table, the sums of its deltas.
   */
  function StateVaccineTotals(v: VaccineDaily): (r: map<string, Totals>)
    requires v.Valid()
    ensures r.Keys == set s | s in v.states
  {
    map s | s in v.states ::
      Totals(Total(KeepWhere(v.vaccinations, v.states, s)), Total(KeepWhere(v.secondDoses, v.states, s)))
  }

  /**
   * The sum, over the rows of state `x` that survive `dropna`, of the
   * grouped differences of `a`, when `b` is the other delta column.
   */
  function DeltaTotal<K(==)>(keys: seq<K>, a: seq<Num>, b: seq<Num>, x: K): Num
    requires |keys| == |a| == |b|
  {
    var da := GroupDiff(keys, a);
    Total(KeepWhere(da, Both(Complete(da, GroupDiff(keys, b)), keys, x), true))
  }

  /** The grouped difference of a prefix of the report is the prefix of the grouped difference. */
  lemma GroupDiffPrefix<K>(keys: seq<K>, values: seq<Num>, m: nat)
    requires |keys| == |values| && m <= |keys|
    ensures GroupDiff(keys, values)[..m] == GroupDiff(keys[..m], values[..m])
  {
    forall i | 0 <= i < m
      ensures keys[..m][..i] == keys[..i]
    {
    }
  }

  /** The total for `x` over one report more: the last report's delta counts when it is kept and is `x`'s. */
  lemma DeltaTotalStep<K>(keys: seq<K>, a: seq<Num>, b: seq<Num>, x: K)
    requires |keys| == |a| == |b| > 0
    ensures var n := |keys| - 1;
      var da := GroupDiff(keys, a);
      var keep := Complete(da, GroupDiff(keys, b));
      DeltaTotal(keys, a, b, x) ==
        if keep[n] && keys[n] == x then Add(DeltaTotal(keys[..n], a[..n], b[..n], x), da[n])
        else DeltaTotal(keys[..n], a[..n], b[..n], x)
  {
    var n := |keys| - 1;
    var da := GroupDiff(keys, a);
    var db := GroupDiff(keys, b);
    var mask := Both(Complete(da, db), keys, x);
    GroupDiffPrefix(keys, a, n);
    GroupDiffPrefix(keys, b, n);
    assert mask[..n] == Both(Complete(GroupDiff(keys[..n], a[..n]), GroupDiff(keys[..n], b[..n])), keys[..n], x);
    KeepWhereLast(da, mask, true);
    var prefix := KeepWhere(da[..n], mask[..n], true);
    if mask[n] {
      var whole := prefix + [da[n]];
      assert whole[..|whole| - 1] == prefix;
    } else {
      assert prefix + [] == prefix;
    }
  }

  /**
   * The last report's delta: missing when it is its state's first report,
   * and otherwise, for finite totals, the difference from the state's
   * previous report, with the report kept.
   */
  lemma LastDelta<K>(keys: seq<K>, a: seq<Num>, b: seq<Num>)
    requires |keys| == |a| == |b| > 0
    requires forall i | 0 <= i < |keys| && keys[i] == keys[|keys| - 1] :: a[i].Fin? && b[i].Fin?
    ensures var n := |keys| - 1;
      PreviousReport(keys, n).None? ==> !Complete(GroupDiff(keys, a), GroupDiff(keys, b))[n]
    ensures var n := |keys| - 1;
      PreviousReport(keys, n).Some? ==>
        && Complete(GroupDiff(keys, a), GroupDiff(keys, b))[n]
        && GroupDiff(keys, a)[n] == Fin(a[n].v - a[PreviousReport(keys, n).value].v)
  {
    var n := |keys| - 1;
    if PreviousReport(keys, n).Some? {
      var j := PreviousReport(keys, n).value;
      assert keys[j] == keys[n];
    }
  }

  /**
   * When every report of state `x` carries both cumulative totals, only its
   * first report is dropped and its deltas telescope: they add up to the
   * last cumulative total minus the first.
   */
  lemma {:induction false} DeltaTotalTelescopes<K>(keys: seq<K>, a: seq<Num>, b: seq<Num>, x: K)
    requires |keys| == |a| == |b|
    requires forall i | 0 <= i < |keys| && keys[i] == x :: a[i].Fin? && b[i].Fin?
    ensures x !in keys ==> DeltaTotal(keys, a, b, x) == Fin(0.0)
    ensures x in keys ==>
      DeltaTotal(keys, a, b, x) == Fin(a[LastIndexOf(keys, x).value].v - a[FirstIndexOf(keys, x).value].v)
  {
    if keys != [] {
      var n := |keys| - 1;
      var keys', a', b' := keys[..n], a[..n], b[..n];
      DeltaTotalTelescopes(keys', a', b', x);
      DeltaTotalStep(keys, a, b, x);
      if keys[n] != x {
        assert LastIndexOf(keys, x) == LastIndexOf(keys', x);
      } else {
        LastDelta(keys, a, b);
        if PreviousReport(keys, n).None? {
          assert x !in keys';
          assert FirstIndexOf(keys, x) == Some(n);
        } else {
          var j := PreviousReport(keys, n).value;
          assert x in keys';
          var f := FirstIndexOf(keys', x).value;
          assert FirstIndexOf(keys, x) == Some(f);
          assert LastIndexOf(keys', x) == Some(j);
          var before, step := a[j].v - a[f].v, a[n].v - a[j].v;
          assert DeltaTotal(keys, a, b, x) == Add(Fin(before), Fin(step));
        }
      }
    }
  }

  /**
   * So the state totals of the daily table, for a state whose reports all
   * carry both cumulative totals: doses administered after the first
   * report, last cumulative minus first, for both columns.
   */
  lemma StateTotalsTelescope(raw: VaccineCsv, x: string)
    requires raw.Valid() && x in raw.state
    requires forall i | 0 <= i < |raw.state| && raw.state[i] == x ::
      raw.totalDoses[i].Fin? && raw.secondDoses[i].Fin?
    ensures var v := DailyVaccinations(raw);
      && Total(KeepWhere(v.vaccinations, v.states, x)) ==
         Fin(raw.totalDoses[LastIndexOf(raw.state, x).value].v - raw.totalDoses[FirstIndexOf(raw.state, x).value].v)
      && Total(KeepWhere(v.secondDoses, v.states, x)) ==
         Fin(raw.secondDoses[LastIndexOf(raw.state, x).value].v - raw.secondDoses[FirstIndexOf(raw.state, x).value].v)
  {
    var da := GroupDiff(raw.state, raw.totalDoses);
    var db := GroupDiff(raw.state, raw.secondDoses);
    assert Complete(da, db) == Complete(db, da);
    KeepWhereCompose(da, raw.state, Complete(da, db), x);
    KeepWhereCompose(db, raw.state, Complete(da, db), x);
    DeltaTotalTelescopes(raw.state, raw.totalDoses, raw.secondDoses, x);
    DeltaTotalTelescopes(raw.state, raw.secondDoses, raw.totalDoses, x);
  }
}
