/**
 * The frame-level steps of `get_state_metrics_df` in state_level.py: the ratio columns,
 * the rank loop and the national row, stated for any frame of the columns
 * the pivot and the merges produce.
 */
module StateFrame {
  import opened Common
  import opened Numeric
  import opened Frames
  import opened Rank

  // ---------------------------------------------------------------------
  // Column labels
  // ---------------------------------------------------------------------

  /**
   * The snapshot's column labels: the pivot's status columns, the joined
   * population and vaccination totals, the four ratios, and the rank
   * column of any of them.
   */
  datatype Col =
    | StatusCol(status: Status)
    | Population
    | SecondDoses
    | Vaccinations
    | CasesPerMillion
    | DeathsPerMillion
    | VaccinationsPerMillion
    | CaseFatalityRate
    | RankOf(metric: Col)

  /** The label pandas gives the column; a rank column is `f"{metric}_rank"`. */
  function Label(c: Col): string
  {
    match c
    case StatusCol(st) => StatusName(st)
    case Population => "population"
    case SecondDoses => "second_doses"
    case Vaccinations => "vaccinations"
    case CasesPerMillion => "cases_per_million"
    case DeathsPerMillion => "deaths_per_million"
    case VaccinationsPerMillion => "vaccinations_per_million"
    case CaseFatalityRate => "case_fatality_rate"
    case RankOf(m) => Label(m) + "_rank"
  }

  /** The columns the pivot and the two merges can produce. */
  predicate IsRaw(c: Col)
  {
    c.StatusCol? || c == Population || c == SecondDoses || c == Vaccinations
  }

  /** The columns the four ratio assignments write. */
  predicate IsRatio(c: Col)
  {
    c == CasesPerMillion || c == DeathsPerMillion || c == VaccinationsPerMillion || c == CaseFatalityRate
  }

  // ---------------------------------------------------------------------
  // Ratios
  // ---------------------------------------------------------------------

  /** The columns the four ratio assignments read. */
  predicate HasCounts<K>(f: Frame<K, Col>)
  {
    StatusCol(Confirmed) in f.cols && StatusCol(Deceased) in f.cols && Population in f.cols && Vaccinations in f.cols
  }

  /**
   * The four ratio assignments: cases, deaths and doses per million of population, and
   * deaths over cases.
   */
  function WithRatios<K>(f: Frame<K, Col>): (r: Frame<K, Col>)
    requires f.Valid() && HasCounts(f)
    ensures r.Valid() && r.index == f.index
    ensures forall c :: c in r.cols <==> c in f.cols || IsRatio(c)
  {
    var confirmed := f.cols[StatusCol(Confirmed)];
    var deceased := f.cols[StatusCol(Deceased)];
    var population := f.cols[Population];
    Frame(f.index, f.cols[CasesPerMillion := PerMillionCol(confirmed, population)]
                         [DeathsPerMillion := PerMillionCol(deceased, population)]
                         [VaccinationsPerMillion := PerMillionCol(f.cols[Vaccinations], population)]
                         [CaseFatalityRate := DivCol(deceased, confirmed)])
  }

  /** The columns that are not ratios are left as they were. */
  lemma WithRatiosKeeps<K>(f: Frame<K, Col>, c: Col)
    requires f.Valid() && HasCounts(f) && c in f.cols && !IsRatio(c)
    ensures WithRatios(f).cols[c] == f.cols[c]
  {
    var confirmed := f.cols[StatusCol(Confirmed)];
    var deceased := f.cols[StatusCol(Deceased)];
    var population := f.cols[Population];
    var m1 := f.cols[CasesPerMillion := PerMillionCol(confirmed, population)];
    var m2 := m1[DeathsPerMillion := PerMillionCol(deceased, population)];
    var m3 := m2[VaccinationsPerMillion := PerMillionCol(f.cols[Vaccinations], population)];
    var m4 := m3[CaseFatalityRate := DivCol(deceased, confirmed)];
    assert m1[c] == f.cols[c];
    assert m2[c] == m1[c];
    assert m3[c] == m2[c];
    assert m4[c] == m3[c];
  }

  /** Row `k` of `r` holds the four ratios of its own counts. */
  predicate OwnRatios<K>(r: Frame<K, Col>, k: nat)
    requires r.Valid() && HasCounts(r) && k < |r.index|
  {
    && CasesPerMillion in r.cols && DeathsPerMillion in r.cols
    && VaccinationsPerMillion in r.cols && CaseFatalityRate in r.cols
    && r.cols[CasesPerMillion][k] == PerMillion(r.cols[StatusCol(Confirmed)][k], r.cols[Population][k])
    && r.cols[DeathsPerMillion][k] == PerMillion(r.cols[StatusCol(Deceased)][k], r.cols[Population][k])
    && r.cols[VaccinationsPerMillion][k] == PerMillion(r.cols[Vaccinations][k], r.cols[Population][k])
    && r.cols[CaseFatalityRate][k] == Div(r.cols[StatusCol(Deceased)][k], r.cols[StatusCol(Confirmed)][k])
  }

  /** After the ratio assignments every row holds the ratios of its own counts. */
  lemma WithRatiosOwn<K>(f: Frame<K, Col>, k: nat)
    requires f.Valid() && HasCounts(f) && k < |f.index|
    ensures OwnRatios(WithRatios(f), k)
  {
    WithRatiosAt(f, k);
    WithRatiosKeeps(f, StatusCol(Confirmed));
    WithRatiosKeeps(f, StatusCol(Deceased));
    WithRatiosKeeps(f, Population);
    WithRatiosKeeps(f, Vaccinations);
  }

  /** Row by row, each ratio of the row's own counts. */
  lemma WithRatiosAt<K>(f: Frame<K, Col>, i: nat)
    requires f.Valid() && HasCounts(f) && i < |f.index|
    ensures var r := WithRatios(f);
      && r.cols[CasesPerMillion][i] == PerMillion(f.cols[StatusCol(Confirmed)][i], f.cols[Population][i])
      && r.cols[DeathsPerMillion][i] == PerMillion(f.cols[StatusCol(Deceased)][i], f.cols[Population][i])
      && r.cols[VaccinationsPerMillion][i] == PerMillion(f.cols[Vaccinations][i], f.cols[Population][i])
      && r.cols[CaseFatalityRate][i] == Div(f.cols[StatusCol(Deceased)][i], f.cols[StatusCol(Confirmed)][i])
  {
    var r := WithRatios(f);
    var confirmed := f.cols[StatusCol(Confirmed)];
    var deceased := f.cols[StatusCol(Deceased)];
    var population := f.cols[Population];
    assert r.cols[CasesPerMillion] == PerMillionCol(confirmed, population);
    assert r.cols[DeathsPerMillion] == PerMillionCol(deceased, population);
    assert r.cols[VaccinationsPerMillion] == PerMillionCol(f.cols[Vaccinations], population);
    assert r.cols[CaseFatalityRate] == DivCol(deceased, confirmed);
  }

  // ---------------------------------------------------------------------
  // Ranks
  // ---------------------------------------------------------------------

  /**
   * The rank loop: for each listed column in turn, its rank column, read
   * from the frame as the earlier iterations left it.
   */
  function WithRanks<K>(f: Frame<K, Col>, names: seq<Col>): (r: Frame<K, Col>)
    requires f.Valid() && forall j | 0 <= j < |names| :: names[j] in f.cols
    ensures r.Valid() && r.index == f.index
    ensures f.cols.Keys <= r.cols.Keys
    ensures forall c | c in r.cols :: c in f.cols || c.RankOf?
  {
    if names == [] then f
    else
      var g := WithRanks(f, names[..|names| - 1]);
      var c := names[|names| - 1];
      Frame(g.index, g.cols[RankOf(c) := RankCol(g.cols[c])])
  }

  /** The loop never overwrites a column that is not a rank column. */
  lemma {:induction false} WithRanksKeeps<K>(f: Frame<K, Col>, names: seq<Col>, c: Col)
    requires f.Valid() && forall j | 0 <= j < |names| :: names[j] in f.cols
    requires c in f.cols && !c.RankOf?
    ensures WithRanks(f, names).cols[c] == f.cols[c]
  {
    if names != [] {
      WithRanksKeeps(f, names[..|names| - 1], c);
    }
  }

  /**
   * When no listed column is itself a rank column, each rank column ranks
   * the column as it stood before the loop.
   */
  lemma {:induction false} WithRanksAt<K>(f: Frame<K, Col>, names: seq<Col>, c: Col)
    requires f.Valid() && forall i | 0 <= i < |names| :: names[i] in f.cols && !names[i].RankOf?
    requires c in names
    ensures RankOf(c) in WithRanks(f, names).cols
    ensures WithRanks(f, names).cols[RankOf(c)] == RankCol(f.cols[c])
  {
    var n := |names| - 1;
    var g := WithRanks(f, names[..n]);
    assert WithRanks(f, names).cols == g.cols[RankOf(names[n]) := RankCol(g.cols[names[n]])];
    WithRanksKeeps(f, names[..n], names[n]);
    if c != names[n] {
      assert c in names[..n] by {
        var j :| 0 <= j < |names| && names[j] == c;
        assert names[..n][j] == c;
      }
      WithRanksAt(f, names[..n], c);
    }
  }

  // ---------------------------------------------------------------------
  // Ratios, ranks and the national row together
  // ---------------------------------------------------------------------

  /**
   * Setting a row and recomputing the ratios leaves the other rows of the
   * columns that are not ratios as they were.
   */
  lemma SetRowRatiosKeeps<K>(f: Frame<K, Col>, key: K, row: map<Col, Num>, c: Col, k: nat)
    requires f.Valid() && HasCounts(f) && f.cols.Keys <= row.Keys
    requires c in f.cols && !IsRatio(c) && k < |f.index| && f.index[k] != key
    ensures c in WithRatios(SetRow(f, key, row)).cols
    ensures WithRatios(SetRow(f, key, row)).cols[c][k] == f.cols[c][k]
  {
    WithRatiosKeeps(SetRow(f, key, row), c);
    SetRowAt(f, key, row, c, k);
  }

  /** A row appended that way holds `row` in the columns that are not ratios. */
  lemma SetRowRatiosNewRow<K>(f: Frame<K, Col>, key: K, row: map<Col, Num>, c: Col)
    requires f.Valid() && HasCounts(f) && f.cols.Keys <= row.Keys
    requires c in f.cols && !IsRatio(c) && key !in f.index
    ensures c in WithRatios(SetRow(f, key, row)).cols
    ensures WithRatios(SetRow(f, key, row)).cols[c][|f.index|] == row[c]
  {
    WithRatiosKeeps(SetRow(f, key, row), c);
    SetRowAppended(f, key, row, c);
  }

  /** Setting a row of column totals leaves the other rows' non-ratio cells as they were. */
  lemma KeptBesideTotals<K>(f: Frame<K, Col>, key: K, c: Col, k: nat)
    requires f.Valid() && HasCounts(f) && c in f.cols && !IsRatio(c)
    requires k < |f.index| && f.index[k] != key
    ensures c in WithRatios(SetRow(f, key, ColumnSums(f))).cols
    ensures WithRatios(SetRow(f, key, ColumnSums(f))).cols[c][k] == f.cols[c][k]
  {
    SetRowRatiosKeeps(f, key, ColumnSums(f), c, k);
  }

  /** A row of column totals appended that way holds each column's total. */
  lemma AppendedTotal<K>(f: Frame<K, Col>, key: K, c: Col)
    requires f.Valid() && HasCounts(f) && c in f.cols && !IsRatio(c) && key !in f.index
    ensures c in WithRatios(SetRow(f, key, ColumnSums(f))).cols
    ensures WithRatios(SetRow(f, key, ColumnSums(f))).cols[c][|f.index|] == Total(f.cols[c])
  {
    SetRowRatiosNewRow(f, key, ColumnSums(f), c);
  }

  /** A frame as the merges leave it: counts to divide, and raw columns only. */
  predicate RawFrame<K>(m: Frame<K, Col>)
  {
    m.Valid() && HasCounts(m) && forall c | c in m.cols :: IsRaw(c)
  }

  /** The loop's columns exist once the ratios are added, and are not ranks. */
  predicate RankableAfterRatios<K>(m: Frame<K, Col>, names: seq<Col>)
    requires RawFrame(m)
  {
    forall j | 0 <= j < |names| :: names[j] in WithRatios(m).cols && !names[j].RankOf?
  }

  /** The frame after the rank loop. */
  function Ranked<K>(m: Frame<K, Col>, names: seq<Col>): (r: Frame<K, Col>)
    requires RawFrame(m) && RankableAfterRatios(m, names)
    ensures r.Valid() && HasCounts(r) && r.index == m.index
  {
    WithRanks(WithRatios(m), names)
  }

  /**
   * The national row: the row `key` set to the column sums of the ranked frame,
   * then the ratios computed again.
   */
  function Closed<K(==)>(m: Frame<K, Col>, names: seq<Col>, key: K): (r: Frame<K, Col>)
    requires RawFrame(m) && RankableAfterRatios(m, names)
    ensures r.Valid() && HasCounts(r)
  {
    var ranked := Ranked(m, names);
    WithRatios(SetRow(ranked, key, ColumnSums(ranked)))
  }

  /** A new key is appended after the existing rows; an existing one stays in place. */
  lemma ClosedRows<K>(m: Frame<K, Col>, names: seq<Col>, key: K)
    requires RawFrame(m) && RankableAfterRatios(m, names)
    ensures Closed(m, names, key).index == if key in m.index then m.index else m.index + [key]
  {
  }

  /** On every other row, the raw columns are those of the merged frame. */
  lemma ClosedKeepsRaw<K>(m: Frame<K, Col>, names: seq<Col>, key: K, c: Col, k: nat)
    requires RawFrame(m) && RankableAfterRatios(m, names)
    requires c in m.cols && k < |m.index| && m.index[k] != key
    ensures c in Closed(m, names, key).cols
    ensures Closed(m, names, key).cols[c][k] == m.cols[c][k]
  {
    var w := WithRatios(m);
    var ranked := WithRanks(w, names);
    WithRatiosKeeps(m, c);
    WithRanksKeeps(w, names, c);
    SetRowRatiosKeeps(ranked, key, ColumnSums(ranked), c, k);
  }

  /** Every row of the result, `key`'s included, holds the ratios of its own counts. */
  lemma ClosedRatios<K>(m: Frame<K, Col>, names: seq<Col>, key: K, k: nat)
    requires RawFrame(m) && RankableAfterRatios(m, names)
    requires k < |Closed(m, names, key).index|
    ensures OwnRatios(Closed(m, names, key), k)
  {
    var ranked := Ranked(m, names);
    var s := SetRow(ranked, key, ColumnSums(ranked));
    assert Closed(m, names, key) == WithRatios(s);
    WithRatiosOwn(s, k);
  }

  /**
   * Recomputing the ratios leaves every other row's ratios as the first
   * computation made them.
   */
  lemma ClosedRatiosStable<K>(m: Frame<K, Col>, names: seq<Col>, key: K, k: nat, c: Col)
    requires RawFrame(m) && RankableAfterRatios(m, names)
    requires k < |m.index| && m.index[k] != key && IsRatio(c)
    ensures c in Closed(m, names, key).cols
    ensures Closed(m, names, key).cols[c][k] == WithRatios(m).cols[c][k]
  {
    ClosedRatios(m, names, key, k);
    WithRatiosAt(m, k);
    ClosedKeepsRaw(m, names, key, StatusCol(Confirmed), k);
    ClosedKeepsRaw(m, names, key, StatusCol(Deceased), k);
    ClosedKeepsRaw(m, names, key, Population, k);
    ClosedKeepsRaw(m, names, key, Vaccinations, k);
  }

  /**
   * On every other row, each rank column ranks its column as it stood
   * before the row `key` was set.
   */
  lemma ClosedRanks<K>(m: Frame<K, Col>, names: seq<Col>, key: K, c: Col, k: nat)
    requires RawFrame(m) && RankableAfterRatios(m, names)
    requires c in names && k < |m.index| && m.index[k] != key
    ensures c in WithRatios(m).cols && RankOf(c) in Closed(m, names, key).cols
    ensures Closed(m, names, key).cols[RankOf(c)][k] == RankCol(WithRatios(m).cols[c])[k]
  {
    var w := WithRatios(m);
    var ranked := WithRanks(w, names);
    WithRanksAt(w, names, c);
    KeptBesideTotals(ranked, key, RankOf(c), k);
  }

  /**
   * A new row `key` holds the column totals of the merged frame, its ratios
   * are ratios of those totals (not totals of the rows' ratios), and its
   * rank cells are the totals of the rank columns.
   */
  lemma ClosedKeyRow<K>(m: Frame<K, Col>, names: seq<Col>, key: K)
    requires RawFrame(m) && RankableAfterRatios(m, names) && key !in m.index
    ensures var r := Closed(m, names, key);
      var n := |m.index|;
      && n < |r.index| && r.index[n] == key
      && (forall c | c in m.cols :: c in r.cols && r.cols[c][n] == Total(m.cols[c]))
      && r.cols[CasesPerMillion][n] == PerMillion(Total(m.cols[StatusCol(Confirmed)]), Total(m.cols[Population]))
      && r.cols[DeathsPerMillion][n] == PerMillion(Total(m.cols[StatusCol(Deceased)]), Total(m.cols[Population]))
      && r.cols[VaccinationsPerMillion][n] == PerMillion(Total(m.cols[Vaccinations]), Total(m.cols[Population]))
      && r.cols[CaseFatalityRate][n] == Div(Total(m.cols[StatusCol(Deceased)]), Total(m.cols[StatusCol(Confirmed)]))
  {
    var n := |m.index|;
    forall c | c in m.cols
      ensures c in Closed(m, names, key).cols && Closed(m, names, key).cols[c][n] == Total(m.cols[c])
    {
      ClosedKeyRowRaw(m, names, key, c);
    }
    ClosedRatios(m, names, key, n);
  }

  /** One raw cell of the new row. */
  lemma ClosedKeyRowRaw<K>(m: Frame<K, Col>, names: seq<Col>, key: K, c: Col)
    requires RawFrame(m) && RankableAfterRatios(m, names) && key !in m.index && c in m.cols
    ensures c in Closed(m, names, key).cols
    ensures Closed(m, names, key).cols[c][|m.index|] == Total(m.cols[c])
  {
    var w := WithRatios(m);
    var ranked := WithRanks(w, names);
    WithRatiosKeeps(m, c);
    WithRanksKeeps(w, names, c);
    SetRowRatiosNewRow(ranked, key, ColumnSums(ranked), c);
  }

  /** The new row's rank cells add up the ranks of the other rows. */
  lemma ClosedKeyRowRanks<K>(m: Frame<K, Col>, names: seq<Col>, key: K, c: Col)
    requires RawFrame(m) && RankableAfterRatios(m, names) && key !in m.index && c in names
    ensures c in WithRatios(m).cols && RankOf(c) in Closed(m, names, key).cols
    ensures |m.index| < |Closed(m, names, key).index|
    ensures Closed(m, names, key).cols[RankOf(c)][|m.index|] == Total(RankCol(WithRatios(m).cols[c]))
  {
    var w := WithRatios(m);
    var ranked := WithRanks(w, names);
    WithRanksAt(w, names, c);
    AppendedTotal(ranked, key, RankOf(c));
  }

  // ---------------------------------------------------------------------
  // The same steps on a frame in place
  // ---------------------------------------------------------------------

  /** The four ratio columns, assigned in turn (before and after the national row). */
  method AddRatios<K>(df: DataFrame<K, Col>)
    requires df.Valid() && HasCounts(df.Value())
    modifies df
    ensures df.Valid()
    ensures df.Value() == WithRatios(old(df.Value()))
  {
    df.SetColumn(CasesPerMillion, PerMillionCol(df.cols[StatusCol(Confirmed)], df.cols[Population]));
    df.SetColumn(DeathsPerMillion, PerMillionCol(df.cols[StatusCol(Deceased)], df.cols[Population]));
    df.SetColumn(VaccinationsPerMillion, PerMillionCol(df.cols[Vaccinations], df.cols[Population]));
    df.SetColumn(CaseFatalityRate, DivCol(df.cols[StatusCol(Deceased)], df.cols[StatusCol(Confirmed)]));
  }

  /** The rank loop: a rank column for each column the loop starts with, in turn. */
  method AddRanks<K>(df: DataFrame<K, Col>, names: seq<Col>)
    requires df.Valid() && forall j | 0 <= j < |names| :: names[j] in df.cols
    modifies df
    ensures df.Valid()
    ensures df.Value() == WithRanks(old(df.Value()), names)
  {
    ghost var before := df.Value();
    for i := 0 to |names|
      invariant df.Valid() && df.Value() == WithRanks(before, names[..i])
    {
      var c := names[i];
      assert names[..i + 1][..i] == names[..i];
      df.SetColumn(RankOf(c), RankCol(df.cols[c]));
    }
    assert names[..|names|] == names;
  }

  /** Ratios, ranks and the national row, on a frame in place. */
  method Close<K(==)>(df: DataFrame<K, Col>, names: seq<Col>, key: K)
    requires df.Valid() && RawFrame(df.Value()) && RankableAfterRatios(df.Value(), names)
    modifies df
    ensures df.Valid()
    ensures df.Value() == Closed(old(df.Value()), names, key)
  {
    AddRatios(df);
    AddRanks(df, names);
    LocSet(df, key, ColumnSums(df.Value()));
    AddRatios(df);
  }
}
