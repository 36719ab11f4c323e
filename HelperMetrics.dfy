/**
 * The helpers of helper.py that add columns to a frame in place, and the
 * one that rewrites the map's GeoJSON features.
 */
module HelperMetrics {
  import opened Common
  import opened Numeric
  import opened Frames
  import Helper

  // ---------------------------------------------------------------------
  // add_derived_metrics
  // ---------------------------------------------------------------------

  /** The columns `add_derived_metrics` writes. */
  predicate IsDerived(c: string)
  {
    c == "cases_per_million" || c == "deaths_per_million" || c == "pct_vaccinated" || c == "case_fatality_rate"
  }

  /**
   * `add_derived_metrics(df)` on the frame's value, statement by
   * statement: the frame it leaves and whether it raised. A column read
   * that is missing raises KeyError, after the columns of the earlier
   * statements have been written. The case-fatality denominator is
   * `Confirmed` shifted `lag` rows down (`avg_days_to_death`).
   */
  function DerivedMetrics<K>(f: Frame<K, string>, lag: nat): (r: (Frame<K, string>, Outcome))
    requires f.Valid()
    ensures r.0.Valid() && r.0.index == f.index
  {
    if "Confirmed" !in f.cols then (f, Fail(KeyError("Confirmed")))
    else if "population" !in f.cols then (f, Fail(KeyError("population")))
    else
      var confirmed := f.cols["Confirmed"];
      var population := f.cols["population"];
      var f1 := f.Assign("cases_per_million", PerMillionCol(confirmed, population));
      if "Deceased" !in f1.cols then (f1, Fail(KeyError("Deceased")))
      else
        var deceased := f1.cols["Deceased"];
        var f2 := f1.Assign("deaths_per_million", PerMillionCol(deceased, population));
        if "vaccinations" !in f2.cols then (f2, Fail(KeyError("vaccinations")))
        else
          var f3 := f2.Assign("pct_vaccinated", DivCol(f2.cols["vaccinations"], population));
          var f4 := f3.Assign("case_fatality_rate", DivCol(deceased, Shift(confirmed, lag)));
          (f4, Pass)
  }

  /**
   * `add_derived_metrics` succeeds exactly when the four columns it reads
   * exist; a missing `Confirmed` or `population` raises before anything is
   * written, and a later failure leaves at most the first two ratios.
   */
  lemma DerivedMetricsOutcome<K>(f: Frame<K, string>, lag: nat)
    requires f.Valid()
    ensures DerivedMetrics(f, lag).1.Pass? <==>
      "Confirmed" in f.cols && "population" in f.cols && "Deceased" in f.cols && "vaccinations" in f.cols
    ensures "Confirmed" !in f.cols ==> DerivedMetrics(f, lag) == (f, Fail(KeyError("Confirmed")))
    ensures "Confirmed" in f.cols && "population" !in f.cols ==> DerivedMetrics(f, lag) == (f, Fail(KeyError("population")))
    ensures DerivedMetrics(f, lag).1.Fail? ==>
      DerivedMetrics(f, lag).0.cols.Keys <= f.cols.Keys + {"cases_per_million", "deaths_per_million"}
  {
  }

  /** Columns other than the four it writes are left as they were. */
  lemma DerivedMetricsKeepsOthers<K>(f: Frame<K, string>, lag: nat)
    requires f.Valid()
    ensures forall c | c in f.cols && !IsDerived(c) ::
      c in DerivedMetrics(f, lag).0.cols && DerivedMetrics(f, lag).0.cols[c] == f.cols[c]
  {
  }

  /**
   * On success the four ratios are added, column for column: cases and
   * deaths per million of population, the share vaccinated, and deaths
   * over the confirmed count `lag` rows earlier.
   */
  lemma DerivedMetricsColumns<K>(f: Frame<K, string>, lag: nat)
    requires f.Valid()
    requires "Confirmed" in f.cols && "population" in f.cols && "Deceased" in f.cols && "vaccinations" in f.cols
    ensures forall c :: c in DerivedMetrics(f, lag).0.cols <==> c in f.cols || IsDerived(c)
    ensures DerivedMetrics(f, lag).0.cols["cases_per_million"] == PerMillionCol(f.cols["Confirmed"], f.cols["population"])
    ensures DerivedMetrics(f, lag).0.cols["deaths_per_million"] == PerMillionCol(f.cols["Deceased"], f.cols["population"])
    ensures DerivedMetrics(f, lag).0.cols["pct_vaccinated"] == DivCol(f.cols["vaccinations"], f.cols["population"])
    ensures DerivedMetrics(f, lag).0.cols["case_fatality_rate"] == DivCol(f.cols["Deceased"], Shift(f.cols["Confirmed"], lag))
  {
  }

  /**
   * Row by row, the case-fatality rate is NaN for the first `lag` rows and
   * deaths over the confirmed count `lag` rows earlier after them.
   */
  lemma CaseFatalityRateAt<K>(f: Frame<K, string>, lag: nat, i: nat)
    requires f.Valid() && i < |f.index|
    requires "Confirmed" in f.cols && "population" in f.cols && "Deceased" in f.cols && "vaccinations" in f.cols
    ensures "case_fatality_rate" in DerivedMetrics(f, lag).0.cols
    ensures DerivedMetrics(f, lag).0.cols["case_fatality_rate"][i] ==
      if i < lag then NaN else Div(f.cols["Deceased"][i], f.cols["Confirmed"][i - lag])
  {
    DerivedMetricsColumns(f, lag);
    ShiftAt(f.cols["Confirmed"], lag, i);
  }

  /** `add_derived_metrics(df)`: the frame is changed in place and returned. */
  method AddDerivedMetrics<K>(df: DataFrame<K, string>, lag: nat) returns (outcome: Outcome)
    requires df.Valid()
    modifies df
    ensures df.Valid()
    ensures (df.Value(), outcome) == DerivedMetrics(old(df.Value()), lag)
  {
    if "Confirmed" !in df.cols {
      return Fail(KeyError("Confirmed"));
    }
    var confirmed := df.cols["Confirmed"];
    if "population" !in df.cols {
      return Fail(KeyError("population"));
    }
    var population := df.cols["population"];
    df.SetColumn("cases_per_million", PerMillionCol(confirmed, population));
    if "Deceased" !in df.cols {
      return Fail(KeyError("Deceased"));
    }
    var deceased := df.cols["Deceased"];
    df.SetColumn("deaths_per_million", PerMillionCol(deceased, population));
    if "vaccinations" !in df.cols {
      return Fail(KeyError("vaccinations"));
    }
    df.SetColumn("pct_vaccinated", DivCol(df.cols["vaccinations"], population));
    df.SetColumn("case_fatality_rate", DivCol(deceased, Shift(confirmed, lag)));
    return Pass;
  }

  // ---------------------------------------------------------------------
  // get_modified_state_metrics_df
  // ---------------------------------------------------------------------

  /** `index.map(state_id_map)`: a state's id, or NaN for a row the map lacks. */
  function IdColumn(index: seq<string>): (r: seq<Num>)
    ensures |r| == |index|
  {
    seq(|index|, i requires 0 <= i < |index| =>
      match Helper.StateId(index[i])
      case Some(id) => Fin(id as real)
      case None => NaN)
  }

  /**
   * Every row with an id holds a whole number in 0..35 that the reverse
   * map of the click callback turns back into that row's state; a row
   * without one, such as India, is NaN.
   */
  lemma IdColumnRoundTrip(index: seq<string>, i: nat)
    requires i < |index|
    ensures IdColumn(index)[i].Fin? <==> Helper.StateId(index[i]).Some?
    ensures IdColumn(index)[i].NaN? <==> Helper.StateId(index[i]).None?
    ensures IdColumn(index)[i].Fin? ==>
      exists id: int | 0 <= id < 36 ::
        IdColumn(index)[i].v == id as real && Helper.StateOfId(id) == Some(index[i])
  {
    Helper.StateIdRoundTrip(index[i]);
    if Helper.StateId(index[i]).Some? {
      var id := Helper.StateId(index[i]).value;
      assert IdColumn(index)[i].v == id as real && Helper.StateOfId(id) == Some(index[i]);
    }
  }

  lemma IndiaHasNoId()
    ensures Helper.StateId("India").None?
  {
  }

  /** `get_modified_state_metrics_df(df)`: adds the `id` column in place. */
  method GetModifiedStateMetrics(df: DataFrame<string, string>)
    requires df.Valid()
    modifies df
    ensures df.Valid()
    ensures df.Value() == old(df.Value()).Assign("id", IdColumn(old(df.index)))
  {
    df.SetColumn("id", IdColumn(df.index));
  }

  // ---------------------------------------------------------------------
  // modify_geojson
  // ---------------------------------------------------------------------

  /** A GeoJSON feature of the state map: its `id` and its numeric properties. */
  class Feature {
    var id: Option<int>
    var properties: map<string, int>

    constructor (properties: map<string, int>)
      ensures this.id == None && this.properties == properties
    {
      this.id := None;
      this.properties := properties;
    }
  }

  /** The feature's `id` is its state code. */
  ghost predicate Linked(f: Feature)
    reads f
  {
    "state_code" in f.properties && f.id == Some(f.properties["state_code"])
  }

  /**
   * `modify_geojson(geojson)`: sets every feature's `id` to its state code,
   * in order; a feature without one raises KeyError and leaves the later
   * features as they were.
   */
  method ModifyGeojson(features: seq<Feature>) returns (outcome: Outcome)
    modifies set f | f in features
    ensures forall f | f in features :: f.properties == old(f.properties)
    ensures outcome.Pass? <==> forall f | f in features :: "state_code" in f.properties
    ensures outcome.Pass? ==> forall f | f in features :: Linked(f)
    ensures outcome.Fail? ==> outcome == Fail(KeyError("state_code"))
    ensures outcome.Fail? ==>
      exists k | 0 <= k < |features| ::
        "state_code" !in features[k].properties && forall j | 0 <= j < k :: Linked(features[j])
    ensures forall f | f in features :: f.id == old(f.id) || Linked(f)
  {
    for i := 0 to |features|
      invariant forall f | f in features :: f.properties == old(f.properties)
      invariant forall j | 0 <= j < i :: Linked(features[j])
      invariant forall f | f in features :: f.id == old(f.id) || Linked(f)
    {
      var f := features[i];
      if "state_code" !in f.properties {
        return Fail(KeyError("state_code"));
      }
      f.id := Some(f.properties["state_code"]);
    }
    return Pass;
  }
}
