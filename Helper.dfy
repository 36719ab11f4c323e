/**
 * helper.py: the cleaning of the state-wise daily table, the lookup tables,
 * and the text helpers the KPI cards use.
 */
module Helper {
  import opened Common
  import opened Numeric
  import opened Seqs
  import opened Frames

  // ---------------------------------------------------------------------
  // Lookup tables
  // ---------------------------------------------------------------------

  /**
   * `state_abbreviations_dict`: column abbreviation to state name ('CH' is listed
   * twice in the source, with the same name).
   */
  function StateName(abbreviation: string): Option<string>
  {
    match abbreviation
    case "AP" => Some("Andhra Pradesh")
    case "AR" => Some("Arunachal Pradesh")
    case "AS" => Some("Assam")
    case "BR" => Some("Bihar")
    case "CH" => Some("Chandigarh")
    case "CT" => Some("Chhattisgarh")
    case "GA" => Some("Goa")
    case "GJ" => Some("Gujarat")
    case "HR" => Some("Haryana")
    case "HP" => Some("Himachal Pradesh")
    case "JK" => Some("Jammu and Kashmir")
    case "JH" => Some("Jharkhand")
    case "KA" => Some("Karnataka")
    case "KL" => Some("Kerala")
    case "LA" => Some("Ladakh")
    case "MP" => Some("Madhya Pradesh")
    case "MH" => Some("Maharashtra")
    case "MN" => Some("Manipur")
    case "ML" => Some("Meghalaya")
    case "MZ" => Some("Mizoram")
    case "NL" => Some("Nagaland")
    case "OR" => Some("Odisha")
    case "PB" => Some("Punjab")
    case "RJ" => Some("Rajasthan")
    case "SK" => Some("Sikkim")
    case "TG" => Some("Telangana")
    case "TN" => Some("Tamil Nadu")
    case "TR" => Some("Tripura")
    case "UT" => Some("Uttarakhand")
    case "UP" => Some("Uttar Pradesh")
    case "WB" => Some("West Bengal")
    case "AN" => Some("Andaman and Nicobar Islands")
    case "DN" => Some("Dadra and Nagar Haveli")
    case "DD" => Some("Daman and Diu")
    case "DL" => Some("Delhi")
    case "LD" => Some("Lakshadweep")
    case "PY" => Some("Pondicherry")
    case _ => None
  }


  /** `state_id_map`: state name to the numeric id the map's GeoJSON features carry. */
  function StateId(name: string): Option<int>
  {
    match name
    case "Telangana" => Some(0)
    case "Andaman and Nicobar Islands" => Some(35)
    case "Andhra Pradesh" => Some(28)
    case "Arunachal Pradesh" => Some(12)
    case "Assam" => Some(18)
    case "Bihar" => Some(10)
    case "Chhattisgarh" => Some(22)
    case "Daman and Diu" => Some(25)
    case "Goa" => Some(30)
    case "Gujarat" => Some(24)
    case "Haryana" => Some(6)
    case "Himachal Pradesh" => Some(2)
    case "Jammu and Kashmir" => Some(1)
    case "Jharkhand" => Some(20)
    case "Karnataka" => Some(29)
    case "Kerala" => Some(32)
    case "Lakshadweep" => Some(31)
    case "Madhya Pradesh" => Some(23)
    case "Maharashtra" => Some(27)
    case "Manipur" => Some(14)
    case "Chandigarh" => Some(4)
    case "Pondicherry" => Some(34)
    case "Punjab" => Some(3)
    case "Rajasthan" => Some(8)
    case "Sikkim" => Some(11)
    case "Tamil Nadu" => Some(33)
    case "Tripura" => Some(16)
    case "Uttar Pradesh" => Some(9)
    case "Uttarakhand" => Some(5)
    case "West Bengal" => Some(19)
    case "Odisha" => Some(21)
    case "Dadra and Nagar Haveli" => Some(26)
    case "Meghalaya" => Some(17)
    case "Mizoram" => Some(15)
    case "Nagaland" => Some(13)
    case "Delhi" => Some(7)
    case _ => None
  }

  /** The inverse of `state_id_map`, as create_app.py builds it for the click callback. */
  function StateOfId(id: int): Option<string>
  {
    match id
    case 0 => Some("Telangana")
    case 1 => Some("Jammu and Kashmir")
    case 2 => Some("Himachal Pradesh")
    case 3 => Some("Punjab")
    case 4 => Some("Chandigarh")
    case 5 => Some("Uttarakhand")
    case 6 => Some("Haryana")
    case 7 => Some("Delhi")
    case 8 => Some("Rajasthan")
    case 9 => Some("Uttar Pradesh")
    case 10 => Some("Bihar")
    case 11 => Some("Sikkim")
    case 12 => Some("Arunachal Pradesh")
    case 13 => Some("Nagaland")
    case 14 => Some("Manipur")
    case 15 => Some("Mizoram")
    case 16 => Some("Tripura")
    case 17 => Some("Meghalaya")
    case 18 => Some("Assam")
    case 19 => Some("West Bengal")
    case 20 => Some("Jharkhand")
    case 21 => Some("Odisha")
    case 22 => Some("Chhattisgarh")
    case 23 => Some("Madhya Pradesh")
    case 24 => Some("Gujarat")
    case 25 => Some("Daman and Diu")
    case 26 => Some("Dadra and Nagar Haveli")
    case 27 => Some("Maharashtra")
    case 28 => Some("Andhra Pradesh")
    case 29 => Some("Karnataka")
    case 30 => Some("Goa")
    case 31 => Some("Lakshadweep")
    case 32 => Some("Kerala")
    case 33 => Some("Tamil Nadu")
    case 34 => Some("Pondicherry")
    case 35 => Some("Andaman and Nicobar Islands")
    case _ => None
  }


  /** A label's state name when it is a known abbreviation, else the label itself. */
  function Rename(col: string): string
  {
    match StateName(col)
    case Some(name) => name
    case None => col
  }

  /**
   * Distinct states carry distinct ids: looking the id of a state up again
   * gives that state back.
   */
  lemma StateIdRoundTrip(name: string)
    ensures StateId(name).Some? ==> StateOfId(StateId(name).value) == Some(name)
    ensures StateId(name).Some? ==> 0 <= StateId(name).value < 36
  {
    match name
    case "Telangana" =>
    case "Andaman and Nicobar Islands" =>
    case "Andhra Pradesh" =>
    case "Arunachal Pradesh" =>
    case "Assam" =>
    case "Bihar" =>
    case "Chhattisgarh" =>
    case "Daman and Diu" =>
    case "Goa" =>
    case "Gujarat" =>
    case "Haryana" =>
    case "Himachal Pradesh" =>
    case "Jammu and Kashmir" =>
    case "Jharkhand" =>
    case "Karnataka" =>
    case "Kerala" =>
    case "Lakshadweep" =>
    case "Madhya Pradesh" =>
    case "Maharashtra" =>
    case "Manipur" =>
    case "Chandigarh" =>
    case "Pondicherry" =>
    case "Punjab" =>
    case "Rajasthan" =>
    case "Sikkim" =>
    case "Tamil Nadu" =>
    case "Tripura" =>
    case "Uttar Pradesh" =>
    case "Uttarakhand" =>
    case "West Bengal" =>
    case "Odisha" =>
    case "Dadra and Nagar Haveli" =>
    case "Meghalaya" =>
    case "Mizoram" =>
    case "Nagaland" =>
    case "Delhi" =>
    case _ =>
  }

  lemma StateIdsDistinct(a: string, b: string)
    requires StateId(a).Some? && StateId(a) == StateId(b)
    ensures a == b
  {
    StateIdRoundTrip(a);
    StateIdRoundTrip(b);
  }

  /** Every abbreviation the cleaning keeps names a state that has an id; Ladakh has none. */
  lemma RenamedStatesHaveIds(abbreviation: string)
    requires StateName(abbreviation).Some?
    ensures StateId(Rename(abbreviation)).Some? <==> abbreviation != "LA"
  {
  }

  lemma RenameJK()
    ensures Rename("JK") == "Jammu and Kashmir"
  {
  }

  // ---------------------------------------------------------------------
  // clean_raw_data
  // ---------------------------------------------------------------------

  /** Labels of the raw table that are not count columns. */
  predicate NonCount(col: string)
  {
    col == "Date" || col == "Date_YMD" || col == "Status"
  }

  /** The count columns dropped by the cleaning. */
  predicate DroppedCount(col: string)
  {
    col == "LA" || col == "UN" || col == "TT" || col == "DD"
  }

  lemma RenameKeepsKind(c: string)
    ensures NonCount(c) ==> Rename(c) == c
    ensures !NonCount(c) ==> !NonCount(Rename(c))
  {
  }

  /**
   * Renaming by the abbreviation table gives distinct names to the count
   * columns that survive the drop.
   */
  predicate RenameInjective(keys: set<string>)
  {
    forall a, b | a in keys && b in keys && !DroppedCount(a) && !DroppedCount(b) && a != b :: Rename(a) != Rename(b)
  }

  function Abs(x: int): int { if x < 0 then -x else x }

  /** `Series.abs()`. */
  function AbsCol(a: seq<int>): (r: seq<int>)
    ensures |r| == |a| && forall i | 0 <= i < |r| :: r[i] == Abs(a[i])
  {
    seq(|a|, i requires 0 <= i < |a| => Abs(a[i]))
  }

  /** The labels the cleaning drops: the old `Date`, and `LA`, `UN`, `TT`, `DD`. */
  predicate DroppedLabel(col: string)
  {
    col == "Date" || DroppedCount(col)
  }

  /** Every label the drop names is present, so `df.drop` raises no KeyError. */
  predicate HasDroppedLabels(ls: seq<string>)
  {
    "Date" in ls && "LA" in ls && "UN" in ls && "TT" in ls && "DD" in ls
  }

  /** The drop on the label list: the other labels keep their order. */
  function DropLabels(ls: seq<string>): (r: seq<string>)
    ensures forall x :: x in r <==> x in ls && !DroppedLabel(x)
    ensures Distinct(ls) ==> Distinct(r)
  {
    if ls == [] then []
    else
      var init := DropLabels(ls[..|ls| - 1]);
      var last := ls[|ls| - 1];
      assert forall x :: x in ls <==> x in ls[..|ls| - 1] || x == last;
      init + (if DroppedLabel(last) then [] else [last])
  }

  /** `Date_YMD` renamed to `Date` on the label list. */
  function RenameDate(ls: seq<string>): (r: seq<string>)
    ensures |r| == |ls|
    ensures forall i | 0 <= i < |ls| :: r[i] == if ls[i] == "Date_YMD" then "Date" else ls[i]
    ensures "Date_YMD" !in r
  {
    seq(|ls|, i requires 0 <= i < |ls| => if ls[i] == "Date_YMD" then "Date" else ls[i])
  }

  /** Every label renamed by the abbreviation table. */
  function RenameAll(ls: seq<string>): (r: seq<string>)
    ensures |r| == |ls|
    ensures forall i | 0 <= i < |ls| :: r[i] == Rename(ls[i])
  {
    seq(|ls|, i requires 0 <= i < |ls| => Rename(ls[i]))
  }

  /** The column labels after the cleaning, in order. */
  function CleanLabels(ls: seq<string>): seq<string>
  {
    RenameAll(RenameDate(DropLabels(ls)))
  }

  /** The count labels among a label list, in order: `df.columns[2:]` after the cleaning. */
  function CountLabels(ls: seq<string>): (r: seq<string>)
    ensures forall x :: x in r <==> x in ls && !NonCount(x)
    ensures Distinct(ls) ==> Distinct(r)
  {
    if ls == [] then []
    else
      var init := CountLabels(ls[..|ls| - 1]);
      var last := ls[|ls| - 1];
      assert forall x :: x in ls <==> x in ls[..|ls| - 1] || x == last;
      init + (if NonCount(last) then [] else [last])
  }

  /** Renaming keeps the labels distinct when it is injective on the count labels. */
  lemma {:induction false} RenameAllDistinct(ls: seq<string>, keys: set<string>)
    requires Distinct(ls)
    requires forall c | c in ls && !NonCount(c) :: c in keys && !DroppedCount(c)
    requires RenameInjective(keys)
    ensures Distinct(RenameAll(ls))
  {
    var r := RenameAll(ls);
    forall i, j | 0 <= i < j < |ls|
      ensures r[i] != r[j]
    {
      RenameKeepsKind(ls[i]);
      RenameKeepsKind(ls[j]);
    }
  }

  /** The count columns under their new labels. */
  function RenameKeys(m: map<string, seq<int>>): (r: map<string, seq<int>>)
    requires RenameInjective(m.Keys)
    requires forall c | c in m :: !DroppedCount(c)
    ensures r.Keys == set c | c in m :: Rename(c)
    ensures forall c | c in m :: r[Rename(c)] == m[c]
  {
    map c | c in m :: Rename(c) := m[c]
  }

  /** Renaming keeps a label list and its count columns in step. */
  lemma RenameValid(ls: seq<string>, m: map<string, seq<int>>, n: nat)
    requires Distinct(ls)
    requires forall c :: c in m <==> c in ls && !NonCount(c)
    requires forall c | c in m :: |m[c]| == n && !DroppedCount(c)
    requires RenameInjective(m.Keys)
    ensures Distinct(RenameAll(ls))
    ensures forall c :: c in RenameKeys(m) <==> c in RenameAll(ls) && !NonCount(c)
    ensures forall c | c in RenameKeys(m) :: |RenameKeys(m)[c]| == n
  {
    RenameAllDistinct(ls, m.Keys);
    var r := RenameKeys(m);
    var rl := RenameAll(ls);
    forall c
      ensures c in r <==> c in rl && !NonCount(c)
    {
      if c in r {
        var d :| d in m && Rename(d) == c;
        RenameKeepsKind(d);
        var i :| 0 <= i < |ls| && ls[i] == d;
        assert rl[i] == c;
      }
      if c in rl && !NonCount(c) {
        var i :| 0 <= i < |rl| && rl[i] == c;
        RenameKeepsKind(ls[i]);
        assert ls[i] in m;
      }
    }
    forall c | c in r
      ensures |r[c]| == n
    {
      var d :| d in m && Rename(d) == c;
    }
  }

  /** The count columns that survive the drop. */
  function DropCounts(m: map<string, seq<int>>): (r: map<string, seq<int>>)
    ensures forall c :: c in r <==> c in m && !DroppedCount(c)
    ensures forall c | c in r :: r[c] == m[c]
  {
    map c | c in m && !DroppedCount(c) :: m[c]
  }

  /** `df[col] = df[col].abs()` for every count column. */
  function AbsMap(m: map<string, seq<int>>): (r: map<string, seq<int>>)
    ensures r.Keys == m.Keys
    ensures forall c | c in m :: forall i | 0 <= i < |r[c]| :: r[c][i] >= 0
  {
    map c | c in m :: AbsCol(m[c])
  }

  /** The count columns `clean_raw_data` leaves, from the ones it is given. */
  function CleanCounts(m: map<string, seq<int>>): map<string, seq<int>>
    requires "JK" in m && "LA" in m && |m["JK"]| == |m["LA"]|
    requires RenameInjective(m.Keys)
  {
    var merged := m["JK" := AddSeq(m["JK"], m["LA"])];
    assert DropCounts(merged).Keys <= m.Keys;
    AbsMap(RenameKeys(DropCounts(merged)))
  }

  /** The cleaning keeps one count column per surviving abbreviation, under its state name. */
  lemma CleanCountsKeys(m: map<string, seq<int>>)
    requires "JK" in m && "LA" in m && |m["JK"]| == |m["LA"]|
    requires RenameInjective(m.Keys)
    ensures forall c :: c in CleanCounts(m) <==> exists d | d in m && !DroppedCount(d) :: c == Rename(d)
  {
    var merged := m["JK" := AddSeq(m["JK"], m["LA"])];
    var dropped := DropCounts(merged);
    assert dropped.Keys <= m.Keys;
    var r := CleanCounts(m);
    assert r.Keys == RenameKeys(dropped).Keys;
    forall c
      ensures c in r <==> exists d | d in m && !DroppedCount(d) :: c == Rename(d)
    {
      if c in r {
        var d :| d in dropped && c == Rename(d);
        assert d in m && !DroppedCount(d);
      }
    }
  }

  /**
   * After the cleaning Jammu and Kashmir holds the sum of its own and
   * Ladakh's counts, and every other surviving column its old counts, both
   * made absolute.
   */
  lemma CleanCountsValues(m: map<string, seq<int>>)
    requires "JK" in m && "LA" in m && |m["JK"]| == |m["LA"]|
    requires RenameInjective(m.Keys)
    ensures "Jammu and Kashmir" in CleanCounts(m)
    ensures CleanCounts(m)["Jammu and Kashmir"] == AbsCol(AddSeq(m["JK"], m["LA"]))
    ensures forall c | c in m && !DroppedCount(c) && c != "JK" :: CleanCounts(m)[Rename(c)] == AbsCol(m[c])
  {
    var merged := m["JK" := AddSeq(m["JK"], m["LA"])];
    var dropped := DropCounts(merged);
    assert dropped.Keys <= m.Keys;
    var renamed := RenameKeys(dropped);
    assert CleanCounts(m) == AbsMap(renamed);
    RenameJK();
    assert "JK" in dropped;
    forall c | c in m && !DroppedCount(c) && c != "JK"
      ensures CleanCounts(m)[Rename(c)] == AbsCol(m[c])
    {
      assert c in dropped && dropped[c] == m[c];
      assert renamed[Rename(c)] == m[c];
    }
  }

  /** No count is negative after the cleaning. */
  lemma CleanCountsNonNegative(m: map<string, seq<int>>)
    requires "JK" in m && "LA" in m && |m["JK"]| == |m["LA"]|
    requires RenameInjective(m.Keys)
    ensures forall c | c in CleanCounts(m) :: forall i | 0 <= i < |CleanCounts(m)[c]| :: CleanCounts(m)[c][i] >= 0
  {
  }

  /** Renaming neither adds nor removes a `Date`, `Date_YMD` or `Status` label. */
  lemma RenameAllNonCount(ls: seq<string>)
    ensures forall c | NonCount(c) :: c in RenameAll(ls) <==> c in ls
  {
    forall c | NonCount(c)
      ensures c in RenameAll(ls) <==> c in ls
    {
      RenameKeepsKind(c);
      if c in RenameAll(ls) {
        var i :| 0 <= i < |ls| && RenameAll(ls)[i] == c;
        RenameKeepsKind(ls[i]);
      }
    }
  }

  /** Dropping keeps a label list and its count columns in step. */
  lemma DropValid(ls: seq<string>, m: map<string, seq<int>>, n: nat)
    requires Distinct(ls)
    requires forall c :: c in m <==> c in ls && !NonCount(c)
    requires forall c | c in m :: |m[c]| == n
    ensures Distinct(DropLabels(ls))
    ensures forall c :: c in DropCounts(m) <==> c in DropLabels(ls) && !NonCount(c)
    ensures forall c | c in DropCounts(m) :: |DropCounts(m)[c]| == n
    ensures "Date_YMD" in DropLabels(ls) <==> "Date_YMD" in ls
  {
    var r := DropLabels(ls);
    var d := DropCounts(m);
    forall c
      ensures c in d <==> c in r && !NonCount(c)
    {
      assert c in d <==> c in m && !DroppedCount(c);
      assert c in r <==> c in ls && !DroppedLabel(c);
    }
    assert "Date_YMD" in r <==> "Date_YMD" in ls;
  }

  /** The loop over the labels has made the counts of `done` absolute, and only those. */
  predicate AbsDone(m: map<string, seq<int>>, counts: map<string, seq<int>>, done: seq<string>)
  {
    && m.Keys == counts.Keys
    && forall c | c in counts :: m[c] == if c in done then AbsCol(counts[c]) else counts[c]
  }

  /** A count column not yet visited is made absolute. */
  lemma AbsStep(m: map<string, seq<int>>, counts: map<string, seq<int>>, done: seq<string>, col: string)
    requires AbsDone(m, counts, done) && col in counts && col !in done
    ensures col in m && AbsDone(m[col := AbsCol(m[col])], counts, done + [col])
  {
  }

  /** A label without a count column changes nothing. */
  lemma AbsSkip(m: map<string, seq<int>>, counts: map<string, seq<int>>, done: seq<string>, col: string)
    requires AbsDone(m, counts, done) && col !in counts
    ensures AbsDone(m, counts, done + [col])
  {
  }

  /** Once every count label has been visited, every count is absolute. */
  lemma AbsDoneAll(m: map<string, seq<int>>, counts: map<string, seq<int>>, done: seq<string>)
    requires AbsDone(m, counts, done) && forall c | c in counts :: c in done
    ensures m == AbsMap(counts)
  {
  }

  /**
   * The state-wise daily table as read from its CSV file and changed in
   * place by the cleaning. `labels` are the column labels in order; the
   * count columns are held by label in `counts`; `days` holds the
   * `Date_YMD` column (the `Date` column after the cleaning) as day
   * numbers, `statuses` the `Status` column.
   */
  class StateWiseFrame {
    var labels: seq<string>
    var counts: map<string, seq<int>>
    var days: seq<int>
    var statuses: seq<Status>

    ghost predicate Valid()
      reads this
    {
      && |statuses| == |days|
      && Distinct(labels)
      && (forall c | c in counts :: |counts[c]| == |days|)
      && (forall c :: c in counts <==> c in labels && !NonCount(c))
    }

    /** The frame as the later stages read it. */
    function Table(): (t: Daily)
      reads this
      requires Valid()
      ensures t.Valid()
    {
      var states := CountLabels(labels);
      assert counts.Keys == set s | s in states;
      Daily(days, statuses, states, counts)
    }

    /** `df[col] = values` for a count column. */
    method SetCount(col: string, values: seq<int>)
      requires Valid() && col in counts && |values| == |days|
      modifies this
      ensures Valid()
      ensures labels == old(labels) && days == old(days) && statuses == old(statuses)
      ensures counts == old(counts)[col := values]
    {
      counts := counts[col := values];
    }

    /**
     * The in-place drop of `Date`, `LA`, `UN`, `TT` and `DD`:
     * KeyError, and nothing dropped, when one of them is missing.
     */
    method DropColumns() returns (outcome: Outcome)
      requires Valid()
      modifies this
      ensures Valid()
      ensures days == old(days) && statuses == old(statuses)
      ensures outcome.Pass? <==> HasDroppedLabels(old(labels))
      ensures outcome.Fail? ==> labels == old(labels) && counts == old(counts)
      ensures outcome.Fail? ==> outcome.error.KeyError? && outcome.error.column !in old(labels)
      ensures outcome.Pass? ==> labels == DropLabels(old(labels))
      ensures outcome.Pass? ==> counts == DropCounts(old(counts))
      ensures outcome.Pass? ==> ("Date_YMD" in labels <==> "Date_YMD" in old(labels))
    {
      if "Date" !in labels {
        return Fail(KeyError("Date"));
      } else if "LA" !in labels {
        return Fail(KeyError("LA"));
      } else if "UN" !in labels {
        return Fail(KeyError("UN"));
      } else if "TT" !in labels {
        return Fail(KeyError("TT"));
      } else if "DD" !in labels {
        return Fail(KeyError("DD"));
      }
      DropValid(labels, counts, |days|);
      labels := DropLabels(labels);
      counts := DropCounts(counts);
      return Pass;
    }

    /** The in-place rename of `Date_YMD` to `Date`, once `Date` is gone. */
    method RenameDateColumn()
      requires Valid() && "Date" !in labels
      modifies this
      ensures Valid()
      ensures days == old(days) && statuses == old(statuses) && counts == old(counts)
      ensures labels == RenameDate(old(labels))
      ensures "Date" in labels <==> "Date_YMD" in old(labels)
      ensures "Date_YMD" !in labels
    {
      labels := RenameDate(labels);
    }

    /** The column labels replaced by their renamings. */
    method RenameAbbreviations()
      requires Valid() && RenameInjective(counts.Keys)
      requires forall c | c in counts :: !DroppedCount(c)
      modifies this
      ensures Valid()
      ensures days == old(days) && statuses == old(statuses)
      ensures labels == RenameAll(old(labels))
      ensures counts == RenameKeys(old(counts))
    {
      RenameValid(labels, counts, |days|);
      labels := RenameAll(labels);
      counts := RenameKeys(counts);
    }

    /** The loop that makes every column other than `Date` and `Status` absolute. */
    method AbsCounts()
      requires Valid() && "Date_YMD" !in labels
      modifies this
      ensures Valid()
      ensures labels == old(labels) && days == old(days) && statuses == old(statuses)
      ensures counts == AbsMap(old(counts))
    {
      var ls, cs := labels, counts;
      var m := cs;
      for i := 0 to |ls|
        invariant unchanged(this)
        invariant AbsDone(m, cs, ls[..i])
      {
        var col := ls[i];
        assert ls[..i + 1] == ls[..i] + [col];
        if col != "Date" && col != "Status" {
          assert col in cs && col !in ls[..i];
          AbsStep(m, cs, ls[..i], col);
          m := m[col := AbsCol(m[col])];
        } else {
          AbsSkip(m, cs, ls[..i], col);
        }
      }
      assert ls[..|ls|] == ls;
      AbsDoneAll(m, cs, ls);
      counts := m;
    }
  }

  /**
   * `clean_raw_data(df)`: Ladakh's counts are added to Jammu and Kashmir's,
   * the old `Date` column and the `LA`, `UN`, `TT` and `DD` columns are
   * dropped, `Date_YMD` becomes `Date`, abbreviations become state names,
   * and every count becomes its absolute value (CleanCountsKeys,
   * CleanCountsValues, CleanCountsNonNegative). A
   * missing column raises KeyError; when `JK` and `LA` exist the frame has
   * already been changed by then.
   */
  method CleanRawData(df: StateWiseFrame) returns (outcome: Outcome)
    requires df.Valid()
    requires RenameInjective(df.counts.Keys)
    modifies df
    ensures df.Valid()
    ensures df.days == old(df.days) && df.statuses == old(df.statuses)
    ensures outcome.Pass? <==>
      && "JK" in old(df.counts) && "LA" in old(df.counts)
      && HasDroppedLabels(old(df.labels))
      && "Date_YMD" in old(df.labels)
    ensures ("JK" !in old(df.counts) || "LA" !in old(df.counts)) ==>
      df.labels == old(df.labels) && df.counts == old(df.counts)
    ensures outcome.Pass? ==>
      df.labels == CleanLabels(old(df.labels)) && df.counts == CleanCounts(old(df.counts))
    ensures "JK" !in old(df.counts) ==> outcome == Fail(KeyError("JK"))
    ensures "JK" in old(df.counts) && "LA" !in old(df.counts) ==> outcome == Fail(KeyError("LA"))
    ensures "JK" in old(df.counts) && "LA" in old(df.counts) && !HasDroppedLabels(old(df.labels)) ==>
      && outcome.Fail? && outcome.error.KeyError? && outcome.error.column !in old(df.labels)
      && df.labels == old(df.labels)
      && df.counts == old(df.counts)["JK" := AddSeq(old(df.counts)["JK"], old(df.counts)["LA"])]
    ensures "JK" in old(df.counts) && "LA" in old(df.counts) && HasDroppedLabels(old(df.labels)) && "Date_YMD" !in old(df.labels) ==>
      && outcome == Fail(KeyError("Date"))
      && df.labels == RenameDate(DropLabels(old(df.labels)))
      && df.counts == DropCounts(old(df.counts)["JK" := AddSeq(old(df.counts)["JK"], old(df.counts)["LA"])])
  {
    ghost var labels0 := df.labels;
    // Ladakh folded into Jammu and Kashmir; a missing column raises first.
    if "JK" !in df.counts {
      return Fail(KeyError("JK"));
    }
    if "LA" !in df.counts {
      return Fail(KeyError("LA"));
    }
    df.SetCount("JK", AddSeq(df.counts["JK"], df.counts["LA"]));

    outcome := df.DropColumns();
    if outcome.Fail? {
      return;
    }
    df.RenameDateColumn();
    // The date parsing reads the renamed column: without one it raises.
    if "Date" !in df.labels {
      return Fail(KeyError("Date"));
    }
    assert df.counts.Keys <= old(df.counts).Keys;
    RenameAllNonCount(df.labels);
    assert NonCount("Date_YMD");
    df.RenameAbbreviations();
    // Every count column made absolute.
    df.AbsCounts();
    return Pass;
  }
}
