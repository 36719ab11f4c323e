/**
 * `generateDiscreteColourScale`: the discrete colour scale of the map. A
 * list of colour sets becomes a list of (position, colour) stops: every
 * set gets an equal share of [0, 1], split evenly among its sub-colours,
 * and every sub-colour contributes two stops, at the start of its band and
 * 0.001 before the end of it. The very last stop is moved to 1.
 */
module Graph {
  import opened Common

  /** One `(c_index, subcset)` pair of the output. */
  datatype Stop = Stop(position: real, colour: string)

  /**
   * The inner loop over one set's sub-colours, from cursor `c` with bands
   * of width `w`, appending to `out`; yields the output and the cursor.
   */
  function Pairs(subs: seq<string>, w: real, c: real, out: seq<Stop>): (seq<Stop>, real)
    decreases |subs|
  {
    if subs == [] then (out, c)
    else Pairs(subs[1..], w, c + w, out + [Stop(c, subs[0]), Stop(c + w - 0.001, subs[0])])
  }

  /**
   * The outer loop over the sets, each a share `d` of the unit interval;
   * an empty set divides by zero.
   */
  function Sets(sets: seq<seq<string>>, d: real, c: real, out: seq<Stop>): Result<(seq<Stop>, real)>
    decreases |sets|
  {
    if sets == [] then Ok((out, c))
    else if sets[0] == [] then Err(ZeroDivisionError)
    else
      var p := Pairs(sets[0], d / |sets[0]| as real, c, out);
      Sets(sets[1..], d, p.1, p.0)
  }

  /** The value of `generateDiscreteColourScale(colour_set)`, or the error it raises. */
  function ColourScale(colourSet: seq<seq<string>>): Result<seq<Stop>>
  {
    if |colourSet| == 0 then Err(ZeroDivisionError)
    else
      var run := Sets(colourSet, 1.0 / |colourSet| as real, 0.0, []);
      if run.Err? then Err(run.error)
      else
        var out := run.value.0;
        if |out| == 0 then Err(IndexError)
        else Ok(out[|out| - 1 := Stop(1.0, out[|out| - 1].colour)])
  }

  /** `generateDiscreteColourScale`, with its two nested loops. */
  method GenerateDiscreteColourScale(colourSet: seq<seq<string>>) returns (r: Result<seq<Stop>>)
    ensures r == ColourScale(colourSet)
  {
    if |colourSet| == 0 {
      return Err(ZeroDivisionError);
    }
    var output: seq<Stop> := [];
    var divisions := 1.0 / |colourSet| as real;
    var cIndex := 0.0;
    for i := 0 to |colourSet|
      invariant Sets(colourSet, divisions, 0.0, []) == Sets(colourSet[i..], divisions, cIndex, output)
    {
      var cset := colourSet[i];
      if |cset| == 0 {
        return Err(ZeroDivisionError);
      }
      var subDivisions := divisions / |cset| as real;
      ghost var c0, out0 := cIndex, output;
      assert colourSet[i..][1..] == colourSet[i + 1..];
      for k := 0 to |cset|
        invariant Pairs(cset, subDivisions, c0, out0) == Pairs(cset[k..], subDivisions, cIndex, output)
      {
        assert cset[k..][1..] == cset[k + 1..];
        output := output + [Stop(cIndex, cset[k]), Stop(cIndex + subDivisions - 0.001, cset[k])];
        cIndex := cIndex + subDivisions;
      }
    }
    if |output| == 0 {
      return Err(IndexError);
    }
    output := output[|output| - 1 := Stop(1.0, output[|output| - 1].colour)];
    return Ok(output);
  }

  // ---------------------------------------------------------------------
  // Reference definitions: the stops written out without the cursor.

  /** The stops of one set's sub-colours, bands of width `w` starting at `c`. */
  function PairStops(subs: seq<string>, w: real, c: real): (r: seq<Stop>)
    ensures |r| == 2 * |subs|
    decreases |subs|
  {
    if subs == [] then []
    else [Stop(c, subs[0]), Stop(c + w - 0.001, subs[0])] + PairStops(subs[1..], w, c + w)
  }

  /** The stops of all sets, set i starting at `c + i * d`. */
  function SetStops(sets: seq<seq<string>>, d: real, c: real): (r: seq<Stop>)
    requires forall i | 0 <= i < |sets| :: sets[i] != []
    ensures |r| == 2 * |Flat(sets)|
    decreases |sets|
  {
    if sets == [] then []
    else PairStops(sets[0], d / |sets[0]| as real, c) + SetStops(sets[1..], d, c + d)
  }

  /** The sub-colours of all sets, in order. */
  function Flat(sets: seq<seq<string>>): seq<string>
    decreases |sets|
  {
    if sets == [] then [] else sets[0] + Flat(sets[1..])
  }

  /** How many sub-colours precede set i. */
  function Offset(sets: seq<seq<string>>, i: nat): nat
    requires i <= |sets|
    decreases i
  {
    if i == 0 then 0 else |sets[0]| + Offset(sets[1..], i - 1)
  }

  /** `k` bands of width `w` laid end to end: the cursor after k steps of `c_index + sub_divisions`. */
  function Times(k: nat, w: real): real
  {
    if k == 0 then 0.0 else Times(k - 1, w) + w
  }

  /** Both the colour set and every set in it are non-empty. */
  predicate WellFormed(colourSet: seq<seq<string>>)
  {
    |colourSet| > 0 && forall i | 0 <= i < |colourSet| :: colourSet[i] != []
  }

  // ---------------------------------------------------------------------
  // Real arithmetic of the cursor.

  lemma {:induction false} TimesIsProduct(k: nat, w: real)
    ensures Times(k, w) == k as real * w
  {
    if k > 0 {
      TimesIsProduct(k - 1, w);
      assert (k as real - 1.0) * w + w == k as real * w;
    }
  }

  /** n bands of width d / n fill exactly d. */
  lemma TimesDivides(n: nat, d: real)
    requires n > 0
    ensures Times(n, d / n as real) == d
  {
    TimesIsProduct(n, d / n as real);
    DivThenMul(n as real, d);
  }

  lemma DivThenMul(n: real, d: real)
    requires n != 0.0
    ensures n * (d / n) == d
  {
  }

  // ---------------------------------------------------------------------
  // The loops against the reference definitions.

  lemma {:induction false} PairsIsPairStops(subs: seq<string>, w: real, c: real, out: seq<Stop>)
    ensures Pairs(subs, w, c, out).0 == out + PairStops(subs, w, c)
    ensures Pairs(subs, w, c, out).1 == c + Times(|subs|, w)
    decreases |subs|
  {
    if subs != [] {
      var two := [Stop(c, subs[0]), Stop(c + w - 0.001, subs[0])];
      PairsIsPairStops(subs[1..], w, c + w, out + two);
      assert out + two + PairStops(subs[1..], w, c + w) == out + PairStops(subs, w, c);
    }
  }

  lemma {:induction false} SetsIsSetStops(sets: seq<seq<string>>, d: real, c: real, out: seq<Stop>)
    requires forall i | 0 <= i < |sets| :: sets[i] != []
    ensures Sets(sets, d, c, out) == Ok((out + SetStops(sets, d, c), c + Times(|sets|, d)))
    decreases |sets|
  {
    if sets != [] {
      var ps := SetsStep(sets, d, c, out);
      SetsIsSetStops(sets[1..], d, c + d, out + ps);
      var rest := SetStops(sets[1..], d, c + d);
      assert out + ps + rest == out + SetStops(sets, d, c);
      assert c + d + Times(|sets| - 1, d) == c + Times(|sets|, d);
    } else {
      assert out + SetStops(sets, d, c) == out;
    }
  }

  /** One turn of the outer loop: the first set's stops are appended and the cursor moves by `d`. */
  lemma SetsStep(sets: seq<seq<string>>, d: real, c: real, out: seq<Stop>) returns (ps: seq<Stop>)
    requires sets != [] && forall i | 0 <= i < |sets| :: sets[i] != []
    ensures Sets(sets, d, c, out) == Sets(sets[1..], d, c + d, out + ps)
    ensures SetStops(sets, d, c) == ps + SetStops(sets[1..], d, c + d)
    ensures Times(|sets|, d) == Times(|sets| - 1, d) + d
  {
    var w := d / |sets[0]| as real;
    PairsIsPairStops(sets[0], w, c, out);
    TimesDivides(|sets[0]|, d);
    ps := PairStops(sets[0], w, c);
  }

  /** An empty set anywhere in the list stops the loop with a division by zero. */
  lemma {:induction false} SetsEmptySet(sets: seq<seq<string>>, d: real, c: real, out: seq<Stop>)
    requires exists i | 0 <= i < |sets| :: sets[i] == []
    ensures Sets(sets, d, c, out).Err? && Sets(sets, d, c, out).error == ZeroDivisionError
    decreases |sets|
  {
    if sets[0] != [] {
      var i :| 0 <= i < |sets| && sets[i] == [];
      assert sets[1..][i - 1] == [];
      var p := Pairs(sets[0], d / |sets[0]| as real, c, out);
      SetsEmptySet(sets[1..], d, p.1, p.0);
    }
  }

  lemma {:induction false} PairStopsAt(subs: seq<string>, w: real, c: real, k: nat, b: nat)
    requires k < |subs| && b < 2
    ensures PairStops(subs, w, c)[2 * k + b] ==
      Stop(c + Times(k, w) + (if b == 0 then 0.0 else w - 0.001), subs[k])
    decreases k
  {
    if k > 0 {
      PairStopsAt(subs[1..], w, c + w, k - 1, b);
    }
  }

  lemma {:induction false} OffsetBound(sets: seq<seq<string>>, i: nat)
    requires i < |sets|
    ensures Offset(sets, i) + |sets[i]| == Offset(sets, i + 1) <= Offset(sets, |sets|) == |Flat(sets)|
    decreases |sets|
  {
    if i == 0 {
      OffsetAll(sets);
      if |sets| > 1 {
        OffsetBound(sets[1..], 0);
      }
    } else {
      OffsetBound(sets[1..], i - 1);
    }
  }

  lemma {:induction false} OffsetAll(sets: seq<seq<string>>)
    ensures Offset(sets, |sets|) == |Flat(sets)|
    decreases |sets|
  {
    if sets != [] {
      OffsetAll(sets[1..]);
    }
  }

  /** Sub-colour k of set i sits at position `Offset(sets, i) + k` of `Flat(sets)`. */
  lemma {:induction false} FlatAt(sets: seq<seq<string>>, i: nat, k: nat)
    requires i < |sets| && k < |sets[i]|
    ensures Offset(sets, i) + k < |Flat(sets)|
    ensures Flat(sets)[Offset(sets, i) + k] == sets[i][k]
    decreases i
  {
    OffsetBound(sets, i);
    if i > 0 {
      FlatAt(sets[1..], i - 1, k);
      OffsetAll(sets[1..]);
    }
  }

  /** Stop j carries sub-colour j / 2. */
  lemma {:induction false} SetStopsColour(sets: seq<seq<string>>, d: real, c: real, j: nat)
    requires forall i | 0 <= i < |sets| :: sets[i] != []
    requires j < |SetStops(sets, d, c)|
    ensures SetStops(sets, d, c)[j].colour == Flat(sets)[j / 2]
    decreases |sets|
  {
    var n := |sets[0]|;
    var w := d / n as real;
    if j < 2 * n {
      PairStopsAt(sets[0], w, c, j / 2, j % 2);
    } else {
      SetStopsColour(sets[1..], d, c + d, j - 2 * n);
      assert (j - 2 * n) / 2 == j / 2 - n;
    }
  }

  /** The b-th stop of sub-colour k of set i sits at `c + i * d + k * w`, plus `w - 0.001` for the second. */
  lemma {:induction false} SetStopsAt(sets: seq<seq<string>>, d: real, c: real, i: nat, k: nat, b: nat)
    requires forall i | 0 <= i < |sets| :: sets[i] != []
    requires i < |sets| && k < |sets[i]| && b < 2
    ensures var w := d / |sets[i]| as real;
      && Offset(sets, i) + k < |Flat(sets)|
      && SetStops(sets, d, c)[2 * (Offset(sets, i) + k) + b].position ==
           c + Times(i, d) + Times(k, w) + (if b == 0 then 0.0 else w - 0.001)
    decreases i
  {
    FlatAt(sets, i, k);
    var ps := PairStops(sets[0], d / |sets[0]| as real, c);
    var rest := SetStops(sets[1..], d, c + d);
    assert SetStops(sets, d, c) == ps + rest;
    if i == 0 {
      PairStopsAt(sets[0], d / |sets[0]| as real, c, k, b);
      assert SetStops(sets, d, c)[2 * k + b] == ps[2 * k + b];
    } else {
      SetStopsAt(sets[1..], d, c + d, i - 1, k, b);
      assert sets[1..][i - 1] == sets[i];
      assert Times(i, d) == Times(i - 1, d) + d;
      var jj := 2 * (Offset(sets[1..], i - 1) + k) + b;
      assert 2 * (Offset(sets, i) + k) + b == |ps| + jj;
      assert SetStops(sets, d, c)[|ps| + jj] == rest[jj];
    }
  }

  // ---------------------------------------------------------------------
  // What the scale promises.

  /**
   * The scale is built exactly when the colour set and every set in it
   * are non-empty; otherwise the division by `num_colours` or `num_subs`
   * fails. The last-element access never fails on its own.
   */
  lemma ColourScaleOutcome(colourSet: seq<seq<string>>)
    ensures ColourScale(colourSet).Ok? <==> WellFormed(colourSet)
    ensures ColourScale(colourSet).Err? ==> ColourScale(colourSet).error == ZeroDivisionError
  {
    if |colourSet| > 0 {
      var d := 1.0 / |colourSet| as real;
      if WellFormed(colourSet) {
        SetsIsSetStops(colourSet, d, 0.0, []);
        FlatAt(colourSet, 0, 0);
      } else {
        SetsEmptySet(colourSet, d, 0.0, []);
      }
    }
  }

  /** The outer loop ends with the cursor exactly at 1, in real arithmetic. */
  lemma ColourCursorReachesOne(colourSet: seq<seq<string>>)
    requires WellFormed(colourSet)
    ensures var run := Sets(colourSet, 1.0 / |colourSet| as real, 0.0, []);
      run.Ok? && run.value.1 == 1.0
  {
    SetsIsSetStops(colourSet, 1.0 / |colourSet| as real, 0.0, []);
    TimesDivides(|colourSet|, 1.0);
  }

  /** The scale is the reference stops with the last position replaced by 1. */
  lemma ColourScaleIsSetStops(colourSet: seq<seq<string>>)
    requires WellFormed(colourSet)
    ensures var s := SetStops(colourSet, 1.0 / |colourSet| as real, 0.0);
      && |s| > 0 && ColourScale(colourSet).Ok?
      && ColourScale(colourSet).value == s[|s| - 1 := Stop(1.0, s[|s| - 1].colour)]
  {
    SetsIsSetStops(colourSet, 1.0 / |colourSet| as real, 0.0, []);
    FlatAt(colourSet, 0, 0);
  }

  /** Two stops per sub-colour, in input order, both carrying that sub-colour. */
  lemma ColourScaleColours(colourSet: seq<seq<string>>)
    requires WellFormed(colourSet)
    ensures ColourScale(colourSet).Ok?
    ensures var out := ColourScale(colourSet).value;
      && |out| == 2 * |Flat(colourSet)|
      && forall j | 0 <= j < |out| :: out[j].colour == Flat(colourSet)[j / 2]
  {
    ColourScaleIsSetStops(colourSet);
    var d := 1.0 / |colourSet| as real;
    forall j | 0 <= j < 2 * |Flat(colourSet)|
      ensures SetStops(colourSet, d, 0.0)[j].colour == Flat(colourSet)[j / 2]
    {
      SetStopsColour(colourSet, d, 0.0, j);
    }
  }

  /** The first stop is at 0 and the last one at 1, keeping the last sub-colour. */
  lemma ColourScaleEnds(colourSet: seq<seq<string>>)
    requires WellFormed(colourSet)
    ensures ColourScale(colourSet).Ok?
    ensures var out := ColourScale(colourSet).value;
      var last := colourSet[|colourSet| - 1];
      && |out| >= 2
      && out[0].position == 0.0
      && out[|out| - 1] == Stop(1.0, last[|last| - 1])
  {
    ColourScaleIsSetStops(colourSet);
    ColourScaleColours(colourSet);
    var d := 1.0 / |colourSet| as real;
    var m := |colourSet| - 1;
    var last := colourSet[m];
    SetStopsAt(colourSet, d, 0.0, 0, 0, 0);
    OffsetBound(colourSet, m);
    FlatAt(colourSet, m, |last| - 1);
    var out := ColourScale(colourSet).value;
    var n := |Flat(colourSet)|;
    assert (2 * n - 1) / 2 == n - 1;
    assert out[2 * n - 1].colour == Flat(colourSet)[n - 1];
  }

  /** The second stop of a pair sits `w - 0.001` past the first. */
  lemma SetStopsSecond(sets: seq<seq<string>>, d: real, c: real, i: nat, k: nat)
    requires forall i | 0 <= i < |sets| :: sets[i] != []
    requires i < |sets| && k < |sets[i]|
    ensures var s := SetStops(sets, d, c);
      var j := 2 * (Offset(sets, i) + k);
      j + 1 < |s| && s[j + 1].position == s[j].position + d / |sets[i]| as real - 0.001
  {
    SetStopsAt(sets, d, c, i, k, 0);
    SetStopsAt(sets, d, c, i, k, 1);
  }

  /** The next pair of the same set opens one band past this one. */
  lemma SetStopsNextWithin(sets: seq<seq<string>>, d: real, c: real, i: nat, k: nat)
    requires forall i | 0 <= i < |sets| :: sets[i] != []
    requires i < |sets| && k + 1 < |sets[i]|
    ensures var s := SetStops(sets, d, c);
      var j := 2 * (Offset(sets, i) + k);
      j + 2 < |s| && s[j + 2].position == s[j].position + d / |sets[i]| as real
  {
    SetStopsAt(sets, d, c, i, k, 0);
    SetStopsAt(sets, d, c, i, k + 1, 0);
  }

  /** The first pair of the next set opens one band past the last pair of this one. */
  lemma SetStopsNextAcross(sets: seq<seq<string>>, d: real, c: real, i: nat)
    requires forall i | 0 <= i < |sets| :: sets[i] != []
    requires i + 1 < |sets|
    ensures var s := SetStops(sets, d, c);
      var j := 2 * (Offset(sets, i) + |sets[i]| - 1);
      j + 2 < |s| && s[j + 2].position == s[j].position + d / |sets[i]| as real
  {
    var n := |sets[i]|;
    var w := d / n as real;
    SetStopsAt(sets, d, c, i, n - 1, 0);
    SetStopsAt(sets, d, c, i + 1, 0, 0);
    OffsetBound(sets, i);
    TimesDivides(n, d);
    assert Times(n - 1, w) + w == d;
    assert Times(i + 1, d) == Times(i, d) + d;
    assert Times(0, d / |sets[i + 1]| as real) == 0.0;
  }

  /** The next pair of stops opens one band past this one, within a set or across into the next. */
  lemma SetStopsNext(sets: seq<seq<string>>, d: real, c: real, i: nat, k: nat)
    requires forall i | 0 <= i < |sets| :: sets[i] != []
    requires i < |sets| && k < |sets[i]|
    ensures var s := SetStops(sets, d, c);
      var j := 2 * (Offset(sets, i) + k);
      && j + 1 < |s|
      && s[j + 1].position == s[j].position + d / |sets[i]| as real - 0.001
      && (j + 2 < |s| ==> s[j + 2].position == s[j].position + d / |sets[i]| as real)
  {
    SetStopsSecond(sets, d, c, i, k);
    var j := 2 * (Offset(sets, i) + k);
    if k + 1 < |sets[i]| {
      SetStopsNextWithin(sets, d, c, i, k);
    } else if j + 2 < |SetStops(sets, d, c)| {
      OffsetBound(sets, i);
      assert i + 1 < |sets| by {
        if i + 1 == |sets| {
          OffsetAll(sets);
        }
      }
      SetStopsNextAcross(sets, d, c, i);
    }
  }

  /** The stops of sub-colour k of set i, in the cursor's own terms. */
  lemma ColourScaleStops(colourSet: seq<seq<string>>, i: nat, k: nat)
    requires WellFormed(colourSet) && i < |colourSet| && k < |colourSet[i]|
    ensures ColourScale(colourSet).Ok?
    ensures var out := ColourScale(colourSet).value;
      var d := 1.0 / |colourSet| as real;
      var w := d / |colourSet[i]| as real;
      var j := 2 * (Offset(colourSet, i) + k);
      && j + 1 < |out|
      && out[j].position == Times(i, d) + Times(k, w)
      && (j + 1 < |out| - 1 ==> out[j + 1].position == out[j].position + w - 0.001)
      && (j + 2 < |out| ==> out[j + 2].position == out[j].position + w)
  {
    ColourScaleIsSetStops(colourSet);
    var d := 1.0 / |colourSet| as real;
    SetStopsAt(colourSet, d, 0.0, i, k, 0);
    SetStopsNext(colourSet, d, 0.0, i, k);
  }

  /**
   * Sub-colour k of set i opens its band at `i / num_colours + k * w`,
   * where `w = (1 / num_colours) / num_subs`; the second stop of the pair
   * sits at `w - 0.001` past the first (unless it is the last stop, moved
   * to 1), and the next pair opens `w` past the first.
   */
  lemma ColourScalePositions(colourSet: seq<seq<string>>, i: nat, k: nat)
    requires WellFormed(colourSet) && i < |colourSet| && k < |colourSet[i]|
    ensures ColourScale(colourSet).Ok?
    ensures var out := ColourScale(colourSet).value;
      var d := 1.0 / |colourSet| as real;
      var w := d / |colourSet[i]| as real;
      var j := 2 * (Offset(colourSet, i) + k);
      && j + 1 < |out|
      && out[j].position == i as real * d + k as real * w
      && (j + 1 < |out| - 1 ==> out[j + 1].position == out[j].position + w - 0.001)
      && (j + 2 < |out| ==> out[j + 2].position == out[j].position + w)
  {
    ColourScaleStops(colourSet, i, k);
    TimesIsProduct(i, 1.0 / |colourSet| as real);
    TimesIsProduct(k, 1.0 / |colourSet| as real / |colourSet[i]| as real);
  }

  // ---------------------------------------------------------------------
  // Ordering: with bands wider than 0.001 the positions strictly increase.

  predicate Increasing(s: seq<Stop>)
  {
    forall j, k | 0 <= j < k < |s| :: s[j].position < s[k].position
  }

  predicate Within(s: seq<Stop>, lo: real, hi: real)
  {
    forall j | 0 <= j < |s| :: lo <= s[j].position <= hi
  }

  lemma IncreasingConcat(a: seq<Stop>, b: seq<Stop>, lo: real, mid: real, mid': real, hi: real)
    requires Increasing(a) && Increasing(b) && Within(a, lo, mid) && Within(b, mid', hi) && mid < mid'
    ensures Increasing(a + b)
    ensures lo <= mid' && mid <= hi ==> Within(a + b, lo, hi)
  {
    forall j, k | 0 <= j < k < |a + b|
      ensures (a + b)[j].position < (a + b)[k].position
    {
      if k >= |a| && j < |a| {
        assert (a + b)[j] == a[j] && (a + b)[k] == b[k - |a|];
      }
    }
  }

  lemma {:induction false} PairStopsIncreasing(subs: seq<string>, w: real, c: real)
    requires subs != [] && w > 0.001
    ensures Increasing(PairStops(subs, w, c))
    ensures Within(PairStops(subs, w, c), c, c + Times(|subs|, w) - 0.001)
    decreases |subs|
  {
    var two := [Stop(c, subs[0]), Stop(c + w - 0.001, subs[0])];
    if |subs| == 1 {
      assert PairStops(subs, w, c) == two;
    } else {
      PairStopsIncreasing(subs[1..], w, c + w);
      TimesNonNegative(|subs| - 1, w);
      IncreasingConcat(two, PairStops(subs[1..], w, c + w),
        c, c + w - 0.001, c + w, c + w + Times(|subs| - 1, w) - 0.001);
    }
  }

  lemma {:induction false} TimesNonNegative(k: nat, w: real)
    requires w >= 0.0
    ensures Times(k, w) >= 0.0
  {
    if k > 0 {
      TimesNonNegative(k - 1, w);
    }
  }

  lemma {:induction false} SetStopsIncreasing(sets: seq<seq<string>>, d: real, c: real)
    requires sets != [] && forall i | 0 <= i < |sets| :: sets[i] != []
    requires forall i | 0 <= i < |sets| :: d / |sets[i]| as real > 0.001
    ensures Increasing(SetStops(sets, d, c))
    ensures Within(SetStops(sets, d, c), c, c + Times(|sets|, d) - 0.001)
    decreases |sets|
  {
    var w := d / |sets[0]| as real;
    PairStopsIncreasing(sets[0], w, c);
    TimesDivides(|sets[0]|, d);
    var ps := PairStops(sets[0], w, c);
    if |sets| == 1 {
      assert SetStops(sets, d, c) == ps;
    } else {
      SetStopsIncreasing(sets[1..], d, c + d);
      TimesNonNegative(|sets| - 1, d);
      IncreasingConcat(ps, SetStops(sets[1..], d, c + d),
        c, c + d - 0.001, c + d, c + d + Times(|sets| - 1, d) - 0.001);
    }
  }

  /**
   * When every sub-colour's band is wider than 0.001 the stops' positions
   * strictly increase and stay within [0, 1].
   */
  lemma ColourScaleIncreasing(colourSet: seq<seq<string>>)
    requires WellFormed(colourSet)
    requires forall i | 0 <= i < |colourSet| :: 1.0 / |colourSet| as real / |colourSet[i]| as real > 0.001
    ensures ColourScale(colourSet).Ok?
    ensures var out := ColourScale(colourSet).value;
      Increasing(out) && Within(out, 0.0, 1.0)
  {
    ColourScaleIsSetStops(colourSet);
    var d := 1.0 / |colourSet| as real;
    SetStopsIncreasing(colourSet, d, 0.0);
    TimesDivides(|colourSet|, 1.0);
  }

  // ---------------------------------------------------------------------
  // The scheme the map uses.

  /** One set: ten grey sub-colours, then twenty-two red ones. */
  const ShippedColourSet: seq<seq<string>> := [seq(10, _ => "#bdc3c7") + seq(22, _ => "#d91e18")]

  /**
   * The map's scale has 64 stops: 20 grey, then 44 red, strictly
   * increasing from 0 to 1.
   */
  lemma ShippedColourScale()
    ensures ColourScale(ShippedColourSet).Ok?
    ensures var out := ColourScale(ShippedColourSet).value;
      && |out| == 64
      && (forall j | 0 <= j < 20 :: out[j].colour == "#bdc3c7")
      && (forall j | 20 <= j < 64 :: out[j].colour == "#d91e18")
      && out[0].position == 0.0 && out[63].position == 1.0
      && Increasing(out)
  {
    var cs := ShippedColourSet;
    assert WellFormed(cs);
    assert Flat(cs) == cs[0];
    ColourScaleColours(cs);
    ColourScaleEnds(cs);
    ColourScaleIncreasing(cs);
  }
}
