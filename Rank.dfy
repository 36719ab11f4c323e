/**
 * `Series.rank(method='max', ascending=False)`, the ranking of the state
 * snapshot: a value's rank is how many values of the column are at least
 * as large, so the largest value ranks 1 and tied values share the larger
 * rank of the block they occupy. Missing values get no rank.
 */
module Rank {
  import opened Numeric

  /** `Ge` is reflexive on the values that are not missing. */
  lemma GeReflexive(x: Num)
    requires !Missing(x)
    ensures Ge(x, x)
  {
  }

  lemma GeTransitive(x: Num, y: Num, z: Num)
    requires Ge(x, y) && Ge(y, z)
    ensures Ge(x, z)
  {
  }

  /** Any two values that are not missing are comparable. */
  lemma GeTotal(x: Num, y: Num)
    requires !Missing(x) && !Missing(y)
    ensures Ge(x, y) || Ge(y, x)
  {
  }

  /** How many values of `col` are present. */
  function CountPresent(col: seq<Num>): nat
  {
    if col == [] then 0
    else CountPresent(col[..|col| - 1]) + (if Missing(col[|col| - 1]) then 0 else 1)
  }

  /** How many values of `col` are present and at least `v`. */
  function CountGe(col: seq<Num>, v: Num): nat
  {
    if col == [] then 0
    else CountGe(col[..|col| - 1], v) + (if !Missing(col[|col| - 1]) && Ge(col[|col| - 1], v) then 1 else 0)
  }

  /** The rank column. */
  function RankCol(col: seq<Num>): (r: seq<Num>)
    ensures |r| == |col|
    ensures forall i | 0 <= i < |col| :: Missing(r[i]) <==> Missing(col[i])
    ensures forall i | 0 <= i < |col| && !Missing(col[i]) :: r[i] == Fin(CountGe(col, col[i]) as real)
  {
    seq(|col|, i requires 0 <= i < |col| => if Missing(col[i]) then NaN else Fin(CountGe(col, col[i]) as real))
  }

  lemma {:induction false} CountGeAtMostPresent(col: seq<Num>, v: Num)
    ensures CountGe(col, v) <= CountPresent(col)
  {
    if col != [] {
      CountGeAtMostPresent(col[..|col| - 1], v);
    }
  }

  /** A present value counts itself. */
  lemma {:induction false} CountGeSelf(col: seq<Num>, i: nat)
    requires i < |col| && !Missing(col[i])
    ensures CountGe(col, col[i]) >= 1
  {
    var n := |col| - 1;
    if i < n {
      CountGeSelf(col[..n], i);
      assert col[..n][i] == col[i];
    } else {
      GeReflexive(col[i]);
    }
  }

  /** Raising the threshold never counts more values. */
  lemma {:induction false} CountGeAntitone(col: seq<Num>, a: Num, b: Num)
    requires Ge(a, b)
    ensures CountGe(col, a) <= CountGe(col, b)
  {
    if col != [] {
      CountGeAntitone(col[..|col| - 1], a, b);
      var last := col[|col| - 1];
      if !Missing(last) && Ge(last, a) {
        GeTransitive(last, a, b);
      }
    }
  }

  /**
   * A value below `a` but at least `b` is counted for `b` and not for `a`,
   * so the count for `a` is strictly smaller.
   */
  lemma {:induction false} CountGeStrict(col: seq<Num>, a: Num, b: Num, j: nat)
    requires Ge(a, b) && j < |col| && !Missing(col[j]) && Ge(col[j], b) && !Ge(col[j], a)
    ensures CountGe(col, a) < CountGe(col, b)
  {
    var n := |col| - 1;
    var last := col[n];
    if j < n {
      assert col[..n][j] == col[j];
      CountGeStrict(col[..n], a, b, j);
      if !Missing(last) && Ge(last, a) {
        GeTransitive(last, a, b);
      }
    } else {
      CountGeAntitone(col[..n], a, b);
    }
  }

  /** Every rank lies between 1 and the number of ranked values. */
  lemma RankBounds(col: seq<Num>, i: nat)
    requires i < |col| && !Missing(col[i])
    ensures 1.0 <= RankCol(col)[i].v <= CountPresent(col) as real
  {
    CountGeSelf(col, i);
    CountGeAtMostPresent(col, col[i]);
  }

  /** A strictly larger value ranks strictly better. */
  lemma RankStrict(col: seq<Num>, i: nat, j: nat)
    requires i < |col| && j < |col| && !Missing(col[i]) && !Missing(col[j])
    requires Ge(col[i], col[j]) && !Ge(col[j], col[i])
    ensures RankCol(col)[i].v < RankCol(col)[j].v
  {
    GeReflexive(col[j]);
    CountGeStrict(col, col[i], col[j], j);
  }

  /** Tied values share one rank. */
  lemma RankTies(col: seq<Num>, i: nat, j: nat)
    requires i < |col| && j < |col| && !Missing(col[i]) && col[j] == col[i]
    ensures RankCol(col)[i] == RankCol(col)[j]
  {
  }

  /** That rank is the larger one: every tied value counts towards it. */
  lemma {:induction false} RankCountsTies(col: seq<Num>, v: Num)
    requires !Missing(v)
    ensures CountGe(col, v) == CountAbove(col, v) + CountEqual(col, v)
  {
    if col != [] {
      RankCountsTies(col[..|col| - 1], v);
      var last := col[|col| - 1];
      if !Missing(last) {
        GeTotal(last, v);
      }
    }
  }

  /** How many values of `col` are strictly larger than `v`. */
  function CountAbove(col: seq<Num>, v: Num): nat
  {
    if col == [] then 0
    else CountAbove(col[..|col| - 1], v) + (if !Missing(col[|col| - 1]) && !Ge(v, col[|col| - 1]) then 1 else 0)
  }

  /** How many values of `col` equal `v`. */
  function CountEqual(col: seq<Num>, v: Num): nat
  {
    if col == [] then 0
    else CountEqual(col[..|col| - 1], v) + (if col[|col| - 1] == v then 1 else 0)
  }

  /** A unique largest value ranks 1. */
  lemma {:induction false} RankUniqueMax(col: seq<Num>, i: nat)
    requires i < |col| && !Missing(col[i])
    requires forall j | 0 <= j < |col| && j != i && !Missing(col[j]) :: !Ge(col[j], col[i])
    ensures RankCol(col)[i] == Fin(1.0)
  {
    CountGeUnique(col, col[i], i);
  }

  lemma {:induction false} CountGeUnique(col: seq<Num>, v: Num, i: nat)
    requires i < |col| && col[i] == v && !Missing(v)
    requires forall j | 0 <= j < |col| && j != i && !Missing(col[j]) :: !Ge(col[j], v)
    ensures CountGe(col, v) == 1
  {
    var n := |col| - 1;
    if i < n {
      assert forall j | 0 <= j < n && j != i && !Missing(col[..n][j]) :: !Ge(col[..n][j], v) by {
        assert forall j | 0 <= j < n :: col[..n][j] == col[j];
      }
      CountGeUnique(col[..n], v, i);
    } else {
      CountGeNone(col[..n], v);
      GeReflexive(v);
    }
  }

  lemma {:induction false} CountGeNone(col: seq<Num>, v: Num)
    requires forall j | 0 <= j < |col| && !Missing(col[j]) :: !Ge(col[j], v)
    ensures CountGe(col, v) == 0
  {
    if col != [] {
      var n := |col| - 1;
      assert forall j | 0 <= j < n :: col[..n][j] == col[j];
      CountGeNone(col[..n], v);
    }
  }
}
