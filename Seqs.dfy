/** Sequence helpers standing for the dataframe library operations the pipeline calls. */
module Seqs {

  function Sum(s: seq<int>): int
  {
    if s == [] then 0 else Sum(s[..|s| - 1]) + s[|s| - 1]
  }

  lemma {:induction false} SumConcat(a: seq<int>, b: seq<int>)
    ensures Sum(a + b) == Sum(a) + Sum(b)
  {
    if b != [] {
      assert (a + b)[..|a + b| - 1] == a + b[..|b| - 1];
      SumConcat(a, b[..|b| - 1]);
    } else {
      assert a + b == a;
    }
  }

  lemma {:induction false} SumNonNegative(s: seq<int>)
    requires forall i | 0 <= i < |s| :: s[i] >= 0
    ensures Sum(s) >= 0
  {
    if s != [] {
      SumNonNegative(s[..|s| - 1]);
    }
  }

  /**
   * `Series.cumsum()`: a running total, each element the previous total plus
   * the next value.
   */
  function PrefixSums(s: seq<int>): (r: seq<int>)
    ensures |r| == |s|
  {
    if s == [] then []
    else
      var p := PrefixSums(s[..|s| - 1]);
      p + [(if p == [] then 0 else p[|p| - 1]) + s[|s| - 1]]
  }

  /** Element k of the running total is the sum of the first k + 1 values. */
  lemma {:induction false} PrefixSumsAt(s: seq<int>, k: nat)
    requires k < |s|
    ensures PrefixSums(s)[k] == Sum(s[..k + 1])
  {
    var init := s[..|s| - 1];
    var p := PrefixSums(init);
    if k < |s| - 1 {
      PrefixSumsAt(init, k);
      assert init[..k + 1] == s[..k + 1];
    } else if k > 0 {
      PrefixSumsAt(init, k - 1);
      assert init[..k] == s[..k];
      assert s[..k + 1][..k] == s[..k];
    } else {
      assert s[..1][..0] == [];
    }
  }

  /** With no negative value the running total never decreases. */
  lemma {:induction false} PrefixSumsMonotone(s: seq<int>, j: nat, k: nat)
    requires j <= k < |s|
    requires forall i | 0 <= i < |s| :: s[i] >= 0
    ensures PrefixSums(s)[j] <= PrefixSums(s)[k]
  {
    PrefixSumsAt(s, j);
    PrefixSumsAt(s, k);
    assert s[..k + 1] == s[..j + 1] + s[j + 1..k + 1];
    SumConcat(s[..j + 1], s[j + 1..k + 1]);
    var rest := s[j + 1..k + 1];
    assert forall i | 0 <= i < |rest| :: rest[i] == s[j + 1 + i];
    SumNonNegative(rest);
  }

  predicate StrictlyIncreasing(s: seq<int>)
  {
    forall i, j | 0 <= i < j < |s| :: s[i] < s[j]
  }

  function InsertSorted(x: int, s: seq<int>): (r: seq<int>)
    requires StrictlyIncreasing(s)
    ensures StrictlyIncreasing(r)
    ensures forall y :: y in r <==> y in s || y == x
  {
    if s == [] then [x]
    else if x < s[0] then [x] + s
    else if x == s[0] then s
    else
      var t := InsertSorted(x, s[1..]);
      assert forall k | 0 <= k < |s| - 1 :: s[1..][k] > s[0];
      assert forall k | 0 <= k < |t| :: t[k] > s[0] by {
        forall k | 0 <= k < |t|
          ensures t[k] > s[0]
        {
          assert t[k] in t;
        }
      }
      var r := [s[0]] + t;
      assert forall k | 1 <= k < |r| :: r[k] == t[k - 1];
      r
  }

  /**
   * The sorted index of distinct keys that `groupby` and `pivot_table`
   * produce.
   */
  function SortedDistinct(xs: seq<int>): (r: seq<int>)
    ensures StrictlyIncreasing(r)
    ensures forall y :: y in r <==> y in xs
  {
    if xs == [] then []
    else
      var r := InsertSorted(xs[|xs| - 1], SortedDistinct(xs[..|xs| - 1]));
      assert forall y | y in xs :: y in xs[..|xs| - 1] || y == xs[|xs| - 1];
      r
  }

  /** The indices at which `tags` holds `x`, in increasing order. */
  function Positions<T(==)>(tags: seq<T>, x: T): (r: seq<nat>)
    ensures forall k | 0 <= k < |r| :: r[k] < |tags|
  {
    if tags == [] then []
    else Positions(tags[..|tags| - 1], x) + (if tags[|tags| - 1] == x then [|tags| - 1] else [])
  }

  /** Positions lists each matching index exactly once, in increasing order. */
  lemma {:induction false} PositionsSpec<T>(tags: seq<T>, x: T)
    ensures forall a, b | 0 <= a < b < |Positions(tags, x)| :: Positions(tags, x)[a] < Positions(tags, x)[b]
    ensures forall i :: i in Positions(tags, x) <==> 0 <= i < |tags| && tags[i] == x
  {
    if tags != [] {
      PositionsSpec(tags[..|tags| - 1], x);
    }
  }

  /** No tag after the last listed position is `x`. */
  lemma {:induction false} PositionsTail<T>(tags: seq<T>, x: T)
    ensures var p := Positions(tags, x);
      forall j | (if p == [] then 0 else p[|p| - 1] + 1) <= j < |tags| :: tags[j] != x
  {
    if tags != [] {
      PositionsTail(tags[..|tags| - 1], x);
    }
  }

  /**
   * The k-th listed position holds `x`, comes after the one before it, and
   * no tag between the two is `x`.
   */
  lemma {:induction false} PositionsGap<T>(tags: seq<T>, x: T, k: nat)
    requires k < |Positions(tags, x)|
    ensures var p := Positions(tags, x);
      && tags[p[k]] == x
      && (k > 0 ==> p[k - 1] < p[k])
      && forall j | (if k == 0 then 0 else p[k - 1] + 1) <= j < p[k] :: tags[j] != x
  {
    var n := |tags| - 1;
    var p := Positions(tags, x);
    var init := Positions(tags[..n], x);
    assert p == init + (if tags[n] == x then [n] else []);
    if k < |init| {
      PositionsGap(tags[..n], x, k);
      assert p[k] == init[k];
      assert k > 0 ==> p[k - 1] == init[k - 1];
      assert forall j | 0 <= j < init[k] :: tags[..n][j] == tags[j];
    } else {
      assert p[k] == n && tags[n] == x;
      PositionsTail(tags[..n], x);
      assert forall j | 0 <= j < n :: tags[..n][j] == tags[j];
      if k > 0 {
        assert p[k - 1] == init[|init| - 1];
      }
    }
  }

  /** The rows of `s` at `idx`, in that order. */
  function Select<T>(s: seq<T>, idx: seq<nat>): (r: seq<T>)
    requires forall k | 0 <= k < |idx| :: idx[k] < |s|
    ensures |r| == |idx|
    ensures forall k | 0 <= k < |idx| :: r[k] == s[idx[k]]
  {
    seq(|idx|, k requires 0 <= k < |idx| => s[idx[k]])
  }

  /** How many tags equal `x`. */
  function Count<U(==)>(tags: seq<U>, x: U): nat
  {
    if tags == [] then 0 else Count(tags[..|tags| - 1], x) + (if tags[|tags| - 1] == x then 1 else 0)
  }

  /** `s[tags == x]`: boolean-mask indexing, row by row. */
  function KeepWhere<T, U(==)>(s: seq<T>, tags: seq<U>, x: U): (r: seq<T>)
    requires |s| == |tags|
    ensures |r| == Count(tags, x) <= |s|
  {
    if s == [] then []
    else
      KeepWhere(s[..|s| - 1], tags[..|tags| - 1], x) + (if tags[|tags| - 1] == x then [s[|s| - 1]] else [])
  }

  /** The last row is kept exactly when its tag is `x`. */
  lemma KeepWhereLast<T, U>(s: seq<T>, tags: seq<U>, x: U)
    requires |s| == |tags| > 0
    ensures KeepWhere(s, tags, x) ==
      KeepWhere(s[..|s| - 1], tags[..|s| - 1], x) + (if tags[|s| - 1] == x then [s[|s| - 1]] else [])
  {
  }

  /** One row more at the end. */
  lemma KeepWhereSnoc<T, U>(s: seq<T>, tags: seq<U>, e: T, f: U, x: U)
    requires |s| == |tags|
    ensures KeepWhere(s + [e], tags + [f], x) == KeepWhere(s, tags, x) + (if f == x then [e] else [])
  {
    assert (s + [e])[..|s|] == s && (tags + [f])[..|tags|] == tags;
  }

  /**
   * The mask keeps the rows at the positions where the tag equals `x`, and
   * only those, in their original order.
   */
  lemma {:induction false} KeepWhereIsSelect<T, U>(s: seq<T>, tags: seq<U>, x: U)
    requires |s| == |tags|
    ensures KeepWhere(s, tags, x) == Select(s, Positions(tags, x))
  {
    if s != [] {
      var n := |s| - 1;
      KeepWhereIsSelect(s[..n], tags[..n], x);
      var p := Positions(tags[..n], x);
      assert tags[..|tags| - 1] == tags[..n];
      var lhs := KeepWhere(s, tags, x);
      var rhs := Select(s, Positions(tags, x));
      assert |lhs| == |rhs|;
      forall k | 0 <= k < |lhs|
        ensures lhs[k] == rhs[k]
      {
        if k < |p| {
          assert lhs[k] == Select(s[..n], p)[k];
        }
      }
    }
  }

  /** The mask that keeps row i when `keep[i]` holds and its key is `x`. */
  function Both<U(==)>(keep: seq<bool>, keys: seq<U>, x: U): (r: seq<bool>)
    requires |keep| == |keys|
    ensures |r| == |keep|
    ensures forall i | 0 <= i < |keep| :: r[i] == (keep[i] && keys[i] == x)
  {
    seq(|keep|, i requires 0 <= i < |keep| => keep[i] && keys[i] == x)
  }

  /** Filtering by a mask and then by a key is filtering once by both. */
  lemma {:induction false} KeepWhereCompose<T, U>(d: seq<T>, keys: seq<U>, keep: seq<bool>, x: U)
    requires |d| == |keys| == |keep|
    ensures KeepWhere(KeepWhere(d, keep, true), KeepWhere(keys, keep, true), x) ==
      KeepWhere(d, Both(keep, keys, x), true)
  {
    if d != [] {
      var n := |d| - 1;
      KeepWhereCompose(d[..n], keys[..n], keep[..n], x);
      assert Both(keep, keys, x)[..n] == Both(keep[..n], keys[..n], x);
      var a := KeepWhere(d[..n], keep[..n], true);
      var b := KeepWhere(keys[..n], keep[..n], true);
      KeepWhereLast(d, keep, true);
      KeepWhereLast(keys, keep, true);
      KeepWhereLast(d, Both(keep, keys, x), true);
      if keep[n] {
        KeepWhereSnoc(a, b, d[n], keys[n], x);
      } else {
        assert a + [] == a && b + [] == b;
      }
    }
  }

  /** Two masks that agree row by row keep the same rows. */
  lemma {:induction false} KeepWhereSameMask<T, U, V>(s: seq<T>, tags: seq<U>, x: U, other: seq<V>, y: V)
    requires |s| == |tags| == |other|
    requires forall i | 0 <= i < |s| :: (tags[i] == x) == (other[i] == y)
    ensures KeepWhere(s, tags, x) == KeepWhere(s, other, y)
  {
    if s != [] {
      var n := |s| - 1;
      KeepWhereSameMask(s[..n], tags[..n], x, other[..n], y);
    }
  }

  /**
   * Over non-negative values, a mask that keeps fewer rows has a smaller
   * sum.
   */
  lemma {:induction false} KeepWhereSumMonotone(s: seq<int>, few: seq<bool>, many: seq<bool>)
    requires |s| == |few| == |many|
    requires forall i | 0 <= i < |s| :: s[i] >= 0 && (few[i] ==> many[i])
    ensures Sum(KeepWhere(s, few, true)) <= Sum(KeepWhere(s, many, true))
  {
    if s != [] {
      var n := |s| - 1;
      KeepWhereSumMonotone(s[..n], few[..n], many[..n]);
      var a := KeepWhere(s[..n], few[..n], true);
      var b := KeepWhere(s[..n], many[..n], true);
      SumConcat(a, if few[n] then [s[n]] else []);
      SumConcat(b, if many[n] then [s[n]] else []);
    }
  }

  /** Two equally long columns added row by row. */
  function AddSeq(a: seq<int>, b: seq<int>): (r: seq<int>)
    requires |a| == |b|
    ensures |r| == |a|
    ensures forall i | 0 <= i < |a| :: r[i] == a[i] + b[i]
  {
    seq(|a|, i requires 0 <= i < |a| => a[i] + b[i])
  }

  /** Masking commutes with adding columns. */
  lemma {:induction false} KeepWhereSumAdd(a: seq<int>, b: seq<int>, mask: seq<bool>)
    requires |a| == |b| == |mask|
    ensures Sum(KeepWhere(AddSeq(a, b), mask, true)) ==
      Sum(KeepWhere(a, mask, true)) + Sum(KeepWhere(b, mask, true))
  {
    if a != [] {
      var n := |a| - 1;
      assert AddSeq(a, b)[..n] == AddSeq(a[..n], b[..n]);
      KeepWhereSumAdd(a[..n], b[..n], mask[..n]);
      var ka := KeepWhere(a[..n], mask[..n], true);
      var kb := KeepWhere(b[..n], mask[..n], true);
      var kab := KeepWhere(AddSeq(a, b)[..n], mask[..n], true);
      SumConcat(ka, if mask[n] then [a[n]] else []);
      SumConcat(kb, if mask[n] then [b[n]] else []);
      SumConcat(kab, if mask[n] then [a[n] + b[n]] else []);
      assert Sum([a[n]]) == a[n] && Sum([b[n]]) == b[n] && Sum([a[n] + b[n]]) == a[n] + b[n] by {
        assert [a[n]][..0] == [] && [b[n]][..0] == [] && [a[n] + b[n]][..0] == [];
      }
    }
  }

  lemma {:induction false} SumZeros(s: seq<int>)
    requires forall i | 0 <= i < |s| :: s[i] == 0
    ensures Sum(s) == 0
  {
    if s != [] {
      SumZeros(s[..|s| - 1]);
    }
  }

  /** Each row's total across the columns `cols`, every one `n` long. */
  function RowTotals(cols: seq<seq<int>>, n: nat): (r: seq<int>)
    requires forall j | 0 <= j < |cols| :: |cols[j]| == n
    ensures |r| == n
  {
    if cols == [] then seq(n, i => 0)
    else AddSeq(RowTotals(cols[..|cols| - 1], n), cols[|cols| - 1])
  }

  /** Row i's values, one per column. */
  function RowOf(cols: seq<seq<int>>, n: nat, i: nat): (r: seq<int>)
    requires forall j | 0 <= j < |cols| :: |cols[j]| == n
    requires i < n
    ensures |r| == |cols| && forall j | 0 <= j < |cols| :: r[j] == cols[j][i]
  {
    seq(|cols|, j requires 0 <= j < |cols| => cols[j][i])
  }

  /** A row's total is the sum of that row's values. */
  lemma {:induction false} RowTotalsAt(cols: seq<seq<int>>, n: nat, i: nat)
    requires forall j | 0 <= j < |cols| :: |cols[j]| == n
    requires i < n
    ensures RowTotals(cols, n)[i] == Sum(RowOf(cols, n, i))
  {
    if cols != [] {
      var m := |cols| - 1;
      RowTotalsAt(cols[..m], n, i);
      assert RowOf(cols, n, i)[..m] == RowOf(cols[..m], n, i);
    }
  }

  /** Each column's sum over the rows the mask keeps. */
  function MaskedSums(cols: seq<seq<int>>, mask: seq<bool>): (r: seq<int>)
    requires forall j | 0 <= j < |cols| :: |cols[j]| == |mask|
    ensures |r| == |cols|
  {
    seq(|cols|, j requires 0 <= j < |cols| => Sum(KeepWhere(cols[j], mask, true)))
  }

  /**
   * Summing the kept rows' totals is summing each column's kept rows: the
   * order of the two sums can be exchanged.
   */
  lemma {:induction false} SumExchange(cols: seq<seq<int>>, mask: seq<bool>)
    requires forall j | 0 <= j < |cols| :: |cols[j]| == |mask|
    ensures Sum(KeepWhere(RowTotals(cols, |mask|), mask, true)) == Sum(MaskedSums(cols, mask))
  {
    var n := |mask|;
    if cols == [] {
      var zeros := RowTotals(cols, n);
      KeepWhereIsSelect(zeros, mask, true);
      SumZeros(KeepWhere(zeros, mask, true));
    } else {
      var m := |cols| - 1;
      SumExchange(cols[..m], mask);
      KeepWhereSumAdd(RowTotals(cols[..m], n), cols[m], mask);
      assert MaskedSums(cols, mask)[..m] == MaskedSums(cols[..m], mask);
    }
  }
}
