/** A dataframe of floating-point columns over a row index. */
module Frames {
  import opened Numeric

  /**
   * Row labels (`index`) and the columns by name, every column as long as
   * the index.
   */
  datatype Frame<K, C(==)> = Frame(index: seq<K>, cols: map<C, seq<Num>>)
  {
    predicate Valid()
    {
      forall c | c in cols :: |cols[c]| == |index|
    }

    /** `df[c] = values`: add or replace one column. */
    function Assign(c: C, values: seq<Num>): (r: Frame<K, C>)
      requires Valid() && |values| == |index|
      ensures r.Valid() && r.index == index
      ensures r.cols.Keys == cols.Keys + {c}
      ensures r.cols[c] == values
      ensures forall d | d in cols && d != c :: r.cols[d] == cols[d]
    {
      Frame(index, cols[c := values])
    }
  }

  /** `df.sum()`: every column's total, missing cells skipped. */
  function ColumnSums<K, C>(f: Frame<K, C>): (r: map<C, Num>)
    ensures r.Keys == f.cols.Keys
  {
    map c | c in f.cols :: Total(f.cols[c])
  }

  /**
   * `df.loc[key] = row`: every row carrying `key` takes the values of
   * `row`, column by column; with no such row, one is appended.
   */
  function SetRow<K(==), C>(f: Frame<K, C>, key: K, row: map<C, Num>): (r: Frame<K, C>)
    requires f.Valid() && f.cols.Keys <= row.Keys
    ensures r.Valid() && r.cols.Keys == f.cols.Keys
    ensures r.index == (if key in f.index then f.index else f.index + [key])
  {
    if key in f.index then
      Frame(f.index, map c | c in f.cols ::
        seq(|f.index|, i requires 0 <= i < |f.index| => if f.index[i] == key then row[c] else f.cols[c][i]))
    else
      Frame(f.index + [key], map c | c in f.cols :: f.cols[c] + [row[c]])
  }

  /** Rows carrying `key` take `row`'s value; every other row keeps its own. */
  lemma SetRowAt<K, C>(f: Frame<K, C>, key: K, row: map<C, Num>, c: C, i: nat)
    requires f.Valid() && f.cols.Keys <= row.Keys && c in f.cols && i < |f.index|
    ensures SetRow(f, key, row).cols[c][i] == if f.index[i] == key then row[c] else f.cols[c][i]
  {
  }

  /** With no row carrying `key`, the appended row holds `row`. */
  lemma SetRowAppended<K, C>(f: Frame<K, C>, key: K, row: map<C, Num>, c: C)
    requires f.Valid() && f.cols.Keys <= row.Keys && c in f.cols && key !in f.index
    ensures SetRow(f, key, row).cols[c][|f.index|] == row[c]
  {
  }

  /**
   * A dataframe a function changes in place and hands back to its caller,
   * as `add_derived_metrics` and `get_modified_state_metrics_df` do.
   */
  class DataFrame<K, C(==)> {
    var index: seq<K>
    var cols: map<C, seq<Num>>

    ghost predicate Valid()
      reads this
    {
      Value().Valid()
    }

    /** The frame's current contents. */
    function Value(): Frame<K, C>
      reads this
    {
      Frame(index, cols)
    }

    constructor (f: Frame<K, C>)
      requires f.Valid()
      ensures Valid() && Value() == f
    {
      index := f.index;
      cols := f.cols;
    }

    /** `df[c] = values`. */
    method SetColumn(c: C, values: seq<Num>)
      requires Valid() && |values| == |index|
      modifies this
      ensures Valid()
      ensures Value() == old(Value()).Assign(c, values)
    {
      cols := cols[c := values];
    }
  }

  /** `df.loc[key] = row` on a dataframe in place. */
  method LocSet<K(==), C>(df: DataFrame<K, C>, key: K, row: map<C, Num>)
    requires df.Valid() && df.cols.Keys <= row.Keys
    modifies df
    ensures df.Valid()
    ensures df.Value() == SetRow(old(df.Value()), key, row)
  {
    var f := SetRow(df.Value(), key, row);
    df.index := f.index;
    df.cols := f.cols;
  }
}
