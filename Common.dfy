/** Types shared by every stage of the dashboard's data pipeline. */
module Common {

  datatype Option<T> = None | Some(value: T)

  /** The value of the `Status` column of the state-wise daily table. */
  datatype Status = Confirmed | Recovered | Deceased

  /** The column label a status becomes when a table is pivoted by `Status`. */
  function StatusName(st: Status): string
  {
    match st
    case Confirmed => "Confirmed"
    case Recovered => "Recovered"
    case Deceased => "Deceased"
  }

  /** The Python exceptions the pipeline can raise on a malformed input. */
  datatype Error =
    | KeyError(column: string)
    | ZeroDivisionError
    | IndexError

  datatype Result<T> = Ok(value: T) | Err(error: Error)

  /** Same as Result, for operations that return nothing. */
  datatype Outcome = Pass | Fail(error: Error)

  predicate Distinct<T(==)>(s: seq<T>)
  {
    forall i, j | 0 <= i < j < |s| :: s[i] != s[j]
  }

  /** Appending an element not yet present keeps a sequence distinct. */
  lemma DistinctSnoc<T>(s: seq<T>, x: T)
    requires Distinct(s) && x !in s
    ensures Distinct(s + [x])
  {
    assert forall i | 0 <= i < |s| :: (s + [x])[i] == s[i];
  }

  /**
   * The cleaned state-wise daily table: one row per (date, status), the
   * `Date` and `Status` columns, then one count column per state, in
   * column order (`states` is `df.columns[2:]`).
   */
  datatype Daily = Daily(
    dates: seq<int>,
    statuses: seq<Status>,
    states: seq<string>,
    counts: map<string, seq<int>>)
  {
    predicate Valid()
    {
      && |statuses| == |dates|
      && Distinct(states)
      && counts.Keys == set s | s in states
      && (forall s | s in counts :: |counts[s]| == |dates|)
    }

    function Rows(): nat { |dates| }
  }
}
