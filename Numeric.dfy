/**
 * The floating-point cells of a dataframe, idealised: a finite value is an
 * exact real, and the IEEE special values that the pipeline produces by
 * dividing by zero or by shifting a column (+inf, -inf, NaN) are kept as
 * distinct constructors. NaN is pandas' "missing".
 */
module Numeric {

  datatype Num = Fin(v: real) | PosInf | NegInf | NaN

  function OfInt(n: int): Num { Fin(n as real) }

  predicate Missing(x: Num) { x.NaN? }

  function Negate(x: Num): Num
  {
    match x
    case Fin(a) => Fin(-a)
    case PosInf => NegInf
    case NegInf => PosInf
    case NaN => NaN
  }

  /** IEEE addition. */
  function Add(x: Num, y: Num): (r: Num)
    ensures x.Fin? && y.Fin? ==> r == Fin(x.v + y.v)
    ensures (x.NaN? || y.NaN?) ==> r.NaN?
  {
    match (x, y)
    case (NaN, _) => NaN
    case (_, NaN) => NaN
    case (PosInf, NegInf) => NaN
    case (NegInf, PosInf) => NaN
    case (PosInf, _) => PosInf
    case (_, PosInf) => PosInf
    case (NegInf, _) => NegInf
    case (_, NegInf) => NegInf
    case (Fin(a), Fin(b)) => Fin(a + b)
  }

  /** IEEE subtraction. */
  function Sub(x: Num, y: Num): (r: Num)
    ensures x.Fin? && y.Fin? ==> r == Fin(x.v - y.v)
    ensures (x.NaN? || y.NaN?) ==> r.NaN?
  {
    Add(x, Negate(y))
  }

  /** IEEE division (zero is taken as +0: x / 0 is +inf for x > 0, -inf for x < 0, NaN for 0). */
  function Div(x: Num, y: Num): (r: Num)
    ensures x.Fin? && y.Fin? && y.v != 0.0 ==> r == Fin(x.v / y.v)
    ensures x.Fin? && y == Fin(0.0) ==> r == (if x.v > 0.0 then PosInf else if x.v < 0.0 then NegInf else NaN)
    ensures (x.NaN? || y.NaN?) ==> r.NaN?
  {
    match (x, y)
    case (NaN, _) => NaN
    case (_, NaN) => NaN
    case (Fin(a), Fin(b)) =>
      if b != 0.0 then Fin(a / b)
      else if a > 0.0 then PosInf
      else if a < 0.0 then NegInf
      else NaN
    case (Fin(_), _) => Fin(0.0)
    case (_, Fin(b)) => if b >= 0.0 then x else Negate(x)
    case (_, _) => NaN
  }

  /** Multiplication by a positive constant, as in `x * 1000000`. */
  function Scale(x: Num, k: real): (r: Num)
    requires k > 0.0
    ensures x.Fin? <==> r.Fin?
    ensures x.Fin? ==> r.v == x.v * k
    ensures !x.Fin? ==> r == x
  {
    match x
    case Fin(a) => Fin(a * k)
    case _ => x
  }

  /** `Confirmed / population * 1000000`. */
  function PerMillion(count: Num, population: Num): Num
  {
    Scale(Div(count, population), 1000000.0)
  }

  /** The order pandas ranks by; only meaningful when neither side is NaN. */
  predicate Ge(x: Num, y: Num)
  {
    match (x, y)
    case (PosInf, _) => true
    case (_, NegInf) => true
    case (Fin(a), Fin(b)) => a >= b
    case (_, _) => false
  }

  /** Sum of a column that skips missing cells, as `Series.sum()` does. */
  function Total(s: seq<Num>): Num
  {
    if s == [] then Fin(0.0)
    else if Missing(s[|s| - 1]) then Total(s[..|s| - 1])
    else Add(Total(s[..|s| - 1]), s[|s| - 1])
  }

  /** The sum of the values of a column whose cells are all finite. */
  function FinSum(s: seq<Num>): real
    requires forall i | 0 <= i < |s| :: s[i].Fin?
  {
    if s == [] then 0.0 else FinSum(s[..|s| - 1]) + s[|s| - 1].v
  }

  /** On a column of finite cells the skipping sum is the ordinary sum. */
  lemma {:induction false} TotalOfFinite(s: seq<Num>)
    requires forall i | 0 <= i < |s| :: s[i].Fin?
    ensures Total(s) == Fin(FinSum(s))
  {
    if s != [] {
      TotalOfFinite(s[..|s| - 1]);
    }
  }

  /** Missing cells do not contribute to a column total. */
  lemma {:induction false} TotalIgnoresMissing(s: seq<Num>, t: seq<Num>)
    requires |s| == |t|
    requires forall i | 0 <= i < |s| :: s[i] == t[i] || (Missing(s[i]) && Missing(t[i]))
    ensures Total(s) == Total(t)
  {
    if s != [] {
      TotalIgnoresMissing(s[..|s| - 1], t[..|t| - 1]);
    }
  }

  // Column-wise versions of the operations, as pandas applies them to whole Series.

  function DivCol(a: seq<Num>, b: seq<Num>): (r: seq<Num>)
    requires |a| == |b|
    ensures |r| == |a|
    ensures forall i | 0 <= i < |r| :: r[i] == Div(a[i], b[i])
  {
    seq(|a|, i requires 0 <= i < |a| => Div(a[i], b[i]))
  }

  function PerMillionCol(a: seq<Num>, p: seq<Num>): (r: seq<Num>)
    requires |a| == |p|
    ensures |r| == |a|
    ensures forall i | 0 <= i < |r| :: r[i] == PerMillion(a[i], p[i])
  {
    seq(|a|, i requires 0 <= i < |a| => PerMillion(a[i], p[i]))
  }

  function FinCol(s: seq<int>): (r: seq<Num>)
    ensures |r| == |s|
    ensures forall i | 0 <= i < |r| :: r[i] == Fin(s[i] as real)
  {
    seq(|s|, i requires 0 <= i < |s| => Fin(s[i] as real))
  }

  /**
   * `Series.shift(k)`: every value moves k rows down, the first k rows
   * become missing.
   */
  function Shift(s: seq<Num>, k: nat): (r: seq<Num>)
    ensures |r| == |s|
  {
    seq(|s|, i requires 0 <= i < |s| => if i < k then NaN else s[i - k])
  }

  lemma ShiftAt(s: seq<Num>, k: nat, i: nat)
    requires i < |s|
    ensures i < k ==> Missing(Shift(s, k)[i])
    ensures i >= k ==> Shift(s, k)[i] == s[i - k]
  {
  }

  /** Sample values: 100 confirmed cases in a million people is 100 per million. */
  lemma PerMillionExample()
    ensures PerMillion(Fin(100.0), Fin(1000000.0)) == Fin(100.0)
    ensures PerMillion(Fin(200.0), Fin(2000000.0)) == Fin(100.0)
    ensures PerMillion(Fin(50.0), Fin(500000.0)) == Fin(100.0)
  {
  }

  /** A positive count over a positive population is the exact ratio times a million. */
  lemma PerMillionFinite(c: int, p: int)
    requires p > 0
    ensures PerMillion(Fin(c as real), Fin(p as real)) == Fin(c as real / p as real * 1000000.0)
  {
  }
}
