/**
 * The text helpers of helper.py that the KPI cards use: magnitude
 * suffixes, percentage formatting, the change-since-yesterday text and the
 * metric display names. Characters are compared as ASCII.
 */
module Format {
  import opened Common
  import opened Numeric

  // ---------------------------------------------------------------------
  // human_format
  // ---------------------------------------------------------------------

  function Pow1000(m: nat): (r: real)
    ensures r >= 1.0
  {
    if m == 0 then 1.0 else 1000.0 * Pow1000(m - 1)
  }

  function AbsReal(x: real): real { if x < 0.0 then -x else x }

  /**
   * What `human_format` prints: the number shown (before `round(_, 2)`) and
   * its suffix.
   */
  datatype Human = Human(shown: real, suffix: string)

  /**
   * `human_format` by thresholds: thousands get K, millions get M, and
   * anything else (below a thousand, or a billion and more) is printed
   * as its absolute value without a suffix.
   */
  function HumanFormatted(x: real): Human
  {
    var a := AbsReal(x);
    if 1000.0 <= a < 1000000.0 then Human(a / 1000.0, "K")
    else if 1000000.0 <= a < 1000000000.0 then Human(a / 1000000.0, "M")
    else Human(a, "")
  }

  /** A suffixed number is shown with one to three digits before the point. */
  lemma HumanFormattedShown(x: real)
    ensures HumanFormatted(x).suffix != "" ==> 1.0 <= HumanFormatted(x).shown < 1000.0
    ensures HumanFormatted(x).suffix == "" ==> HumanFormatted(x).shown == AbsReal(x)
    ensures HumanFormatted(x).shown >= 0.0
  {
  }

  /**
   * `human_format(num)`: divide by a thousand while the number has four or
   * more digits, counting the divisions, then choose the suffix by that
   * count.
   */
  method HumanFormat(x: real) returns (h: Human)
    ensures h == HumanFormatted(x)
    ensures h.suffix == "K" <==> 1000.0 <= AbsReal(x) < 1000000.0
    ensures h.suffix == "M" <==> 1000000.0 <= AbsReal(x) < 1000000000.0
  {
    var num := AbsReal(x);
    var magnitude: nat := 0;
    var original := num;
    while num >= 1000.0
      invariant num >= 0.0
      invariant original == num * Pow1000(magnitude)
      invariant magnitude > 0 ==> num >= 1.0
      decreases num.Floor
    {
      magnitude := magnitude + 1;
      assert num / 1000.0 <= num - 1.0;
      num := num / 1000.0;
    }
    assert num < 1000.0;
    if magnitude == 1 {
      h := Human(num, "K");
    } else if magnitude == 2 {
      assert original == num * 1000000.0;
      h := Human(num, "M");
    } else {
      if magnitude >= 3 {
        BillionOrMore(num, magnitude);
      }
      h := Human(original, "");
    }
  }

  /** Three or more divisions mean the number was at least a billion. */
  lemma {:induction false} BillionOrMore(num: real, m: nat)
    requires m >= 3 && num >= 1.0
    ensures num * Pow1000(m) >= 1000000000.0
  {
    if m > 3 {
      BillionOrMore(num, m - 1);
    }
  }

  // ---------------------------------------------------------------------
  // print_formatted
  // ---------------------------------------------------------------------

  function Lower(c: char): char
  {
    if 'A' <= c <= 'Z' then (c as int - 'A' as int + 'a' as int) as char else c
  }

  function Upper(c: char): char
  {
    if 'a' <= c <= 'z' then (c as int - 'a' as int + 'A' as int) as char else c
  }

  function LowerString(s: string): (r: string)
    ensures |r| == |s| && forall i | 0 <= i < |s| :: r[i] == Lower(s[i])
  {
    seq(|s|, i requires 0 <= i < |s| => Lower(s[i]))
  }

  predicate EndsWith(s: string, suffix: string)
  {
    |suffix| <= |s| && s[|s| - |suffix|..] == suffix
  }

  /** What `print_formatted` prints: a percentage (before `:.2f`) or a human-formatted number. */
  datatype Shown = Percent(pct: real) | Number(human: Human)

  /** The metrics shown as percentages: rates and the share vaccinated. */
  predicate IsPercentMetric(metric: string)
  {
    var m := LowerString(metric);
    EndsWith(m, "rate") || m == "pct_vaccinated"
  }

  /** `print_formatted(value, metric)`. */
  function PrintFormatted(value: real, metric: string): (r: Shown)
    ensures r.Percent? <==> IsPercentMetric(metric)
    ensures r.Percent? ==> r.pct == 100.0 * value
    ensures r.Number? ==> r.human == HumanFormatted(value)
  {
    if IsPercentMetric(metric) then Percent(100.0 * value) else Number(HumanFormatted(value))
  }

  lemma PrintFormattedExamples()
    ensures PrintFormatted(0.0123, "case_fatality_rate") == Percent(1.23)
    ensures PrintFormatted(0.5, "Pct_Vaccinated") == Percent(50.0)
    ensures PrintFormatted(2500.0, "Confirmed") == Number(Human(2.5, "K"))
    ensures PrintFormatted(-3000000.0, "Deceased") == Number(Human(3.0, "M"))
  {
    assert LowerString("case_fatality_rate")[14..] == "rate";
    assert LowerString("Pct_Vaccinated") == "pct_vaccinated";
    assert LowerString("Confirmed") == "confirmed";
    assert LowerString("Deceased") == "deceased";
  }

  // ---------------------------------------------------------------------
  // delta_print_pct, print_delta
  // ---------------------------------------------------------------------

  /** Python's `round(x)`: to the nearest integer, halves to the even one. */
  function RoundHalfEven(x: real): (r: int)
    ensures AbsReal(r as real - x) <= 0.5
  {
    var f := x.Floor;
    var frac := x - f as real;
    if frac < 0.5 then f
    else if frac > 0.5 then f + 1
    else if f % 2 == 0 then f
    else f + 1
  }

  /** What `delta_print_pct` returns: a whole percentage, "∞" or ">1000". */
  datatype DeltaPct = Whole(n: nat) | Infinite | Over1000

  /**
   * `delta_print_pct(prev, now)`: the percentage change from `prev` to
   * `now`, rounded; "∞" from zero to anything else, and ">1000" once the
   * ratio is ten or more away from one. NaN compares false: a NaN `prev`
   * gives ">1000", and a NaN `now` gives "∞" from zero and ">1000" otherwise.
   */
  function DeltaPrintPct(prev: Num, now: Num): (r: DeltaPct)
    ensures prev == Fin(0.0) ==> (r == Whole(0) <==> now == Fin(0.0))
    ensures prev == Fin(0.0) ==> (r == Infinite <==> now != Fin(0.0))
    ensures prev != Fin(0.0) ==> r != Infinite
    ensures r.Whole? ==> r.n <= 1000
    ensures prev.Fin? && now.Fin? && prev.v != 0.0 ==>
      (r == Over1000 <==> AbsReal(now.v / prev.v - 1.0) >= 10.0)
    ensures prev.Fin? && now.Fin? && prev.v != 0.0 && r.Whole? ==>
      AbsReal(r.n as real - AbsReal(100.0 * (now.v / prev.v - 1.0))) <= 0.5
    ensures prev.NaN? ==> r == Over1000
    ensures now.NaN? ==> r == if prev == Fin(0.0) then Infinite else Over1000
  {
    if prev == Fin(0.0) then
      if now == Fin(0.0) then Whole(0) else Infinite
    else
      var result := Add(Div(now, prev), Fin(-1.0));
      assert prev.Fin? && now.Fin? && prev.v != 0.0 ==> result == Fin(now.v / prev.v - 1.0);
      PctOfChange(result)
  }

  /** The `abs(result) < 10` branch: the rounded percentage of a change, or ">1000". */
  function PctOfChange(result: Num): (r: DeltaPct)
    ensures r != Infinite
    ensures r.Whole? ==> r.n <= 1000
    ensures result.Fin? ==> (r == Over1000 <==> AbsReal(result.v) >= 10.0)
    ensures result.Fin? && r.Whole? ==> AbsReal(r.n as real - AbsReal(100.0 * result.v)) <= 0.5
    ensures !result.Fin? ==> r == Over1000
  {
    if result.Fin? && AbsReal(result.v) < 10.0 then
      var rounded := RoundHalfEven(result.v * 100.0);
      assert AbsReal(rounded as real - result.v * 100.0) <= 0.5;
      Whole(if rounded < 0 then -rounded else rounded)
    else Over1000
  }

  lemma DeltaPrintPctExamples()
    ensures DeltaPrintPct(Fin(0.0), Fin(0.0)) == Whole(0)
    ensures DeltaPrintPct(Fin(0.0), Fin(5.0)) == Infinite
    ensures DeltaPrintPct(Fin(200.0), Fin(250.0)) == Whole(25)
    ensures DeltaPrintPct(Fin(200.0), Fin(150.0)) == Whole(25)
    ensures DeltaPrintPct(Fin(8.0), Fin(9.0)) == Whole(12)
    ensures DeltaPrintPct(Fin(10.0), Fin(110.0)) == Over1000
  {
  }

  /** `now > prev` on floats: false whenever either side is NaN. */
  predicate Greater(now: Num, prev: Num)
  {
    match (now, prev)
    case (Fin(a), Fin(b)) => a > b
    case (PosInf, Fin(_)) => true
    case (PosInf, NegInf) => true
    case (Fin(_), NegInf) => true
    case (_, _) => false
  }

  function DigitChar(d: nat): char
    requires d < 10
  {
    ('0' as int + d) as char
  }

  /** `str(n)` for a natural number. */
  function NatToString(n: nat): (r: string)
    ensures |r| >= 1
    ensures forall i | 0 <= i < |r| :: '0' <= r[i] <= '9'
    ensures n > 0 ==> r[0] != '0'
    decreases n
  {
    if n < 10 then [DigitChar(n)] else NatToString(n / 10) + [DigitChar(n % 10)]
  }

  /** The text `delta_print_pct` becomes inside an f-string. */
  function DeltaText(d: DeltaPct): string
  {
    match d
    case Whole(n) => NatToString(n)
    case Infinite => "∞"
    case Over1000 => ">1000"
  }

  /**
   * `print_delta(prev, now)`: an up-triangle exactly when the value grew,
   * else a down-triangle, then the percentage text and a percent sign.
   */
  function PrintDelta(prev: Num, now: Num): (r: string)
    ensures |r| >= 3
    ensures r[0] == '▲' <==> Greater(now, prev)
    ensures r[0] == '▼' <==> !Greater(now, prev)
    ensures r[|r| - 1] == '%'
  {
    [if Greater(now, prev) then '▲' else '▼'] + DeltaText(DeltaPrintPct(prev, now)) + "%"
  }

  // Reading a printed delta back, as the partner of PrintDelta.

  function DigitValue(c: char): nat
    requires '0' <= c <= '9'
  {
    c as int - '0' as int
  }

  function ParseNat(s: string): nat
    requires forall i | 0 <= i < |s| :: '0' <= s[i] <= '9'
  {
    if s == [] then 0 else 10 * ParseNat(s[..|s| - 1]) + DigitValue(s[|s| - 1])
  }

  lemma {:induction false} ParseNatToString(n: nat)
    ensures ParseNat(NatToString(n)) == n
    decreases n
  {
    var s := NatToString(n);
    if n >= 10 {
      ParseNatToString(n / 10);
      assert s[..|s| - 1] == NatToString(n / 10);
    }
  }

  function ParseDeltaText(s: string): Option<DeltaPct>
  {
    if s == "∞" then Some(Infinite)
    else if s == ">1000" then Some(Over1000)
    else if |s| >= 1 && forall i | 0 <= i < |s| :: '0' <= s[i] <= '9' then Some(Whole(ParseNat(s)))
    else None
  }

  /** Whether the delta went up, and the percentage it shows. */
  function ParseDelta(s: string): Option<(bool, DeltaPct)>
  {
    if |s| < 2 || s[|s| - 1] != '%' || (s[0] != '▲' && s[0] != '▼') then None
    else
      match ParseDeltaText(s[1..|s| - 1])
      case None => None
      case Some(d) => Some((s[0] == '▲', d))
  }

  /** The percentage text reads back as the percentage. */
  lemma DeltaTextRoundTrip(d: DeltaPct)
    ensures ParseDeltaText(DeltaText(d)) == Some(d)
  {
    match d
    case Whole(n) =>
      ParseNatToString(n);
      assert DeltaText(d) != "∞" && DeltaText(d) != ">1000" by {
        assert '0' <= DeltaText(d)[0] <= '9';
      }
    case Infinite =>
    case Over1000 =>
  }

  /** The printed delta gives back its direction and its percentage. */
  lemma PrintDeltaRoundTrip(prev: Num, now: Num)
    ensures ParseDelta(PrintDelta(prev, now)) == Some((Greater(now, prev), DeltaPrintPct(prev, now)))
  {
    var d := DeltaPrintPct(prev, now);
    var s := PrintDelta(prev, now);
    assert s[1..|s| - 1] == DeltaText(d);
    DeltaTextRoundTrip(d);
  }

  // ---------------------------------------------------------------------
  // fix_name
  // ---------------------------------------------------------------------

  /** `s.split(sep)`: never empty; an empty piece between adjacent separators. */
  function Split(s: string, sep: char): (r: seq<string>)
    ensures |r| >= 1
    ensures forall k | 0 <= k < |r| :: sep !in r[k]
  {
    if s == [] then [[]]
    else
      var p := Split(s[..|s| - 1], sep);
      var c := s[|s| - 1];
      if c == sep then p + [[]] else p[..|p| - 1] + [p[|p| - 1] + [c]]
  }

  /** `sep.join(parts)`. */
  function Join(sep: string, parts: seq<string>): string
  {
    if parts == [] then []
    else if |parts| == 1 then parts[0]
    else Join(sep, parts[..|parts| - 1]) + sep + parts[|parts| - 1]
  }

  lemma JoinExtendLast(sep: string, parts: seq<string>, c: char)
    requires |parts| >= 1
    ensures Join(sep, parts[..|parts| - 1] + [parts[|parts| - 1] + [c]]) == Join(sep, parts) + [c]
  {
    var q := parts[..|parts| - 1] + [parts[|parts| - 1] + [c]];
    if |parts| > 1 {
      assert q[..|q| - 1] == parts[..|parts| - 1];
    }
  }

  /** Every occurrence of `from` replaced by `to`. */
  function ReplaceChar(s: string, from: char, to: char): (r: string)
    ensures |r| == |s|
    ensures forall i | 0 <= i < |s| :: r[i] == if s[i] == from then to else s[i]
  {
    seq(|s|, i requires 0 <= i < |s| => if s[i] == from then to else s[i])
  }

  /** `' '.join(s.split('_'))` replaces every underscore by a space. */
  lemma {:induction false} JoinSplit(s: string)
    ensures Join(" ", Split(s, '_')) == ReplaceChar(s, '_', ' ')
  {
    if s != [] {
      var init := s[..|s| - 1];
      var c := s[|s| - 1];
      var p := Split(init, '_');
      JoinSplit(init);
      assert ReplaceChar(s, '_', ' ') == ReplaceChar(init, '_', ' ') + [if c == '_' then ' ' else c];
      if c == '_' {
        assert (p + [[]])[..|p|] == p;
      } else {
        JoinExtendLast(" ", p, c);
      }
    }
  }

  predicate IsLetter(c: char)
  {
    'a' <= c <= 'z' || 'A' <= c <= 'Z'
  }

  /**
   * `str.title()` on the text after a character that was (`afterLetter`)
   * or was not a letter: a letter that starts a word is upper-cased, any
   * other letter lower-cased, and the rest kept.
   */
  function TitleFrom(s: string, afterLetter: bool): (r: string)
    ensures |r| == |s|
  {
    if s == [] then []
    else
      var c := s[0];
      [if !IsLetter(c) then c else if afterLetter then Lower(c) else Upper(c)] + TitleFrom(s[1..], IsLetter(c))
  }

  function Title(s: string): string
  {
    TitleFrom(s, false)
  }

  /** Character by character, `title()` capitalises exactly the letters that start a word. */
  lemma {:induction false} TitleFromAt(s: string, afterLetter: bool, i: nat)
    requires i < |s|
    ensures TitleFrom(s, afterLetter)[i] ==
      if !IsLetter(s[i]) then s[i]
      else if (if i == 0 then afterLetter else IsLetter(s[i - 1])) then Lower(s[i])
      else Upper(s[i])
  {
    if i > 0 {
      TitleFromAt(s[1..], IsLetter(s[0]), i - 1);
    }
  }

  /**
   * `fix_name(metric)`: the three names with a fixed display text, and
   * every other metric name with underscores made spaces and title-cased.
   */
  function FixName(metric: string): (r: string)
    ensures metric == "Confirmed" ==> r == "Cases"
    ensures metric == "Deceased" ==> r == "Deaths"
    ensures metric == "pct_vaccinated" ==> r == "Percentage vaccinated"
    ensures metric != "Confirmed" && metric != "Deceased" && metric != "pct_vaccinated" ==> r == Pretty(metric)
  {
    if metric == "Confirmed" then "Cases"
    else if metric == "Deceased" then "Deaths"
    else if metric == "pct_vaccinated" then "Percentage vaccinated"
    else Pretty(metric)
  }

  /** The words of `metric` (split at underscores) joined by spaces, title-cased. */
  function Pretty(metric: string): string
  {
    Title(Join(" ", Split(metric, '_')))
  }

  /**
   * A metric name without a fixed display text keeps its length, loses
   * every underscore, and has exactly its word-initial letters upper-cased.
   */
  lemma PrettySpec(metric: string)
    ensures |Pretty(metric)| == |metric|
    ensures '_' !in Pretty(metric)
    ensures forall i | 0 <= i < |metric| ::
      Pretty(metric)[i] ==
        if metric[i] == '_' then ' '
        else if !IsLetter(metric[i]) then metric[i]
        else if i > 0 && IsLetter(metric[i - 1]) then Lower(metric[i])
        else Upper(metric[i])
  {
    JoinSplit(metric);
    var joined := ReplaceChar(metric, '_', ' ');
    var r := Pretty(metric);
    assert r == TitleFrom(joined, false);
    forall i | 0 <= i < |metric|
      ensures metric[i] == '_' ==> r[i] == ' '
      ensures metric[i] != '_' && !IsLetter(metric[i]) ==> r[i] == metric[i]
      ensures IsLetter(metric[i]) && i > 0 && IsLetter(metric[i - 1]) ==> r[i] == Lower(metric[i])
      ensures IsLetter(metric[i]) && (i == 0 || !IsLetter(metric[i - 1])) ==> r[i] == Upper(metric[i])
      ensures r[i] != '_'
    {
      TitleFromAt(joined, false, i);
      assert !IsLetter(' ') && !IsLetter('_');
      if i > 0 {
        assert IsLetter(joined[i - 1]) == IsLetter(metric[i - 1]);
      }
    }
  }

  lemma FixNameExamples()
    ensures FixName("Confirmed") == "Cases"
    ensures FixName("Deceased") == "Deaths"
    ensures FixName("pct_vaccinated") == "Percentage vaccinated"
  {
  }
}
