/**
 * The derived fields of a stock quote (Financial-advisor/Backend/routes/stocks.js):
 * two-decimal display of prices, the signed percentage change against the
 * previous point, and the clock time shown for a timestamp key.
 *
 * Numbers are exact reals. A quote field holds what `parseFloat` reads from the
 * provider's string; `None` stands for NaN (a missing or unreadable field).
 */
module Quotes {
  import opened Base

  /** The outcome of `parseFloat`: a number, or None for NaN. */
  type Num = Option<real>

  /** The integer n closest to 100·m, the larger one on a tie. */
  function Cents(m: real): (n: nat)
    requires m >= 0.0
    ensures m * 100.0 - 0.5 < n as real <= m * 100.0 + 0.5
  {
    (m * 100.0 + 0.5).Floor
  }

  /** `[-]` then n / 100 in decimal, '.', and the two digits of n % 100. */
  function CentsText(negative: bool, n: nat): string
  {
    (if negative then "-" else "") + Decimal(n / 100) + "." + [DigitChar(n % 100 / 10), DigitChar(n % 10)]
  }

  /** `Number.prototype.toFixed(2)` on an exact value: the integer n closest to
      100·|x| (the larger one on a tie), written as a decimal with two fraction
      digits, preceded by '-' when x is negative (so -0.001 gives "-0.00"). */
  function Fixed2(x: real): (r: string)
    ensures |r| >= 4 && r[|r| - 3] == '.'
    ensures r[0] == '-' <==> x < 0.0
    ensures r[0] != '+' && r[0] != 'N'
  {
    CentsText(x < 0.0, Cents(if x < 0.0 then -x else x))
  }

  /** Reads a string of the shape `[-]digits.dd` back into the number it shows. */
  function ParseFixed2(s: string): Option<real>
  {
    var neg := |s| > 0 && s[0] == '-';
    var body := if neg then s[1..] else s;
    if |body| >= 4 && body[|body| - 3] == '.'
       && AllDigits(body[..|body| - 3]) && AllDigits(body[|body| - 2..])
    then
      var v := (DecimalValue(body[..|body| - 3]) * 100 + DecimalValue(body[|body| - 2..])) as real / 100.0;
      Some(if neg then -v else v)
    else None
  }

  /** The two fraction digits of n read back as n % 100. */
  lemma CentsDigits(n: nat)
    ensures AllDigits([DigitChar(n % 100 / 10), DigitChar(n % 10)])
    ensures DecimalValue([DigitChar(n % 100 / 10), DigitChar(n % 10)]) == n % 100
  {
    var cents := [DigitChar(n % 100 / 10), DigitChar(n % 10)];
    assert cents[..1] == [DigitChar(n % 100 / 10)] && cents[..1][..0] == [];
    assert DecimalValue(cents[..1]) == n % 100 / 10;
  }

  /** The unsigned text of n / 100 has the shape `digits.dd` and denotes n cents. */
  lemma UnsignedCentsText(n: nat)
    ensures var body := CentsText(false, n);
            |body| >= 4 && body[0] != '-' && body[|body| - 3] == '.'
            && AllDigits(body[..|body| - 3]) && AllDigits(body[|body| - 2..])
            && DecimalValue(body[..|body| - 3]) * 100 + DecimalValue(body[|body| - 2..]) == n
  {
    var whole := Decimal(n / 100);
    var cents := [DigitChar(n % 100 / 10), DigitChar(n % 10)];
    var body := CentsText(false, n);
    assert body == whole + "." + cents;
    assert body[..|body| - 3] == whole;
    assert body[|body| - 2..] == cents;
    assert body[0] == whole[0];
    DecimalRoundTrip(n / 100);
    CentsDigits(n);
  }

  lemma ParseCentsText(negative: bool, n: nat)
    ensures ParseFixed2(CentsText(negative, n)) == Some(if negative then -(n as real / 100.0) else n as real / 100.0)
  {
    var body := CentsText(false, n);
    UnsignedCentsText(n);
    if negative {
      var r := CentsText(true, n);
      assert r == "-" + body;
      assert r[1..] == body;
    }
  }

  /** What toFixed(2) shows reads back as a number within half a cent of x. */
  lemma Fixed2Accurate(x: real)
    ensures ParseFixed2(Fixed2(x)).Some?
    ensures -0.005 <= ParseFixed2(Fixed2(x)).value - x <= 0.005
  {
    ParseCentsText(x < 0.0, Cents(if x < 0.0 then -x else x));
  }

  /** toFixed(2) of a parsed number; NaN shows as "NaN". */
  function FixedOrNaN(x: Num): (r: string)
    ensures Shows(r, x)
  {
    match x
    case None => "NaN"
    case Some(v) =>
      Fixed2Accurate(v);
      Fixed2(v)
  }

  /** `text` is what toFixed(2) shows for x: "NaN" exactly when x is NaN, and
      otherwise a two-decimal numeral within half a cent of x. */
  predicate Shows(text: string, x: Num)
  {
    (x.None? <==> text == "NaN")
    && (x.Some? ==> ParseFixed2(text).Some? && -0.005 <= ParseFixed2(text).value - x.value <= 0.005)
  }

  /** The percentage change from `prev` to `cur`. */
  function ChangePercent(cur: real, prev: real): real
    requires prev != 0.0
  {
    (cur - prev) / prev * 100.0
  }

  /** Whether `calculateChange` has a usable previous price: `!previousPrice`
      is false, i.e. the price is a number and not zero. */
  predicate HasPrevious(prev: Num)
  {
    prev.Some? && prev.value != 0.0
  }

  /** `calculateChange(currentPrice, previousPrice)` (stocks.js:59-64). */
  function CalculateChange(cur: Num, prev: Num): (r: string)
    ensures |r| >= 2 && r[|r| - 1] == '%'
    ensures r == "0.00%" <==> !HasPrevious(prev)
    ensures r == "NaN%" <==> HasPrevious(prev) && cur.None?
    ensures r[0] == '+' <==> HasPrevious(prev) && cur.Some? && ChangePercent(cur.value, prev.value) >= 0.0
    ensures r[0] == '-' <==> HasPrevious(prev) && cur.Some? && ChangePercent(cur.value, prev.value) < 0.0
  {
    if !HasPrevious(prev) then "0.00%"
    else match cur
      case None => "NaN%"
      case Some(c) =>
        var change := ChangePercent(c, prev.value);
        (if change >= 0.0 then "+" else "") + Fixed2(change) + "%"
  }

  /** When both prices are numbers and the previous one is not zero, the digits
      between the sign and the '%' read back as the percentage change, to within
      half a hundredth. */
  lemma CalculateChangeAccurate(cur: real, prev: real)
    requires prev != 0.0
    ensures var r := CalculateChange(Some(cur), Some(prev));
            var digits := r[(if r[0] == '+' then 1 else 0)..|r| - 1];
            ParseFixed2(digits).Some? &&
            -0.005 <= ParseFixed2(digits).value - ChangePercent(cur, prev) <= 0.005
  {
    var change := ChangePercent(cur, prev);
    var r := CalculateChange(Some(cur), Some(prev));
    var sign := if change >= 0.0 then "+" else "";
    assert r == sign + Fixed2(change) + "%";
    assert r[(if r[0] == '+' then 1 else 0)..|r| - 1] == Fixed2(change);
    Fixed2Accurate(change);
  }

  /** A match of `/\d{2}:\d{2}/` at position i. */
  predicate ClockAt(s: string, i: nat)
  {
    i + 5 <= |s| && IsDigit(s[i]) && IsDigit(s[i + 1]) && s[i + 2] == ':'
    && IsDigit(s[i + 3]) && IsDigit(s[i + 4])
  }

  /** The leftmost position at or after `from` where a clock time starts. */
  function FindClock(s: string, from: nat): (r: Option<nat>)
    decreases |s| - from
    ensures r.Some? ==> from <= r.value && ClockAt(s, r.value)
    ensures r.Some? ==> forall j :: from <= j < r.value ==> !ClockAt(s, j)
    ensures r.None? ==> forall j :: from <= j ==> !ClockAt(s, j)
  {
    if from + 5 > |s| then None
    else if ClockAt(s, from) then Some(from)
    else FindClock(s, from + 1)
  }

  /** `formatTime(timeString)` (stocks.js:69-74): "N/A" for the empty string,
      otherwise the leftmost `dd:dd` in it, or the string itself when it has none. */
  function FormatTime(s: string): (r: string)
    ensures s == "" ==> r == "N/A"
    ensures s != "" && (forall j :: !ClockAt(s, j)) ==> r == s
    ensures s != "" && (exists j :: ClockAt(s, j)) ==>
              exists i: nat :: ClockAt(s, i) && r == s[i..i + 5] && forall j :: 0 <= j < i ==> !ClockAt(s, j)
  {
    if s == "" then "N/A"
    else match FindClock(s, 0)
      case None => s
      case Some(i) => s[i..i + 5]
  }

  /** An intraday key `YYYY-MM-DD HH:MM:SS`. */
  predicate IntradayKey(s: string)
  {
    |s| == 19
    && (forall i :: 0 <= i < 19 && i !in {4, 7, 10, 13, 16} ==> IsDigit(s[i]))
    && s[4] == '-' && s[7] == '-' && s[10] == ' ' && s[13] == ':' && s[16] == ':'
  }

  /** A daily key `YYYY-MM-DD`. */
  predicate DailyKey(s: string)
  {
    |s| == 10
    && (forall i :: 0 <= i < 10 && i !in {4, 7} ==> IsDigit(s[i]))
    && s[4] == '-' && s[7] == '-'
  }

  /** An intraday key shows its hour and minute. */
  lemma FormatIntradayKey(s: string)
    requires IntradayKey(s)
    ensures FormatTime(s) == s[11..16]
  {
    assert ClockAt(s, 11);
    forall j | 0 <= j < 11 ensures !ClockAt(s, j) {
      assert s[j + 2] != ':';
    }
  }

  /** A daily key has no clock time and is shown unchanged. */
  lemma FormatDailyKey(s: string)
    requires DailyKey(s)
    ensures FormatTime(s) == s
  {
    forall j: nat ensures !ClockAt(s, j) {
      if j + 5 <= |s| {
        assert s[j + 2] != ':';
      }
    }
  }
}
