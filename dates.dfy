/** Calendar dates as the program writes and reads them: `strftime("%Y-%m-%d")`
    when an entry is stamped, and `strptime(text, "%Y-%m-%d")` when the retention
    filter reads a stamp back. */
module Dates {
  import opened Common

  datatype Date = Date(year: int, month: int, day: int)

  predicate IsLeap(year: int) {
    year % 4 == 0 && (year % 100 != 0 || year % 400 == 0)
  }

  function DaysInMonth(year: int, month: int): int
    requires 1 <= month <= 12
  {
    if month == 2 then (if IsLeap(year) then 29 else 28)
    else if month == 4 || month == 6 || month == 9 || month == 11 then 30
    else 31
  }

  /** The dates a Python `date` object can hold (years 1 to 9999). */
  predicate ValidDate(d: Date) {
    1 <= d.year <= 9999 && 1 <= d.month <= 12 && 1 <= d.day <= DaysInMonth(d.year, d.month)
  }

  type CalendarDate = d: Date | ValidDate(d) witness Date(2000, 1, 1)

  /** Chronological order, `a <= b` on `date` objects. */
  predicate NotAfter(a: Date, b: Date) {
    a.year < b.year || (a.year == b.year && (a.month < b.month || (a.month == b.month && a.day <= b.day)))
  }

  /** Python's `<` on `str`: lexicographic by code point, a proper prefix first. */
  predicate LexLess(a: string, b: string)
    decreases |a|
  {
    |b| > 0 && (|a| == 0 || a[0] < b[0] || (a[0] == b[0] && LexLess(a[1..], b[1..])))
  }

  /** Python's `<=` on `str`. */
  predicate LexAtMost(a: string, b: string) {
    a == b || LexLess(a, b)
  }

  predicate IsDigit(c: char) {
    '0' <= c <= '9'
  }

  function Digit(n: int): char
    requires 0 <= n < 10
  {
    (48 + n) as char
  }

  function DigitValue(c: char): int
    requires IsDigit(c)
  {
    c as int - 48
  }

  function Pow10(k: nat): nat {
    if k == 0 then 1 else 10 * Pow10(k - 1)
  }

  /** `n` in decimal, zero-padded to exactly `width` digits. */
  function Padded(n: nat, width: nat): string
    requires n < Pow10(width)
    decreases width
  {
    if width == 0 then "" else Padded(n / 10, width - 1) + [Digit(n % 10)]
  }

  /** The value of a string of decimal digits. */
  function Numeral(s: string): nat
    requires forall k | 0 <= k < |s| :: IsDigit(s[k])
  {
    if s == [] then 0 else 10 * Numeral(s[..|s| - 1]) + DigitValue(s[|s| - 1])
  }

  /** `date.strftime("%Y-%m-%d")` (restaurant_finder/data_processing.py:25). */
  function FormatDate(d: CalendarDate): string {
    Padded(d.year, 4) + "-" + Padded(d.month, 2) + "-" + Padded(d.day, 2)
  }

  /** The month directive of `strptime`, `1[0-2]|0[1-9]|[1-9]`, together with the
      `-` that must follow it; yields the month and the text after the `-`. */
  function MonthField(s: string): Option<(int, string)> {
    if |s| >= 3 && s[2] == '-' && ((s[0] == '1' && '0' <= s[1] <= '2') || (s[0] == '0' && '1' <= s[1] <= '9')) then
      Some((10 * DigitValue(s[0]) + DigitValue(s[1]), s[3..]))
    else if |s| >= 2 && s[1] == '-' && '1' <= s[0] <= '9' then
      Some((DigitValue(s[0]), s[2..]))
    else
      None
  }

  /** The day directive of `strptime`, `3[01]|[12]\d|0[1-9]|[1-9]| [1-9]`, tried in that
      order; yields the day and the number of characters it used. */
  function DayField(s: string): Option<(int, nat)> {
    if |s| >= 2 && s[0] == '3' && '0' <= s[1] <= '1' then Some((30 + DigitValue(s[1]), 2))
    else if |s| >= 2 && '1' <= s[0] <= '2' && IsDigit(s[1]) then Some((10 * DigitValue(s[0]) + DigitValue(s[1]), 2))
    else if |s| >= 2 && s[0] == '0' && '1' <= s[1] <= '9' then Some((DigitValue(s[1]), 2))
    else if |s| >= 1 && '1' <= s[0] <= '9' then Some((DigitValue(s[0]), 1))
    else if |s| >= 2 && s[0] == ' ' && '1' <= s[1] <= '9' then Some((DigitValue(s[1]), 2))
    else None
  }

  /** `datetime.strptime(s, "%Y-%m-%d").date()`; `None` stands for the ValueError
      raised when the text does not match, leaves characters unconverted, or names
      a day the calendar does not have. */
  function ParseDate(s: string): Option<CalendarDate> {
    if |s| < 5 || !(IsDigit(s[0]) && IsDigit(s[1]) && IsDigit(s[2]) && IsDigit(s[3])) || s[4] != '-' then None
    else ParseMonthDay(Numeral(s[..4]), s[5..])
  }

  /** The text after `%Y-`: the month, its `-`, and a day that must use up the rest. */
  function ParseMonthDay(year: int, tail: string): Option<CalendarDate> {
    match MonthField(tail)
    case None => None
    case Some((month, rest)) =>
      match DayField(rest)
      case None => None
      case Some((day, used)) =>
        var d := Date(year, month, day);
        if used == |rest| && ValidDate(d) then Some(d) else None
  }

  lemma {:induction false} NumeralOfPadded(n: nat, width: nat)
    requires n < Pow10(width)
    ensures |Padded(n, width)| == width
    ensures forall k | 0 <= k < width :: IsDigit(Padded(n, width)[k])
    ensures Numeral(Padded(n, width)) == n
    decreases width
  {
    if width > 0 {
      NumeralOfPadded(n / 10, width - 1);
      var p := Padded(n, width);
      assert p[..width - 1] == Padded(n / 10, width - 1);
    }
  }

  lemma TwoDigits(n: nat)
    requires n < 100
    ensures Padded(n, 2) == [Digit(n / 10), Digit(n % 10)]
  {
    var tens := n / 10;
    assert tens < 10 && tens / 10 == 0 && tens % 10 == tens;
    assert Padded(tens, 1) == Padded(0, 0) + [Digit(tens)];
  }

  /** A zero-padded month and its `-` are read back by the month directive. */
  lemma MonthOfPadded(month: int, rest: string)
    requires 1 <= month <= 12
    ensures MonthField(Padded(month, 2) + "-" + rest) == Some((month, rest))
  {
    TwoDigits(month);
    var tens, units := month / 10, month % 10;
    assert month == 10 * tens + units;
    assert tens == 0 || (tens == 1 && units <= 2);
    assert tens == 0 ==> units >= 1;
    var s := [Digit(tens), Digit(units)] + "-" + rest;
    assert s[0] == Digit(tens) && s[1] == Digit(units) && s[2] == '-' && s[3..] == rest;
    assert DigitValue(Digit(tens)) == tens && DigitValue(Digit(units)) == units;
  }

  /** A zero-padded day is read back whole by the day directive. */
  lemma DayOfPadded(day: int)
    requires 1 <= day <= 31
    ensures DayField(Padded(day, 2)) == Some((day, 2))
  {
    TwoDigits(day);
  }

  /** The year digits and their `-` are read back, leaving the rest to the month and day. */
  lemma ParseYear(d: CalendarDate)
    ensures ParseDate(FormatDate(d)) == ParseMonthDay(d.year, Padded(d.month, 2) + "-" + Padded(d.day, 2))
  {
    var s := FormatDate(d);
    var year, tail := Padded(d.year, 4), Padded(d.month, 2) + "-" + Padded(d.day, 2);
    NumeralOfPadded(d.year, 4);
    assert s == year + "-" + tail;
    assert s[..4] == year && s[4] == '-' && s[5..] == tail;
  }

  /** Reading back what `FormatDate` wrote gives the same date. */
  lemma ParseFormatted(d: CalendarDate)
    ensures ParseDate(FormatDate(d)) == Some(d)
  {
    ParseYear(d);
    NumeralOfPadded(d.day, 2);
    MonthOfPadded(d.month, Padded(d.day, 2));
    DayOfPadded(d.day);
  }

  /** Comparing two strings of equal length is settled by the first difference. */
  lemma {:induction false} LexLessAppend(a: string, b: string, c: string, e: string)
    requires |a| == |b|
    ensures LexLess(a + c, b + e) <==> LexLess(a, b) || (a == b && LexLess(c, e))
    decreases |a|
  {
    if |a| > 0 {
      assert (a + c)[0] == a[0] && (b + e)[0] == b[0];
      assert (a + c)[1..] == a[1..] + c && (b + e)[1..] == b[1..] + e;
      LexLessAppend(a[1..], b[1..], c, e);
      if a[0] == b[0] && a[1..] == b[1..] {
        assert a == b;
      }
    } else {
      assert a == b && a + c == c && b + e == e;
    }
  }

  /** Zero-padded numerals of one width order as their values do. */
  lemma {:induction false} PaddedOrder(m: nat, n: nat, width: nat)
    requires m < Pow10(width) && n < Pow10(width)
    ensures LexLess(Padded(m, width), Padded(n, width)) <==> m < n
    ensures Padded(m, width) == Padded(n, width) <==> m == n
    decreases width
  {
    if width > 0 {
      PaddedOrder(m / 10, n / 10, width - 1);
      NumeralOfPadded(m / 10, width - 1);
      NumeralOfPadded(n / 10, width - 1);
      LexLessAppend(Padded(m / 10, width - 1), Padded(n / 10, width - 1), [Digit(m % 10)], [Digit(n % 10)]);
      if Padded(m, width) == Padded(n, width) {
        assert Padded(m, width)[width - 1] == Digit(m % 10);
        assert Padded(n, width)[width - 1] == Digit(n % 10);
        assert Padded(m, width)[..width - 1] == Padded(m / 10, width - 1);
        assert Padded(n, width)[..width - 1] == Padded(n / 10, width - 1);
      }
    }
  }

  /** Two dash-separated texts whose first two parts have matching lengths compare
      part by part. */
  lemma DashedOrder(x1: string, x2: string, y1: string, y2: string, z1: string, z2: string)
    requires |x1| == |x2| && |y1| == |y2|
    ensures LexLess(x1 + "-" + y1 + "-" + z1, x2 + "-" + y2 + "-" + z2) <==>
      LexLess(x1, x2) || (x1 == x2 && (LexLess(y1, y2) || (y1 == y2 && LexLess(z1, z2))))
    ensures x1 + "-" + y1 + "-" + z1 == x2 + "-" + y2 + "-" + z2 <==> x1 == x2 && y1 == y2 && z1 == z2
  {
    var s1, s2 := x1 + "-" + y1 + "-" + z1, x2 + "-" + y2 + "-" + z2;
    assert s1 == (x1 + "-") + ((y1 + "-") + z1);
    assert s2 == (x2 + "-") + ((y2 + "-") + z2);
    LexLessAppend(x1 + "-", x2 + "-", (y1 + "-") + z1, (y2 + "-") + z2);
    LexLessAppend(x1, x2, "-", "-");
    LexLessAppend(y1 + "-", y2 + "-", z1, z2);
    LexLessAppend(y1, y2, "-", "-");
    assert !LexLess("-", "-");
    assert x1 + "-" == x2 + "-" ==> x1 == (x1 + "-")[..|x1|] == (x2 + "-")[..|x2|] == x2;
    assert y1 + "-" == y2 + "-" ==> y1 == (y1 + "-")[..|y1|] == (y2 + "-")[..|y2|] == y2;
    if s1 == s2 {
      assert s1[..|x1|] == x1 && s2[..|x2|] == x2;
      assert s1[|x1| + 1..|x1| + 1 + |y1|] == y1 && s2[|x2| + 1..|x2| + 1 + |y2|] == y2;
      assert s1[|x1| + |y1| + 2..] == z1 && s2[|x2| + |y2| + 2..] == z2;
    }
  }

  /** Zero-padded ISO dates compare as text exactly as the dates compare in time,
      so comparing the stamps as strings and comparing the parsed dates agree. */
  lemma FormattedOrder(a: CalendarDate, b: CalendarDate)
    ensures LexAtMost(FormatDate(a), FormatDate(b)) <==> NotAfter(a, b)
  {
    PaddedOrder(a.year, b.year, 4);
    PaddedOrder(a.month, b.month, 2);
    PaddedOrder(a.day, b.day, 2);
    NumeralOfPadded(a.year, 4);
    NumeralOfPadded(b.year, 4);
    NumeralOfPadded(a.month, 2);
    NumeralOfPadded(b.month, 2);
    DashedOrder(Padded(a.year, 4), Padded(b.year, 4), Padded(a.month, 2), Padded(b.month, 2), Padded(a.day, 2), Padded(b.day, 2));
  }
}
