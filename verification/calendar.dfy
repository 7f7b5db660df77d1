/**
 * Calendar dates as the Python code reads and compares them: the check
 * `datetime.strptime(text, "%Y-%m-%d")` (the extended calendar-date form of
 * ISO 8601:2004 section 4.1.2.2, with Python's leniency about zero-padding)
 * and the proleptic Gregorian day number `date.toordinal()` that lets the
 * engine treat dates as integers, so that `today - timedelta(days=n)` is
 * `today - n`.
 */
module Calendar {
  import opened Wrappers

  datatype Date = Date(year: int, month: int, day: int)

  predicate IsLeapYear(y: int)
  {
    y % 4 == 0 && (y % 100 != 0 || y % 400 == 0)
  }

  function DaysInMonth(y: int, m: int): int
    requires 1 <= m <= 12
  {
    if m == 2 then (if IsLeapYear(y) then 29 else 28)
    else if m == 4 || m == 6 || m == 9 || m == 11 then 30
    else 31
  }

  function DaysInYear(y: int): int
  {
    if IsLeapYear(y) then 366 else 365
  }

  /** A date Python's `datetime.date` accepts (years 1 to 9999). */
  predicate IsValidDate(d: Date)
  {
    1 <= d.year <= 9999 && 1 <= d.month <= 12 && 1 <= d.day <= DaysInMonth(d.year, d.month)
  }

  predicate IsDigit(c: char)
  {
    '0' <= c <= '9'
  }

  function DigitValue(c: char): int
    requires IsDigit(c)
  {
    c as int - '0' as int
  }

  /** `%Y`: exactly four digits. */
  predicate IsYearText(s: string)
  {
    |s| == 4 && IsDigit(s[0]) && IsDigit(s[1]) && IsDigit(s[2]) && IsDigit(s[3])
  }

  /** `%m`: one of `1[0-2]`, `0[1-9]`, `[1-9]`. */
  predicate IsMonthText(s: string)
  {
    || (|s| == 2 && s[0] == '1' && '0' <= s[1] <= '2')
    || (|s| == 2 && s[0] == '0' && '1' <= s[1] <= '9')
    || (|s| == 1 && '1' <= s[0] <= '9')
  }

  /** `%d` at the end of the text: the first of the alternatives `3[01]`, `[12]\d`,
      `0[1-9]`, `[1-9]`, ` [1-9]` that matches must consume all that is left. */
  predicate IsDayText(s: string)
  {
    || (|s| == 2 && s[0] == '3' && '0' <= s[1] <= '1')
    || (|s| == 2 && '1' <= s[0] <= '2' && IsDigit(s[1]))
    || (|s| == 2 && s[0] == '0' && '1' <= s[1] <= '9')
    || (|s| == 1 && '1' <= s[0] <= '9')
    || (|s| == 2 && s[0] == ' ' && '1' <= s[1] <= '9')
  }

  /** The number written by a month or day text (a leading space is padding). */
  function FieldValue(s: string): int
    requires IsMonthText(s) || IsDayText(s)
  {
    if |s| == 1 then DigitValue(s[0])
    else if s[0] == ' ' then DigitValue(s[1])
    else 10 * DigitValue(s[0]) + DigitValue(s[1])
  }

  function YearValue(s: string): int
    requires IsYearText(s)
  {
    1000 * DigitValue(s[0]) + 100 * DigitValue(s[1]) + 10 * DigitValue(s[2]) + DigitValue(s[3])
  }

  /** `s` spells `d` with its second '-' at index `k`: a `%Y` year, '-', a
      `%m` month, '-', and a `%d` day that ends the text. */
  predicate WritesAt(s: string, k: int, d: Date)
  {
    && (k == 6 || k == 7) && k < |s|
    && s[4] == '-' && s[k] == '-'
    && IsYearText(s[..4]) && IsMonthText(s[5..k]) && IsDayText(s[k + 1..])
    && d == Date(YearValue(s[..4]), FieldValue(s[5..k]), FieldValue(s[k + 1..]))
  }

  /** `s` is a spelling of `d` the `%Y-%m-%d` pattern matches in full. */
  predicate Writes(s: string, d: Date)
  {
    WritesAt(s, 6, d) || WritesAt(s, 7, d)
  }

  /** `datetime.strptime(s, "%Y-%m-%d")`: the date written by `s`, or `None`
      where Python raises `ValueError` (no match, unconverted data left over,
      year 0, or a day past the end of its month). */
  function ParseIsoDate(s: string): (r: Option<Date>)
    ensures r.Some? ==> IsValidDate(r.value) && Writes(s, r.value)
    ensures forall d :: Writes(s, d) && IsValidDate(d) ==> r == Some(d)
  {
    if |s| < 8 || s[4] != '-' || !IsYearText(s[..4]) then None
    else
      var k := if s[6] == '-' then 6 else 7;
      if k >= |s| || s[k] != '-' || !IsMonthText(s[5..k]) || !IsDayText(s[k + 1..]) then None
      else
        var d := Date(YearValue(s[..4]), FieldValue(s[5..k]), FieldValue(s[k + 1..]));
        if IsValidDate(d) then Some(d) else None
  }

  /** The date check the validators apply to `paid_date` and `submit_date`. */
  predicate IsIsoDate(s: string)
  {
    ParseIsoDate(s).Some?
  }

  /** The character of a decimal digit. */
  function DigitChar(n: int): (c: char)
    requires 0 <= n <= 9
    ensures IsDigit(c) && DigitValue(c) == n
  {
    ('0' as int + n) as char
  }

  /** `%04d`: the four digits of a year, zero-padded. */
  function Year4(y: int): string
    requires 0 <= y <= 9999
  {
    var r1 := y % 1000;
    var r2 := r1 % 100;
    [DigitChar(y / 1000), DigitChar(r1 / 100), DigitChar(r2 / 10), DigitChar(r2 % 10)]
  }

  /** `%02d`: the two digits of a month or day, zero-padded. */
  function Pad2(n: int): string
    requires 0 <= n <= 99
  {
    [DigitChar(n / 10), DigitChar(n % 10)]
  }

  /** `date.isoformat()`: the zero-padded `YYYY-MM-DD` text of a date. */
  function IsoFormat(d: Date): string
    requires IsValidDate(d)
  {
    Year4(d.year) + "-" + Pad2(d.month) + "-" + Pad2(d.day)
  }

  lemma Year4Reads(y: int)
    requires 1 <= y <= 9999
    ensures IsYearText(Year4(y)) && YearValue(Year4(y)) == y
  {
    var r1 := y % 1000;
    var r2 := r1 % 100;
    assert y == 1000 * (y / 1000) + r1;
    assert r1 == 100 * (r1 / 100) + r2;
    assert r2 == 10 * (r2 / 10) + r2 % 10;
  }

  lemma Pad2Reads(n: int, isMonth: bool)
    requires isMonth ==> 1 <= n <= 12
    requires !isMonth ==> 1 <= n <= 31
    ensures isMonth ==> IsMonthText(Pad2(n))
    ensures !isMonth ==> IsDayText(Pad2(n))
    ensures FieldValue(Pad2(n)) == n
  {
  }

  /** Every valid date, written zero-padded, is read back as itself: the
      parser rejects no date Python can write. */
  lemma IsoFormatParses(d: Date)
    requires IsValidDate(d)
    ensures ParseIsoDate(IsoFormat(d)) == Some(d)
  {
    var s := IsoFormat(d);
    Year4Reads(d.year);
    Pad2Reads(d.month, true);
    Pad2Reads(d.day, false);
    assert s[..4] == Year4(d.year);
    assert s[5..7] == Pad2(d.month);
    assert s[8..] == Pad2(d.day);
    assert WritesAt(s, 7, d);
  }

  /** Days in the years before year `y` (Python's `_days_before_year`). */
  function DaysBeforeYear(y: int): int
    requires y >= 1
  {
    var p := y - 1;
    p * 365 + p / 4 - p / 100 + p / 400
  }

  /** Days in the months of year `y` before month `m` (Python's `_days_before_month`). */
  function DaysBeforeMonth(y: int, m: int): int
    requires 1 <= m <= 12
  {
    var common := [0, 31, 59, 90, 120, 151, 181, 212, 243, 273, 304, 334];
    common[m - 1] + (if m > 2 && IsLeapYear(y) then 1 else 0)
  }

  /** `date.toordinal()`: 0001-01-01 is day 1. */
  function Ordinal(d: Date): int
    requires IsValidDate(d)
  {
    DaysBeforeYear(d.year) + DaysBeforeMonth(d.year, d.month) + d.day
  }

  /** Python's comparison of two `date` values: year, then month, then day. */
  predicate Before(a: Date, b: Date)
  {
    a.year < b.year || (a.year == b.year && (a.month < b.month || (a.month == b.month && a.day < b.day)))
  }

  lemma DaysBeforeYearStep(y: int)
    requires y >= 1
    ensures DaysBeforeYear(y + 1) == DaysBeforeYear(y) + DaysInYear(y)
  {
    var p := y - 1;
    assert y / 4 == p / 4 + (if y % 4 == 0 then 1 else 0);
    assert y / 100 == p / 100 + (if y % 100 == 0 then 1 else 0);
    assert y / 400 == p / 400 + (if y % 400 == 0 then 1 else 0);
  }

  lemma MonthStep(y: int, m: int)
    requires 1 <= m <= 12
    ensures m < 12 ==> DaysBeforeMonth(y, m) + DaysInMonth(y, m) == DaysBeforeMonth(y, m + 1)
    ensures m == 12 ==> DaysBeforeMonth(y, m) + DaysInMonth(y, m) == DaysInYear(y)
  {
  }

  lemma {:induction false} MonthsIncrease(y: int, m: int, n: int)
    requires 1 <= m < n <= 12
    ensures DaysBeforeMonth(y, m) + DaysInMonth(y, m) <= DaysBeforeMonth(y, n)
    decreases n - m
  {
    MonthStep(y, m);
    if m + 1 < n {
      MonthsIncrease(y, m + 1, n);
    }
  }

  lemma {:induction false} MonthsWithinYear(y: int, m: int)
    requires 1 <= m <= 12
    ensures DaysBeforeMonth(y, m) + DaysInMonth(y, m) <= DaysInYear(y)
  {
    if m < 12 {
      MonthsIncrease(y, m, 12);
    }
    MonthStep(y, 12);
  }

  lemma {:induction false} YearsIncrease(a: int, b: int)
    requires 1 <= a < b
    ensures DaysBeforeYear(a) + DaysInYear(a) <= DaysBeforeYear(b)
    decreases b - a
  {
    DaysBeforeYearStep(a);
    if a + 1 < b {
      YearsIncrease(a + 1, b);
    }
  }

  /** Day numbers order valid dates exactly as Python orders `date` values,
      which is what makes `submit_date <= today - timedelta(days=n)` an
      integer comparison. */
  lemma OrdinalOrder(a: Date, b: Date)
    requires IsValidDate(a) && IsValidDate(b)
    ensures Before(a, b) <==> Ordinal(a) < Ordinal(b)
    ensures a == b <==> Ordinal(a) == Ordinal(b)
  {
    MonthsWithinYear(a.year, a.month);
    MonthsWithinYear(b.year, b.month);
    if a.year < b.year {
      YearsIncrease(a.year, b.year);
    } else if b.year < a.year {
      YearsIncrease(b.year, a.year);
    } else if a.month < b.month {
      MonthsIncrease(a.year, a.month, b.month);
    } else if b.month < a.month {
      MonthsIncrease(a.year, b.month, a.month);
    }
  }
}
