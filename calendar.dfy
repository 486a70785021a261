/**
 * Gregorian calendar dates as the journal stamps them on mood records.
 *
 * A record's date is "today" formatted as YYYY/MM/DD, and the streak query
 * looks for the date of "yesterday", today minus one day, formatted the same
 * way.  This module shows that both steps can be replaced by arithmetic on a
 * day number: the predecessor of a date has the day number one less, and the
 * formatting is injective, so two formatted dates are equal exactly when their
 * day numbers are.  The day number counts 0001/01/01 as day 1.
 */
module Calendar {
  import opened Wrappers

  datatype Date = Date(year: int, month: int, day: int)

  /** The range of years a date can hold. */
  const MinYear: int := 1
  const MaxYear: int := 9999

  predicate IsLeap(y: int) {
    y % 4 == 0 && (y % 100 != 0 || y % 400 == 0)
  }

  function DaysInYear(y: int): int {
    if IsLeap(y) then 366 else 365
  }

  function DaysInMonth(y: int, m: int): (n: int)
    requires 1 <= m <= 12
    ensures 28 <= n <= 31
  {
    if m == 2 then (if IsLeap(y) then 29 else 28)
    else if m == 4 || m == 6 || m == 9 || m == 11 then 30
    else 31
  }

  predicate Valid(d: Date) {
    && MinYear <= d.year <= MaxYear
    && 1 <= d.month <= 12
    && 1 <= d.day <= DaysInMonth(d.year, d.month)
  }

  /** Days of a common year that lie before the first of each month; the last entry is the whole year. */
  const CumulativeDays: seq<int> := [0, 31, 59, 90, 120, 151, 181, 212, 243, 273, 304, 334, 365]

  /** Days of year y before the first of month m; m == 13 stands for the end of the year. */
  function DaysBeforeMonth(y: int, m: int): int
    requires 1 <= m <= 13
  {
    CumulativeDays[m - 1] + (if m > 2 && IsLeap(y) then 1 else 0)
  }

  /** Days of all years before year y. */
  function DaysBeforeYear(y: int): int
    requires y >= MinYear
  {
    if y == MinYear then 0 else DaysBeforeYear(y - 1) + DaysInYear(y - 1)
  }

  /** The day number of a date: 0001/01/01 is day 1 and each day adds one. */
  function Ordinal(d: Date): int
    requires Valid(d)
  {
    DaysBeforeYear(d.year) + DaysBeforeMonth(d.year, d.month) + d.day
  }

  lemma MonthStep(y: int, m: int)
    requires 1 <= m <= 12
    ensures DaysBeforeMonth(y, m + 1) == DaysBeforeMonth(y, m) + DaysInMonth(y, m)
  {
  }

  lemma MonthMonotone(y: int, m: int, n: int)
    requires 1 <= m <= n <= 13
    ensures DaysBeforeMonth(y, m) <= DaysBeforeMonth(y, n)
  {
  }

  lemma EndOfYear(y: int)
    ensures DaysBeforeMonth(y, 13) == DaysInYear(y)
  {
  }

  lemma {:induction false} YearMonotone(y: int, z: int)
    requires MinYear <= y < z
    ensures DaysBeforeYear(y) + DaysInYear(y) <= DaysBeforeYear(z)
    decreases z - y
  {
    if y + 1 < z {
      YearMonotone(y + 1, z);
    }
  }

  /** The day number of a date lies within the days of its own year. */
  lemma OrdinalWithinYear(d: Date)
    requires Valid(d)
    ensures DaysBeforeYear(d.year) < Ordinal(d) <= DaysBeforeYear(d.year) + DaysInYear(d.year)
  {
  }

  /** Distinct valid dates have distinct day numbers. */
  lemma OrdinalInjective(a: Date, b: Date)
    requires Valid(a) && Valid(b)
    requires Ordinal(a) == Ordinal(b)
    ensures a == b
  {
    OrdinalWithinYear(a);
    OrdinalWithinYear(b);
    if a.year < b.year {
      YearMonotone(a.year, b.year);
    } else if b.year < a.year {
      YearMonotone(b.year, a.year);
    } else if a.month < b.month {
      MonthStep(a.year, a.month);
      MonthMonotone(a.year, a.month + 1, b.month);
    } else if b.month < a.month {
      MonthStep(b.year, b.month);
      MonthMonotone(b.year, b.month + 1, a.month);
    }
  }

  /**
   * The day before a date.  There is none before the first day of year 1,
   * where subtracting a day overflows the range of dates.
   */
  function Predecessor(d: Date): (r: Option<Date>)
    requires Valid(d)
    ensures r.None? <==> d == Date(MinYear, 1, 1)
    ensures r.Some? ==> Valid(r.value) && Ordinal(r.value) == Ordinal(d) - 1
  {
    if d.day > 1 then
      Some(Date(d.year, d.month, d.day - 1))
    else if d.month > 1 then
      MonthStep(d.year, d.month - 1);
      Some(Date(d.year, d.month - 1, DaysInMonth(d.year, d.month - 1)))
    else if d.year > MinYear then
      EndOfYear(d.year - 1);
      Some(Date(d.year - 1, 12, 31))
    else
      None
  }

  // Formatting as YYYY/MM/DD and reading it back.

  function Digit(n: int): char
    requires 0 <= n <= 9
  {
    ('0' as int + n) as char
  }

  function DigitValue(c: char): Option<int> {
    if '0' <= c <= '9' then Some(c as int - '0' as int) else None
  }

  /** n in two decimal digits with a leading zero, as %m and %d write the month and the day. */
  function Pad2(n: int): string
    requires 0 <= n <= 99
  {
    [Digit(n / 10), Digit(n % 10)]
  }

  /** n in four decimal digits with leading zeros, as %Y writes the year. */
  function Pad4(n: int): string
    requires 0 <= n <= 9999
  {
    [Digit(n / 10 / 10 / 10), Digit(n / 10 / 10 % 10), Digit(n / 10 % 10), Digit(n % 10)]
  }

  /** The date as "%Y/%m/%d" writes it. */
  function Format(d: Date): (s: string)
    requires Valid(d)
    ensures |s| == 10 && s[4] == '/' && s[7] == '/'
  {
    Pad4(d.year) + "/" + Pad2(d.month) + "/" + Pad2(d.day)
  }

  /** The value of a string of decimal digits, or None when some character is not a digit. */
  function Decimal(s: string): Option<int> {
    if s == [] then Some(0)
    else match (Decimal(s[..|s| - 1]), DigitValue(s[|s| - 1]))
      case (Some(v), Some(dv)) => Some(10 * v + dv)
      case _ => None
  }

  /** Reads a YYYY/MM/DD string back into a date; None when it is not one. */
  function Parse(s: string): (r: Option<Date>)
    ensures r.Some? ==> Valid(r.value)
  {
    if |s| == 10 && s[4] == '/' && s[7] == '/' then
      match (Decimal(s[..4]), Decimal(s[5..7]), Decimal(s[8..]))
      case (Some(y), Some(m), Some(dd)) =>
        if Valid(Date(y, m, dd)) then Some(Date(y, m, dd)) else None
      case _ => None
    else
      None
  }

  lemma DigitValueOfDigit(n: int)
    requires 0 <= n <= 9
    ensures DigitValue(Digit(n)) == Some(n)
  {
  }

  lemma Pad2Value(n: int)
    requires 0 <= n <= 99
    ensures Decimal(Pad2(n)) == Some(n)
  {
    var s := Pad2(n);
    DigitValueOfDigit(n / 10);
    DigitValueOfDigit(n % 10);
    assert s[..1][..0] == [];
    assert Decimal(s[..1]) == Some(n / 10);
    assert s[..|s| - 1] == s[..1];
  }

  lemma Pad4Value(n: int)
    requires 0 <= n <= 9999
    ensures Decimal(Pad4(n)) == Some(n)
  {
    var s := Pad4(n);
    DigitValueOfDigit(n / 10 / 10 / 10);
    DigitValueOfDigit(n / 10 / 10 % 10);
    DigitValueOfDigit(n / 10 % 10);
    DigitValueOfDigit(n % 10);
    assert s[..1][..0] == [];
    assert Decimal(s[..1]) == Some(n / 10 / 10 / 10);
    assert s[..2][..1] == s[..1];
    assert Decimal(s[..2]) == Some(n / 10 / 10);
    assert s[..3][..2] == s[..2];
    assert Decimal(s[..3]) == Some(n / 10);
    assert s[..4][..3] == s[..3];
    assert s[..4] == s;
  }

  /** Reading a formatted date gives the date back. */
  lemma ParseFormat(d: Date)
    requires Valid(d)
    ensures Parse(Format(d)) == Some(d)
  {
    var s := Format(d);
    Pad4Value(d.year);
    Pad2Value(d.month);
    Pad2Value(d.day);
    assert s[..4] == Pad4(d.year);
    assert s[5..7] == Pad2(d.month);
    assert s[8..] == Pad2(d.day);
  }

  /** Two valid dates format to the same string only when they are the same date. */
  lemma FormatInjective(a: Date, b: Date)
    requires Valid(a) && Valid(b)
    requires Format(a) == Format(b)
    ensures a == b
  {
    ParseFormat(a);
    ParseFormat(b);
  }

  /**
   * A stored date string equals the formatted predecessor of today exactly
   * when its day number is today's minus one: the streak query on date
   * strings is the query on day numbers.
   */
  lemma YesterdayByOrdinal(today: Date, d: Date)
    requires Valid(today) && Valid(d)
    requires Predecessor(today).Some?
    ensures Format(d) == Format(Predecessor(today).value) <==> Ordinal(d) == Ordinal(today) - 1
  {
    var y := Predecessor(today).value;
    if Format(d) == Format(y) {
      FormatInjective(d, y);
    }
    if Ordinal(d) == Ordinal(today) - 1 {
      OrdinalInjective(d, y);
    }
  }
}
