/** Proleptic Gregorian calendar arithmetic on day ordinals (days since
    1970-01-01, which was a Thursday). Local time is taken to be UTC, so a
    JavaScript `Date` at local midnight and the `toLocaleDateString` of a
    timestamp are both identified by their day ordinal. */
module Dates {

  const MillisPerDay: int := 86_400_000
  const SecondsPerDay: int := 86_400

  datatype Date = Date(year: int, month: int, day: int)

  predicate IsLeapYear(y: int)
  {
    y % 4 == 0 && (y % 100 != 0 || y % 400 == 0)
  }

  function DaysInMonth(y: int, m: int): (n: int)
    requires 1 <= m <= 12
    ensures 28 <= n <= 31
    ensures m == 2 ==> (n == 29 <==> IsLeapYear(y))
  {
    if m == 2 then (if IsLeapYear(y) then 29 else 28)
    else if m == 4 || m == 6 || m == 9 || m == 11 then 30
    else 31
  }

  predicate ValidDate(d: Date)
  {
    1 <= d.month <= 12 && 1 <= d.day <= DaysInMonth(d.year, d.month)
  }

  function YearLength(y: int): int
  {
    if IsLeapYear(y) then 366 else 365
  }

  /** Number of leap years among 1..n, extended to all integers by the same
      floor-division formula (only differences of it are ever used). */
  function Leaps(n: int): int
  {
    n / 4 - n / 100 + n / 400
  }

  /** Days from 1970-01-01 to January 1st of `y`. */
  function DaysBeforeYear(y: int): int
  {
    365 * (y - 1970) + Leaps(y - 1) - Leaps(1969)
  }

  /** Days from January 1st of `y` to the first day of month `m` (`m == 13`
      is the next January). */
  function DaysBeforeMonth(y: int, m: int): (n: int)
    requires 1 <= m <= 13
    ensures 0 <= n <= 366
  {
    var common := [0, 31, 59, 90, 120, 151, 181, 212, 243, 273, 304, 334, 365][m - 1];
    if m > 2 && IsLeapYear(y) then common + 1 else common
  }

  /** Each month starts where the previous one ended. */
  lemma MonthStep(y: int, m: int)
    requires 1 <= m <= 12
    ensures DaysBeforeMonth(y, m + 1) == DaysBeforeMonth(y, m) + DaysInMonth(y, m)
  {
  }

  /** The day ordinal of a (year, month) and a day number that may lie
      outside the month; it then counts on from the month's first day, as
      JavaScript's `Date` does. */
  function DayNumber(y: int, m: int, d: int): int
    requires 1 <= m <= 12
  {
    DaysBeforeYear(y) + DaysBeforeMonth(y, m) + d - 1
  }

  function Ordinal(d: Date): int
    requires 1 <= d.month <= 12
  {
    DayNumber(d.year, d.month, d.day)
  }

  /** The day ordinal of JavaScript's local `new Date(y, monthIndex, day)`:
      a two-digit year means 19yy, and out-of-range months and days roll over
      into neighbouring months and years. */
  function JsLocalDay(y: int, monthIndex: int, day: int): int
  {
    DayNumber(FullYear(y) + monthIndex / 12, monthIndex % 12 + 1, day)
  }

  /** The year `new Date` reads: 0..99 stand for 1900..1999. */
  function FullYear(y: int): (r: int)
    ensures !(0 <= y <= 99) ==> r == y
    ensures 0 <= y <= 99 ==> r == 1900 + y
  {
    if 0 <= y <= 99 then 1900 + y else y
  }

  /** `getDay()`: 0 is Sunday, 1 Monday, ..., 6 Saturday. */
  function Weekday(n: int): (w: int)
    ensures 0 <= w < 7
  {
    (n + 4) % 7
  }

  /** Stepping a year across a multiple of 4, 100 or 400 raises the
      corresponding floor quotient by one, and otherwise leaves it alone. */
  lemma DivStep(y: int)
    ensures y / 4 - (y - 1) / 4 == if y % 4 == 0 then 1 else 0
    ensures y / 100 - (y - 1) / 100 == if y % 100 == 0 then 1 else 0
    ensures y / 400 - (y - 1) / 400 == if y % 400 == 0 then 1 else 0
  {
  }

  /** A year is as long as its leap status says. */
  lemma {:induction false} NextYearStart(y: int)
    ensures DaysBeforeYear(y + 1) == DaysBeforeYear(y) + YearLength(y)
  {
    DivStep(y);
    assert y % 100 == 0 ==> y % 4 == 0;
    assert y % 400 == 0 ==> y % 100 == 0;
  }

  /** The day after the last day of a month is the first day of the next
      month (of the next year after December). */
  lemma NextMonthStart(y: int, m: int)
    requires 1 <= m <= 12
    ensures m < 12 ==> DayNumber(y, m, 1) + DaysInMonth(y, m) == DayNumber(y, m + 1, 1)
    ensures m == 12 ==> DayNumber(y, m, 1) + DaysInMonth(y, m) == DayNumber(y + 1, 1, 1)
  {
    MonthStep(y, m);
    if m == 12 {
      NextYearStart(y);
    }
  }

  /** `new Date(y, m - 1, 1)` is the first day of month `m`, and day zero
      of the following month, JavaScript's idiom for a month's last day, is
      its last day. */
  lemma MonthBounds(y: int, m: int)
    requires 1 <= m <= 12
    ensures JsLocalDay(y, m - 1, 1) == DayNumber(FullYear(y), m, 1)
    ensures JsLocalDay(y, m, 0) == DayNumber(FullYear(y), m, 1) + DaysInMonth(FullYear(y), m) - 1
  {
    JsLocalDayIn(y, m - 1, 1, FullYear(y), m);
    MonthLast(y, m);
  }

  lemma MonthLast(y: int, m: int)
    requires 1 <= m <= 12
    ensures JsLocalDay(y, m, 0) == DayNumber(FullYear(y), m, 1) + DaysInMonth(FullYear(y), m) - 1
  {
    var fy := FullYear(y);
    NextMonthStart(fy, m);
    if m < 12 {
      JsLocalDayIn(y, m, 0, fy, m + 1);
      DayShift(fy, m + 1, 0);
    } else {
      JsLocalDayIn(y, m, 0, fy + 1, 1);
      DayShift(fy + 1, 1, 0);
    }
  }

  /** `new Date(y, monthIndex, day)` counts `day` from the first of the
      month that `monthIndex` normalises to. */
  lemma JsLocalDayIn(y: int, monthIndex: int, day: int, year: int, m: int)
    requires year == FullYear(y) + monthIndex / 12 && m == monthIndex % 12 + 1
    ensures 1 <= m <= 12
    ensures JsLocalDay(y, monthIndex, day) == DayNumber(year, m, day)
  {
  }

  /** Day numbers within a month count on from its first day. */
  lemma DayShift(y: int, m: int, d: int)
    requires 1 <= m <= 12
    ensures DayNumber(y, m, d) == DayNumber(y, m, 1) + d - 1
  {
  }

  /** The calendar is anchored where JavaScript's epoch is, on a Thursday. */
  lemma EpochIsThursday()
    ensures Ordinal(Date(1970, 1, 1)) == 0
    ensures Weekday(0) == 4
    ensures Ordinal(Date(2000, 1, 1)) == 10957
  {
  }
}
