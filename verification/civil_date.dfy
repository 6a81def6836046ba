/**
 * Calendar arithmetic as a JavaScript `Date` performs it on local time:
 * proleptic Gregorian dates, `getDay()` numbering Sunday 0 to Saturday 6,
 * and `setDate(n)` rolling an out-of-range day number over into the
 * neighbouring months and years. The clock part of a `Date` plays no role
 * in the handler's date arithmetic and is not carried.
 */
module CivilDates {

  /** A calendar date with the fields `getFullYear()`, `getMonth()`
      (zero-based, 0 = January) and `getDate()` (1-based) return. */
  datatype CivilDate = CivilDate(year: int, month: int, day: int)

  predicate IsLeapYear(y: int) {
    y % 4 == 0 && (y % 100 != 0 || y % 400 == 0)
  }

  function DaysInMonth(y: int, m: int): (n: int)
    requires 0 <= m < 12
    ensures 28 <= n <= 31
    ensures n == 29 <==> m == 1 && IsLeapYear(y)
  {
    if m == 1 then (if IsLeapYear(y) then 29 else 28)
    else if m == 3 || m == 5 || m == 8 || m == 10 then 30
    else 31
  }

  predicate Valid(d: CivilDate) {
    0 <= d.month < 12 && 1 <= d.day <= DaysInMonth(d.year, d.month)
  }

  function DaysInYear(y: int): int {
    if IsLeapYear(y) then 366 else 365
  }

  /** Days from 0001-01-01 to the first of January of year `y` (negative
      before year 1), counted one year at a time. */
  function DaysBeforeYear(y: int): int
    decreases if y >= 1 then y - 1 else 1 - y
  {
    if y == 1 then 0
    else if y > 1 then DaysBeforeYear(y - 1) + DaysInYear(y - 1)
    else DaysBeforeYear(y + 1) - DaysInYear(y)
  }

  /** Days from the first of January to the first of month `m` in a
      common year (`m == 12` gives the whole year). */
  function CommonDaysBeforeMonth(m: int): int
    requires 0 <= m <= 12
  {
    if m == 0 then 0 else if m == 1 then 31 else if m == 2 then 59
    else if m == 3 then 90 else if m == 4 then 120 else if m == 5 then 151
    else if m == 6 then 181 else if m == 7 then 212 else if m == 8 then 243
    else if m == 9 then 273 else if m == 10 then 304 else if m == 11 then 334
    else 365
  }

  function DaysBeforeMonth(y: int, m: int): int
    requires 0 <= m <= 12
  {
    CommonDaysBeforeMonth(m) + (if m >= 2 && IsLeapYear(y) then 1 else 0)
  }

  /** Days since 0001-01-01 (which is day 0). */
  function DayNumber(d: CivilDate): int
    requires Valid(d)
  {
    DaysBeforeYear(d.year) + DaysBeforeMonth(d.year, d.month) + d.day - 1
  }

  /** `getDay()`: 0 for Sunday up to 6 for Saturday. 0001-01-01 was a Monday. */
  function DayOfWeek(d: CivilDate): int
    requires Valid(d)
  {
    (DayNumber(d) + 1) % 7
  }

  // ---------------------------------------------------------------------
  // The day count against the month and year lengths
  // ---------------------------------------------------------------------

  /** The cumulative month table agrees with the month lengths. */
  lemma MonthStep(y: int, m: int)
    requires 0 <= m < 12
    ensures DaysBeforeMonth(y, m + 1) == DaysBeforeMonth(y, m) + DaysInMonth(y, m)
  {
  }

  lemma MonthsFillYear(y: int)
    ensures DaysBeforeMonth(y, 12) == DaysInYear(y)
  {
  }

  lemma {:induction false} DaysBeforeMonthMonotone(y: int, a: int, b: int)
    requires 0 <= a <= b <= 12
    ensures DaysBeforeMonth(y, a) + 28 * (b - a) <= DaysBeforeMonth(y, b)
    decreases b - a
  {
    if a < b {
      MonthStep(y, a);
      DaysBeforeMonthMonotone(y, a + 1, b);
    }
  }

  /** Each year contributes exactly its own length. */
  lemma YearStep(y: int)
    ensures DaysBeforeYear(y + 1) == DaysBeforeYear(y) + DaysInYear(y)
  {
  }

  /** How `x / k` moves when `x` grows by one, for the three divisors of
      the leap-year rule. */
  lemma DivStep(x: int, k: int)
    requires k == 4 || k == 100 || k == 400
    ensures (x + 1) / k == x / k + (if (x + 1) % k == 0 then 1 else 0)
  {
  }

  /** The usual closed form for the days before year `y`: 365 per year
      plus one for every fourth year, less the centuries, plus every
      fourth century. */
  function ClosedDaysBeforeYear(y: int): int {
    var p := y - 1;
    365 * p + p / 4 - p / 100 + p / 400
  }

  lemma ClosedFormStep(y: int)
    ensures ClosedDaysBeforeYear(y + 1) == ClosedDaysBeforeYear(y) + DaysInYear(y)
  {
    var p := y - 1;
    DivStep(p, 4);
    DivStep(p, 100);
    DivStep(p, 400);
    if y % 400 == 0 {
      assert y == 400 * (y / 400);
      assert y % 100 == 0 && y % 4 == 0;
    } else if y % 100 == 0 {
      assert y == 100 * (y / 100);
      assert y % 4 == 0;
    }
  }

  /** The year-by-year count agrees with the closed form. */
  lemma {:induction false} DaysBeforeYearClosedForm(y: int)
    ensures DaysBeforeYear(y) == ClosedDaysBeforeYear(y)
    decreases if y >= 1 then y - 1 else 1 - y
  {
    if y > 1 {
      DaysBeforeYearClosedForm(y - 1);
      ClosedFormStep(y - 1);
    } else if y < 1 {
      DaysBeforeYearClosedForm(y + 1);
      ClosedFormStep(y);
    }
  }

  lemma {:induction false} DaysBeforeYearMonotone(a: int, b: int)
    requires a <= b
    ensures DaysBeforeYear(a) + 365 * (b - a) <= DaysBeforeYear(b)
    decreases b - a
  {
    if a < b {
      YearStep(a);
      DaysBeforeYearMonotone(a + 1, b);
    }
  }

  /** A date's day count lies inside its month's and its year's range. */
  lemma DayNumberBounds(d: CivilDate)
    requires Valid(d)
    ensures DaysBeforeYear(d.year) + DaysBeforeMonth(d.year, d.month) <= DayNumber(d)
    ensures DayNumber(d) < DaysBeforeYear(d.year) + DaysBeforeMonth(d.year, d.month + 1)
    ensures DayNumber(d) < DaysBeforeYear(d.year + 1)
  {
    MonthStep(d.year, d.month);
    DaysBeforeMonthMonotone(d.year, d.month + 1, 12);
    MonthsFillYear(d.year);
    YearStep(d.year);
  }

  /** An earlier or equal day count never has a later year. */
  lemma YearOrder(a: CivilDate, b: CivilDate)
    requires Valid(a) && Valid(b) && DayNumber(a) <= DayNumber(b)
    ensures a.year <= b.year
  {
    if a.year > b.year {
      DayNumberBounds(a);
      DayNumberBounds(b);
      DaysBeforeYearMonotone(b.year + 1, a.year);
    }
  }

  /** Distinct valid dates have distinct day counts. */
  lemma DayNumberInjective(a: CivilDate, b: CivilDate)
    requires Valid(a) && Valid(b) && DayNumber(a) == DayNumber(b)
    ensures a == b
  {
    YearOrder(a, b);
    YearOrder(b, a);
    DayNumberBounds(a);
    DayNumberBounds(b);
    if a.month < b.month {
      DaysBeforeMonthMonotone(a.year, a.month + 1, b.month);
    } else if b.month < a.month {
      DaysBeforeMonthMonotone(a.year, b.month + 1, a.month);
    }
  }

  // ---------------------------------------------------------------------
  // Moving by whole days
  // ---------------------------------------------------------------------

  /** The following calendar day. */
  function NextDay(d: CivilDate): (e: CivilDate)
    requires Valid(d)
    ensures Valid(e) && DayNumber(e) == DayNumber(d) + 1
  {
    if d.day < DaysInMonth(d.year, d.month) then
      d.(day := d.day + 1)
    else if d.month < 11 then
      MonthStep(d.year, d.month);
      CivilDate(d.year, d.month + 1, 1)
    else
      MonthStep(d.year, 11);
      MonthsFillYear(d.year);
      YearStep(d.year);
      CivilDate(d.year + 1, 0, 1)
  }

  /** The preceding calendar day. */
  function PrevDay(d: CivilDate): (e: CivilDate)
    requires Valid(d)
    ensures Valid(e) && DayNumber(e) + 1 == DayNumber(d)
  {
    if d.day > 1 then
      d.(day := d.day - 1)
    else if d.month > 0 then
      MonthStep(d.year, d.month - 1);
      CivilDate(d.year, d.month - 1, DaysInMonth(d.year, d.month - 1))
    else
      MonthStep(d.year - 1, 11);
      MonthsFillYear(d.year - 1);
      YearStep(d.year - 1);
      CivilDate(d.year - 1, 11, 31)
  }

  /** The date `n` days after `d` (before it when `n` is negative). */
  function AddDays(d: CivilDate, n: int): (e: CivilDate)
    requires Valid(d)
    ensures Valid(e) && DayNumber(e) == DayNumber(d) + n
    decreases if n < 0 then -n else n
  {
    if n == 0 then d
    else if n > 0 then AddDays(NextDay(d), n - 1)
    else AddDays(PrevDay(d), n + 1)
  }

  /** `d.setDate(n)`: day `n` counted from the first of `d`'s month, so
      0 is the last day of the previous month and values past the month's
      end run into the next ones. */
  function SetDate(d: CivilDate, n: int): (e: CivilDate)
    requires Valid(d)
    ensures Valid(e) && DayNumber(e) == DayNumber(d) + (n - d.day)
  {
    AddDays(d.(day := 1), n - 1)
  }

  /** `d.setDate(n)` is `d` moved by `n - d.getDate()` days, whatever
      month or year boundary lies in between. */
  lemma SetDateShifts(d: CivilDate, n: int)
    requires Valid(d)
    ensures SetDate(d, n) == AddDays(d, n - d.day)
  {
    DayNumberInjective(SetDate(d, n), AddDays(d, n - d.day));
  }

  /** Two day numbers less than a week apart with the same weekday are
      equal. */
  lemma SameWeekdayClose(x: int, y: int)
    requires (x + 1) % 7 == (y + 1) % 7 && -7 < y - x < 7
    ensures x == y
  {
    var q, r := (x + 1) / 7, (y + 1) / 7;
    assert y - x == 7 * (r - q);
  }

  /** Two dates less than a week apart that fall on the same weekday are
      the same date. */
  lemma SameWeekdayWithinWeek(a: CivilDate, b: CivilDate)
    requires Valid(a) && Valid(b) && DayOfWeek(a) == DayOfWeek(b)
    requires -7 < DayNumber(b) - DayNumber(a) < 7
    ensures a == b
  {
    SameWeekdayClose(DayNumber(a), DayNumber(b));
    DayNumberInjective(a, b);
  }

  lemma ModShift(x: int, n: int)
    ensures (x + n + 1) % 7 == ((x + 1) % 7 + n) % 7
  {
    var q := (x + 1) / 7;
    assert x + 1 == 7 * q + (x + 1) % 7;
    assert x + n + 1 == 7 * q + ((x + 1) % 7 + n);
  }

  /** Moving `n` days on moves the weekday `n` places on, modulo 7. */
  lemma DayOfWeekAfter(d: CivilDate, e: CivilDate, n: int)
    requires Valid(d) && Valid(e) && DayNumber(e) == DayNumber(d) + n
    ensures DayOfWeek(e) == (DayOfWeek(d) + n) % 7
  {
    ModShift(DayNumber(d), n);
  }
}
