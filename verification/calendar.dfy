/**
 * Civil calendar dates in the proleptic Gregorian calendar, standing in for
 * the JavaScript `Date` objects the date picker hands over. Only the civil
 * date matters to the page, so a date is a year/month/day triple. The
 * successor day is defined by cases on day and month and the comparison
 * field by field; both are proved to agree with a day ordinal, over which
 * the weekday is defined.
 */
module Calendar {

  /** A year/month/day triple with no time component; `month` is 1-based. */
  datatype CalendarDate = CalendarDate(year: int, month: int, day: int)

  predicate IsLeapYear(y: int) {
    y % 4 == 0 && (y % 100 != 0 || y % 400 == 0)
  }

  function DaysInMonth(y: int, m: int): (n: int)
    requires 1 <= m <= 12
    ensures 28 <= n <= 31
    ensures n == 29 <==> m == 2 && IsLeapYear(y)
  {
    if m == 2 then (if IsLeapYear(y) then 29 else 28)
    else if m == 4 || m == 6 || m == 9 || m == 11 then 30
    else 31
  }

  /** A triple that names a real day: no month 13, no "February 31". */
  predicate Valid(d: CalendarDate) {
    1 <= d.month <= 12 && 1 <= d.day <= DaysInMonth(d.year, d.month)
  }

  function YearLength(y: int): int {
    if IsLeapYear(y) then 366 else 365
  }

  /** Days in all years before `y`, counting from 1 January of year 1. */
  function DaysBeforeYear(y: int): int {
    var p := y - 1;
    365 * p + p / 4 - p / 100 + p / 400
  }

  /** Days in the months of year `y` before month `m`. */
  function DaysBeforeMonth(y: int, m: int): int
    requires 1 <= m <= 12
  {
    var common :=
      if m == 1 then 0 else if m == 2 then 31 else if m == 3 then 59
      else if m == 4 then 90 else if m == 5 then 120 else if m == 6 then 151
      else if m == 7 then 181 else if m == 8 then 212 else if m == 9 then 243
      else if m == 10 then 273 else if m == 11 then 304 else 334;
    if m > 2 && IsLeapYear(y) then common + 1 else common
  }

  /**
   * The ordinal of a date: 1 January of year 1 is day 1, and each later day
   * is one more. Plays the part of the `Date` time value, which the page
   * compares and steps through.
   */
  function DayNumber(d: CalendarDate): int
    requires Valid(d)
  {
    DaysBeforeYear(d.year) + DaysBeforeMonth(d.year, d.month) + d.day
  }

  /** The successor day, as `setDate(getDate() + 1)` normalises it. */
  function NextDay(d: CalendarDate): (r: CalendarDate)
    requires Valid(d)
    ensures Valid(r)
    ensures Before(d, r)
    ensures d.day == DaysInMonth(d.year, d.month) && d.month < 12 ==> r == CalendarDate(d.year, d.month + 1, 1)
    ensures d.month == 12 && d.day == 31 ==> r == CalendarDate(d.year + 1, 1, 1)
    ensures d.month == 2 && d.day == 28 ==> (r == CalendarDate(d.year, 2, 29) <==> IsLeapYear(d.year))
  {
    if d.day < DaysInMonth(d.year, d.month) then CalendarDate(d.year, d.month, d.day + 1)
    else if d.month < 12 then CalendarDate(d.year, d.month + 1, 1)
    else CalendarDate(d.year + 1, 1, 1)
  }

  /** Day of the week as `getDay()` reports it: 0 is Sunday, 6 is Saturday. */
  function Weekday(d: CalendarDate): (w: int)
    requires Valid(d)
    ensures 0 <= w < 7
  {
    DayNumber(d) % 7
  }

  /** Chronological order: `a` is an earlier day than `b`. */
  predicate Before(a: CalendarDate, b: CalendarDate) {
    a.year < b.year
    || (a.year == b.year && (a.month < b.month || (a.month == b.month && a.day < b.day)))
  }

  /** The comparison the page sorts by and loops on (`a - b`, `<=`). */
  predicate NotAfter(a: CalendarDate, b: CalendarDate) {
    !Before(b, a)
  }

  // ---------------------------------------------------------------------
  // Lemmas about the day ordinal
  // ---------------------------------------------------------------------

  /** Stepping a year boundary: floor division by k gains one exactly at multiples of k. */
  lemma DivStep(a: int, k: int)
    requires k == 4 || k == 100 || k == 400
    ensures a / k - (a - 1) / k == if a % k == 0 then 1 else 0
  {
    var q := (a - 1) / k;
    var r := (a - 1) % k;
    assert a - 1 == k * q + r && 0 <= r < k;
    if r == k - 1 {
      assert a == k * (q + 1);
      assert a / k == q + 1 && a % k == 0;
    } else {
      assert a == k * q + (r + 1) && 0 <= r + 1 < k;
      assert a / k == q && a % k == r + 1;
    }
  }

  /** A year contributes exactly its own length to the ordinal. */
  lemma YearStep(y: int)
    ensures DaysBeforeYear(y + 1) == DaysBeforeYear(y) + YearLength(y)
  {
    DivStep(y, 4);
    DivStep(y, 100);
    DivStep(y, 400);
  }

  lemma {:induction false} DaysBeforeYearMonotone(y1: int, y2: int)
    requires y1 <= y2
    ensures DaysBeforeYear(y1) <= DaysBeforeYear(y2)
    decreases y2 - y1
  {
    if y1 < y2 {
      YearStep(y1);
      DaysBeforeYearMonotone(y1 + 1, y2);
    }
  }

  /** The day within its year lies between 1 and the year's length. */
  lemma DayOfYearBounds(d: CalendarDate)
    requires Valid(d)
    ensures 1 <= DaysBeforeMonth(d.year, d.month) + d.day <= YearLength(d.year)
  {
  }

  /** The cumulative month table and the month lengths agree: each month starts where the one before it ends. */
  lemma MonthTableConsistent(y: int, m: int)
    requires 1 <= m <= 12
    ensures m < 12 ==> DaysBeforeMonth(y, m + 1) == DaysBeforeMonth(y, m) + DaysInMonth(y, m)
    ensures m == 12 ==> DaysBeforeMonth(y, m) + DaysInMonth(y, m) == YearLength(y)
  {
  }

  /** Within one year, a later month starts after every day of an earlier one. */
  lemma MonthsInOrder(y: int, m1: int, m2: int)
    requires 1 <= m1 < m2 <= 12
    ensures DaysBeforeMonth(y, m1) + DaysInMonth(y, m1) <= DaysBeforeMonth(y, m2)
  {
  }

  /** The ordinal increases exactly one day at a time. */
  lemma NextDayNumber(d: CalendarDate)
    requires Valid(d)
    ensures DayNumber(NextDay(d)) == DayNumber(d) + 1
  {
    if d.day == DaysInMonth(d.year, d.month) && d.month == 12 {
      YearStep(d.year);
    }
  }

  /** Chronological order is the order of the ordinals. */
  lemma BeforeIffSmallerNumber(a: CalendarDate, b: CalendarDate)
    requires Valid(a) && Valid(b)
    ensures Before(a, b) <==> DayNumber(a) < DayNumber(b)
  {
    if a.year < b.year {
      EarlierYearSmaller(a, b);
    } else if b.year < a.year {
      EarlierYearSmaller(b, a);
    } else if a.month < b.month {
      MonthsInOrder(a.year, a.month, b.month);
    } else if b.month < a.month {
      MonthsInOrder(a.year, b.month, a.month);
    }
  }

  lemma EarlierYearSmaller(a: CalendarDate, b: CalendarDate)
    requires Valid(a) && Valid(b) && a.year < b.year
    ensures DayNumber(a) < DayNumber(b)
  {
    DayOfYearBounds(a);
    YearStep(a.year);
    DaysBeforeYearMonotone(a.year + 1, b.year);
  }

  /** Distinct valid dates have distinct ordinals. */
  lemma DayNumberInjective(a: CalendarDate, b: CalendarDate)
    requires Valid(a) && Valid(b)
    ensures DayNumber(a) == DayNumber(b) <==> a == b
  {
    BeforeIffSmallerNumber(a, b);
    BeforeIffSmallerNumber(b, a);
  }

  /** `NextDay` skips nothing: no valid date lies strictly between a day and its successor. */
  lemma NoDayBetween(d: CalendarDate, x: CalendarDate)
    requires Valid(d) && Valid(x)
    ensures !(Before(d, x) && Before(x, NextDay(d)))
  {
    NextDayNumber(d);
    BeforeIffSmallerNumber(d, x);
    BeforeIffSmallerNumber(x, NextDay(d));
  }

  /** Weekdays of successive days advance by one, wrapping Saturday to Sunday. */
  lemma WeekdayAdvances(d: CalendarDate)
    requires Valid(d)
    ensures Weekday(NextDay(d)) == (Weekday(d) + 1) % 7
  {
    NextDayNumber(d);
    WeekdayOfOffset(d, NextDay(d), 1);
  }

  /** A date `i` days after another falls `i` weekdays later, modulo 7. */
  lemma WeekdayOfOffset(a: CalendarDate, b: CalendarDate, i: int)
    requires Valid(a) && Valid(b) && DayNumber(b) == DayNumber(a) + i
    ensures Weekday(b) == (Weekday(a) + i) % 7
  {
    ShiftMod7(DayNumber(a), i);
  }

  /** Adding to a remainder modulo 7 is adding to the number itself. */
  lemma ShiftMod7(n: int, i: int)
    ensures (n % 7 + i) % 7 == (n + i) % 7
  {
    var q := n / 7;
    var x := n % 7 + i;
    assert n + i == 7 * q + x;
    var q2 := x / 7;
    assert x == 7 * q2 + x % 7;
    assert n + i == 7 * (q + q2) + x % 7;
  }

  /** Anchors: 1 January 1970 was a Thursday, 1 July 2025 a Tuesday, 12 July 2025 a Saturday. */
  lemma WeekdayAnchors()
    ensures Weekday(CalendarDate(1970, 1, 1)) == 4
    ensures Weekday(CalendarDate(2025, 7, 1)) == 2
    ensures Weekday(CalendarDate(2025, 7, 12)) == 6
  {
  }
}
