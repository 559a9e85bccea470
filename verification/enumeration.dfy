/**
 * The day-by-day walk of range mode: start at the first bound and step with
 * the successor day while the current day is not after the second bound.
 */
module Enumeration {
  import opened Calendar

  /** Every day from `start` to `end` inclusive, ascending; empty when `end` is before `start`. */
  function Enumerate(start: CalendarDate, end: CalendarDate): (r: seq<CalendarDate>)
    requires Valid(start) && Valid(end)
    ensures |r| == if DayNumber(start) <= DayNumber(end) then DayNumber(end) - DayNumber(start) + 1 else 0
    ensures forall i :: 0 <= i < |r| ==> Valid(r[i]) && DayNumber(r[i]) == DayNumber(start) + i
    decreases DayNumber(end) - DayNumber(start)
  {
    BeforeIffSmallerNumber(end, start);
    if Before(end, start) then []
    else
      NextDayNumber(start);
      [start] + Enumerate(NextDay(start), end)
  }

  /** Each entry after the first is the successor of the one before it: no gaps, no repeats. */
  lemma EnumerateSteps(start: CalendarDate, end: CalendarDate)
    requires Valid(start) && Valid(end)
    ensures forall i :: 0 <= i < |Enumerate(start, end)| - 1 ==>
      Enumerate(start, end)[i + 1] == NextDay(Enumerate(start, end)[i])
  {
    var r := Enumerate(start, end);
    forall i | 0 <= i < |r| - 1
      ensures r[i + 1] == NextDay(r[i])
    {
      NextDayNumber(r[i]);
      DayNumberInjective(r[i + 1], NextDay(r[i]));
    }
  }

  /** A non-empty walk begins at `start` and ends at `end`. */
  lemma EnumerateEndpoints(start: CalendarDate, end: CalendarDate)
    requires Valid(start) && Valid(end) && NotAfter(start, end)
    ensures |Enumerate(start, end)| == DayNumber(end) - DayNumber(start) + 1
    ensures Enumerate(start, end)[0] == start
    ensures Enumerate(start, end)[|Enumerate(start, end)| - 1] == end
  {
    BeforeIffSmallerNumber(end, start);
    var r := Enumerate(start, end);
    DayNumberInjective(r[0], start);
    DayNumberInjective(r[|r| - 1], end);
  }

  /** The walk is strictly ascending. */
  lemma EnumerateAscending(start: CalendarDate, end: CalendarDate)
    requires Valid(start) && Valid(end)
    ensures forall i, j :: 0 <= i < j < |Enumerate(start, end)| ==>
      Before(Enumerate(start, end)[i], Enumerate(start, end)[j])
  {
    var r := Enumerate(start, end);
    forall i, j | 0 <= i < j < |r|
      ensures Before(r[i], r[j])
    {
      BeforeIffSmallerNumber(r[i], r[j]);
    }
  }

  /** The walk holds exactly the valid days between the bounds, inclusive. */
  lemma EnumerateMembers(start: CalendarDate, end: CalendarDate, d: CalendarDate)
    requires Valid(start) && Valid(end)
    ensures d in Enumerate(start, end) <==> Valid(d) && NotAfter(start, d) && NotAfter(d, end)
  {
    var r := Enumerate(start, end);
    if d in r {
      var i :| 0 <= i < |r| && r[i] == d;
      BeforeIffSmallerNumber(d, start);
      BeforeIffSmallerNumber(end, d);
    }
    if Valid(d) && NotAfter(start, d) && NotAfter(d, end) {
      BeforeIffSmallerNumber(d, start);
      BeforeIffSmallerNumber(end, d);
      var i := DayNumber(d) - DayNumber(start);
      assert 0 <= i < |r|;
      DayNumberInjective(r[i], d);
    }
  }

  /** Weekdays along the walk advance by one per entry, starting from the weekday of `start`. */
  lemma EnumerateWeekdays(start: CalendarDate, end: CalendarDate)
    requires Valid(start) && Valid(end)
    ensures forall i :: 0 <= i < |Enumerate(start, end)| ==>
      Weekday(Enumerate(start, end)[i]) == (Weekday(start) + i) % 7
  {
    var r := Enumerate(start, end);
    forall i | 0 <= i < |r|
      ensures Weekday(r[i]) == (Weekday(start) + i) % 7
    {
      WeekdayOfOffset(start, r[i], i);
    }
  }
}
