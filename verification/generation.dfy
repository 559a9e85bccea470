/**
 * `generateDates`: the selected dates and the active mode become the ordered
 * list of result dates, or the `EmptyInput` error when nothing is selected.
 */
module Generator {
  import opened Outcomes
  import opened Calendar
  import opened DateSort
  import opened Enumeration
  import opened Format

  /** The two selection modes the page switches between. */
  datatype Mode = Range | Multiple

  /** The widget only ever hands over real dates. */
  predicate AllValid(dates: seq<CalendarDate>) {
    forall i :: 0 <= i < |dates| ==> Valid(dates[i])
  }

  /** Sorting keeps every date of the selection, so it keeps them valid. */
  lemma SortKeepsValid(selected: seq<CalendarDate>)
    requires AllValid(selected)
    ensures AllValid(Sort(selected))
  {
    var sorted := Sort(selected);
    forall i | 0 <= i < |sorted|
      ensures Valid(sorted[i])
    {
      assert sorted[i] in multiset(selected);
    }
  }

  /**
   * The dates `generateDates` formats, in result order. In range mode a
   * single selected date is the whole result; otherwise the selection is
   * sorted and its first two entries bound an inclusive day-by-day walk.
   * In multiple mode the selection is sorted ascending.
   */
  function ResultDates(mode: Mode, selected: seq<CalendarDate>): (r: Result<seq<CalendarDate>>)
    requires AllValid(selected)
    ensures r.Failure? <==> |selected| == 0
    ensures r.Failure? ==> r.error == EmptyInput
    ensures r.Success? ==> |r.value| >= 1 && AllValid(r.value) && Ascending(r.value)
    ensures mode == Range && |selected| == 1 ==> r == Success(selected)
    ensures mode == Multiple && r.Success? ==> multiset(r.value) == multiset(selected)
  {
    if |selected| == 0 then Failure(EmptyInput)
    else match mode
      case Range =>
        if |selected| == 1 then
          assert selected == [selected[0]];
          Success([selected[0]])
        else
          var sorted := Sort(selected);
          SortKeepsValid(selected);
          var start, end := sorted[0], sorted[1];
          assert NotAfter(start, end);
          EnumerateEndpoints(start, end);
          EnumerateAscending(start, end);
          Success(Enumerate(start, end))
      case Multiple =>
        SortKeepsValid(selected);
        Success(Sort(selected))
  }

  /** `generateDates` up to the hand-over to `displayResults`: each result date through `formatAll`. */
  function Generate(mode: Mode, selected: seq<CalendarDate>): (r: Result<seq<Formatted>>)
    requires AllValid(selected)
    ensures r.Failure? <==> |selected| == 0
    ensures r.Success? ==> |r.value| == |ResultDates(mode, selected).value|
    ensures r.Success? ==> forall i :: 0 <= i < |r.value| ==>
      ParseToken(r.value[i].yyyymmdd) == Some(ResultDates(mode, selected).value[i])
      && ParseDisplay(r.value[i].display)
         == Some((ResultDates(mode, selected).value[i], WeekdayJp[Weekday(ResultDates(mode, selected).value[i])]))
      && ',' !in r.value[i].yyyymmdd
  {
    match ResultDates(mode, selected)
    case Failure(e) => Failure(e)
    case Success(dates) => Success(FormatEach(dates))
  }

  /** `formatAll` applied to every date, keeping the order. */
  function FormatEach(dates: seq<CalendarDate>): (r: seq<Formatted>)
    requires AllValid(dates)
    ensures |r| == |dates|
    ensures forall i :: 0 <= i < |r| ==>
      ParseToken(r[i].yyyymmdd) == Some(dates[i])
      && ParseDisplay(r[i].display) == Some((dates[i], WeekdayJp[Weekday(dates[i])]))
      && ',' !in r[i].yyyymmdd
  {
    seq(|dates|, i requires 0 <= i < |dates| => FormatAll(dates[i]))
  }

  /**
   * Range mode with two or more dates walks from the earliest selected date
   * to the earliest of what remains once that date is set aside: any pair
   * `lo`, `hi` described that way gives exactly this result.
   */
  lemma RangeUsesTwoSmallest(selected: seq<CalendarDate>, lo: CalendarDate, hi: CalendarDate)
    requires AllValid(selected) && |selected| >= 2
    requires lo in selected && forall x :: x in selected ==> NotAfter(lo, x)
    requires hi in multiset(selected) - multiset{lo}
    requires forall x :: x in multiset(selected) - multiset{lo} ==> NotAfter(hi, x)
    ensures Valid(lo) && Valid(hi)
    ensures ResultDates(Range, selected) == Success(Enumerate(lo, hi))
  {
    var sorted := Sort(selected);
    FirstIsEarliest(selected, sorted);
    assert lo == sorted[0] by {
      assert NotAfter(lo, sorted[0]) && NotAfter(sorted[0], lo);
    }
    SecondIsNextEarliest(selected, sorted);
    assert hi == sorted[1] by {
      assert NotAfter(hi, sorted[1]) && NotAfter(sorted[1], hi);
    }
    SortKeepsValid(selected);
  }

  /** Range mode with two dates, in either order, walks from the earlier to the later. */
  lemma RangeOfTwo(a: CalendarDate, b: CalendarDate)
    requires Valid(a) && Valid(b)
    ensures NotAfter(a, b) ==> ResultDates(Range, [a, b]) == Success(Enumerate(a, b))
    ensures NotAfter(b, a) ==> ResultDates(Range, [a, b]) == Success(Enumerate(b, a))
  {
    SortOfTwo(a, b);
  }

  /**
   * Range mode with two dates yields every valid day between them,
   * inclusive, and nothing else; one day per step of the ordinal.
   */
  lemma RangeOfTwoCoversEveryDay(a: CalendarDate, b: CalendarDate, d: CalendarDate)
    requires Valid(a) && Valid(b)
    ensures var lo, hi := (if NotAfter(a, b) then a else b), (if NotAfter(a, b) then b else a);
      && |ResultDates(Range, [a, b]).value| == DayNumber(hi) - DayNumber(lo) + 1
      && (d in ResultDates(Range, [a, b]).value <==> Valid(d) && NotAfter(lo, d) && NotAfter(d, hi))
  {
    var lo, hi := (if NotAfter(a, b) then a else b), (if NotAfter(a, b) then b else a);
    RangeOfTwo(a, b);
    EnumerateEndpoints(lo, hi);
    EnumerateMembers(lo, hi, d);
  }

  /** In range mode each result date is the day after the one before it. */
  lemma RangeIsContiguous(selected: seq<CalendarDate>)
    requires AllValid(selected) && |selected| >= 1
    ensures var dates := ResultDates(Range, selected).value;
      forall i :: 0 <= i < |dates| - 1 ==> dates[i + 1] == NextDay(dates[i])
  {
    if |selected| >= 2 {
      var sorted := Sort(selected);
      SortKeepsValid(selected);
      EnumerateSteps(sorted[0], sorted[1]);
    }
  }

  /**
   * Multiple mode gives the one ascending arrangement of the selection:
   * whatever ascending permutation `arranged` of it is named, it is the result.
   */
  lemma MultipleIsAscendingArrangement(selected: seq<CalendarDate>, arranged: seq<CalendarDate>)
    requires AllValid(selected) && |selected| >= 1
    requires Ascending(arranged) && multiset(arranged) == multiset(selected)
    ensures ResultDates(Multiple, selected) == Success(arranged)
    ensures |arranged| == |selected|
  {
    AscendingPermutationUnique(Sort(selected), arranged);
    assert |multiset(arranged)| == |multiset(selected)|;
  }
}
