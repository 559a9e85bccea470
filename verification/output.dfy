/**
 * `displayResults` and the generate action as a whole: the result panel's
 * three areas (display lines, token lines, the combined text field) as a
 * value, and the transition a click on the generate button makes.
 */
module Page {
  import opened Outcomes
  import opened Calendar
  import opened Text
  import opened DateSort
  import opened Format
  import opened Generator

  /** The result panel: one display line and one token line per result, and the comma-joined tokens. */
  datatype Panel = Panel(displayLines: seq<string>, tokenLines: seq<string>, combined: string)

  /** The message shown in place of display lines when there are no results. */
  const NoMatchMessage: string := "条件に合う日付がありませんでした。"

  /** The panel as `clearResults` leaves it. */
  const Cleared: Panel := Panel([], [], "")

  /** The token column of a result list, in result order. */
  function Tokens(results: seq<Formatted>): (tokens: seq<string>)
    ensures |tokens| == |results|
    ensures forall i :: 0 <= i < |tokens| ==> tokens[i] == results[i].yyyymmdd
  {
    seq(|results|, i requires 0 <= i < |results| => results[i].yyyymmdd)
  }

  /**
   * `displayResults`: clear, then either the no-match message alone or one
   * display line and one token line per result, with the tokens joined by
   * commas into the combined field.
   */
  function Render(results: seq<Formatted>): (p: Panel)
    ensures |results| == 0 ==> p == Cleared.(displayLines := [NoMatchMessage])
    ensures |p.tokenLines| == |results|
    ensures |results| > 0 ==> |p.displayLines| == |results|
    ensures |results| > 0 ==> forall i :: 0 <= i < |results| ==>
      p.displayLines[i] == results[i].display && p.tokenLines[i] == results[i].yyyymmdd
    ensures |results| > 0 ==> p.combined == Join(p.tokenLines, ',')
  {
    if |results| == 0 then Cleared.(displayLines := [NoMatchMessage])
    else
      var tokens := Tokens(results);
      Panel(seq(|results|, i requires 0 <= i < |results| => results[i].display), tokens, Join(tokens, ','))
  }

  /** Splitting the combined field at its commas gives back the token lines, in order. */
  lemma CombinedSplitsIntoTokens(results: seq<Formatted>)
    requires |results| > 0
    requires forall i :: 0 <= i < |results| ==> ',' !in results[i].yyyymmdd
    ensures Split(Render(results).combined, ',') == Render(results).tokenLines
  {
    SplitJoin(Render(results).tokenLines, ',');
  }

  /**
   * A click on the generate button. With nothing selected the panel is left
   * as it was (the alert is the only effect). Otherwise every token line
   * reads back as the matching result date, every display line reads back
   * as that date and its weekday name, and the combined field splits into
   * the token lines.
   */
  function OnGenerate(mode: Mode, selected: seq<CalendarDate>, current: Panel): (p: Panel)
    requires AllValid(selected)
    ensures |selected| == 0 ==> p == current
    ensures |selected| > 0 ==>
      var dates := ResultDates(mode, selected).value;
      && |p.tokenLines| == |dates| && |p.displayLines| == |dates|
      && (forall i :: 0 <= i < |dates| ==>
            ParseToken(p.tokenLines[i]) == Some(dates[i])
            && ParseDisplay(p.displayLines[i]) == Some((dates[i], WeekdayJp[Weekday(dates[i])])))
      && Split(p.combined, ',') == p.tokenLines
  {
    match Generate(mode, selected)
    case Failure(_) => current
    case Success(results) =>
      CombinedSplitsIntoTokens(results);
      Render(results)
  }

  /** The no-match message is not a display string: no date reads out of it. */
  lemma NoMatchIsNotADate()
    ensures ParseDisplay(NoMatchMessage) == None
  {
    assert '年' !in NoMatchMessage;
  }

  /**
   * A non-empty selection never shows the no-match message: both modes
   * produce at least one result, and each display line reads as a date.
   */
  lemma SelectionNeverShowsNoMatch(mode: Mode, selected: seq<CalendarDate>, current: Panel)
    requires AllValid(selected) && |selected| > 0
    ensures |OnGenerate(mode, selected, current).tokenLines| >= 1
    ensures NoMatchMessage !in OnGenerate(mode, selected, current).displayLines
  {
    NoMatchIsNotADate();
  }
}
