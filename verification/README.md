# date-assist: the date pipeline of `script.js`, in Dafny

date-assist is a one-page tool. The user picks dates on an inline calendar,
in one of two modes, and presses "generate". The page then lists every
resulting date in two forms:

- a Japanese display line such as `2025年7月1日(火)`;
- a compact token such as `20250701`.

It also fills a text field with all the tokens joined by commas.

This project models that pipeline as pure functions over civil dates. The
dates are proleptic Gregorian year/month/day triples with unbounded years.

- `Calendar` (calendar.dfy) covers what the page asks of JavaScript's `Date`:
  - the day after a date (`setDate(getDate() + 1)`);
  - the weekday (`getDay()`, 0 = Sunday);
  - chronological comparison.

  The weekday is defined from a day ordinal that plays the part of the time
  value. The next day is defined by cases on day and month, and the order
  compares year, month and day in turn. `Calendar.NextDayNumber` and
  `Calendar.BeforeIffSmallerNumber` prove that both agree with the ordinal.
- `Enumeration` (enumeration.dfy) is range mode's inclusive day-by-day walk.
- `DateSort` (sorting.dfy) is `sort((a, b) => a - b)`. It is an insertion
  sort, proved to give the one ascending arrangement of its input.
- `Text` (text.dfy) holds the string operations the page relies on:
  - `String(n)` and `padStart`;
  - `join(',')`, with a matching `split`.
- `Format` (formatting.dfy) is `formatAll` and the `WEEKDAY_JP` table. It
  also has a reader for each output format.
- `Generator` (generation.dfy) is `generateDates` up to the hand-over of its
  results. It returns the `EmptyInput` error when nothing is selected.
- `Page` (output.dfy) is `displayResults` and one click on the generate
  button, as a transition on the three output areas.

`Outcomes` (outcomes.dfy) holds `Option`, `Result` and the `EmptyInput`
error.

Each writer is paired with a reader, and the lemmas prove the round trips:

- a token reads back as its date;
- a display line reads back as its date and weekday name;
- the combined field splits back into the token lines.

The range walk is characterised independently:

- its length is the day difference plus one;
- each entry is the successor of the one before it;
- it holds exactly the days between the bounds;
- its weekdays advance by one, modulo 7.

Two details of the code are modelled as written:

- The display line uses ASCII parentheses, as in `日(火)` (script.js:85).
- In range mode with two or more dates, the walk runs between the first two
  elements of the sorted selection (script.js:64). These are the two earliest
  dates, not the earliest and the latest. The calendar widget's range mode
  never hands over more than two dates, so in practice the walk spans the
  whole selection. `Generator.RangeUsesTwoSmallest` states this behaviour
  exactly.

## Model

| member | source | states |
|---|---|---|
| Format.WeekdayName | script.js:4 | the weekday name is one entry of the seven-name table, one character long |
| Calendar.DaysInMonth | script.js:68 | month lengths lie between 28 and 31, and a month has 29 days exactly when it is February of a leap year |
| Calendar.MonthTableConsistent | script.js:68 | each month starts where the one before it ends, and December ends at the year's length |
| Calendar.NextDay | script.js:68 | the next day is a valid date, later than the given one; it rolls over at month end to day 1 of the next month, on 31 December to 1 January of the next year, and from 28 February to 29 February exactly in leap years |
| Calendar.NextDayNumber | script.js:68 | stepping to the next day adds exactly one to the day ordinal |
| Calendar.NoDayBetween | script.js:68 | no valid date lies strictly between a day and its successor |
| Calendar.BeforeIffSmallerNumber | script.js:64-66 | chronological order of dates is the order of their day ordinals, in both directions |
| Calendar.DayNumberInjective | script.js:66 | two valid dates have the same ordinal exactly when they are the same date |
| Calendar.Weekday | script.js:85 | the weekday is between 0 and 6 |
| Calendar.WeekdayAdvances | script.js:68 | the weekday of the next day is one more, modulo 7, with Saturday wrapping to Sunday |
| Calendar.WeekdayOfOffset | script.js:85 | a date i days after another falls i weekdays later, modulo 7 |
| Calendar.WeekdayAnchors | script.js:85 | 1 January 1970 is a Thursday (4), 1 July 2025 a Tuesday (2) and 12 July 2025 a Saturday (6) |
| Enumeration.Enumerate | script.js:65-69 | the walk has (end − start) + 1 entries when start is not after end and none otherwise; entry i is a valid date whose ordinal is start's plus i |
| Enumeration.EnumerateSteps | script.js:66-68 | each entry after the first is the successor of the one before it |
| Enumeration.EnumerateEndpoints | script.js:65-66 | a walk with start not after end begins at start, ends at end and has the day difference plus one entries |
| Enumeration.EnumerateAscending | script.js:66-68 | the walk is strictly ascending, so it holds no date twice |
| Enumeration.EnumerateMembers | script.js:65-69 | a date is in the walk exactly when it is valid and lies between start and end, inclusive |
| Enumeration.EnumerateWeekdays | script.js:66-68 | the weekday of entry i is start's weekday plus i, modulo 7 |
| DateSort.Insert | script.js:75 | inserting into an ascending sequence gives an ascending sequence holding the old elements plus the new one |
| DateSort.Sort | script.js:64 | the result is ascending and is a permutation of the input, duplicates kept |
| DateSort.SortOfTwo | script.js:64 | two dates come out with the earlier first |
| DateSort.AscendingPermutationUnique | script.js:75 | two ascending permutations of the same dates are equal |
| DateSort.FirstIsEarliest | script.js:64 | the first sorted date is a selected date no later than any selected date |
| DateSort.SecondIsNextEarliest | script.js:64 | the second sorted date is the earliest of the selection once one copy of the first is set aside |
| Text.NatToString | script.js:85 | the numeral of a non-negative number is all digits, with 1, 2, 3 or 4 digits for numbers below 10, 100, 1000 and 10000 |
| Text.IntToString | script.js:86 | the numeral of an integer is non-empty and made of digits and a minus sign; it is all digits for non-negative values and four long for four-digit ones |
| Text.NatToStringCanonical | script.js:85 | the numeral has no leading zero |
| Text.NatToStringRoundTrip | script.js:85 | reading the numeral of n gives n |
| Text.IntToStringRoundTrip | script.js:86 | reading the numeral of an integer, sign included, gives it back |
| Text.PadStart | script.js:87-88 | padding to a width gives max(width, length) characters: fill characters in front, then the original string |
| Text.PadTwo | script.js:87-88 | a number below 100 padded to two places is exactly two digits |
| Text.PadTwoRoundTrip | script.js:87-88 | zero-padding to two places keeps the value |
| Text.SplitOnce | script.js:116 | splitting at the first separator fails exactly when there is none, and otherwise gives a separator-free part before it and the rest after it |
| Text.SplitOnceFirst | script.js:116 | splitting a separator-free prefix, the separator and a rest gives back the prefix and the rest |
| Text.Split | script.js:116 | splitting always yields at least one part |
| Text.Join | script.js:116 | when no part holds the separator, the joined text holds one separator per gap between parts; `Text.SplitJoin` proves that the parts come back in order |
| Text.SplitJoin | script.js:116 | splitting the comma-joined parts recovers them, in order, when no part holds a comma |
| Format.Token | script.js:86-89 | the token has no comma and at least five characters, is all digits for non-negative years, and is eight characters for four-digit years |
| Format.FormatAll | script.js:84-91 | the token reads back as the date; the display line reads back as the date and the weekday name of `getDay()`; the token holds no comma |
| Format.TokenRoundTrip | script.js:86-89 | reading a token gives the date it was written from |
| Format.TokenInjective | script.js:86-89 | two dates have the same token exactly when they are the same date |
| Format.Display | script.js:85 | the year numeral, 年, the unpadded month, 月, the unpadded day, 日, then the weekday name in ASCII parentheses; its contract is `Format.DisplayRoundTrip` |
| Format.DisplayRoundTrip | script.js:85 | reading a display line gives its date, with unpadded month and day, and the weekday name in parentheses |
| Generator.ResultDates | script.js:50-78 | the error `EmptyInput` occurs exactly when nothing is selected; otherwise the result dates are non-empty, valid and ascending; one date in range mode gives exactly that date; multiple mode gives a permutation of the selection |
| Generator.FormatEach | script.js:74-76 | every formatted entry reads back as the date at the same position |
| Generator.Generate | script.js:50-78 | fails exactly on an empty selection; otherwise entry i reads back as result date i, in both formats |
| Generator.RangeUsesTwoSmallest | script.js:64-69 | with two or more dates, range mode walks from the earliest selected date to the earliest of the rest |
| Generator.RangeOfTwo | script.js:64-69 | with two dates in either order, range mode walks from the earlier to the later |
| Generator.RangeOfTwoCoversEveryDay | script.js:64-69 | with two dates, the result has the day difference plus one entries and holds exactly the valid days between them, inclusive |
| Generator.RangeIsContiguous | script.js:60-70 | in range mode each result date is the day after the one before it |
| Generator.MultipleIsAscendingArrangement | script.js:73-76 | multiple mode's result equals any ascending permutation of the selection, duplicates kept |
| Page.Render | script.js:93-117 | no results give the no-match message alone, with empty token lines and an empty combined field; otherwise there is one display line and one token line per result, in order, and the combined field is the comma-join of the tokens |
| Page.CombinedSplitsIntoTokens | script.js:116 | splitting the combined field at commas gives the token lines back |
| Page.OnGenerate | script.js:50-79 | an empty selection leaves the panel as it was; otherwise each token line and display line reads back as the result date at its position, and the combined field splits into the token lines |
| Page.NoMatchIsNotADate | script.js:96-99 | the no-match message does not read as a display line |
| Page.SelectionNeverShowsNoMatch | script.js:96-99 | a non-empty selection produces at least one token line and never shows the no-match message |

## Left out

- The calendar widget is not modelled. This covers creating and re-creating it, `changeMode`, `clearAll` and page start-up (script.js:9-45 and 171-174). The selection and the mode are parameters instead.
- Alerts, DOM elements and their markup are not modelled. The panel is a value with three fields, and the alert on an empty selection is reduced to "nothing changes".
- Copying to the clipboard and its notifications (script.js:119-161) are left out, because they are browser I/O.
- Time of day, time zones and daylight saving are left out. The model walks civil dates, while the code steps a `Date` with `setDate` (script.js:68) and compares time values with `<=` (script.js:66).
- Enumeration.Enumerate: does not reproduce the case where daylight saving starts at midnight. There, the code can drop the last day of a range. `setDate` keeps the local time of day, so once the walk passes the day whose midnight does not exist, it runs at 01:00, and the end day at 00:00 fails the `<=` test. For example, in America/Havana the range 8–10 March 2025 gives 8 and 9 March only, where the model gives all three days.
- `Date`'s range limit of ±100,000,000 days is not modelled. Years are unbounded integers.
- `sort` reorders the widget's own selection array in place. The model returns a sorted copy and leaves the selection unchanged.
- The switch in `generateDates` has no default branch. The model has only the two modes the page offers, so that fall-through cannot happen.
- The empty-results branch of `displayResults` is modelled in `Page.Render`. `Page.SelectionNeverShowsNoMatch` proves that a generate click never reaches it.
- Weekly selection, free-text date parsing, short display variants and collapsing a range into one summary line are not in this source file, so they are not modelled.
