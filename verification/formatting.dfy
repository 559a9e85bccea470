/**
 * `formatAll`: each result date becomes a Japanese display string and a
 * compact `YYYYMMDD` token. Each format has a reader, and the lemmas prove
 * that reading a rendered string back yields the date it was rendered from.
 */
module Format {
  import opened Outcomes
  import opened Calendar
  import opened Text

  /** Weekday names indexed by `getDay()`: 0 is 日 (Sunday), 6 is 土 (Saturday). */
  const WeekdayJp: seq<string> := ["日", "月", "火", "水", "木", "金", "土"]

  /** The pair `formatAll` returns for one date. */
  datatype Formatted = Formatted(display: string, yyyymmdd: string)

  function WeekdayName(d: CalendarDate): (name: string)
    requires Valid(d)
    ensures name in WeekdayJp
    ensures |name| == 1
  {
    WeekdayJp[Weekday(d)]
  }

  /**
   * `{year}年{month}月{day}日({weekday})`: month 1-based and unpadded, day
   * unpadded, ASCII parentheses. `DisplayRoundTrip` reads it back.
   */
  function Display(d: CalendarDate): string
    requires Valid(d)
  {
    IntToString(d.year) + ("年" + (NatToString(d.month) + ("月" + (NatToString(d.day) + ("日" + ("(" + WeekdayName(d) + ")"))))))
  }

  /** The year as written, then month and day each zero-padded to two digits. */
  function Token(d: CalendarDate): (r: string)
    requires Valid(d)
    ensures |r| >= 5
    ensures ',' !in r
    ensures d.year >= 0 ==> AllDigits(r)
    ensures 1000 <= d.year <= 9999 ==> |r| == 8
  {
    var y, md := IntToString(d.year), PadTwo(d.month) + PadTwo(d.day);
    ConcatDigits(PadTwo(d.month), PadTwo(d.day));
    ConcatDigits(y, md);
    DigitsAreNumeralChars(md);
    NumeralExcludes(md, ',');
    NumeralExcludes(y, ',');
    y + md
  }

  function FormatAll(d: CalendarDate): (r: Formatted)
    requires Valid(d)
    ensures ParseToken(r.yyyymmdd) == Some(d)
    ensures ParseDisplay(r.display) == Some((d, WeekdayJp[Weekday(d)]))
    ensures ',' !in r.yyyymmdd
  {
    TokenRoundTrip(d);
    DisplayRoundTrip(d);
    Formatted(Display(d), Token(d))
  }

  /** Reads a compact token: a year numeral, then exactly two month digits and two day digits, naming a real date. */
  function ParseToken(s: string): Option<CalendarDate> {
    if |s| < 5 then None else ParseTokenFields(s[..|s| - 4], s[|s| - 4..])
  }

  /** Reads the year numeral and the four month-and-day digits of a token. */
  function ParseTokenFields(ys: string, md: string): Option<CalendarDate> {
    if |md| != 4 || !AllDigits(md) then None
    else match ParseInt(ys)
      case None => None
      case Some(y) =>
        var d := CalendarDate(y, ParseNat(md[..2]), ParseNat(md[2..]));
        if Valid(d) then Some(d) else None
  }

  /**
   * Reads a display string: year numeral, 年, unpadded month, 月, unpadded
   * day, 日, then the weekday name in ASCII parentheses. Yields the date and
   * the weekday name.
   */
  function ParseDisplay(s: string): Option<(CalendarDate, string)> {
    match SplitOnce(s, '年')
    case None => None
    case Some((ys, afterYear)) =>
      match SplitOnce(afterYear, '月')
      case None => None
      case Some((ms, afterMonth)) =>
        match SplitOnce(afterMonth, '日')
        case None => None
        case Some((ds, tail)) => ParseDisplayFields(ys, ms, ds, tail)
  }

  /** Reads the pieces between the markers of a display string. */
  function ParseDisplayFields(ys: string, ms: string, ds: string, tail: string): Option<(CalendarDate, string)> {
    if |tail| >= 2 && tail[0] == '(' && tail[|tail| - 1] == ')'
       && ParseInt(ys).Some? && IsCanonicalNumeral(ms) && IsCanonicalNumeral(ds)
    then
      var d := CalendarDate(ParseInt(ys).value, ParseNat(ms), ParseNat(ds));
      if Valid(d) then Some((d, tail[1..|tail| - 1])) else None
    else None
  }

  /** A token read back gives the date it was written from. */
  lemma TokenRoundTrip(d: CalendarDate)
    requires Valid(d)
    ensures ParseToken(Token(d)) == Some(d)
  {
    var y, md := IntToString(d.year), PadTwo(d.month) + PadTwo(d.day);
    assert Token(d) == y + md;
    ParseTokenSplits(y, md);
    TokenFieldsRoundTrip(d);
  }

  /** The reader takes the last four characters as month and day and the rest as the year. */
  lemma ParseTokenSplits(ys: string, md: string)
    requires |ys| >= 1 && |md| == 4
    ensures ParseToken(ys + md) == ParseTokenFields(ys, md)
  {
    SliceAt(ys, md, |ys|);
  }

  lemma TokenFieldsRoundTrip(d: CalendarDate)
    requires Valid(d)
    ensures ParseTokenFields(IntToString(d.year), PadTwo(d.month) + PadTwo(d.day)) == Some(d)
  {
    var m, dd := PadTwo(d.month), PadTwo(d.day);
    var md := m + dd;
    SliceAt(m, dd, 2);
    ConcatDigits(m, dd);
    PadTwoRoundTrip(d.month);
    PadTwoRoundTrip(d.day);
    IntToStringRoundTrip(d.year);
    assert |md| == 4 && AllDigits(md);
    assert ParseNat(md[..2]) == d.month && ParseNat(md[2..]) == d.day;
    assert CalendarDate(d.year, ParseNat(md[..2]), ParseNat(md[2..])) == d;
  }

  /** Distinct dates get distinct tokens. */
  lemma TokenInjective(a: CalendarDate, b: CalendarDate)
    requires Valid(a) && Valid(b)
    ensures Token(a) == Token(b) <==> a == b
  {
    TokenRoundTrip(a);
    TokenRoundTrip(b);
  }

  /** A display string read back gives its date and the weekday name `getDay()` selects. */
  lemma DisplayRoundTrip(d: CalendarDate)
    requires Valid(d)
    ensures ParseDisplay(Display(d)) == Some((d, WeekdayJp[Weekday(d)]))
  {
    var y, m, dd := IntToString(d.year), NatToString(d.month), NatToString(d.day);
    NumeralExcludes(y, '年');
    DigitsAreNumeralChars(m);
    NumeralExcludes(m, '月');
    DigitsAreNumeralChars(dd);
    NumeralExcludes(dd, '日');
    ParseDisplaySplits(y, m, dd, "(" + WeekdayName(d) + ")");
    DisplayFieldsRoundTrip(d);
  }

  /** The reader cuts a display string at the first 年, the next 月 and the next 日. */
  lemma ParseDisplaySplits(ys: string, ms: string, ds: string, tail: string)
    requires '年' !in ys && '月' !in ms && '日' !in ds
    ensures ParseDisplay(ys + ("年" + (ms + ("月" + (ds + ("日" + tail)))))) == ParseDisplayFields(ys, ms, ds, tail)
  {
    var afterMonth := ds + ("日" + tail);
    var afterYear := ms + ("月" + afterMonth);
    assert ys + ("年" + afterYear) == ys + ['年'] + afterYear;
    assert afterYear == ms + ['月'] + afterMonth;
    assert afterMonth == ds + ['日'] + tail;
    SplitOnceFirst(ys, '年', afterYear);
    SplitOnceFirst(ms, '月', afterMonth);
    SplitOnceFirst(ds, '日', tail);
  }

  lemma DisplayFieldsRoundTrip(d: CalendarDate)
    requires Valid(d)
    ensures ParseDisplayFields(IntToString(d.year), NatToString(d.month), NatToString(d.day), "(" + WeekdayName(d) + ")")
      == Some((d, WeekdayJp[Weekday(d)]))
  {
    var tail := "(" + WeekdayName(d) + ")";
    assert tail[1..|tail| - 1] == WeekdayName(d);
    IntToStringRoundTrip(d.year);
    NatToStringCanonical(d.month);
    NatToStringCanonical(d.day);
    NatToStringRoundTrip(d.month);
    NatToStringRoundTrip(d.day);
  }
}
