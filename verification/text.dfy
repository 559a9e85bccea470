/**
 * The string operations the page relies on: decimal numerals as template
 * literals and `String(n)` write them, `padStart`, and joining and splitting
 * on a separator character. Each writer has a reader beside it, and the
 * lemmas prove that reading back what was written gives the original.
 */
module Text {
  import opened Outcomes

  predicate IsDigit(c: char) {
    '0' <= c <= '9'
  }

  predicate AllDigits(s: string) {
    forall i :: 0 <= i < |s| ==> IsDigit(s[i])
  }

  /** Characters a numeral of either sign may hold: digits and the minus sign. */
  predicate NumeralChars(s: string) {
    forall i :: 0 <= i < |s| ==> IsDigit(s[i]) || s[i] == '-'
  }

  /** A numeral as JavaScript writes a non-negative integer: digits only, no leading zero. */
  predicate IsCanonicalNumeral(s: string) {
    |s| >= 1 && AllDigits(s) && (s[0] == '0' ==> |s| == 1)
  }

  function DigitValue(c: char): (v: int)
    requires IsDigit(c)
    ensures 0 <= v < 10
  {
    c as int - '0' as int
  }

  function DigitChar(n: int): (c: char)
    requires 0 <= n < 10
    ensures IsDigit(c) && DigitValue(c) == n
  {
    ('0' as int + n) as char
  }

  /** The value of a string of decimal digits; leading zeros are allowed. */
  function ParseNat(s: string): nat
    requires AllDigits(s)
  {
    if |s| == 0 then 0 else ParseNat(s[..|s| - 1]) * 10 + DigitValue(s[|s| - 1])
  }

  /** `String(n)` for a non-negative integer. */
  function NatToString(n: nat): (s: string)
    ensures AllDigits(s)
    ensures n < 10 ==> |s| == 1
    ensures 10 <= n < 100 ==> |s| == 2
    ensures 100 <= n < 1000 ==> |s| == 3
    ensures 1000 <= n < 10000 ==> |s| == 4
  {
    if n < 10 then [DigitChar(n)] else NatToString(n / 10) + [DigitChar(n % 10)]
  }

  /** `String(i)` for any integer: a minus sign before the magnitude when negative. */
  function IntToString(i: int): (s: string)
    ensures |s| >= 1 && NumeralChars(s)
    ensures i >= 0 ==> AllDigits(s)
    ensures 1000 <= i < 10000 ==> |s| == 4
  {
    if i < 0 then "-" + NatToString(-i) else NatToString(i)
  }

  /** Reads a numeral written by `IntToString`; anything else is rejected. */
  function ParseInt(s: string): Option<int> {
    if |s| >= 2 && s[0] == '-' && IsCanonicalNumeral(s[1..]) && s[1..] != "0" then
      var magnitude: int := ParseNat(s[1..]);
      Some(0 - magnitude)
    else if IsCanonicalNumeral(s) then
      var value: int := ParseNat(s);
      Some(value)
    else None
  }

  /** `s.padStart(width, fill)` with a one-character fill. */
  function PadStart(s: string, width: nat, fill: char): (r: string)
    ensures |r| == if |s| >= width then |s| else width
    ensures r[|r| - |s|..] == s
    ensures forall k :: 0 <= k < |r| - |s| ==> r[k] == fill
    decreases width - |s|
  {
    if |s| >= width then s else PadStart([fill] + s, width, fill)
  }

  lemma DigitsAreNumeralChars(s: string)
    requires AllDigits(s)
    ensures NumeralChars(s)
  {
  }

  lemma ConcatDigits(a: string, b: string)
    requires AllDigits(b)
    ensures AllDigits(a) ==> AllDigits(a + b)
  {
  }

  /** A character that is neither a digit nor a minus sign does not occur in a numeral. */
  lemma NumeralExcludes(s: string, c: char)
    requires NumeralChars(s)
    requires !IsDigit(c) && c != '-'
    ensures c !in s
  {
  }

  /** Both halves of a concatenation are recovered by slicing at the first one's length. */
  lemma SliceAt(a: string, b: string, k: int)
    requires k == |a|
    ensures (a + b)[..k] == a
    ensures (a + b)[k..] == b
  {
  }

  lemma {:induction false} ParseNatLeadingZero(s: string)
    requires AllDigits(s)
    ensures ParseNat("0" + s) == ParseNat(s)
    decreases |s|
  {
    if |s| > 0 {
      var t := "0" + s;
      assert t[..|t| - 1] == "0" + s[..|s| - 1];
      ParseNatLeadingZero(s[..|s| - 1]);
    }
  }

  /** The numeral of `n` has no leading zero, and a positive `n` never starts with `0`. */
  lemma {:induction false} NatToStringCanonical(n: nat)
    ensures IsCanonicalNumeral(NatToString(n))
    ensures n > 0 ==> NatToString(n)[0] != '0'
    decreases n
  {
    if n >= 10 {
      NatToStringCanonical(n / 10);
    }
  }

  /** Reading the numeral of `n` gives `n` back. */
  lemma {:induction false} NatToStringRoundTrip(n: nat)
    ensures ParseNat(NatToString(n)) == n
    decreases n
  {
    if n >= 10 {
      var prefix := NatToString(n / 10);
      var s := NatToString(n);
      assert s[..|s| - 1] == prefix;
      NatToStringRoundTrip(n / 10);
    }
  }

  lemma IntToStringRoundTrip(i: int)
    ensures ParseInt(IntToString(i)) == Some(i)
  {
    if i < 0 {
      NegativeNumeralRoundTrip(-i);
    } else {
      NatToStringCanonical(i);
      NatToStringRoundTrip(i);
    }
  }

  /** A minus sign before the numeral of a positive `n` reads back as `-n`. */
  lemma NegativeNumeralRoundTrip(n: nat)
    requires n > 0
    ensures ParseInt("-" + NatToString(n)) == Some(-(n as int))
  {
    var s := "-" + NatToString(n);
    assert s[1..] == NatToString(n);
    NatToStringCanonical(n);
    NatToStringRoundTrip(n);
  }

  lemma PadStartDigits(s: string, width: nat)
    requires AllDigits(s)
    ensures AllDigits(PadStart(s, width, '0'))
  {
    var r := PadStart(s, width, '0');
    forall k | 0 <= k < |r|
      ensures IsDigit(r[k])
    {
      if k >= |r| - |s| {
        assert r[k] == r[|r| - |s|..][k - (|r| - |s|)];
      }
    }
  }

  /** `String(n).padStart(2, '0')` for `n` below 100: exactly two digits. */
  function PadTwo(n: nat): (s: string)
    requires n < 100
    ensures |s| == 2 && AllDigits(s)
  {
    PadStartDigits(NatToString(n), 2);
    PadStart(NatToString(n), 2, '0')
  }

  /** Zero-padding a numeral to two places leaves its value unchanged. */
  lemma PadTwoRoundTrip(n: nat)
    requires n < 100
    ensures ParseNat(PadTwo(n)) == n
  {
    var s := NatToString(n);
    NatToStringRoundTrip(n);
    if n < 10 {
      assert PadTwo(n) == "0" + s;
      ParseNatLeadingZero(s);
    }
  }

  /**
   * Splits `s` at the first occurrence of `c`: the part before it and the
   * part after it, or `None` when `c` does not occur.
   */
  function SplitOnce(s: string, c: char): (r: Option<(string, string)>)
    ensures r.None? <==> c !in s
    ensures r.Some? ==> s == r.value.0 + [c] + r.value.1 && c !in r.value.0
  {
    if |s| == 0 then None
    else if s[0] == c then Some(([], s[1..]))
    else match SplitOnce(s[1..], c)
      case None => None
      case Some(parts) => Some(([s[0]] + parts.0, parts.1))
  }

  /** `SplitOnce` takes apart exactly a prefix free of `c`, `c`, and the rest. */
  lemma {:induction false} SplitOnceFirst(p: string, c: char, q: string)
    requires c !in p
    ensures SplitOnce(p + [c] + q, c) == Some((p, q))
    decreases |p|
  {
    if |p| > 0 {
      assert (p + [c] + q)[1..] == p[1..] + [c] + q;
      SplitOnceFirst(p[1..], c, q);
      assert [p[0]] + p[1..] == p;
    }
  }

  /**
   * `parts.join(sep)` for a one-character separator: when no part holds the
   * separator, the result holds exactly one separator per gap between parts.
   * `SplitJoin` proves that the parts come back, in order.
   */
  function Join(parts: seq<string>, sep: char): (r: string)
    ensures (forall i :: 0 <= i < |parts| ==> sep !in parts[i]) ==>
      multiset(r)[sep] == if |parts| == 0 then 0 else |parts| - 1
  {
    if |parts| == 0 then ""
    else if |parts| == 1 then parts[0]
    else parts[0] + [sep] + Join(parts[1..], sep)
  }

  /** `s.split(sep)` for a one-character separator; the empty string splits into one empty part. */
  function Split(s: string, sep: char): (r: seq<string>)
    ensures |r| >= 1
    decreases |s|
  {
    match SplitOnce(s, sep)
    case None => [s]
    case Some(parts) => [parts.0] + Split(parts.1, sep)
  }

  /** Splitting the joined text recovers the parts, in order, when no part holds the separator. */
  lemma {:induction false} SplitJoin(parts: seq<string>, sep: char)
    requires |parts| >= 1
    requires forall i :: 0 <= i < |parts| ==> sep !in parts[i]
    ensures Split(Join(parts, sep), sep) == parts
    decreases |parts|
  {
    if |parts| > 1 {
      SplitOnceFirst(parts[0], sep, Join(parts[1..], sep));
      SplitJoin(parts[1..], sep);
      assert parts == [parts[0]] + parts[1..];
    }
  }
}
