/**
 * Ascending sort of the selected dates, standing in for
 * `sort((a, b) => a - b)`. Equal keys are equal dates here, so the result is
 * the one ascending arrangement of the input, whatever algorithm computes it.
 */
module DateSort {
  import opened Calendar

  predicate Ascending(s: seq<CalendarDate>) {
    forall i, j :: 0 <= i < j < |s| ==> NotAfter(s[i], s[j])
  }

  /** Places `x` in an ascending sequence, after the elements before it. */
  function Insert(x: CalendarDate, s: seq<CalendarDate>): (r: seq<CalendarDate>)
    requires Ascending(s)
    ensures Ascending(r)
    ensures multiset(r) == multiset(s) + multiset{x}
    ensures forall k :: 0 <= k < |r| ==> r[k] == x || r[k] in s
  {
    if |s| == 0 then [x]
    else if NotAfter(x, s[0]) then [x] + s
    else
      var rest := Insert(x, s[1..]);
      assert s == [s[0]] + s[1..];
      LowerBoundKept(s[0], x, s[1..], rest);
      [s[0]] + rest
  }

  /** A date no later than `x` and than every element of `s` is no later than anything drawn from them. */
  lemma LowerBoundKept(lo: CalendarDate, x: CalendarDate, s: seq<CalendarDate>, r: seq<CalendarDate>)
    requires NotAfter(lo, x) && forall k :: 0 <= k < |s| ==> NotAfter(lo, s[k])
    requires forall k :: 0 <= k < |r| ==> r[k] == x || r[k] in s
    ensures forall k :: 0 <= k < |r| ==> NotAfter(lo, r[k])
  {
    forall k | 0 <= k < |r| && r[k] != x
      ensures NotAfter(lo, r[k])
    {
      var m :| 0 <= m < |s| && s[m] == r[k];
    }
  }

  function Sort(s: seq<CalendarDate>): (r: seq<CalendarDate>)
    ensures Ascending(r)
    ensures multiset(r) == multiset(s)
  {
    if |s| == 0 then []
    else
      assert s == [s[0]] + s[1..];
      Insert(s[0], Sort(s[1..]))
  }

  /** Two dates come out earlier first; when neither is earlier they are equal and the order is moot. */
  lemma SortOfTwo(a: CalendarDate, b: CalendarDate)
    ensures Sort([a, b]) == if NotAfter(a, b) then [a, b] else [b, a]
  {
    assert [a, b][1..] == [b];
    assert [b][1..] == [];
    assert Sort([b]) == [b];
  }

  /** Two ascending arrangements of the same dates are the same sequence. */
  lemma {:induction false} AscendingPermutationUnique(a: seq<CalendarDate>, b: seq<CalendarDate>)
    requires Ascending(a) && Ascending(b)
    requires multiset(a) == multiset(b)
    ensures a == b
    decreases |a|
  {
    if |a| > 0 {
      assert |b| == |a| by {
        assert |multiset(a)| == |a| && |multiset(b)| == |b|;
      }
      assert a[0] in multiset(b);
      assert b[0] in multiset(a);
      assert a == [a[0]] + a[1..];
      assert b == [b[0]] + b[1..];
      assert a[0] == b[0];
      assert multiset(a[1..]) == multiset(a) - multiset{a[0]};
      assert multiset(b[1..]) == multiset(b) - multiset{b[0]};
      AscendingPermutationUnique(a[1..], b[1..]);
    }
  }

  /** The first element of an ascending permutation is the earliest date. */
  lemma FirstIsEarliest(s: seq<CalendarDate>, sorted: seq<CalendarDate>)
    requires Ascending(sorted) && multiset(sorted) == multiset(s) && |s| > 0
    ensures sorted[0] in s
    ensures forall x :: x in s ==> NotAfter(sorted[0], x)
  {
    assert sorted[0] in multiset(s);
    forall x | x in s
      ensures NotAfter(sorted[0], x)
    {
      assert x in multiset(sorted);
    }
  }

  /** The second element is the earliest of what remains once one copy of the first is set aside. */
  lemma SecondIsNextEarliest(s: seq<CalendarDate>, sorted: seq<CalendarDate>)
    requires Ascending(sorted) && multiset(sorted) == multiset(s) && |sorted| >= 2
    ensures sorted[1] in multiset(s) - multiset{sorted[0]}
    ensures forall x :: x in multiset(s) - multiset{sorted[0]} ==> NotAfter(sorted[1], x)
  {
    assert sorted == [sorted[0]] + sorted[1..];
    var rest := multiset(s) - multiset{sorted[0]};
    assert rest == multiset(sorted[1..]);
    assert sorted[1] == sorted[1..][0];
    forall x | x in rest
      ensures NotAfter(sorted[1], x)
    {
      assert x in sorted[1..];
    }
  }
}
