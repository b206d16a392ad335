/** Calendar dates as day numbers, the ISO weekday, the weekend shift of a congratulation
    date, and the ordering of dates that `sorted` applies to them. */
module Dates {
  import opened Seqs

  /** A date as its proleptic Gregorian ordinal (`date.toordinal()`): 0001-01-01, a
      Monday, is day 1. Subtracting two dates gives the `.days` of their difference. */
  type Date = int

  /** `date.isoweekday()`: 1 is Monday, 7 is Sunday. */
  function IsoWeekday(d: Date): (w: int)
    ensures 1 <= w <= 7
  {
    (d - 1) % 7 + 1
  }

  predicate IsWeekend(d: Date) {
    IsoWeekday(d) in {6, 7}
  }

  /** The day after a Sunday is a Monday; any other day is followed by the next weekday number. */
  lemma NextDayWeekday(d: Date)
    ensures IsoWeekday(d + 1) == if IsoWeekday(d) == 7 then 1 else IsoWeekday(d) + 1
  {
    var q := (d - 1) / 7;
    assert d - 1 == 7 * q + (d - 1) % 7;
    if (d - 1) % 7 == 6 {
      assert d == 7 * (q + 1);
      assert (d + 1 - 1) % 7 == 0;
    } else {
      assert d + 1 - 1 == 7 * q + ((d - 1) % 7 + 1);
    }
  }

  /** Moves a Saturday or a Sunday to the following Monday (book.py:69-71). */
  function WeekendShift(d: Date): (r: Date)
    ensures d <= r <= d + 2
    ensures !IsWeekend(r)
    ensures r == d <==> !IsWeekend(d)
    ensures IsWeekend(d) ==> IsoWeekday(r) == 1
  {
    NextDayWeekday(d);
    NextDayWeekday(d + 1);
    if IsWeekend(d) then d + ((7 - IsoWeekday(d)) + 1) else d
  }

  /** Saturday moves two days and Sunday one day, so the shifted date is the first
      weekday on or after the birthday. */
  lemma {:induction false} WeekendShiftIsFirstWeekday(d: Date)
    ensures IsoWeekday(d) == 6 ==> WeekendShift(d) == d + 2
    ensures IsoWeekday(d) == 7 ==> WeekendShift(d) == d + 1
    ensures forall k :: d <= k < WeekendShift(d) ==> IsWeekend(k)
  {
    NextDayWeekday(d);
  }

  predicate StrictlyAscending(s: seq<Date>) {
    forall i, j :: 0 <= i < j < |s| ==> s[i] < s[j]
  }

  /** Puts `x` into its place in a strictly ascending sequence that does not hold it. */
  function Insert(s: seq<Date>, x: Date): (r: seq<Date>)
    requires StrictlyAscending(s) && x !in s
    ensures StrictlyAscending(r)
    ensures forall y :: y in r <==> y in s || y == x
    ensures |r| == |s| + 1
  {
    if s == [] || x < s[0] then
      HeadBelowTail([x] + s);
      [x] + s
    else
      var tail := Insert(s[1..], x);
      HeadBelowTail(s);
      AscendingCons(s[0], tail);
      [s[0]] + tail
  }

  lemma HeadBelowTail(s: seq<Date>)
    requires s != [] && (StrictlyAscending(s[1..]) && (s[1..] == [] || s[0] < s[1]))
    ensures StrictlyAscending(s)
    ensures forall y :: y in s[1..] ==> s[0] < y
  {
    forall i, j | 0 <= i < j < |s| ensures s[i] < s[j] {
      if i > 0 {
        assert s[i] == s[1..][i - 1] && s[j] == s[1..][j - 1];
      } else if j > 1 {
        assert s[1] == s[1..][0] && s[j] == s[1..][j - 1];
      }
    }
    forall y | y in s[1..] ensures s[0] < y {
      var k :| 0 <= k < |s| - 1 && s[1..][k] == y;
      assert s[k + 1] == y;
    }
  }

  lemma AscendingCons(a: Date, t: seq<Date>)
    requires StrictlyAscending(t)
    requires forall y :: y in t ==> a < y
    ensures StrictlyAscending([a] + t)
  {
    var r := [a] + t;
    forall i, j | 0 <= i < j < |r| ensures r[i] < r[j] {
      assert r[j] == t[j - 1];
      if i > 0 {
        assert r[i] == t[i - 1];
      } else {
        assert t[j - 1] in t;
      }
    }
  }

  /** `sorted` applied to the distinct keys of a dictionary. */
  function SortDates(s: seq<Date>): (r: seq<Date>)
    requires Distinct(s)
    ensures StrictlyAscending(r)
    ensures forall y :: y in r <==> y in s
    ensures |r| == |s|
  {
    if s == [] then []
    else
      var init := s[..|s| - 1];
      assert forall y :: y in init ==> y != s[|s| - 1];
      assert s == init + [s[|s| - 1]];
      Insert(SortDates(init), s[|s| - 1])
  }
}
