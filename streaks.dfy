/** `computeStreaks` (client/src/utils/weekInsights.ts, lines 259-306): the
    length of the run of consecutive logged days that ends on the latest
    logged day, the longest such run anywhere, and the days of the former. */
module Streaks {
  import opened Prelude
  import opened DayKeys
  import opened Entries
  import opened Sorting
  import opened WeekReport

  datatype Streaks = Streaks(current: nat, best: nat, streakDays: set<int>)

  /** Every day from `a` to `b` is logged. */
  ghost predicate Run(days: set<int>, a: int, b: int) {
    forall d :: a <= d <= b ==> d in days
  }

  function DayKey(d: int): real {
    d as real
  }

  /** `Array.from(daySet).sort()`, taken in day order: the logged days,
      earliest first.  The source sorts the `YYYY-MM-DD` keys as strings,
      which orders them the same way only while every year has four
      digits. */
  function SortedDays(entries: seq<Entry>): (s: seq<int>)
    ensures forall i, j :: 0 <= i < j < |s| ==> s[i] < s[j]
    ensures forall d :: d in s <==> d in DaySet(entries)
  {
    var order := LoggedDays(entries);
    DedupDistinct(ValidDays(entries));
    assert Distinct(order);
    var s := SortBy(order, DayKey);
    SortDistinctDays(order, s);
    s
  }

  /** Sorting different days puts them in strictly increasing order. */
  lemma SortDistinctDays(order: seq<int>, s: seq<int>)
    requires Distinct(order) && s == SortBy(order, DayKey)
    ensures forall i, j :: 0 <= i < j < |s| ==> s[i] < s[j]
    ensures forall d :: d in s <==> d in order
  {
    SortSorted(order, DayKey);
    DistinctPermutation(order, s);
    forall i, j | 0 <= i < j < |s|
      ensures s[i] < s[j]
    {
      assert DayKey(s[i]) <= DayKey(s[j]) && s[i] != s[j];
    }
    forall d
      ensures d in s <==> d in order
    {
      assert d in s <==> d in multiset(s);
      assert d in order <==> d in multiset(order);
    }
  }

  /** The latest logged day. */
  function Latest(entries: seq<Entry>): (last: int)
    requires DaySet(entries) != {}
    ensures last in DaySet(entries)
    ensures forall d :: d in DaySet(entries) ==> d <= last
  {
    var s := SortedDays(entries);
    assert s != [] by {
      var d :| d in DaySet(entries);
      assert d in s;
    }
    var last := s[|s| - 1];
    assert forall x :: x in s ==> x <= last by {
      forall x | x in s
        ensures x <= last
      {
        var k :| 0 <= k < |s| && s[k] == x;
        assert k == |s| - 1 || s[k] < last;
      }
    }
    last
  }

  /** What the result means for a non-empty set of days whose latest day
      is `last`: `current` days end at `last` and the day before them is
      not logged, `streakDays` holds exactly those days, and `best` is
      the length of a longest run. */
  ghost predicate Describes(days: set<int>, last: int, r: Streaks) {
    && r.streakDays == DaysAfter(last - r.current, last)
    && Run(days, last - r.current + 1, last)
    && last - r.current !in days
    && (exists a, b :: Run(days, a, b) && b - a + 1 == r.best)
    && (forall a, b :: Run(days, a, b) ==> b - a + 1 <= r.best)
  }

  /** The days strictly after `lo` up to `hi`: `hi - lo` of them. */
  function DaysAfter(lo: int, hi: int): (r: set<int>)
    requires lo <= hi
    ensures forall d :: d in r <==> lo < d <= hi
    ensures |r| == hi - lo
    decreases hi - lo
  {
    if lo == hi then {} else {lo + 1} + DaysAfter(lo + 1, hi)
  }

  /** No logged day lies strictly between two neighbours of the sorted
      days. */
  lemma NoDayBetween(s: seq<int>, i: nat, x: int)
    requires forall p, q :: 0 <= p < q < |s| ==> s[p] < s[q]
    requires 0 < i < |s| && s[i - 1] < x < s[i]
    ensures x !in s
  {
    if x in s {
      var k :| 0 <= k < |s| && s[k] == x;
    }
  }

  /** The days, earliest first, each once. */
  ghost predicate SortedSet(sorted: seq<int>, days: set<int>) {
    && (forall i, j :: 0 <= i < j < |sorted| ==> sorted[i] < sorted[j])
    && (forall d :: d in sorted <==> d in days)
  }

  /** The first sorted day is the earliest logged day. */
  lemma FirstIsLeast(sorted: seq<int>, days: set<int>, d: int)
    requires SortedSet(sorted, days)
    requires d in days
    ensures |sorted| > 0 && sorted[0] <= d
  {
    assert d in sorted;
    var k :| 0 <= k < |sorted| && sorted[k] == d;
    if k > 0 {
      assert sorted[0] < sorted[k];
    }
  }

  /** No run of logged days ends before the first of them. */
  lemma NoRunBeforeFirst(sorted: seq<int>, days: set<int>)
    requires SortedSet(sorted, days)
    ensures forall a, b :: Run(days, a, b) && (0 == |sorted| || b < sorted[0]) ==> b - a + 1 <= 0
  {
    forall a, b | Run(days, a, b) && (0 == |sorted| || b < sorted[0])
      ensures b - a + 1 <= 0
    {
      if a <= b {
        FirstIsLeast(sorted, days, b);
      }
    }
  }

  /** Runs ending by the `i`-th sorted day are no longer than the best
      run so far or, for those ending on it, than the current streak. */
  lemma RunsUpTo(sorted: seq<int>, days: set<int>, i: nat, streak: nat, oldBest: nat, best: nat)
    requires SortedSet(sorted, days)
    requires i < |sorted|
    requires sorted[i] - streak !in days
    requires oldBest <= best && streak <= best
    requires forall a, b :: Run(days, a, b) && b < sorted[i] ==> b - a + 1 <= oldBest
    ensures forall a, b :: Run(days, a, b) && (i + 1 == |sorted| || b < sorted[i + 1]) ==> b - a + 1 <= best
  {
    forall a, b | Run(days, a, b) && (i + 1 == |sorted| || b < sorted[i + 1])
      ensures b - a + 1 <= best
    {
      if a <= b {
        assert b in sorted;
        var k :| 0 <= k < |sorted| && sorted[k] == b;
        if k == i {
          assert sorted[i] - streak !in days;
        } else {
          assert k < i;
        }
      }
    }
  }

  /** The loop over the sorted days: `streak` ends as the run ending on
      the latest day and `best` as the longest run. */
  method ScanRuns(sorted: seq<int>, ghost days: set<int>) returns (best: nat, streak: nat)
    requires SortedSet(sorted, days)
    ensures |sorted| == 0 ==> best == 0
    ensures |sorted| > 0 ==> 1 <= streak <= best
    ensures |sorted| > 0 ==> Run(days, sorted[|sorted| - 1] - streak + 1, sorted[|sorted| - 1])
    ensures |sorted| > 0 ==> sorted[|sorted| - 1] - streak !in days
    ensures exists a, b :: Run(days, a, b) && b - a + 1 == best
    ensures forall a, b :: Run(days, a, b) ==> b - a + 1 <= best
  {
    best, streak := 0, 0;
    var previous: Option<int> := None;
    ghost var bestEnd := 0;
    NoRunBeforeFirst(sorted, days);
    for i := 0 to |sorted|
      invariant previous.None? <==> i == 0
      invariant i > 0 ==> previous == Some(sorted[i - 1])
      invariant i > 0 ==> 1 <= streak
      invariant i > 0 ==> Run(days, sorted[i - 1] - streak + 1, sorted[i - 1])
      invariant i > 0 ==> sorted[i - 1] - streak !in days
      invariant streak <= best
      invariant best > 0 ==> Run(days, bestEnd - best + 1, bestEnd)
      invariant i == 0 ==> best == 0
      invariant forall a, b :: Run(days, a, b) && (i == |sorted| || b < sorted[i]) ==> b - a + 1 <= best
    {
      var day := sorted[i];
      if previous.Some? {
        var diff := (day - previous.value) * MsPerDay;
        if diff == MsPerDay {
          streak := streak + 1;
        } else {
          streak := 1;
          NoDayBetween(sorted, i, day - 1);
        }
      } else {
        streak := 1;
        if day - 1 in days {
          assert day - 1 in sorted;
        }
      }
      ghost var oldBest := best;
      if streak > best {
        best := streak;
        bestEnd := day;
      }
      previous := Some(day);
      RunsUpTo(sorted, days, i, streak, oldBest, best);
    }
    if best == 0 {
      assert Run(days, 1, 0);
    } else {
      assert Run(days, bestEnd - best + 1, bestEnd);
    }
  }

  /** The trailing loop: walk back from the latest day while the day is
      logged, collecting the days walked over. */
  method WalkBack(days: set<int>, last: int, ghost first: int) returns (streakDays: set<int>, cursor: int)
    requires forall d :: d in days ==> first <= d
    requires last in days
    ensures cursor < last && cursor !in days
    ensures Run(days, cursor + 1, last)
    ensures streakDays == DaysAfter(cursor, last)
  {
    streakDays, cursor := {}, last;
    while cursor in days
      invariant cursor <= last
      invariant streakDays == DaysAfter(cursor, last)
      invariant Run(days, cursor + 1, last)
      decreases cursor - first
    {
      streakDays := streakDays + {cursor};
      cursor := cursor - 1;
    }
  }

  /** The two loops' findings put together. */
  lemma StreaksDescribed(days: set<int>, last: int, best: nat, streakDays: set<int>, cursor: int)
    requires cursor < last && cursor !in days && Run(days, cursor + 1, last)
    requires streakDays == DaysAfter(cursor, last)
    requires exists a, b :: Run(days, a, b) && b - a + 1 == best
    requires forall a, b :: Run(days, a, b) ==> b - a + 1 <= best
    ensures Describes(days, last, Streaks(|streakDays|, best, streakDays))
  {
    assert last - |streakDays| == cursor;
  }

  /** The result is all zeros when no entry's date parses; otherwise it
      is described by the logged days and the latest of them. */
  method ComputeStreaks(entries: seq<Entry>) returns (r: Streaks)
    ensures DaySet(entries) == {} ==> r == Streaks(0, 0, {})
    ensures DaySet(entries) != {} ==> Describes(DaySet(entries), Latest(entries), r)
  {
    if |entries| == 0 {
      assert DaySet(entries) == {};
      return Streaks(0, 0, {});
    }
    var days := DaySet(entries);
    var sorted := SortedDays(entries);
    var best, streak := ScanRuns(sorted, days);
    if |sorted| == 0 {
      assert days == {};
      return Streaks(0, best, {});
    }
    var last := sorted[|sorted| - 1];
    assert last in days;
    assert last == Latest(entries);
    forall d | d in days
      ensures sorted[0] <= d
    {
      FirstIsLeast(sorted, days, d);
    }
    var streakDays, cursor := WalkBack(days, last, sorted[0]);
    StreaksDescribed(days, last, best, streakDays, cursor);
    r := Streaks(|streakDays|, best, streakDays);
  }

  /** A result the description fits has at least one current day, no more
      than the best run, and as many streak days as its count. */
  lemma DescribesBounds(days: set<int>, last: int, r: Streaks)
    requires last in days
    requires Describes(days, last, r)
    ensures 1 <= r.current <= r.best
    ensures |r.streakDays| == r.current
  {
  }

  /** The description fixes the result: two results it fits are equal. */
  lemma DescribesUnique(days: set<int>, last: int, r1: Streaks, r2: Streaks)
    requires last in days
    requires Describes(days, last, r1) && Describes(days, last, r2)
    ensures r1 == r2
  {
    var a1, b1 :| Run(days, a1, b1) && b1 - a1 + 1 == r1.best;
    var a2, b2 :| Run(days, a2, b2) && b2 - a2 + 1 == r2.best;
  }
}
