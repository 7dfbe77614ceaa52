/** The dashboard helpers of the home page (client/src/pages/HomePage.tsx):
    the entries of a day range, the current week's window, the mood series
    of the last seven days, whether today has an entry, how many days of
    the current month have one, and the weekly goal. "Today" is a
    parameter: the day number of the local date at the moment of the
    call. */
module HomePage {
  import opened Prelude
  import opened Gregorian
  import opened DayKeys
  import opened Moods
  import opened Entries
  import opened WeekMetrics
  import opened MonthGrid
  import opened CalendarWeek

  /** `filterEntriesByRange`: the entries whose date parses and whose day
      lies from `start` up to, not including, `end`. */
  function FilterEntriesByRange(entries: seq<Entry>, start: int, end: int): seq<Entry> {
    Filter(entries, e => Dated(e) && start <= DayOf(e) < end)
  }

  /** The range filter keeps exactly the entries in range, in input order. */
  lemma RangeMembers(entries: seq<Entry>, start: int, end: int)
    ensures forall e :: e in FilterEntriesByRange(entries, start, end) <==>
              e in entries && Dated(e) && start <= DayOf(e) < end
    ensures IsSubsequence(FilterEntriesByRange(entries, start, end), entries)
  {
    FilterIsSubsequence(entries, e => Dated(e) && start <= DayOf(e) < end);
  }

  /** Two filters whose tests agree keep the same elements. */
  lemma {:induction false} FilterSame<T(!new)>(s: seq<T>, p: T -> bool, q: T -> bool)
    requires forall x :: p(x) == q(x)
    ensures Filter(s, p) == Filter(s, q)
  {
    if s != [] {
      FilterSame(s[..|s| - 1], p, q);
    }
  }

  /** The dashboard's week: from the Sunday of today's week up to the day
      after that week's Saturday. */
  function WeekWindow(today: int): (r: (int, int))
    ensures Weekday(r.0) == 0 && r.1 - r.0 == 7
    ensures r.0 <= today < r.1
  {
    var weekStart := StartOfWeek(today);
    WeekBoundsIdempotent(today);
    (weekStart, EndOfWeek(weekStart) + 1)
  }

  /** The dashboard and the calendar agree on the week's entries: the
      home page's range filter over the window of today's week keeps the
      same entries, in the same order, as the calendar's filter for the
      week of today. */
  lemma DashboardWeekIsCalendarWeek(entries: seq<Entry>, today: int)
    ensures FilterEntriesByRange(entries, WeekWindow(today).0, WeekWindow(today).1) == WeekFilter(entries, today)
  {
    var w := WeekWindow(today);
    WeekBoundsIdempotent(today);
    FilterSame(entries, e => Dated(e) && w.0 <= DayOf(e) < w.1, e => InWeek(e, today));
  }

  /** One point of the series: a day and the mean score of its entries,
      or `None` (`null`) when it has none. */
  datatype Point = Point(day: int, value: Option<real>)

  /** The score lists the first loop of `buildLastSevenDaySeries` files
      under each day: the scores of that day's entries. */
  function ScoreBuckets(entries: seq<Entry>): map<int, seq<int>> {
    ScoresOf(DayGroups(entries))
  }

  /** Each list of entries replaced by the list of their scores. */
  function ScoresOf(groups: map<int, seq<Entry>>): map<int, seq<int>> {
    map d | d in groups :: Scores(groups[d])
  }

  lemma ScoresOfUpdate(groups: map<int, seq<Entry>>, k: int, v: seq<Entry>)
    ensures ScoresOf(groups[k := v]) == ScoresOf(groups)[k := Scores(v)]
  {
    var a, b := ScoresOf(groups[k := v]), ScoresOf(groups)[k := Scores(v)];
    assert a.Keys == b.Keys;
    forall d | d in a
      ensures a[d] == b[d]
    {
      if d != k {
        assert groups[k := v][d] == groups[d];
      }
    }
  }

  /** The point the series shows for day `d`. */
  function PointOf(entries: seq<Entry>, d: int): Point {
    if d in DaySet(entries) then
      DayEntriesNonEmpty(entries, d);
      Point(d, Some(Mean(Scores(DayEntries(entries, d)))))
    else Point(d, None)
  }

  lemma ScoresAppend(s: seq<Entry>, e: Entry)
    ensures Scores(s + [e]) == Scores(s) + [EntryScore(e.mood)]
  {
    assert (s + [e])[..|s|] == s;
  }

  /** One `map.get(iso).push(score)` for an entry whose date parses. */
  lemma ScoreBucketsAppend(s: seq<Entry>, e: Entry)
    requires Dated(e)
    ensures ScoreBuckets(s + [e])
            == ScoreBuckets(s)[DayOf(e) := (if DayOf(e) in ScoreBuckets(s) then ScoreBuckets(s)[DayOf(e)] else [])
                                          + [EntryScore(e.mood)]]
  {
    DayGroupsAppend(s, e);
    var g := DayGroups(s);
    var bucket := if DayOf(e) in g then g[DayOf(e)] else [];
    ScoresOfUpdate(g, DayOf(e), bucket + [e]);
    ScoresAppend(bucket, e);
    assert Scores(bucket) == if DayOf(e) in ScoreBuckets(s) then ScoreBuckets(s)[DayOf(e)] else [];
  }

  /** An entry whose date does not parse is skipped. */
  lemma ScoreBucketsSkip(s: seq<Entry>, e: Entry)
    requires !Dated(e)
    ensures ScoreBuckets(s + [e]) == ScoreBuckets(s)
  {
    DayGroupsSkip(s, e);
  }

  /** The first loop: every entry whose date parses adds its score
      (3 for an unknown mood) to its day's list. */
  method FillScoreBuckets(entries: seq<Entry>) returns (buckets: map<int, seq<int>>)
    ensures buckets == ScoreBuckets(entries)
  {
    buckets := map[];
    var i := 0;
    assert entries[..0] == [];
    while i < |entries|
      invariant i <= |entries|
      invariant buckets == ScoreBuckets(entries[..i])
    {
      var entry := entries[i];
      PrefixStep(entries, i);
      if !Dated(entry) {
        ScoreBucketsSkip(entries[..i], entry);
      } else {
        ScoreBucketsAppend(entries[..i], entry);
        var day := DayOf(entry);
        var bucket := if day in buckets then buckets[day] else [];
        buckets := buckets[day := bucket + [EntryScore(entry.mood)]];
      }
      i := i + 1;
    }
    assert entries[..i] == entries;
  }

  /** Reading a day's list off the score map gives that day's point. */
  lemma BucketPoint(entries: seq<Entry>, d: int)
    ensures var b := ScoreBuckets(entries);
            PointOf(entries, d)
            == Point(d, if d in b && |b[d]| > 0 then Some(Sum(b[d]) as real / |b[d]| as real) else None)
  {
    if d in DaySet(entries) {
      DayEntriesNonEmpty(entries, d);
      assert ScoreBuckets(entries)[d] == Scores(DayEntries(entries, d));
    }
  }

  /** One pass of the countdown loop: the day's list, if any, averaged
      (`reduce` to a sum, divided by the length). */
  method DayPoint(buckets: map<int, seq<int>>, ghost entries: seq<Entry>, day: int) returns (point: Point)
    requires buckets == ScoreBuckets(entries)
    ensures point == PointOf(entries, day)
  {
    var value: Option<real> := None;
    if day in buckets && |buckets[day]| > 0 {
      value := Some(Sum(buckets[day]) as real / |buckets[day]| as real);
    }
    BucketPoint(entries, day);
    point := Point(day, value);
  }

  /** `buildLastSevenDaySeries`: the countdown loop over the six days
      before today and today, each with its mean score or `null`. */
  method BuildLastSevenDaySeries(entries: seq<Entry>, today: int) returns (output: seq<Point>)
    ensures |output| == 7
    ensures forall k :: 0 <= k < 7 ==> output[k] == PointOf(entries, today - 6 + k)
  {
    var buckets := FillScoreBuckets(entries);
    output := [];
    var i := 6;
    while i >= 0
      invariant -1 <= i <= 6
      invariant |output| == 6 - i
      invariant forall k :: 0 <= k < |output| ==> output[k] == PointOf(entries, today - 6 + k)
    {
      var point := DayPoint(buckets, entries, today - i);
      output := output + [point];
      i := i - 1;
    }
  }

  /** The series runs over seven consecutive days ending today. */
  lemma SeriesDays(entries: seq<Entry>, today: int, output: seq<Point>)
    requires |output| == 7
    requires forall k :: 0 <= k < 7 ==> output[k] == PointOf(entries, today - 6 + k)
    ensures forall i, j :: 0 <= i < j < 7 ==> output[i].day < output[j].day
    ensures output[6].day == today
    ensures forall k :: 0 <= k < 6 ==> output[k + 1].day == output[k].day + 1
  {
    forall i, j | 0 <= i < j < 7
      ensures output[i].day < output[j].day
    {
      assert output[i] == PointOf(entries, today - 6 + i);
      assert output[j] == PointOf(entries, today - 6 + j);
    }
    assert output[6] == PointOf(entries, today);
  }

  /** A point is `null` exactly when no entry with a parsing date falls on
      its day; otherwise it is the mean of that day's scores, between 1
      and 5. */
  lemma PointValue(entries: seq<Entry>, d: int)
    ensures PointOf(entries, d).day == d
    ensures PointOf(entries, d).value.None? <==> forall e :: e in entries && Dated(e) ==> DayOf(e) != d
    ensures PointOf(entries, d).value.Some? ==>
              DayEntries(entries, d) != []
              && PointOf(entries, d).value.value == Mean(Scores(DayEntries(entries, d)))
              && 1.0 <= PointOf(entries, d).value.value <= 5.0
  {
    if d in DaySet(entries) {
      DayEntriesNonEmpty(entries, d);
      ScoresInRange(DayEntries(entries, d));
      MeanBounds(Scores(DayEntries(entries, d)));
    }
  }

  /** `hasTodayEntry`: `entries.some` comparing each entry's day key with
      today's key. */
  function HasTodayEntry(entries: seq<Entry>, today: int): bool {
    if entries == [] then false
    else
      var e := entries[|entries| - 1];
      HasTodayEntry(entries[..|entries| - 1], today) || (Dated(e) && LocalISO(DayOf(e)) == LocalISO(today))
  }

  /** Comparing keys is comparing days: today has an entry exactly when
      some entry with a parsing date falls on today. */
  lemma {:induction false} HasTodayEntryMeaning(entries: seq<Entry>, today: int)
    ensures HasTodayEntry(entries, today) <==> exists e :: e in entries && Dated(e) && DayOf(e) == today
  {
    if entries != [] {
      var s', e := entries[..|entries| - 1], entries[|entries| - 1];
      HasTodayEntryMeaning(s', today);
      forall x
        ensures x in entries <==> x in s' || x == e
      {
        InFrontOrLast(entries, x);
      }
      if Dated(e) && LocalISO(DayOf(e)) == LocalISO(today) {
        LocalISOInjective(DayOf(e), today);
      }
    }
  }

  /** The days with an entry in the month and year of `today`. */
  function MonthDays(entries: seq<Entry>, today: int): set<int> {
    set d | d in DaySet(entries) && Civil(d).month == Civil(today).month && Civil(d).year == Civil(today).year
  }

  /** One more entry adds its day when it falls in this month. */
  lemma MonthDaysAppend(s: seq<Entry>, e: Entry, today: int)
    ensures MonthDays(s + [e], today)
            == MonthDays(s, today)
               + (if Dated(e) && Civil(DayOf(e)).month == Civil(today).month
                     && Civil(DayOf(e)).year == Civil(today).year then {DayOf(e)} else {})
  {
    DaySetAppend(s, e);
  }

  /** `monthLoggedDays`: the `forEach` loop that collects the days of this
      month's entries in a set, and the set's size. */
  method MonthLoggedDays(entries: seq<Entry>, today: int) returns (r: nat)
    ensures r == |MonthDays(entries, today)|
  {
    var now := Civil(today);
    var daySet: set<int> := {};
    var i := 0;
    assert entries[..0] == [];
    while i < |entries|
      invariant i <= |entries|
      invariant daySet == MonthDays(entries[..i], today)
    {
      var entry := entries[i];
      PrefixStep(entries, i);
      MonthDaysAppend(entries[..i], entry, today);
      if Dated(entry) {
        var day := Civil(DayOf(entry));
        if day.month == now.month && day.year == now.year {
          daySet := daySet + {DayOf(entry)};
        }
      }
      i := i + 1;
    }
    assert entries[..i] == entries;
    r := |daySet|;
  }

  /** The days of this month lie between its first and last day. */
  lemma MonthDaysWithin(entries: seq<Entry>, today: int)
    ensures var y, m := Civil(today).year, Civil(today).month;
            forall d :: d in MonthDays(entries, today) ==> FirstDay(y, m) <= d < FirstDay(y, m) + DaysInMonth(y, m)
  {
    forall d | d in MonthDays(entries, today)
      ensures FirstDay(Civil(today).year, Civil(today).month) <= d
              < FirstDay(Civil(today).year, Civil(today).month) + DaysInMonth(Civil(today).year, Civil(today).month)
    {
      WithinOwnMonth(d);
    }
  }

  /** The count is at most the length of the month, and at most the
      number of logged days. */
  lemma MonthLoggedDaysBound(entries: seq<Entry>, today: int)
    ensures |MonthDays(entries, today)| <= DaysInMonth(Civil(today).year, Civil(today).month)
    ensures |MonthDays(entries, today)| <= |DaySet(entries)|
  {
    var n := DaysInMonth(Civil(today).year, Civil(today).month);
    var f := FirstDay(Civil(today).year, Civil(today).month);
    var days := MonthDays(entries, today);
    var range := DayRange(f, n);
    MonthDaysWithin(entries, today);
    assert days <= range;
    SubsetCardinality(days, range);
    SubsetCardinality(days, DaySet(entries));
  }

  /** The `n` days from day `a` on. */
  function DayRange(a: int, n: nat): (r: set<int>)
    ensures forall d :: d in r <==> a <= d < a + n
    ensures |r| == n
  {
    if n == 0 then {} else DayRange(a, n - 1) + {a + n - 1}
  }

  lemma SubsetCardinality(a: set<int>, b: set<int>)
    requires a <= b
    ensures |a| <= |b|
  {
    assert b == a + (b - a);
  }

  /** `weeklyGoalTarget`: two more than the current streak, kept within
      five to seven days. */
  function WeeklyGoalTarget(current: nat): (r: int)
    ensures 5 <= r <= 7
    ensures r == 5 <==> current <= 3
    ensures r == 7 <==> current >= 5
    ensures 5 < r < 7 ==> r == current + 2
  {
    var target := if current + 2 > 5 then current + 2 else 5;
    if target < 7 then target else 7
  }
}
