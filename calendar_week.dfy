/** The calendar page's entry views (client/src/pages/CalendarPage.tsx):
    the `entriesByDay` map behind the grid's marks, the entries of the
    selected week in time order, whether that week has a report, and the
    week's entries grouped by day. */
module CalendarWeek {
  import opened Prelude
  import opened DayKeys
  import opened Entries
  import opened Sorting
  import opened WeekMetrics
  import opened WeekReport
  import opened Streaks
  import opened MonthGrid

  /** `entriesByDay`: the `forEach` loop that files every entry whose date
      parses under its day. */
  method EntriesByDay(entries: seq<Entry>) returns (byDay: map<int, seq<Entry>>)
    ensures byDay == DayGroups(entries)
  {
    var order: seq<int> := [];
    byDay := map[];
    var i := 0;
    assert entries[..0] == [];
    while i < |entries|
      invariant i <= |entries|
      invariant order == Dedup(ValidDays(entries[..i])) && byDay == DayGroups(entries[..i])
    {
      PrefixStep(entries, i);
      order, byDay := GroupEntry(order, byDay, entries[..i], entries[i]);
      i := i + 1;
    }
    assert entries[..i] == entries;
  }

  /** The grid's marks: a day has entries when it is a key of
      `entriesByDay`. */
  function PageMarks(byDay: map<int, seq<Entry>>, streakDays: set<int>, today: int): Marks {
    Marks(byDay.Keys, streakDays, today)
  }

  /** The keys of `entriesByDay` are the days some entry falls on, and
      each day's list holds exactly that day's entries, in input order. */
  lemma {:induction false} DayGroupsMeaning(entries: seq<Entry>, d: int)
    ensures d in DayGroups(entries) <==> exists e :: e in entries && Dated(e) && DayOf(e) == d
    ensures d in DayGroups(entries) ==>
              DayGroups(entries)[d] != []
              && (forall e :: e in DayGroups(entries)[d] <==> e in entries && Dated(e) && DayOf(e) == d)
              && IsSubsequence(DayGroups(entries)[d], entries)
  {
    if d in DayGroups(entries) {
      DayEntriesNonEmpty(entries, d);
      DayEntriesFilter(entries, d);
      FilterIsSubsequence(entries, e => Dated(e) && DayOf(e) == d);
    }
  }

  /** The page's grid: a cell has entries exactly when an entry's date
      falls on its day, is today exactly on today, and is a streak day
      exactly when its day is one of the streak days. */
  lemma PageCellMarks(entries: seq<Entry>, streakDays: set<int>, today: int, y: int, m: int, w: int, i: int)
    requires 1 <= m <= 12 && 0 <= i < 7
    requires 0 <= w < |MonthMatrix(y, m, PageMarks(DayGroups(entries), streakDays, today))|
    ensures var c := MonthMatrix(y, m, PageMarks(DayGroups(entries), streakDays, today))[w].days[i];
            && (c.hasEntries <==> exists e :: e in entries && Dated(e) && DayOf(e) == c.day)
            && (c.isToday <==> c.day == today)
            && (c.isStreakDay <==> c.day in streakDays)
  {
    var marks := PageMarks(DayGroups(entries), streakDays, today);
    GridCellMarks(y, m, marks, w, i);
    DayGroupsMeaning(entries, MonthMatrix(y, m, marks)[w].days[i].day);
  }

  /** One day's bucket is the entries kept by a filter on that day. */
  lemma {:induction false} DayEntriesFilter(entries: seq<Entry>, d: int)
    ensures DayEntries(entries, d) == Filter(entries, e => Dated(e) && DayOf(e) == d)
  {
    if entries != [] {
      DayEntriesFilter(entries[..|entries| - 1], d);
    }
  }

  /** `new Date(entry.date).getTime()`, the key of the time-order sorts;
      an entry whose date does not parse never reaches them. */
  function TimeKey(e: Entry): real {
    if e.date.Some? then Time(e.date.value) as real else 0.0
  }

  /** The filter of `weekEntries`: the entry's day at midnight lies from
      the selected week's Sunday up to, not including, the day after its
      Saturday. */
  predicate InWeek(e: Entry, sel: int) {
    Dated(e) && StartOfWeek(sel) <= DayOf(e) < EndOfWeek(sel) + 1
  }

  /** The entries of the week of `sel`, in input order. */
  function WeekFilter(entries: seq<Entry>, sel: int): seq<Entry> {
    Filter(entries, e => InWeek(e, sel))
  }

  /** `weekEntries`: the week's entries sorted by time. */
  function WeekEntries(entries: seq<Entry>, sel: int): seq<Entry> {
    if |entries| == 0 then [] else SortBy(WeekFilter(entries, sel), TimeKey)
  }

  /** An entry is in the week of `sel` exactly when its day has the same
      Sunday as `sel`. */
  lemma InWeekSameSunday(e: Entry, sel: int)
    requires Dated(e)
    ensures InWeek(e, sel) <==> StartOfWeek(DayOf(e)) == StartOfWeek(sel)
  {
    if InWeek(e, sel) {
      StartOfWeekUnique(DayOf(e), StartOfWeek(sel));
    }
  }

  /** The week's entries are the entries whose date parses and whose day
      falls in the selected week, and nothing else. */
  lemma WeekEntriesMembers(entries: seq<Entry>, sel: int)
    ensures forall e :: e in WeekEntries(entries, sel) <==>
              e in entries && Dated(e) && StartOfWeek(DayOf(e)) == StartOfWeek(sel)
  {
    var f := WeekFilter(entries, sel);
    forall e
      ensures e in WeekEntries(entries, sel) <==>
              e in entries && Dated(e) && StartOfWeek(DayOf(e)) == StartOfWeek(sel)
    {
      if entries != [] {
        assert e in SortBy(f, TimeKey) <==> e in multiset(SortBy(f, TimeKey));
        assert e in f <==> e in multiset(f);
      }
      if Dated(e) {
        InWeekSameSunday(e, sel);
      }
    }
  }

  /** The week's entries all have a date that parses. */
  lemma WeekEntriesDated(entries: seq<Entry>, sel: int)
    ensures forall i :: 0 <= i < |WeekEntries(entries, sel)| ==> Dated(WeekEntries(entries, sel)[i])
  {
    var w := WeekEntries(entries, sel);
    forall i | 0 <= i < |w|
      ensures Dated(w[i])
    {
      WeekEntriesMembers(entries, sel);
      assert w[i] in w;
    }
  }

  /** The week's entries come in time order. */
  lemma WeekEntriesChronological(entries: seq<Entry>, sel: int)
    ensures var w := WeekEntries(entries, sel);
            (forall i :: 0 <= i < |w| ==> Dated(w[i]))
            && forall i, j :: 0 <= i < j < |w| ==> Time(w[i].date.value) <= Time(w[j].date.value)
  {
    var w := WeekEntries(entries, sel);
    WeekEntriesDated(entries, sel);
    if entries != [] {
      SortSorted(WeekFilter(entries, sel), TimeKey);
      forall i, j | 0 <= i < j < |w|
        ensures Time(w[i].date.value) <= Time(w[j].date.value)
      {
        assert TimeKey(w[i]) <= TimeKey(w[j]);
      }
    }
  }

  /** The sort only reorders: the week's entries are the filtered entries
      rearranged, and entries with the same time keep their input order. */
  lemma WeekEntriesStable(entries: seq<Entry>, sel: int, k: real)
    ensures multiset(WeekEntries(entries, sel)) == multiset(WeekFilter(entries, sel))
    ensures WithKey(WeekEntries(entries, sel), TimeKey, k) == WithKey(WeekFilter(entries, sel), TimeKey, k)
  {
    if entries != [] {
      SortStable(WeekFilter(entries, sel), TimeKey, k);
    }
  }

  /** Two different things, and no fewer, make a set of at least two. */
  lemma TwoElements(s: set<int>)
    ensures |s| >= 2 <==> exists x, y :: x in s && y in s && x != y
  {
    if |s| >= 2 {
      var x := Pick(s);
      var y := Pick(s - {x});
      assert x in s && y in s && x != y;
    }
    if exists x, y :: x in s && y in s && x != y {
      var x, y :| x in s && y in s && x != y;
      assert s == {x, y} + (s - {x, y});
    }
  }

  /** `hasWeekReport`: the week's entries fall on at least two different
      days. */
  method HasWeekReport(weekEntries: seq<Entry>) returns (r: bool)
    ensures r <==> exists a, b :: a in weekEntries && b in weekEntries && Dated(a) && Dated(b) && DayOf(a) != DayOf(b)
  {
    var weekDayCount := CountDistinctEntryDays(weekEntries);
    r := weekDayCount >= 2;
    TwoElements(DaySet(weekEntries));
    if r {
      var x, y :| x in DaySet(weekEntries) && y in DaySet(weekEntries) && x != y;
      var a :| a in weekEntries && Dated(a) && DayOf(a) == x;
      var b :| b in weekEntries && Dated(b) && DayOf(b) == y;
    } else {
      forall a, b | a in weekEntries && b in weekEntries && Dated(a) && Dated(b)
        ensures DayOf(a) == DayOf(b)
      {
        assert DayOf(a) in DaySet(weekEntries) && DayOf(b) in DaySet(weekEntries);
      }
    }
  }

  /** One group of `groupedWeekEntries`: a day and its entries. */
  datatype DayGroup = DayGroup(day: int, entries: seq<Entry>)

  /** The `.map` step: each day with its bucket sorted by time. */
  function GroupsOf(days: seq<int>, buckets: map<int, seq<Entry>>): (r: seq<DayGroup>)
    requires forall i :: 0 <= i < |days| ==> days[i] in buckets
  {
    seq(|days|, i requires 0 <= i < |days| => DayGroup(days[i], SortBy(buckets[days[i]], TimeKey)))
  }

  /** `groupedWeekEntries`: the week's days in ascending order, each with
      its entries in time order. */
  function GroupedWeek(weekEntries: seq<Entry>): seq<DayGroup> {
    GroupsOf(SortedDays(weekEntries), DayGroups(weekEntries))
  }

  /** The groups are the days the week's entries fall on, each once, in
      ascending order. */
  lemma GroupedDays(weekEntries: seq<Entry>)
    ensures var g := GroupedWeek(weekEntries);
            (forall i, j :: 0 <= i < j < |g| ==> g[i].day < g[j].day)
            && (forall d :: d in DaySet(weekEntries) <==> exists i :: 0 <= i < |g| && g[i].day == d)
  {
    var g := GroupedWeek(weekEntries);
    var days := SortedDays(weekEntries);
    assert forall i :: 0 <= i < |g| ==> g[i].day == days[i];
    forall d
      ensures d in DaySet(weekEntries) <==> exists i :: 0 <= i < |g| && g[i].day == d
    {
      if d in DaySet(weekEntries) {
        var i :| 0 <= i < |days| && days[i] == d;
        assert g[i].day == d;
      }
    }
  }

  /** Each group holds exactly the week's entries of its day, none missing,
      in time order, and never none. */
  lemma GroupedEntries(weekEntries: seq<Entry>, i: int)
    requires 0 <= i < |GroupedWeek(weekEntries)|
    ensures var g := GroupedWeek(weekEntries)[i];
            g.entries != []
            && (forall e :: e in g.entries <==> e in weekEntries && Dated(e) && DayOf(e) == g.day)
            && multiset(g.entries) == multiset(DayEntries(weekEntries, g.day))
            && SortedBy(g.entries, TimeKey)
  {
    var days := SortedDays(weekEntries);
    var d := days[i];
    var bucket := DayEntries(weekEntries, d);
    assert GroupedWeek(weekEntries)[i] == DayGroup(d, SortBy(bucket, TimeKey));
    DayEntriesNonEmpty(weekEntries, d);
    SortSorted(bucket, TimeKey);
    forall e
      ensures e in SortBy(bucket, TimeKey) <==> e in bucket
    {
      assert e in SortBy(bucket, TimeKey) <==> e in multiset(SortBy(bucket, TimeKey));
      assert e in bucket <==> e in multiset(bucket);
    }
  }

  /** `groupedWeekEntries` computed as the page does: the `forEach` loop
      fills the day map, whose keys are then sorted and mapped. */
  method GroupWeekEntries(weekEntries: seq<Entry>) returns (groups: seq<DayGroup>)
    ensures groups == GroupedWeek(weekEntries)
  {
    var order: seq<int> := [];
    var byDay: map<int, seq<Entry>> := map[];
    var i := 0;
    assert weekEntries[..0] == [];
    while i < |weekEntries|
      invariant i <= |weekEntries|
      invariant order == Dedup(ValidDays(weekEntries[..i])) && byDay == DayGroups(weekEntries[..i])
    {
      PrefixStep(weekEntries, i);
      order, byDay := GroupEntry(order, byDay, weekEntries[..i], weekEntries[i]);
      i := i + 1;
    }
    assert weekEntries[..i] == weekEntries;
    var days := SortBy(order, DayKey);
    assert days == SortedDays(weekEntries);
    groups := GroupsOf(days, byDay);
  }
}
