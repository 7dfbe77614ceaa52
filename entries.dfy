/** A journal entry as the insights engine reads it, and the per-entry
    views every aggregate is built from: the entries whose date parses,
    their days, one day's bucket, the scores and the tag stream. */
module Entries {
  import opened Prelude
  import opened DayKeys
  import opened Moods

  /** `date` is `new Date(entry.date)` already parsed (`None` when it is
      invalid), `mood` is `None` when the entry has none, and `tags` is
      empty when the entry has none. */
  datatype Entry = Entry(date: Option<Stamp>, mood: Option<Mood>, tags: seq<string>)

  /** `toStartOfDay(entry.date)` is not null. */
  predicate Dated(e: Entry) {
    e.date.Some? && ValidStamp(e.date.value)
  }

  function DayOf(e: Entry): int
    requires Dated(e)
  {
    e.date.value.day
  }

  /** The days on which some entry falls. */
  function DaySet(entries: seq<Entry>): set<int> {
    set e | e in entries && Dated(e) :: DayOf(e)
  }

  lemma {:induction false} DaySetAppend(entries: seq<Entry>, e: Entry)
    ensures DaySet(entries + [e]) == DaySet(entries) + (if Dated(e) then {DayOf(e)} else {})
  {
    var s := entries + [e];
    forall d | d in DaySet(s)
      ensures d in DaySet(entries) + (if Dated(e) then {DayOf(e)} else {})
    {
      var x :| x in s && Dated(x) && DayOf(x) == d;
      if x != e {
        assert x in entries;
      }
    }
  }

  /** The entries whose date parses, in input order. */
  function DatedEntries(entries: seq<Entry>): (r: seq<Entry>)
    ensures |r| <= |entries|
    ensures forall e :: e in r <==> e in entries && Dated(e)
  {
    if entries == [] then []
    else
      var last := entries[|entries| - 1];
      assert entries == entries[..|entries| - 1] + [last];
      var rest := DatedEntries(entries[..|entries| - 1]);
      if Dated(last) then rest + [last] else rest
  }

  /** The day of every dated entry, in input order, repeats included. */
  function ValidDays(entries: seq<Entry>): (r: seq<int>)
    ensures |r| <= |entries|
    ensures forall d :: d in r <==> d in DaySet(entries)
  {
    if entries == [] then []
    else
      var last := entries[|entries| - 1];
      assert entries == entries[..|entries| - 1] + [last];
      assert DaySet(entries) == DaySet(entries[..|entries| - 1])
                                + (if Dated(last) then {DayOf(last)} else {});
      var rest := ValidDays(entries[..|entries| - 1]);
      if Dated(last) then rest + [DayOf(last)] else rest
  }

  /** One day's bucket: the entries dated that day, in input order. */
  function DayEntries(entries: seq<Entry>, d: int): (r: seq<Entry>)
    ensures |r| <= |entries|
    ensures forall e :: e in r <==> e in entries && Dated(e) && DayOf(e) == d
  {
    if entries == [] then []
    else
      var last := entries[|entries| - 1];
      assert entries == entries[..|entries| - 1] + [last];
      var rest := DayEntries(entries[..|entries| - 1], d);
      if Dated(last) && DayOf(last) == d then rest + [last] else rest
  }

  lemma DayEntriesNonEmpty(entries: seq<Entry>, d: int)
    ensures DayEntries(entries, d) != [] <==> d in DaySet(entries)
  {
    if d in DaySet(entries) {
      var e :| e in entries && Dated(e) && DayOf(e) == d;
      assert e in DayEntries(entries, d);
    }
  }

  /** The score of each entry, in order (`moodScoreMap[mood] ?? 3`). */
  function Scores(entries: seq<Entry>): (r: seq<int>)
    ensures |r| == |entries|
    ensures forall i :: 0 <= i < |r| ==> r[i] == EntryScore(entries[i].mood)
  {
    if entries == [] then []
    else Scores(entries[..|entries| - 1]) + [EntryScore(entries[|entries| - 1].mood)]
  }

  lemma ScoresInRange(entries: seq<Entry>)
    ensures forall i :: 0 <= i < |Scores(entries)| ==> 1 <= Scores(entries)[i] <= 5
  {
  }

  /** The tags of a list with the empty ones skipped (`if (!tag) return`). */
  function NonEmptyTags(tags: seq<string>): (r: seq<string>)
    ensures forall t :: t in r <==> t in tags && t != ""
  {
    if tags == [] then []
    else
      var last := tags[|tags| - 1];
      assert tags == tags[..|tags| - 1] + [last];
      var rest := NonEmptyTags(tags[..|tags| - 1]);
      if last != "" then rest + [last] else rest
  }

  /** Every non-empty tag of every entry, in the order the `forEach` loops
      visit them. */
  function TagStream(entries: seq<Entry>): (r: seq<string>)
    ensures "" !in r
  {
    if entries == [] then []
    else TagStream(entries[..|entries| - 1]) + NonEmptyTags(entries[|entries| - 1].tags)
  }

  /** The number of times a tag occurs in the stream. */
  function TagCount(entries: seq<Entry>, t: string): nat {
    multiset(TagStream(entries))[t]
  }

  /** A tag is in the stream exactly when it is not empty and some entry
      carries it. */
  lemma {:induction false} TagStreamMembers(entries: seq<Entry>, t: string)
    ensures t in TagStream(entries) <==> t != "" && exists e :: e in entries && t in e.tags
  {
    if entries != [] {
      var init := entries[..|entries| - 1];
      var last := entries[|entries| - 1];
      TagStreamMembers(init, t);
      assert entries == init + [last];
      if t in last.tags {
        assert last in entries;
      }
      if exists e :: e in entries && t in e.tags {
        var e :| e in entries && t in e.tags;
        assert e in init || e == last;
      }
    }
  }

  /** `tagsFrequency[tag]` is set exactly for the non-empty tags some
      entry carries. */
  lemma TagCountPositive(entries: seq<Entry>, t: string)
    ensures TagCount(entries, t) > 0 <==> t in TagStream(entries)
    ensures TagCount(entries, t) > 0 <==> t != "" && exists e :: e in entries && t in e.tags
  {
    TagStreamMembers(entries, t);
  }

  /** `values` in `computeWeekMetrics`: the scores of the dated entries. */
  function DatedScores(entries: seq<Entry>): (r: seq<int>)
    ensures |r| == |DatedEntries(entries)|
  {
    Scores(DatedEntries(entries))
  }

  lemma {:induction false} DatedScoresEmpty(entries: seq<Entry>)
    ensures DatedScores(entries) == [] <==> DaySet(entries) == {}
  {
    var dated := DatedEntries(entries);
    if dated != [] {
      assert dated[0] in dated;
      assert DayOf(dated[0]) in DaySet(entries);
    }
    if DaySet(entries) != {} {
      var e :| e in entries && Dated(e);
      assert e in dated;
    }
  }
}
