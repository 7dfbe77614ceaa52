/** What the pattern summary says about the entries it is given: the mood
    it names is a most common one, the tag it names is a most used one
    with the right entry and day counts, and the daypart message compares
    the mean morning and evening scores
    (client/src/utils/weekInsights.ts, lines 177-257). */
module PatternSummary {
  import opened Prelude
  import opened Moods
  import opened Entries
  import opened Sorting
  import opened WeekPatterns

  /** The mood that `moodMode` names, when there are entries. */
  function ModeOf(entries: seq<Entry>): (m: Option<Mood>)
    ensures m.None? <==> entries == []
  {
    var keys := MoodKeys(entries);
    if entries == [] then None
    else
      assert keys[0] in Dedup(keys);
      Some(SortBy(Dedup(keys), ModeKey(CountTable(keys)))[0])
  }

  lemma ReportMode(entries: seq<Entry>)
    ensures PatternDetailsOf(entries).moodMode == ModeOf(entries)
  {
  }

  /** The ranking key of a mood that occurs: ten steps per count down,
      plus its place in `localeCompare` order. */
  lemma ModeKeyOf(keys: seq<Mood>, m: Mood)
    ensures ModeKey(CountTable(keys))(m) == (-10 * multiset(keys)[m] + LocaleRank(m)) as real
  {
    if m in keys {
      CountTableCounts(keys, m);
    }
  }

  /** `moodMode` is null exactly for no entries; otherwise it is a mood
      no other mood outnumbers, and any mood as frequent comes later in
      `localeCompare` order. */
  lemma {:induction false} MoodModeIsMode(entries: seq<Entry>)
    ensures var mode := PatternDetailsOf(entries).moodMode;
            (mode.None? <==> entries == [])
            && (mode.Some? ==>
                  MoodCount(entries, mode.value) > 0
                  && forall m :: m != mode.value ==>
                       MoodCount(entries, m) < MoodCount(entries, mode.value)
                       || (MoodCount(entries, m) == MoodCount(entries, mode.value)
                           && LocaleRank(mode.value) < LocaleRank(m)))
  {
    ReportMode(entries);
    if entries == [] {
      return;
    }
    var keys := MoodKeys(entries);
    var order := Dedup(keys);
    var key := ModeKey(CountTable(keys));
    assert keys[0] in order;
    SortHead(order, key);
    var mode := ModeOf(entries).value;
    assert mode in multiset(order);
    assert mode in keys;
    ModeKeyOf(keys, mode);
    forall m | m != mode
      ensures MoodCount(entries, m) < MoodCount(entries, mode)
              || (MoodCount(entries, m) == MoodCount(entries, mode) && LocaleRank(mode) < LocaleRank(m))
    {
      if m in keys {
        assert m in order;
        ModeKeyOf(keys, m);
        if LocaleRank(mode) == LocaleRank(m) {
          LocaleRankInjective(mode, m);
        }
      }
    }
  }

  /* ---------- Tag statistics ---------- */

  lemma {:induction false} VisitDaysAbsent(v: seq<TagVisit>, t: string)
    requires t !in VisitTags(v)
    ensures VisitDays(v, t) == {}
  {
    if v != [] {
      var v' := v[..|v| - 1];
      assert VisitTags(v) == VisitTags(v') + [v[|v| - 1].tag];
      VisitDaysAbsent(v', t);
    }
  }

  /** A tag's record holds the number of its visits and the days they
      fell on, and there are never more days than visits. */
  lemma {:induction false} StatTableEntry(v: seq<TagVisit>, t: string)
    requires t in StatTable(v)
    ensures StatTable(v)[t] == TagStat(multiset(VisitTags(v))[t], VisitDays(v, t))
    ensures |VisitDays(v, t)| <= multiset(VisitTags(v))[t]
  {
    var v', x := v[..|v| - 1], v[|v| - 1];
    FrontAndLast(v);
    VisitTagsAppend(v', x);
    var before := StatTable(v');
    assert StatTable(v) == Visit(before, x);
    assert multiset(VisitTags(v))[t] == multiset(VisitTags(v'))[t] + (if x.tag == t then 1 else 0);
    assert VisitDays(v, t) == VisitDays(v', t) + (if x.tag == t && x.day.Some? then {x.day.value} else {});
    VisitEntry(before, x, t);
    if t in before {
      StatTableEntry(v', t);
    } else {
      VisitDaysAbsent(v', t);
    }
    VisitDaysBound(v, t);
  }

  /** A tag never has more days than visits. */
  lemma {:induction false} VisitDaysBound(v: seq<TagVisit>, t: string)
    ensures |VisitDays(v, t)| <= multiset(VisitTags(v))[t]
  {
    if v != [] {
      var v', x := v[..|v| - 1], v[|v| - 1];
      FrontAndLast(v);
      VisitTagsAppend(v', x);
      assert multiset(VisitTags(v))[t] == multiset(VisitTags(v'))[t] + (if x.tag == t then 1 else 0);
      VisitDaysBound(v', t);
    }
  }

  /** One visit changes the record of its own tag only. */
  lemma VisitEntry(stats: map<string, TagStat>, x: TagVisit, t: string)
    requires t in Visit(stats, x)
    ensures Visit(stats, x)[t]
            == if x.tag == t then Bump(if t in stats then stats[t] else TagStat(0, {}), x.day) else stats[t]
  {
  }

  lemma {:induction false} VisitTagsOfTags(tags: seq<string>, day: Option<int>)
    ensures VisitTags(TagVisits(tags, day)) == NonEmptyTags(tags)
  {
    if tags != [] {
      var tags', last := tags[..|tags| - 1], tags[|tags| - 1];
      VisitTagsOfTags(tags', day);
      if last != "" {
        VisitTagsAppend(TagVisits(tags', day), TagVisit(last, day));
      }
    }
  }

  lemma VisitTagsConcat(a: seq<TagVisit>, b: seq<TagVisit>)
    ensures VisitTags(a + b) == VisitTags(a) + VisitTags(b)
  {
  }

  /** The visits' tags are the tag stream of the entries. */
  lemma {:induction false} VisitTagsOfEntries(entries: seq<Entry>)
    ensures VisitTags(Visits(entries)) == TagStream(entries)
  {
    if entries != [] {
      var pre, last := entries[..|entries| - 1], entries[|entries| - 1];
      VisitTagsOfEntries(pre);
      VisitTagsConcat(Visits(pre), TagVisits(last.tags, EntryDay(last)));
      VisitTagsOfTags(last.tags, EntryDay(last));
    }
  }

  lemma {:induction false} VisitDaysConcat(a: seq<TagVisit>, b: seq<TagVisit>, t: string)
    ensures VisitDays(a + b, t) == VisitDays(a, t) + VisitDays(b, t)
  {
    if b != [] {
      var b' := b[..|b| - 1];
      VisitDaysConcat(a, b', t);
      assert (a + b)[..|a + b| - 1] == a + b';
    } else {
      assert a + b == a;
    }
  }

  lemma {:induction false} VisitDaysOfTags(tags: seq<string>, day: Option<int>, t: string)
    requires t != ""
    ensures VisitDays(TagVisits(tags, day), t) == if day.Some? && t in tags then {day.value} else {}
  {
    if tags != [] {
      var tags', last := tags[..|tags| - 1], tags[|tags| - 1];
      VisitDaysOfTags(tags', day, t);
      VisitDaysStep(tags, day, t);
      InFrontOrLast(tags, t);
    }
  }

  /** The last tag of an entry adds its day to that tag's days. */
  lemma VisitDaysStep(tags: seq<string>, day: Option<int>, t: string)
    requires tags != [] && t != ""
    ensures VisitDays(TagVisits(tags, day), t)
            == VisitDays(TagVisits(tags[..|tags| - 1], day), t)
               + (if tags[|tags| - 1] == t && day.Some? then {day.value} else {})
  {
    var rest := TagVisits(tags[..|tags| - 1], day);
    var last := tags[|tags| - 1];
    if last != "" {
      var w := rest + [TagVisit(last, day)];
      assert TagVisits(tags, day) == w;
      assert w[..|w| - 1] == rest;
    }
  }

  lemma {:induction false} TagDaysAppend(entries: seq<Entry>, e: Entry, t: string)
    ensures TagDays(entries + [e], t)
            == TagDays(entries, t) + (if Dated(e) && t in e.tags then {DayOf(e)} else {})
  {
    var s := entries + [e];
    forall d | d in TagDays(s, t)
      ensures d in TagDays(entries, t) + (if Dated(e) && t in e.tags then {DayOf(e)} else {})
    {
      var x :| x in s && Dated(x) && t in x.tags && DayOf(x) == d;
      if x != e {
        assert x in entries;
      }
    }
  }

  /** A tag's days from the visits are the days of the dated entries that
      carry it. */
  lemma {:induction false} VisitDaysOfEntries(entries: seq<Entry>, t: string)
    requires t != ""
    ensures VisitDays(Visits(entries), t) == TagDays(entries, t)
  {
    if entries == [] {
      return;
    }
    var pre, last := entries[..|entries| - 1], entries[|entries| - 1];
    VisitDaysOfEntries(pre, t);
    VisitDaysConcat(Visits(pre), TagVisits(last.tags, EntryDay(last)), t);
    VisitDaysOfTags(last.tags, EntryDay(last), t);
    assert entries == pre + [last];
    TagDaysAppend(pre, last, t);
  }

  /** The tag that `topTag` names, when some entry has a tag. */
  function TopTagOf(entries: seq<Entry>): Option<TopTag> {
    var v := Visits(entries);
    var order := Dedup(VisitTags(v));
    var stats := StatTable(v);
    if order == [] then None
    else
      var ranked := SortBy(order, StatKey(stats));
      assert ranked[0] in multiset(order);
      Some(TopTag(ranked[0], stats[ranked[0]].count, |stats[ranked[0]].days|))
  }

  /** The report's `topTag` is the record of the head of the ranking. */
  lemma ReportTopTag(entries: seq<Entry>)
    ensures PatternDetailsOf(entries).topTag == TopTagOf(entries)
  {
  }

  /** The ranking key of a tag that occurs is its count, negated. */
  lemma StatKeyOf(entries: seq<Entry>, t: string)
    requires t in TagStream(entries)
    ensures StatKey(StatTable(Visits(entries)))(t) == -(multiset(TagStream(entries))[t] as real)
  {
    VisitTagsOfEntries(entries);
    StatTableEntry(Visits(entries), t);
  }

  /** What `TopTagIsMostUsed` states, for the record built from the
      ranking. */
  lemma TopTagOfMostUsed(entries: seq<Entry>)
    ensures var top := TopTagOf(entries);
            var stream := TagStream(entries);
            (top.None? <==> stream == [])
            && (top.Some? ==>
                  var tag := top.value.tag;
                  tag in stream
                  && top.value.entryCount == multiset(stream)[tag]
                  && (forall u :: multiset(stream)[u] <= top.value.entryCount)
                  && (exists i :: 0 <= i < |Dedup(stream)| && Dedup(stream)[i] == tag
                        && forall j :: 0 <= j < i ==> multiset(stream)[Dedup(stream)[j]] < top.value.entryCount)
                  && top.value.dayCount == |TagDays(entries, tag)|
                  && top.value.dayCount <= top.value.entryCount)
  {
    VisitTagsOfEntries(entries);
    if TagStream(entries) != [] {
      assert TagStream(entries)[0] in Dedup(TagStream(entries));
      TopTagRecord(entries);
      TopTagMost(entries);
      TopTagFirstMet(entries);
    }
  }

  /** `topTag` is null exactly when no entry has a non-empty tag;
      otherwise it names a tag no other tag outnumbers, the first such tag
      met, with its number of uses and the number of days of the dated
      entries that carry it, which is never more than its uses. */
  lemma TopTagIsMostUsed(entries: seq<Entry>)
    ensures var top := PatternDetailsOf(entries).topTag;
            var stream := TagStream(entries);
            (top.None? <==> stream == [])
            && (top.Some? ==>
                  var tag := top.value.tag;
                  tag in stream
                  && top.value.entryCount == multiset(stream)[tag]
                  && (forall u :: multiset(stream)[u] <= top.value.entryCount)
                  && (exists i :: 0 <= i < |Dedup(stream)| && Dedup(stream)[i] == tag
                        && forall j :: 0 <= j < i ==> multiset(stream)[Dedup(stream)[j]] < top.value.entryCount)
                  && top.value.dayCount == |TagDays(entries, tag)|
                  && top.value.dayCount <= top.value.entryCount)
  {
    ReportTopTag(entries);
    TopTagOfMostUsed(entries);
  }

  /** The tags in `tagStats` key order, ranked by descending count. */
  function RankedTags(entries: seq<Entry>): (r: seq<string>)
    ensures multiset(r) == multiset(Dedup(TagStream(entries)))
  {
    SortBy(Dedup(TagStream(entries)), StatKey(StatTable(Visits(entries))))
  }

  /** The record `topTag` builds for the head of the ranking. */
  lemma TopTagRecord(entries: seq<Entry>)
    requires Dedup(TagStream(entries)) != []
    ensures var r, stream := RankedTags(entries), TagStream(entries);
            r != [] && r[0] in stream
            && TopTagOf(entries) == Some(TopTag(r[0], multiset(stream)[r[0]], |TagDays(entries, r[0])|))
            && |TagDays(entries, r[0])| <= multiset(stream)[r[0]]
  {
    var r, v := RankedTags(entries), Visits(entries);
    VisitTagsOfEntries(entries);
    assert r[0] in multiset(Dedup(TagStream(entries)));
    assert r[0] in TagStream(entries);
    StatTableEntry(v, r[0]);
    VisitDaysOfEntries(entries, r[0]);
  }

  /** No tag is used more often than the head of the ranking. */
  lemma TopTagMost(entries: seq<Entry>)
    requires Dedup(TagStream(entries)) != []
    ensures var r, stream := RankedTags(entries), TagStream(entries);
            r != [] && forall u :: multiset(stream)[u] <= multiset(stream)[r[0]]
  {
    var stream, order := TagStream(entries), Dedup(TagStream(entries));
    var r, key := RankedTags(entries), StatKey(StatTable(Visits(entries)));
    SortHead(order, key);
    assert r[0] in multiset(order);
    StatKeyOf(entries, r[0]);
    forall u
      ensures multiset(stream)[u] <= multiset(stream)[r[0]]
    {
      if u in stream {
        assert u in order;
        StatKeyOf(entries, u);
      }
    }
  }

  /** The head of the ranking is the first tag met among the most used. */
  lemma TopTagFirstMet(entries: seq<Entry>)
    requires Dedup(TagStream(entries)) != []
    ensures var r, stream := RankedTags(entries), TagStream(entries);
            r != []
            && exists i :: 0 <= i < |Dedup(stream)| && Dedup(stream)[i] == r[0]
                 && forall j :: 0 <= j < i ==> multiset(stream)[Dedup(stream)[j]] < multiset(stream)[r[0]]
  {
    var order := Dedup(TagStream(entries));
    var r, key := RankedTags(entries), StatKey(StatTable(Visits(entries)));
    SortHead(order, key);
    assert r[0] in multiset(order);
    StatKeyOf(entries, r[0]);
    var i :| 0 <= i < |order| && order[i] == r[0] && forall j :: 0 <= j < i ==> key(order[j]) != key(r[0]);
    forall j | 0 <= j < i
      ensures multiset(TagStream(entries))[order[j]] < multiset(TagStream(entries))[r[0]]
    {
      assert order[j] in order;
      StatKeyOf(entries, order[j]);
    }
  }

  /* ---------- Dayparts ---------- */

  lemma ScoresEmpty(entries: seq<Entry>, p: Entry -> bool)
    ensures Scores(Filter(entries, p)) == [] <==> forall e :: e in entries ==> !p(e)
  {
    var f := Filter(entries, p);
    if f != [] {
      assert f[0] in f;
    }
  }

  lemma ReportDaypart(entries: seq<Entry>)
    ensures PatternDetailsOf(entries).daypartMessage
            == DaypartMessage(BucketOf(MorningScores(entries)), BucketOf(EveningScores(entries)))
  {
    if entries == [] {
      assert Filter(entries, InMorning) == [];
    }
  }

  /** The message chosen from the two lists of scores: null when either is
      empty, otherwise which part of the day has the mean score lower by at
      least 0.35, or that they are even. */
  lemma DaypartChoice(ms: seq<int>, es: seq<int>)
    ensures var msg := DaypartMessage(BucketOf(ms), BucketOf(es));
            (msg.None? <==> ms == [] || es == [])
            && (ms != [] && es != [] ==>
                  (msg == Some(EveningsHeavier) <==> Mean(ms) - Mean(es) >= EveningThreshold)
                  && (msg == Some(MorningsDip) <==> Mean(es) - Mean(ms) >= EveningThreshold)
                  && (msg == Some(FairlyEven) <==> -EveningThreshold < Mean(ms) - Mean(es) < EveningThreshold))
  {
    assert |EveningsHeavier| != |MorningsDip| && |EveningsHeavier| != |FairlyEven|;
    assert |MorningsDip| != |FairlyEven|;
  }

  /** `daypartMessage` is null unless some dated entry falls in the
      morning hours and some in the evening hours; then it compares the
      mean morning and evening scores. */
  lemma DaypartCases(entries: seq<Entry>)
    ensures var msg := PatternDetailsOf(entries).daypartMessage;
            var ms, es := MorningScores(entries), EveningScores(entries);
            (msg.None? <==> (forall e :: e in entries ==> !InMorning(e)) || (forall e :: e in entries ==> !InEvening(e)))
            && (ms != [] && es != [] ==>
                  (msg == Some(EveningsHeavier) <==> Mean(ms) - Mean(es) >= EveningThreshold)
                  && (msg == Some(MorningsDip) <==> Mean(es) - Mean(ms) >= EveningThreshold)
                  && (msg == Some(FairlyEven) <==> -EveningThreshold < Mean(ms) - Mean(es) < EveningThreshold))
  {
    ReportDaypart(entries);
    ScoresEmpty(entries, InMorning);
    ScoresEmpty(entries, InEvening);
    DaypartChoice(MorningScores(entries), EveningScores(entries));
  }
}
