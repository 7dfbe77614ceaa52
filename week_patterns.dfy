/** The pattern summary of a week (`deriveWeekPatternDetails`,
    client/src/utils/weekInsights.ts, lines 177-257): the most common mood,
    the most used tag with the number of entries and of days that carry
    it, and a comparison of morning and evening moods.  Maps keyed by day
    key are keyed by day number (`DayKeys.LocalISOInjective`); a `Map` is
    a dictionary plus the order its keys were first set in. */
module WeekPatterns {
  import opened Prelude
  import opened DayKeys
  import opened Moods
  import opened Entries
  import opened Sorting

  /** `EVENING_THRESHOLD`, `MORNING_RANGE` and `EVENING_START`. */
  const EveningThreshold: real := 0.35
  const MorningStart: int := 5
  const MorningEnd: int := 12
  const EveningStart: int := 17

  const EveningsHeavier: string := "Evenings seem slightly heavier than mornings."
  const MorningsDip: string := "Mornings dip a bit compared to evenings."
  const FairlyEven: string := "Mood stays fairly even throughout the day."

  /** One tag's `{ count, days }`. */
  datatype TagStat = TagStat(count: nat, days: set<int>)

  /** A `{ sum, count }` accumulator of scores. */
  datatype Bucket = Bucket(sum: int, count: nat)

  datatype TopTag = TopTag(tag: string, entryCount: nat, dayCount: nat)

  datatype PatternDetails = PatternDetails(
    moodMode: Option<Mood>,
    topTag: Option<TopTag>,
    daypartMessage: Option<string>)

  /* ---------- Moods ---------- */

  /** `entry.mood ?? 'neutral'` for every entry, in order. */
  function MoodKeys(entries: seq<Entry>): (r: seq<Mood>)
    ensures |r| == |entries|
    ensures forall i :: 0 <= i < |r| ==> r[i] == MoodKey(entries[i].mood)
  {
    if entries == [] then []
    else MoodKeys(entries[..|entries| - 1]) + [MoodKey(entries[|entries| - 1].mood)]
  }

  /** The number of entries counted under a mood. */
  function MoodCount(entries: seq<Entry>, m: Mood): nat {
    multiset(MoodKeys(entries))[m]
  }

  /** The mood comparator as an ascending key: a higher count first, equal
      counts in `localeCompare` order.  Ranks lie below 10, so ten steps
      per count keep the count in charge. */
  function ModeKey(counts: map<Mood, nat>): Mood -> real {
    m => ((if m in counts then -10 * counts[m] else 0) + LocaleRank(m)) as real
  }

  /* ---------- Tags ---------- */

  /** A non-empty tag met by the loop, with the day key of its entry when
      the entry's date parses. */
  datatype TagVisit = TagVisit(tag: string, day: Option<int>)

  /** `dayIso`: the day key of an entry, if its date parses. */
  function EntryDay(e: Entry): (r: Option<int>)
    ensures r.Some? <==> Dated(e)
    ensures r.Some? ==> r.value == DayOf(e)
  {
    if Dated(e) then Some(DayOf(e)) else None
  }

  /** The visits one entry's tags make, empty tags skipped. */
  function TagVisits(tags: seq<string>, day: Option<int>): seq<TagVisit> {
    if tags == [] then []
    else
      var rest := TagVisits(tags[..|tags| - 1], day);
      if tags[|tags| - 1] == "" then rest else rest + [TagVisit(tags[|tags| - 1], day)]
  }

  /** Every visit, in loop order. */
  function Visits(entries: seq<Entry>): seq<TagVisit> {
    if entries == [] then []
    else
      var last := entries[|entries| - 1];
      Visits(entries[..|entries| - 1]) + TagVisits(last.tags, EntryDay(last))
  }

  function VisitTags(v: seq<TagVisit>): (r: seq<string>)
    ensures |r| == |v|
    ensures forall i :: 0 <= i < |v| ==> r[i] == v[i].tag
  {
    seq(|v|, i requires 0 <= i < |v| => v[i].tag)
  }

  /** The days on which tag `t` was visited. */
  function VisitDays(v: seq<TagVisit>, t: string): set<int> {
    if v == [] then {}
    else
      var x := v[|v| - 1];
      VisitDays(v[..|v| - 1], t) + (if x.tag == t && x.day.Some? then {x.day.value} else {})
  }

  /** `tagStats` after a run of visits: each visit adds one to its tag's
      count and its day, if any, to the tag's days. */
  function StatTable(v: seq<TagVisit>): (r: map<string, TagStat>)
    ensures forall t :: t in r <==> t in VisitTags(v)
  {
    if v == [] then map[]
    else
      var v', x := v[..|v| - 1], v[|v| - 1];
      assert VisitTags(v) == VisitTags(v') + [x.tag];
      Visit(StatTable(v'), x)
  }

  /** One visit: the tag's record is created on first sight, its count
      goes up by one and the day, if any, joins its days. */
  function Visit(stats: map<string, TagStat>, x: TagVisit): map<string, TagStat> {
    stats[x.tag := Bump(if x.tag in stats then stats[x.tag] else TagStat(0, {}), x.day)]
  }

  /** `record.count += 1; if (dayIso) record.days.add(dayIso)`. */
  function Bump(stat: TagStat, day: Option<int>): TagStat {
    TagStat(stat.count + 1, if day.Some? then stat.days + {day.value} else stat.days)
  }

  /** The days of the entries whose date parses and which carry tag `t`. */
  function TagDays(entries: seq<Entry>, t: string): set<int> {
    set e | e in entries && Dated(e) && t in e.tags :: DayOf(e)
  }

  /** The comparator `(a, b) => b[1].count - a[1].count` as an ascending
      key. */
  function StatKey(stats: map<string, TagStat>): string -> real {
    t => if t in stats then -(stats[t].count as real) else 0.0
  }

  /* ---------- Dayparts ---------- */

  /** A dated entry logged from 5:00 up to noon. */
  predicate InMorning(e: Entry) {
    Dated(e) && MorningStart <= Hour(e.date.value) < MorningEnd
  }

  /** A dated entry logged from 17:00 on. */
  predicate InEvening(e: Entry) {
    Dated(e) && Hour(e.date.value) >= EveningStart
  }

  function MorningScores(entries: seq<Entry>): seq<int> {
    Scores(Filter(entries, InMorning))
  }

  function EveningScores(entries: seq<Entry>): seq<int> {
    Scores(Filter(entries, InEvening))
  }

  function BucketOf(scores: seq<int>): Bucket {
    Bucket(Sum(scores), |scores|)
  }

  /** `bucket.sum += score; bucket.count += 1`. */
  function AddScore(b: Bucket, score: int): Bucket {
    Bucket(b.sum + score, b.count + 1)
  }

  /** The message comparing the two buckets' averages, when both hold a
      score. */
  function DaypartMessage(morning: Bucket, evening: Bucket): Option<string> {
    if morning.count == 0 || evening.count == 0 then None
    else
      var m := morning.sum as real / morning.count as real;
      var e := evening.sum as real / evening.count as real;
      if m - e >= EveningThreshold then Some(EveningsHeavier)
      else if e - m >= EveningThreshold then Some(MorningsDip)
      else Some(FairlyEven)
  }

  /* ---------- The loop's state ---------- */

  /** The state the entry loop fills: the keys of `moodCounts` in insertion
      order and the map, the keys of `tagStats` in insertion order and the
      map, and the two buckets. */
  datatype PatternState = PatternState(
    moodOrder: seq<Mood>,
    moodCounts: map<Mood, nat>,
    tagOrder: seq<string>,
    tagStats: map<string, TagStat>,
    morning: Bucket,
    evening: Bucket)

  /** The state after the loop has seen `entries`. */
  function PatternStateOf(entries: seq<Entry>): PatternState {
    var moods := MoodKeys(entries);
    var v := Visits(entries);
    PatternState(Dedup(moods), CountTable(moods), Dedup(VisitTags(v)), StatTable(v),
                 BucketOf(MorningScores(entries)), BucketOf(EveningScores(entries)))
  }

  /** Every key in the tag order has its statistics. */
  predicate TagsTracked(s: PatternState) {
    forall t :: t in s.tagOrder ==> t in s.tagStats
  }

  /** What `deriveWeekPatternDetails` reads off the filled state. */
  function Finish(s: PatternState): PatternDetails
    requires TagsTracked(s)
  {
    var mode := if s.moodOrder == [] then None else Some(SortBy(s.moodOrder, ModeKey(s.moodCounts))[0]);
    var top :=
      if s.tagOrder == [] then None
      else
        var ranked := SortBy(s.tagOrder, StatKey(s.tagStats));
        assert ranked[0] in multiset(s.tagOrder);
        var stat := s.tagStats[ranked[0]];
        Some(TopTag(ranked[0], stat.count, |stat.days|));
    PatternDetails(mode, top, DaypartMessage(s.morning, s.evening))
  }

  /** The pattern summary of a list of entries. */
  function PatternDetailsOf(entries: seq<Entry>): PatternDetails {
    if entries == [] then PatternDetails(None, None, None)
    else Finish(PatternStateOf(entries))
  }

  /* ---------- Step lemmas ---------- */

  lemma {:induction false} MoodKeysAppend(s: seq<Entry>, e: Entry)
    ensures MoodKeys(s + [e]) == MoodKeys(s) + [MoodKey(e.mood)]
  {
    assert (s + [e])[..|s|] == s;
  }

  lemma {:induction false} VisitsAppend(s: seq<Entry>, e: Entry)
    ensures Visits(s + [e]) == Visits(s) + TagVisits(e.tags, EntryDay(e))
  {
    assert (s + [e])[..|s|] == s;
  }

  lemma {:induction false} TagVisitsStep(tags: seq<string>, j: nat, day: Option<int>)
    requires j < |tags|
    ensures TagVisits(tags[..j + 1], day)
            == TagVisits(tags[..j], day) + (if tags[j] != "" then [TagVisit(tags[j], day)] else [])
  {
    assert tags[..j + 1][..j] == tags[..j];
  }

  lemma {:induction false} StatTableAppend(v: seq<TagVisit>, x: TagVisit)
    ensures StatTable(v + [x]) == Visit(StatTable(v), x)
  {
    assert (v + [x])[..|v|] == v;
  }

  lemma {:induction false} VisitTagsAppend(v: seq<TagVisit>, x: TagVisit)
    ensures VisitTags(v + [x]) == VisitTags(v) + [x.tag]
  {
  }

  lemma {:induction false} ScoresAppend(s: seq<Entry>, e: Entry)
    ensures Scores(s + [e]) == Scores(s) + [EntryScore(e.mood)]
  {
    assert (s + [e])[..|s|] == s;
  }

  lemma {:induction false} FilterAppend(s: seq<Entry>, e: Entry, p: Entry -> bool)
    ensures Filter(s + [e], p) == if p(e) then Filter(s, p) + [e] else Filter(s, p)
  {
    assert (s + [e])[..|s|] == s;
  }

  lemma {:induction false} SumAppend(s: seq<int>, x: int)
    ensures Sum(s + [x]) == Sum(s) + x
  {
    assert (s + [x])[..|s|] == s;
  }

  /** An entry in a bucket's hours adds its score to the bucket. */
  lemma {:induction false} BucketTakes(s: seq<Entry>, e: Entry, p: Entry -> bool)
    requires p(e)
    ensures var b := BucketOf(Scores(Filter(s, p)));
            BucketOf(Scores(Filter(s + [e], p))) == AddScore(b, EntryScore(e.mood))
  {
    var f := Filter(s, p);
    FilterAppend(s, e, p);
    ScoresAppend(f, e);
    SumAppend(Scores(f), EntryScore(e.mood));
  }

  /** One entry more: the morning bucket takes its score when the entry
      is logged in the morning and is otherwise unchanged. */
  lemma MorningStep(s: seq<Entry>, e: Entry, b: Bucket)
    requires b == BucketOf(MorningScores(s))
    ensures BucketOf(MorningScores(s + [e]))
            == if InMorning(e) then AddScore(b, EntryScore(e.mood)) else b
  {
    if InMorning(e) {
      BucketTakes(s, e, InMorning);
    } else {
      BucketSkips(s, e, InMorning);
    }
  }

  /** The same for the evening bucket. */
  lemma EveningStep(s: seq<Entry>, e: Entry, b: Bucket)
    requires b == BucketOf(EveningScores(s))
    ensures BucketOf(EveningScores(s + [e]))
            == if InEvening(e) then AddScore(b, EntryScore(e.mood)) else b
  {
    if InEvening(e) {
      BucketTakes(s, e, InEvening);
    } else {
      BucketSkips(s, e, InEvening);
    }
  }

  /** Any other entry leaves the bucket as it is. */
  lemma {:induction false} BucketSkips(s: seq<Entry>, e: Entry, p: Entry -> bool)
    requires !p(e)
    ensures Filter(s + [e], p) == Filter(s, p)
  {
    FilterAppend(s, e, p);
  }

  /* ---------- The loop ---------- */

  /** The body of the inner `entry.tags?.forEach` for a non-empty tag:
      a record on first sight, one more count, and the entry's day. */
  method CountTag(order: seq<string>, stats: map<string, TagStat>, ghost seen: seq<TagVisit>,
                  tag: string, day: Option<int>)
    returns (order': seq<string>, stats': map<string, TagStat>)
    requires order == Dedup(VisitTags(seen)) && stats == StatTable(seen)
    ensures order' == Dedup(VisitTags(seen + [TagVisit(tag, day)]))
    ensures stats' == StatTable(seen + [TagVisit(tag, day)])
  {
    ghost var visit := TagVisit(tag, day);
    VisitTagsAppend(seen, visit);
    StatTableAppend(seen, visit);
    if tag in stats {
      assert tag in VisitTags(seen);
      DedupAppend(VisitTags(seen), tag);
      order' := order;
    } else {
      assert tag !in VisitTags(seen);
      DedupAppend(VisitTags(seen), tag);
      order' := order + [tag];
    }
    var stat := if tag in stats then stats[tag] else TagStat(0, {});
    stats' := stats[tag := Bump(stat, day)];
  }

  /** The inner `entry.tags?.forEach`: empty tags are skipped, every
      other tag is counted. */
  method AddTagStats(order: seq<string>, stats: map<string, TagStat>, ghost seen: seq<TagVisit>,
                     tags: seq<string>, day: Option<int>)
    returns (order': seq<string>, stats': map<string, TagStat>)
    requires order == Dedup(VisitTags(seen)) && stats == StatTable(seen)
    ensures order' == Dedup(VisitTags(seen + TagVisits(tags, day)))
    ensures stats' == StatTable(seen + TagVisits(tags, day))
  {
    order', stats' := order, stats;
    var j := 0;
    assert tags[..0] == [];
    assert seen + TagVisits(tags[..0], day) == seen;
    while j < |tags|
      invariant j <= |tags|
      invariant order' == Dedup(VisitTags(seen + TagVisits(tags[..j], day)))
      invariant stats' == StatTable(seen + TagVisits(tags[..j], day))
    {
      order', stats' := TagStep(order', stats', seen, tags, j, day);
      j := j + 1;
    }
    assert tags[..j] == tags;
  }

  /** One turn of that loop: the tag at `j` is counted unless it is
      empty. */
  method TagStep(order: seq<string>, stats: map<string, TagStat>, ghost seen: seq<TagVisit>,
                 tags: seq<string>, j: nat, day: Option<int>)
    returns (order': seq<string>, stats': map<string, TagStat>)
    requires j < |tags|
    requires order == Dedup(VisitTags(seen + TagVisits(tags[..j], day)))
    requires stats == StatTable(seen + TagVisits(tags[..j], day))
    ensures order' == Dedup(VisitTags(seen + TagVisits(tags[..j + 1], day)))
    ensures stats' == StatTable(seen + TagVisits(tags[..j + 1], day))
  {
    var tag := tags[j];
    ghost var before := seen + TagVisits(tags[..j], day);
    ghost var after := seen + TagVisits(tags[..j + 1], day);
    TagVisitsStep(tags, j, day);
    if tag != "" {
      assert after == before + [TagVisit(tag, day)];
      order', stats' := CountTag(order, stats, before, tag, day);
    } else {
      assert after == before;
      order', stats' := order, stats;
    }
  }

  /** One turn of the entry loop. */
  method PatternStep(s: PatternState, ghost seen: seq<Entry>, entry: Entry) returns (s': PatternState)
    requires s == PatternStateOf(seen)
    ensures s' == PatternStateOf(seen + [entry])
  {
    MoodKeysAppend(seen, entry);
    var moodOrder, moodCounts := CountOne(s.moodOrder, s.moodCounts, MoodKeys(seen), MoodKey(entry.mood));
    var dayIso := EntryDay(entry);
    VisitsAppend(seen, entry);
    var tagOrder, tagStats := AddTagStats(s.tagOrder, s.tagStats, Visits(seen), entry.tags, dayIso);
    var morning, evening := AddToDaypart(s.morning, s.evening, seen, entry);
    s' := PatternState(moodOrder, moodCounts, tagOrder, tagStats, morning, evening);
  }

  /** The end of the loop body: an entry whose date parses adds its score
      to the morning bucket from 5:00 to noon or to the evening bucket
      from 17:00. */
  method AddToDaypart(morning: Bucket, evening: Bucket, ghost seen: seq<Entry>, entry: Entry)
    returns (morning': Bucket, evening': Bucket)
    requires morning == BucketOf(MorningScores(seen)) && evening == BucketOf(EveningScores(seen))
    ensures morning' == BucketOf(MorningScores(seen + [entry]))
    ensures evening' == BucketOf(EveningScores(seen + [entry]))
  {
    var mood := MoodKey(entry.mood);
    MoodKeyScore(entry.mood);
    var score := Score(mood);
    morning', evening' := morning, evening;
    if Dated(entry) {
      var hour := Hour(entry.date.value);
      if MorningStart <= hour < MorningEnd {
        assert InMorning(entry) && !InEvening(entry);
        morning' := AddScore(morning, score);
      } else if hour >= EveningStart {
        assert !InMorning(entry) && InEvening(entry);
        evening' := AddScore(evening, score);
      } else {
        assert !InMorning(entry) && !InEvening(entry);
      }
    }
    MorningStep(seen, entry, morning);
    EveningStep(seen, entry, evening);
  }

  /** `deriveWeekPatternDetails`. */
  method DeriveWeekPatternDetails(entries: seq<Entry>) returns (d: PatternDetails)
    ensures d == PatternDetailsOf(entries)
  {
    if |entries| == 0 {
      return PatternDetails(None, None, None);
    }
    var state := PatternState([], map[], [], map[], Bucket(0, 0), Bucket(0, 0));
    var i := 0;
    assert entries[..0] == [];
    assert state == PatternStateOf([]);
    while i < |entries|
      invariant i <= |entries|
      invariant state == PatternStateOf(entries[..i])
    {
      PrefixStep(entries, i);
      state := PatternStep(state, entries[..i], entries[i]);
      i := i + 1;
    }
    assert entries[..i] == entries;
    d := Finish(state);
  }
}
