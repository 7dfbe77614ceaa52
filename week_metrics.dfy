/** The weekly report (`computeWeekMetrics`) and the distinct-day count
    (`countDistinctEntryDays`) of client/src/utils/weekInsights.ts,
    lines 80-171.  Maps keyed by day key are keyed by day number here:
    `LocalISO` is one-to-one (`DayKeys.LocalISOInjective`), so the two
    group alike.  A `Map` is a dictionary plus the order its keys were
    first set in. */
module WeekMetrics {
  import opened Prelude
  import opened Text
  import opened DayKeys
  import opened Moods
  import opened Entries
  import opened Sorting
  import opened ObjectKeys

  /** `avgScore`: null for no entries, NaN when entries exist but no date
      parses (the mean of an empty list), otherwise a number. */
  datatype Average = NoScore | NotANumber | Avg(value: real)

  datatype Grade = Ungraded | A | B | C | D

  /** `gradeLetter` and `gradeLabel`; different grades read differently. */
  lemma GradeTextsInjective(g: Grade, h: Grade)
    requires Letter(g) == Letter(h) || GradeLabel(g) == GradeLabel(h)
    ensures g == h
  {
  }

  function Letter(g: Grade): string {
    match g
    case Ungraded => "\U{2013}"
    case A => "A"
    case B => "B"
    case C => "C"
    case D => "D"
  }

  function GradeLabel(g: Grade): string {
    match g
    case Ungraded => "No entries yet"
    case A => "Mostly positive"
    case B => "Generally calm"
    case C => "Mixed moments"
    case D => "Challenging week"
  }

  /** The grade ladder: the first threshold the average meets.  NaN meets
      none of them and grades D. */
  function GradeOf(avg: Average): (g: Grade)
    ensures g == Ungraded <==> avg.NoScore?
    ensures g == A <==> avg.Avg? && avg.value >= 4.2
    ensures g == B <==> avg.Avg? && 3.4 <= avg.value < 4.2
    ensures g == C <==> avg.Avg? && 2.6 <= avg.value < 3.4
    ensures g == D <==> avg.NotANumber? || (avg.Avg? && avg.value < 2.6)
  {
    match avg
    case NoScore => Ungraded
    case NotANumber => D
    case Avg(v) =>
      if v >= 4.2 then A else if v >= 3.4 then B else if v >= 2.6 then C else D
  }

  /** The letter of the average's grade: the dash and "No entries yet"
      for no score, otherwise the letter of the first threshold met, with
      D for NaN. */
  lemma GradeTexts(avg: Average)
    ensures Letter(GradeOf(avg)) == "\U{2013}" <==> avg.NoScore?
    ensures GradeLabel(GradeOf(avg)) == "No entries yet" <==> avg.NoScore?
    ensures Letter(GradeOf(avg)) == "A" <==> avg.Avg? && avg.value >= 4.2
    ensures Letter(GradeOf(avg)) == "B" <==> avg.Avg? && 3.4 <= avg.value < 4.2
    ensures Letter(GradeOf(avg)) == "C" <==> avg.Avg? && 2.6 <= avg.value < 3.4
    ensures Letter(GradeOf(avg)) == "D" <==> avg.NotANumber? || (avg.Avg? && avg.value < 2.6)
  {
    var g := GradeOf(avg);
    match g
    case Ungraded =>
    case A =>
    case B =>
    case C =>
    case D =>
  }

  function GradeRank(g: Grade): int {
    match g
    case Ungraded => -1
    case D => 0
    case C => 1
    case B => 2
    case A => 3
  }

  /** A higher average never earns a lower grade. */
  lemma GradeMonotone(x: real, y: real)
    requires x <= y
    ensures GradeRank(GradeOf(Avg(x))) <= GradeRank(GradeOf(Avg(y)))
  {
  }

  /** One logged day in the report, labelled by its day. */
  datatype DaySummary = DaySummary(day: int, score: real)

  datatype Metrics = Metrics(
    avgScore: Average,
    grade: Grade,
    daysLogged: nat,
    bestDay: Option<DaySummary>,
    toughDay: Option<DaySummary>,
    topTags: seq<string>,
    summary: string)

  function SummaryBase(g: Grade): string {
    match g
    case A => "This week was upbeat with consistent check-ins\U{2014}nice work keeping your energy aligned."
    case B => "You stayed mostly calm with a few fluctuations. Keep leaning on the habits that help."
    case C => "There was a blend of highs and lows. Even brief journaling helps spot those inflection points."
    case _ => "This week felt tougher. Treat yourself gently and celebrate any small wins you logged."
  }

  function SummaryText(g: Grade, daysLogged: nat): string {
    SummaryBase(g) + " You logged moods on " + NatStr(daysLogged)
      + " of 7 days. Even small, consistent check-ins build awareness."
  }

  /** The report for an empty list. */
  function NoEntriesMetrics(): Metrics {
    Metrics(NoScore, Ungraded, 0, None, None, [],
            "Add a few reflections to unlock your weekly report.")
  }

  /** `dayGroups` once every entry is seen: each logged day and its bucket. */
  function DayGroups(entries: seq<Entry>): map<int, seq<Entry>> {
    map d | d in DaySet(entries) :: DayEntries(entries, d)
  }

  /** Every day in `order` has a non-empty bucket. */
  predicate GroupsCover(order: seq<int>, groups: map<int, seq<Entry>>) {
    forall i :: 0 <= i < |order| ==> order[i] in groups && groups[order[i]] != []
  }

  lemma DayGroupsCover(entries: seq<Entry>)
    ensures GroupsCover(Dedup(ValidDays(entries)), DayGroups(entries))
  {
    var order := Dedup(ValidDays(entries));
    forall i | 0 <= i < |order|
      ensures order[i] in DayGroups(entries) && DayGroups(entries)[order[i]] != []
    {
      DayEntriesNonEmpty(entries, order[i]);
    }
  }

  /** The mean score of one logged day. */
  function DayMean(entries: seq<Entry>, d: int): real
    requires d in DaySet(entries)
  {
    DayEntriesNonEmpty(entries, d);
    Mean(Scores(DayEntries(entries, d)))
  }

  /** The day summaries in map order, before sorting. */
  function Summaries(order: seq<int>, groups: map<int, seq<Entry>>): (r: seq<DaySummary>)
    requires GroupsCover(order, groups)
    ensures |r| == |order|
    ensures forall i :: 0 <= i < |r| ==> r[i].day == order[i]
  {
    seq(|order|, i requires 0 <= i < |order| => DaySummary(order[i], Mean(Scores(groups[order[i]]))))
  }

  /** The comparator `(a, b) => b.score - a.score` as an ascending key. */
  function ScoreKey(s: DaySummary): real {
    -s.score
  }

  /** The comparator `(a, b) => b[1] - a[1]` on tag counts as an ascending
      key. */
  function CountKey(freq: map<string, nat>): string -> real {
    t => if t in freq then -(freq[t] as real) else 0.0
  }

  /** `topTags`: the table's keys in `Object.entries` order, stably sorted
      by descending count, the first six. */
  function TopTags(order: seq<string>, freq: map<string, nat>): (r: seq<string>)
    ensures |r| <= 6
  {
    Take(SortBy(OwnKeys(order), CountKey(freq)), 6)
  }

  /** The state the entry loop of `computeWeekMetrics` fills: the keys of
      `dayGroups` in insertion order and the map itself, the keys of
      `tagsFrequency` in creation order and the table itself, and
      `values`. */
  datatype Tally = Tally(
    dayOrder: seq<int>,
    dayGroups: map<int, seq<Entry>>,
    tagOrder: seq<string>,
    tagsFrequency: map<string, nat>,
    values: seq<int>)

  /** The state after the loop has seen `entries`. */
  function TallyOf(entries: seq<Entry>): (t: Tally)
    ensures GroupsCover(t.dayOrder, t.dayGroups)
  {
    var dated := DatedEntries(entries);
    DayGroupsCover(entries);
    Tally(Dedup(ValidDays(entries)), DayGroups(entries),
          Dedup(TagStream(dated)), CountTable(TagStream(dated)), Scores(dated))
  }

  /** `average(values)`, NaN for no values. */
  function AverageOf(values: seq<int>): (r: Average)
    ensures !r.NoScore?
  {
    if values == [] then NotANumber else Avg(Mean(values))
  }

  /** What `computeWeekMetrics` builds from the filled state. */
  function Assemble(t: Tally): Metrics
    requires GroupsCover(t.dayOrder, t.dayGroups)
  {
    var avg := AverageOf(t.values);
    var grade := GradeOf(avg);
    var (best, tough) := Ends(SortBy(Summaries(t.dayOrder, t.dayGroups), ScoreKey));
    Metrics(avg, grade, |t.dayOrder|, best, tough, TopTags(t.tagOrder, t.tagsFrequency),
            SummaryText(grade, |t.dayOrder|))
  }

  /** `bestDay` and `toughDay` from the ranked summaries: the head, and the
      tail when there are two or more (the head otherwise), so both are the
      ends of the ranking and absent only for an empty one. */
  function Ends(ranked: seq<DaySummary>): (r: (Option<DaySummary>, Option<DaySummary>))
    ensures ranked == [] ==> r == (None, None)
    ensures ranked != [] ==> r == (Some(ranked[0]), Some(ranked[|ranked| - 1]))
  {
    var best := if ranked == [] then None else Some(ranked[0]);
    var tough := if |ranked| > 1 then Some(ranked[|ranked| - 1]) else best;
    (best, tough)
  }

  /** The weekly report of a list of entries. */
  function WeekMetricsOf(entries: seq<Entry>): Metrics {
    if entries == [] then NoEntriesMetrics() else Assemble(TallyOf(entries))
  }

  lemma {:induction false} DayGroupsAppend(s: seq<Entry>, e: Entry)
    requires Dated(e)
    ensures DayGroups(s + [e])
            == DayGroups(s)[DayOf(e) := (if DayOf(e) in DayGroups(s) then DayGroups(s)[DayOf(e)] else []) + [e]]
  {
    var s' := s + [e];
    DaySetAppend(s, e);
    var a := DayGroups(s');
    var b := DayGroups(s)[DayOf(e) := (if DayOf(e) in DayGroups(s) then DayGroups(s)[DayOf(e)] else []) + [e]];
    assert a.Keys == b.Keys;
    forall d | d in a
      ensures a[d] == b[d]
    {
      DayEntriesAppend(s, e, d);
      if d == DayOf(e) && d !in DaySet(s) {
        DayEntriesNonEmpty(s, d);
      }
    }
  }

  lemma DayEntriesAppend(s: seq<Entry>, e: Entry, d: int)
    ensures DayEntries(s + [e], d) == DayEntries(s, d) + (if Dated(e) && DayOf(e) == d then [e] else [])
  {
    assert (s + [e])[..|s|] == s;
  }

  lemma {:induction false} DayGroupsSkip(s: seq<Entry>, e: Entry)
    requires !Dated(e)
    ensures DayGroups(s + [e]) == DayGroups(s)
  {
    var s' := s + [e];
    assert s'[..|s|] == s;
    assert DaySet(s') == DaySet(s);
  }

  lemma {:induction false} TagStreamAppend(s: seq<Entry>, e: Entry)
    ensures TagStream(s + [e]) == TagStream(s) + NonEmptyTags(e.tags)
  {
    assert (s + [e])[..|s|] == s;
  }

  /** The inner `entry.tags?.forEach`: counts the entry's non-empty tags
      into the table and records the keys it creates. */
  method CountTags(order: seq<string>, freq: map<string, nat>, ghost seen: seq<string>, tags: seq<string>)
    returns (order': seq<string>, freq': map<string, nat>)
    requires order == Dedup(seen) && freq == CountTable(seen)
    ensures order' == Dedup(seen + NonEmptyTags(tags))
    ensures freq' == CountTable(seen + NonEmptyTags(tags))
  {
    order', freq' := order, freq;
    var j := 0;
    assert tags[..0] == [];
    assert seen + NonEmptyTags(tags[..0]) == seen;
    while j < |tags|
      invariant j <= |tags|
      invariant order' == Dedup(seen + NonEmptyTags(tags[..j]))
      invariant freq' == CountTable(seen + NonEmptyTags(tags[..j]))
    {
      var tag := tags[j];
      ghost var before := seen + NonEmptyTags(tags[..j]);
      ghost var after := seen + NonEmptyTags(tags[..j + 1]);
      NonEmptyTagsStep(seen, tags, j);
      if tag != "" {
        assert after == before + [tag];
        order', freq' := CountOne(order', freq', before, tag);
      } else {
        assert after == before;
      }
      j := j + 1;
    }
    assert tags[..j] == tags;
  }

  lemma NonEmptyTagsStep(seen: seq<string>, tags: seq<string>, j: nat)
    requires j < |tags|
    ensures seen + NonEmptyTags(tags[..j + 1])
            == seen + NonEmptyTags(tags[..j]) + (if tags[j] != "" then [tags[j]] else [])
  {
    assert tags[..j + 1][..j] == tags[..j];
  }

  /** Files one entry under its day key, `map.get(iso).push(entry)`,
      creating the bucket and the key on first sight; an entry whose date
      does not parse is skipped. */
  method GroupEntry(dayOrder: seq<int>, dayGroups: map<int, seq<Entry>>, ghost seen: seq<Entry>, entry: Entry)
    returns (dayOrder': seq<int>, dayGroups': map<int, seq<Entry>>)
    requires dayOrder == Dedup(ValidDays(seen)) && dayGroups == DayGroups(seen)
    ensures dayOrder' == Dedup(ValidDays(seen + [entry])) && dayGroups' == DayGroups(seen + [entry])
  {
    ghost var seen' := seen + [entry];
    assert seen'[..|seen|] == seen;
    if !Dated(entry) {
      assert ValidDays(seen') == ValidDays(seen);
      DayGroupsSkip(seen, entry);
      return dayOrder, dayGroups;
    }
    var day := DayOf(entry);
    assert ValidDays(seen') == ValidDays(seen) + [day];
    DedupAppend(ValidDays(seen), day);
    DayGroupsAppend(seen, entry);
    assert day in dayGroups <==> day in dayOrder;
    var bucket: seq<Entry> := [];
    dayOrder' := dayOrder;
    if day in dayGroups {
      bucket := dayGroups[day];
    } else {
      dayOrder' := dayOrder + [day];
    }
    dayGroups' := dayGroups[day := bucket + [entry]];
  }

  /** One turn of the entry loop: an entry whose date parses joins its
      day's bucket, adds its score and counts its tags; any other entry
      changes nothing. */
  method AddEntry(t: Tally, ghost seen: seq<Entry>, entry: Entry) returns (t': Tally)
    requires t == TallyOf(seen)
    ensures t' == TallyOf(seen + [entry])
  {
    ghost var seen' := seen + [entry];
    assert seen'[..|seen|] == seen;
    var dayOrder, dayGroups := GroupEntry(t.dayOrder, t.dayGroups, seen, entry);
    if !Dated(entry) {
      assert DatedEntries(seen') == DatedEntries(seen);
      return Tally(dayOrder, dayGroups, t.tagOrder, t.tagsFrequency, t.values);
    }
    ghost var dated := DatedEntries(seen);
    assert DatedEntries(seen') == dated + [entry];
    assert Scores(dated + [entry]) == Scores(dated) + [EntryScore(entry.mood)] by {
      assert (dated + [entry])[..|dated|] == dated;
    }
    TagStreamAppend(dated, entry);
    var tagOrder, tagsFrequency := CountTags(t.tagOrder, t.tagsFrequency, TagStream(dated), entry.tags);
    t' := Tally(dayOrder, dayGroups, tagOrder, tagsFrequency, t.values + [EntryScore(entry.mood)]);
    assert t'.tagOrder == TallyOf(seen').tagOrder;
    assert t'.values == TallyOf(seen').values;
  }

  /** The `entries.forEach` loop of `computeWeekMetrics`. */
  method TallyEntries(entries: seq<Entry>) returns (tally: Tally)
    ensures tally == TallyOf(entries)
  {
    tally := Tally([], map[], [], map[], []);
    var i := 0;
    assert entries[..0] == [];
    assert tally == TallyOf([]);
    while i < |entries|
      invariant i <= |entries|
      invariant tally == TallyOf(entries[..i])
    {
      PrefixStep(entries, i);
      tally := AddEntry(tally, entries[..i], entries[i]);
      i := i + 1;
    }
    assert entries[..i] == entries;
  }

  /** `computeWeekMetrics`: one pass over the entries fills the state, and
      the report is read off it. */
  method ComputeWeekMetrics(entries: seq<Entry>) returns (m: Metrics)
    ensures m == WeekMetricsOf(entries)
    ensures entries == [] ==> m.avgScore == NoScore && m.grade == Ungraded && m.daysLogged == 0
                              && m.bestDay == None && m.toughDay == None && m.topTags == []
  {
    if |entries| == 0 {
      return NoEntriesMetrics();
    }
    var tally := TallyEntries(entries);
    m := Assemble(tally);
  }

  /** `countDistinctEntryDays`: the number of different days the entries
      fall on. */
  method CountDistinctEntryDays(entries: seq<Entry>) returns (r: nat)
    ensures r == |DaySet(entries)|
  {
    if |entries| == 0 {
      return 0;
    }
    var daySet: set<int> := {};
    var i := 0;
    assert entries[..0] == [];
    while i < |entries|
      invariant i <= |entries|
      invariant daySet == DaySet(entries[..i])
    {
      var entry := entries[i];
      PrefixStep(entries, i);
      DaySetAppend(entries[..i], entry);
      if Dated(entry) {
        daySet := daySet + {DayOf(entry)};
      }
      i := i + 1;
    }
    assert entries[..i] == entries;
    r := |daySet|;
  }
}
