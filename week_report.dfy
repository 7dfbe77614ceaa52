/** What the weekly report says about the entries it is given: the average
    and grade, the number of logged days, the best and toughest day, and
    the top tags (client/src/utils/weekInsights.ts, lines 80-171). */
module WeekReport {
  import opened Prelude
  import opened Moods
  import opened Entries
  import opened Sorting
  import opened ObjectKeys
  import opened WeekMetrics

  /** The logged days in the order their first entry appears: the key
      order of `dayGroups`. */
  function LoggedDays(entries: seq<Entry>): (r: seq<int>)
    ensures forall d :: d in r <==> d in DaySet(entries)
  {
    Dedup(ValidDays(entries))
  }

  /** The report's average is null for no entries and otherwise the
      average of the dated entries' scores; the grade follows it. */
  lemma ReportAverage(entries: seq<Entry>)
    ensures var m := WeekMetricsOf(entries);
            m.avgScore == (if entries == [] then NoScore else AverageOf(DatedScores(entries)))
            && m.grade == GradeOf(m.avgScore)
  {
    if entries != [] {
      assert TallyOf(entries).values == DatedScores(entries);
    }
  }

  /** The report reads the dash and "No entries yet" exactly when there
      are no entries; otherwise its letter and label are those of the
      grade of its average (`GradeTexts`). */
  lemma ReportGradeTexts(entries: seq<Entry>)
    ensures var m := WeekMetricsOf(entries);
            (Letter(m.grade) == "\U{2013}" <==> entries == [])
            && (GradeLabel(m.grade) == "No entries yet" <==> entries == [])
  {
    ReportAverage(entries);
    if entries == [] {
      GradeTexts(NoScore);
    } else {
      GradeTexts(AverageOf(DatedScores(entries)));
    }
  }

  /** The average of the dated scores is NaN exactly when no entry's date
      parses, and otherwise their exact mean, which lies between 1 and 5. */
  lemma AverageOfWeek(entries: seq<Entry>)
    ensures var a := AverageOf(DatedScores(entries));
            (a.NotANumber? <==> DaySet(entries) == {})
            && (DaySet(entries) != {} ==> a == Avg(Mean(DatedScores(entries))) && 1.0 <= a.value <= 5.0)
  {
    DatedScoresEmpty(entries);
    if DaySet(entries) != {} {
      ScoresInRange(DatedEntries(entries));
      MeanBounds(DatedScores(entries));
    }
  }

  /** A non-empty list whose dates all parse never averages to NaN. */
  lemma AllDatedAverage(entries: seq<Entry>)
    requires entries != []
    requires forall i :: 0 <= i < |entries| ==> Dated(entries[i])
    ensures WeekMetricsOf(entries).avgScore.Avg?
  {
    assert DayOf(entries[0]) in DaySet(entries);
    ReportAverage(entries);
    AverageOfWeek(entries);
  }

  /** `daysLogged` is the number of different days the entries fall on,
      the same number `countDistinctEntryDays` returns. */
  lemma DaysLogged(entries: seq<Entry>)
    ensures WeekMetricsOf(entries).daysLogged == |DaySet(entries)|
  {
    var order := LoggedDays(entries);
    DedupDistinct(ValidDays(entries));
    DistinctCardinality(order);
    assert (set d | d in order) == DaySet(entries);
  }

  /** Each logged day with its mean score, in logging order. */
  function DaySummaries(entries: seq<Entry>): (s: seq<DaySummary>)
    ensures |s| == |LoggedDays(entries)|
    ensures forall i :: 0 <= i < |s| ==> s[i].day == LoggedDays(entries)[i]
    ensures forall i :: 0 <= i < |s| ==> s[i].score == DayMean(entries, LoggedDays(entries)[i])
  {
    var order := LoggedDays(entries);
    seq(|order|, i requires 0 <= i < |order| => DaySummary(order[i], DayMean(entries, order[i])))
  }

  /** The summaries the report builds from its filled state are the logged
      days with their means. */
  lemma SummariesAreDayMeans(entries: seq<Entry>)
    ensures var t := TallyOf(entries);
            Summaries(t.dayOrder, t.dayGroups) == DaySummaries(entries)
  {
  }

  /** The head of the day summaries ranked by descending score has the
      highest score, the tail the lowest. */
  lemma RankedExtremes(s: seq<DaySummary>)
    requires s != []
    ensures var r := SortBy(s, ScoreKey);
            forall i :: 0 <= i < |s| ==> r[|r| - 1].score <= s[i].score <= r[0].score
  {
    var r := SortBy(s, ScoreKey);
    SortHead(s, ScoreKey);
    SortLast(s, ScoreKey);
    forall i | 0 <= i < |s|
      ensures r[|r| - 1].score <= s[i].score <= r[0].score
    {
      assert s[i] in s;
    }
  }

  /** The head of the ranking comes first among the summaries with the
      highest score. */
  lemma RankedHead(s: seq<DaySummary>, best: DaySummary) returns (ib: int)
    requires s != [] && best == SortBy(s, ScoreKey)[0]
    ensures 0 <= ib < |s| && s[ib] == best
    ensures forall j :: 0 <= j < ib ==> s[j].score < best.score
  {
    SortHead(s, ScoreKey);
    ib :| 0 <= ib < |s| && s[ib] == best
          && forall j :: 0 <= j < ib ==> ScoreKey(s[j]) > ScoreKey(best);
    forall j | 0 <= j < ib
      ensures s[j].score < best.score
    {
      assert ScoreKey(s[j]) > ScoreKey(best);
    }
  }

  /** The tail of the ranking comes last among the summaries with the
      lowest score. */
  lemma RankedTail(s: seq<DaySummary>, last: DaySummary) returns (it: int)
    requires s != [] && last == SortBy(s, ScoreKey)[|s| - 1]
    ensures 0 <= it < |s| && s[it] == last
    ensures forall j :: it < j < |s| ==> s[j].score > last.score
  {
    SortLast(s, ScoreKey);
    it :| 0 <= it < |s| && s[it] == last
          && forall j :: it < j < |s| ==> ScoreKey(s[j]) < ScoreKey(last);
    forall j | it < j < |s|
      ensures s[j].score > last.score
    {
      assert ScoreKey(s[j]) < ScoreKey(last);
    }
  }

  /** Of two or more distinct summaries, the ranking's ends differ. */
  lemma RankedEndsDiffer(s: seq<DaySummary>)
    requires Distinct(s) && |s| > 1
    ensures var r := SortBy(s, ScoreKey);
            r[0] != r[|r| - 1]
  {
    DistinctPermutation(s, SortBy(s, ScoreKey));
  }

  /** The day summaries are as distinct as the logged days. */
  lemma SummariesDistinct(entries: seq<Entry>)
    ensures Distinct(DaySummaries(entries))
  {
    var s := DaySummaries(entries);
    DedupDistinct(ValidDays(entries));
    forall i, j | 0 <= i < j < |s|
      ensures s[i] != s[j]
    {
      assert s[i].day == LoggedDays(entries)[i];
    }
  }

  /** `daySummaries`: the day summaries ranked by descending score. */
  function Ranked(entries: seq<Entry>): (r: seq<DaySummary>)
    ensures |r| == |LoggedDays(entries)|
  {
    SortBy(DaySummaries(entries), ScoreKey)
  }

  /** The report's two days are the two ends of the ranking. */
  lemma ReportEnds(entries: seq<Entry>)
    requires entries != []
    ensures var m, r := WeekMetricsOf(entries), Ranked(entries);
            (r == [] ==> m.bestDay == None && m.toughDay == None)
            && (r != [] ==> m.bestDay == Some(r[0]) && m.toughDay == Some(r[|r| - 1]))
  {
    SummariesAreDayMeans(entries);
  }

  /** Every ranked summary is a logged day with its mean. */
  lemma RankedMembers(entries: seq<Entry>)
    ensures var r := Ranked(entries);
            forall i :: 0 <= i < |r| ==> r[i].day in DaySet(entries) && r[i].score == DayMean(entries, r[i].day)
  {
    var s := DaySummaries(entries);
    var r := Ranked(entries);
    forall i | 0 <= i < |r|
      ensures r[i].day in DaySet(entries) && r[i].score == DayMean(entries, r[i].day)
    {
      assert r[i] in multiset(s);
    }
  }

  /** The ends of the ranking bound every logged day's mean. */
  lemma RankedBounds(entries: seq<Entry>)
    requires DaySet(entries) != {}
    ensures var r := Ranked(entries);
            r != []
            && (forall d :: d in DaySet(entries) ==> r[|r| - 1].score <= DayMean(entries, d) <= r[0].score)
            && (|r| > 1 ==> r[0] != r[|r| - 1])
  {
    RankedNonEmpty(entries);
    RankedMeanBounds(entries);
    if |Ranked(entries)| > 1 {
      RankedEndsDistinct(entries);
    }
  }

  lemma RankedNonEmpty(entries: seq<Entry>)
    requires DaySet(entries) != {}
    ensures Ranked(entries) != []
  {
    var d :| d in DaySet(entries);
    assert d in LoggedDays(entries);
  }

  lemma RankedMeanBounds(entries: seq<Entry>)
    requires Ranked(entries) != []
    ensures var r := Ranked(entries);
            forall d :: d in DaySet(entries) ==> r[|r| - 1].score <= DayMean(entries, d) <= r[0].score
  {
    var r := Ranked(entries);
    RankedExtremes(DaySummaries(entries));
    MeansBetween(entries, r[|r| - 1].score, r[0].score);
  }

  lemma RankedEndsDistinct(entries: seq<Entry>)
    requires |Ranked(entries)| > 1
    ensures var r := Ranked(entries);
            r[0] != r[|r| - 1]
  {
    SummariesDistinct(entries);
    RankedEndsDiffer(DaySummaries(entries));
  }

  /** Bounds on the summaries' scores are bounds on every logged day's mean. */
  lemma MeansBetween(entries: seq<Entry>, lo: real, hi: real)
    requires forall i :: 0 <= i < |DaySummaries(entries)| ==> lo <= DaySummaries(entries)[i].score <= hi
    ensures forall d :: d in DaySet(entries) ==> lo <= DayMean(entries, d) <= hi
  {
    var s, order := DaySummaries(entries), LoggedDays(entries);
    forall d | d in DaySet(entries)
      ensures lo <= DayMean(entries, d) <= hi
    {
      assert d in order;
      var i :| 0 <= i < |order| && order[i] == d;
      assert lo <= s[i].score <= hi;
    }
  }

  /** The head of the ranking is the first logged day with its mean: the
      days logged before it have lower means. */
  lemma RankedFirst(entries: seq<Entry>, s: seq<DaySummary>, order: seq<int>, r: seq<DaySummary>) returns (i: int)
    requires s == DaySummaries(entries) && order == LoggedDays(entries)
    requires r == SortBy(s, ScoreKey) && r != []
    ensures 0 <= i < |order| && order[i] == r[0].day
    ensures forall j :: 0 <= j < i ==> DayMean(entries, order[j]) < r[0].score
  {
    i := RankedHead(s, r[0]);
    forall j | 0 <= j < i
      ensures DayMean(entries, order[j]) < r[0].score
    {
      assert s[j].score < r[0].score;
    }
  }

  /** The tail of the ranking is the last logged day with its mean: the
      days logged after it have higher means. */
  lemma RankedLast(entries: seq<Entry>, s: seq<DaySummary>, order: seq<int>, r: seq<DaySummary>) returns (i: int)
    requires s == DaySummaries(entries) && order == LoggedDays(entries)
    requires r == SortBy(s, ScoreKey) && r != []
    ensures 0 <= i < |order| && order[i] == r[|r| - 1].day
    ensures forall j :: i < j < |order| ==> DayMean(entries, order[j]) > r[|r| - 1].score
  {
    i := RankedTail(s, r[|r| - 1]);
    forall j | i < j < |order|
      ensures DayMean(entries, order[j]) > r[|r| - 1].score
    {
      assert s[j].score > r[|r| - 1].score;
    }
  }

  /** The best and the toughest day: absent exactly when no date parses;
      otherwise logged days whose mean bounds every logged day's mean from
      above and from below.  Ties go to the day logged first (best) and
      the day logged last (toughest), and with a single logged day the
      two coincide. */
  lemma {:induction false} BestAndToughDays(entries: seq<Entry>, m: Metrics)
    requires m == WeekMetricsOf(entries)
    ensures m.bestDay.None? <==> DaySet(entries) == {}
    ensures m.toughDay.None? <==> DaySet(entries) == {}
    ensures m.bestDay.Some? && m.toughDay.Some? ==> DayEnds(entries, m.bestDay.value, m.toughDay.value)
  {
    var r := Ranked(entries);
    RankedCount(entries);
    if entries == [] {
      assert m.bestDay == None && m.toughDay == None;
    } else {
      ReportEnds(entries);
    }
    if r != [] {
      RankedEnds(entries, r);
    }
  }

  /** `best` and `tough` are the best and the toughest logged day: see
      `DayBounds` and `DayTies`. */
  predicate DayEnds(entries: seq<Entry>, best: DaySummary, tough: DaySummary) {
    DayBounds(entries, best, tough) && DayTies(entries, best, tough)
  }

  /** `best` and `tough` are logged days carrying their means, their means
      bound every logged day's mean from above and from below, and the two
      coincide exactly when a single day is logged. */
  predicate DayBounds(entries: seq<Entry>, best: DaySummary, tough: DaySummary) {
    best.day in DaySet(entries) && best.score == DayMean(entries, best.day)
    && tough.day in DaySet(entries) && tough.score == DayMean(entries, tough.day)
    && (forall d :: d in DaySet(entries) ==> tough.score <= DayMean(entries, d) <= best.score)
    && (|DaySet(entries)| == 1 <==> best == tough)
  }

  /** Ties go to the day logged first (best) and to the day logged last
      (toughest). */
  predicate DayTies(entries: seq<Entry>, best: DaySummary, tough: DaySummary) {
    var order := LoggedDays(entries);
    (exists i :: 0 <= i < |order| && order[i] == best.day
                 && forall j :: 0 <= j < i ==> DayMean(entries, order[j]) < best.score)
    && (exists i :: 0 <= i < |order| && order[i] == tough.day
                    && forall j :: i < j < |order| ==> DayMean(entries, order[j]) > tough.score)
  }

  /** The two ends of a non-empty ranking are the best and the toughest
      day. */
  lemma RankedEnds(entries: seq<Entry>, r: seq<DaySummary>)
    requires r == Ranked(entries) && DaySet(entries) != {}
    ensures r != [] && DayEnds(entries, r[0], r[|r| - 1])
  {
    RankedEndBounds(entries, r);
    RankedEndTies(entries, r);
  }

  /** Ties at the two ends of a non-empty ranking go to the day logged
      first and to the day logged last. */
  lemma RankedEndTies(entries: seq<Entry>, r: seq<DaySummary>)
    requires r == Ranked(entries) && r != []
    ensures DayTies(entries, r[0], r[|r| - 1])
  {
    var s, order := DaySummaries(entries), LoggedDays(entries);
    assert r == SortBy(s, ScoreKey);
    var ib := RankedFirst(entries, s, order, r);
    var it := RankedLast(entries, s, order, r);
  }

  /** The two ends of a non-empty ranking bound every logged day's mean. */
  lemma RankedEndBounds(entries: seq<Entry>, r: seq<DaySummary>)
    requires r == Ranked(entries) && DaySet(entries) != {}
    ensures r != [] && DayBounds(entries, r[0], r[|r| - 1])
  {
    RankedBounds(entries);
    var best, tough := r[0], r[|r| - 1];
    assert |DaySet(entries)| == 1 <==> best == tough by {
      RankedCount(entries);
    }
    RankedMembers(entries);
    assert best.day in DaySet(entries) && best.score == DayMean(entries, best.day);
    assert tough.day in DaySet(entries) && tough.score == DayMean(entries, tough.day);
  }

  /** The ranking has one summary per logged day. */
  lemma RankedCount(entries: seq<Entry>)
    ensures |Ranked(entries)| == |DaySet(entries)|
  {
    var order := LoggedDays(entries);
    DedupDistinct(ValidDays(entries));
    DistinctCardinality(order);
    assert (set d | d in order) == DaySet(entries);
  }

  /** The tags of the dated entries, each once, in the order the report's
      table creates them. */
  function TagOrder(entries: seq<Entry>): seq<string> {
    Dedup(TagStream(DatedEntries(entries)))
  }

  /** The descending-count comparator on the report's tag table. */
  function TagKey(entries: seq<Entry>): string -> real {
    CountKey(CountTable(TagStream(DatedEntries(entries))))
  }

  /** Every tag of the table ranked by descending count, before the cut to
      six. */
  function TagRanking(entries: seq<Entry>): (r: seq<string>)
    ensures multiset(r) == multiset(TagOrder(entries))
  {
    OwnKeysOrder(TagOrder(entries));
    SortBy(OwnKeys(TagOrder(entries)), TagKey(entries))
  }

  /** A tag's ranking key is its count, negated. */
  lemma TagKeyCount(entries: seq<Entry>, t: string)
    requires t in TagStream(DatedEntries(entries))
    ensures TagKey(entries)(t) == -(TagCount(DatedEntries(entries), t) as real)
  {
    CountTableCounts(TagStream(DatedEntries(entries)), t);
  }

  /** `topTags` holds six different tags, or all of them when there are
      fewer, and each is a non-empty tag of a dated entry. */
  lemma TopTagsChosen(entries: seq<Entry>)
    ensures var top := Take(TagRanking(entries), 6);
            var tags := set t | t in TagStream(DatedEntries(entries));
            |top| == (if |tags| < 6 then |tags| else 6)
            && Distinct(top)
            && (forall t :: t in top ==> t != "" && TagCount(DatedEntries(entries), t) > 0)
  {
    TopTagsLength(entries);
    RankingTagsOccur(entries);
    forall t | t in Take(TagRanking(entries), 6)
      ensures t != "" && TagCount(DatedEntries(entries), t) > 0
    {
      TagCountPositive(DatedEntries(entries), t);
    }
  }

  /** The ranking holds every tag once, so its first six are six different
      tags, or all of them. */
  lemma TopTagsLength(entries: seq<Entry>)
    ensures var top := Take(TagRanking(entries), 6);
            var tags := set t | t in TagStream(DatedEntries(entries));
            |top| == (if |tags| < 6 then |tags| else 6) && Distinct(top)
  {
    var order := TagOrder(entries);
    var ranked := TagRanking(entries);
    DedupDistinct(TagStream(DatedEntries(entries)));
    DistinctPermutation(order, ranked);
    DistinctPrefix(ranked, |Take(ranked, 6)|);
    DistinctCardinality(order);
    assert (set t | t in order) == set t | t in TagStream(DatedEntries(entries));
  }

  /** The ranking's tags all occur among the dated entries' tags. */
  lemma RankingTagsOccur(entries: seq<Entry>)
    ensures forall t :: t in TagRanking(entries) ==> t in TagStream(DatedEntries(entries))
  {
    forall t | t in TagRanking(entries)
      ensures t in TagStream(DatedEntries(entries))
    {
      assert t in multiset(TagRanking(entries));
      assert t in multiset(TagOrder(entries));
    }
  }

  /** `topTags` runs from the most frequent tag down. */
  lemma {:induction false} TopTagsDescending(entries: seq<Entry>)
    ensures var top, dated := Take(TagRanking(entries), 6), DatedEntries(entries);
            forall i, j :: 0 <= i < j < |top| ==> TagCount(dated, top[i]) >= TagCount(dated, top[j])
  {
    var ranked := TagRanking(entries);
    var top := Take(ranked, 6);
    SortSorted(OwnKeys(TagOrder(entries)), TagKey(entries));
    RankingTagsOccur(entries);
    forall i, j | 0 <= i < j < |top|
      ensures TagCount(DatedEntries(entries), top[i]) >= TagCount(DatedEntries(entries), top[j])
    {
      assert ranked[i] in ranked && ranked[j] in ranked;
      TagKeyCount(entries, top[i]);
      TagKeyCount(entries, top[j]);
    }
  }

  /** No tag left out of `topTags` is more frequent than one it keeps. */
  lemma {:induction false} TopTagsOmitted(entries: seq<Entry>)
    ensures var top, dated := Take(TagRanking(entries), 6), DatedEntries(entries);
            forall t, u :: t in top && TagCount(dated, u) > 0 && u !in top ==> TagCount(dated, t) >= TagCount(dated, u)
  {
    var dated := DatedEntries(entries);
    var top := Take(TagRanking(entries), 6);
    forall t, u | t in top && TagCount(dated, u) > 0 && u !in top
      ensures TagCount(dated, t) >= TagCount(dated, u)
    {
      KeptAtLeastOmitted(entries, t, u);
    }
  }

  /** One kept tag against one omitted tag. */
  lemma KeptAtLeastOmitted(entries: seq<Entry>, t: string, u: string)
    requires t in Take(TagRanking(entries), 6)
    requires TagCount(DatedEntries(entries), u) > 0 && u !in Take(TagRanking(entries), 6)
    ensures TagCount(DatedEntries(entries), t) >= TagCount(DatedEntries(entries), u)
  {
    var ranked, key := TagRanking(entries), TagKey(entries);
    var i, j := KeptBeforeOmitted(entries, t, u);
    assert key(t) <= key(u) by {
      SortSorted(OwnKeys(TagOrder(entries)), key);
      assert key(ranked[i]) <= key(ranked[j]);
    }
    RankingTagsOccur(entries);
    TagKeyCount(entries, t);
    TagKeyCount(entries, u);
  }

  /** A kept tag stands before an omitted one in the ranking. */
  lemma KeptBeforeOmitted(entries: seq<Entry>, t: string, u: string) returns (i: int, j: int)
    requires t in Take(TagRanking(entries), 6)
    requires TagCount(DatedEntries(entries), u) > 0 && u !in Take(TagRanking(entries), 6)
    ensures 0 <= i < j < |TagRanking(entries)|
    ensures TagRanking(entries)[i] == t && TagRanking(entries)[j] == u
  {
    var dated, ranked := DatedEntries(entries), TagRanking(entries);
    assert u in ranked by {
      TagCountPositive(dated, u);
      assert u in TagOrder(entries);
      assert u in multiset(ranked);
    }
    i, j := KeptBeforeDropped(ranked, 6, t, u);
  }

  /** In a sequence cut to its first `n` elements, a kept element stands
      before a dropped one. */
  lemma KeptBeforeDropped<T>(s: seq<T>, n: nat, t: T, u: T) returns (i: int, j: int)
    requires t in Take(s, n) && u in s && u !in Take(s, n)
    ensures 0 <= i < j < |s| && s[i] == t && s[j] == u
  {
    var top := Take(s, n);
    j :| 0 <= j < |s| && s[j] == u;
    i :| 0 <= i < |top| && top[i] == t;
    assert forall k :: 0 <= k < |top| ==> s[k] == top[k] != u;
  }

  /** Tags of equal count keep the order `Object.entries` lists them in. */
  lemma {:induction false} TopTagsTies(entries: seq<Entry>)
    ensures var top, key := Take(TagRanking(entries), 6), TagKey(entries);
            forall k :: WithKey(top, key, k) <= WithKey(OwnKeys(TagOrder(entries)), key, k)
  {
    var key := TagKey(entries);
    var keys := OwnKeys(TagOrder(entries));
    var ranked := TagRanking(entries);
    forall k
      ensures WithKey(Take(ranked, 6), key, k) <= WithKey(keys, key, k)
    {
      WithKeyPrefix(ranked, |Take(ranked, 6)|, key, k);
      SortStable(keys, key, k);
    }
  }
}
