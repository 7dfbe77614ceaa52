/** The mood vocabulary and its score table (client/src/utils/weekInsights.ts,
    lines 27-38).  The ten labels are the ones the server accepts
    (server/models/Entry.js, line 19): five from the original scale and five
    from the newer upper-case scale. */
module Moods {
  import opened Prelude

  datatype Mood =
    | Happy | Calm | Neutral | Sad | Stressed
    | VeryGood | Good | NeutralUpper | Bad | VeryBad

  function Label(m: Mood): string {
    match m
    case Happy => "happy"
    case Calm => "calm"
    case Neutral => "neutral"
    case Sad => "sad"
    case Stressed => "stressed"
    case VeryGood => "VERY_GOOD"
    case Good => "GOOD"
    case NeutralUpper => "NEUTRAL"
    case Bad => "BAD"
    case VeryBad => "VERY_BAD"
  }

  /** The labels the source keys `moodCounts` by are different for
      different moods, so counting by mood is counting by label. */
  lemma LabelInjective(a: Mood, b: Mood)
    requires Label(a) == Label(b)
    ensures a == b
  {
  }

  /** `moodScoreMap`: both scales run from 5 (best) down to 1. */
  function Score(m: Mood): (r: int)
    ensures 1 <= r <= 5
    ensures r == 5 <==> m == Happy || m == VeryGood
    ensures r == 1 <==> m == Stressed || m == VeryBad
  {
    match m
    case Happy => 5
    case Calm => 4
    case Neutral => 3
    case Sad => 2
    case Stressed => 1
    case VeryGood => 5
    case Good => 4
    case NeutralUpper => 3
    case Bad => 2
    case VeryBad => 1
  }

  /** `moodScoreMap[entry.mood] ?? 3`: an entry without a mood scores 3. */
  function EntryScore(m: Option<Mood>): (r: int)
    ensures 1 <= r <= 5
    ensures m.None? ==> r == 3
    ensures m.Some? ==> r == Score(m.value)
  {
    match m
    case None => 3
    case Some(mood) => Score(mood)
  }

  /** `entry.mood ?? 'neutral'`: the label under which the pattern summary
      counts an entry. */
  function MoodKey(m: Option<Mood>): (r: Mood)
    ensures m.Some? ==> r == m.value
  {
    match m
    case None => Neutral
    case Some(mood) => mood
  }

  /** Counting a missing mood as 'neutral' gives it the same score as the
      fallback 3. */
  lemma MoodKeyScore(m: Option<Mood>)
    ensures Score(MoodKey(m)) == EntryScore(m)
  {
  }

  /** Position of a label in `String.prototype.localeCompare` order (the
      Unicode collation's default ordering as used by English locales:
      letters compare case-blind first, and a lower-case label precedes
      its upper-case twin):
      BAD < calm < GOOD < happy < neutral < NEUTRAL < sad < stressed
      < VERY_BAD < VERY_GOOD. */
  function LocaleRank(m: Mood): (r: nat)
    ensures r < 10
  {
    match m
    case Bad => 0
    case Calm => 1
    case Good => 2
    case Happy => 3
    case Neutral => 4
    case NeutralUpper => 5
    case Sad => 6
    case Stressed => 7
    case VeryBad => 8
    case VeryGood => 9
  }

  /** `localeCompare` never reports two different labels as equal, so the
      tie-break is a total order. */
  lemma LocaleRankInjective(a: Mood, b: Mood)
    requires LocaleRank(a) == LocaleRank(b)
    ensures a == b
  {
  }

  /** The arithmetic mean of a non-empty list of scores, exactly. */
  function Mean(s: seq<int>): (r: real)
    requires s != []
  {
    Sum(s) as real / |s| as real
  }

  lemma {:induction false} SumBounds(s: seq<int>, lo: int, hi: int)
    requires forall i :: 0 <= i < |s| ==> lo <= s[i] <= hi
    ensures lo * |s| <= Sum(s) <= hi * |s|
  {
    if s != [] {
      SumBounds(s[..|s| - 1], lo, hi);
    }
  }

  lemma QuotientBounds(x: real, n: real, lo: real, hi: real)
    requires n > 0.0 && lo * n <= x <= hi * n
    ensures lo <= x / n <= hi
  {
    var q := x / n;
    assert q * n == x;
  }

  /** The mean of scores lies within their range. */
  lemma MeanBounds(s: seq<int>)
    requires s != []
    requires forall i :: 0 <= i < |s| ==> 1 <= s[i] <= 5
    ensures 1.0 <= Mean(s) <= 5.0
  {
    SumBounds(s, 1, 5);
    QuotientBounds(Sum(s) as real, |s| as real, 1.0, 5.0);
  }
}
