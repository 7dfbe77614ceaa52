/** Day normalisation, the `YYYY-MM-DD` day key and the Sunday-to-Saturday
    week bounds (client/src/utils/weekInsights.ts, lines 43-78). */
module DayKeys {
  import opened Prelude
  import opened Text
  import opened Gregorian

  const MsPerDay: int := 86400000
  const MsPerHour: int := 3600000

  /** A parsed timestamp as the local calendar sees it: the local day and
      the milliseconds elapsed since that day's local midnight. */
  datatype Stamp = Stamp(day: int, ms: int)

  predicate ValidStamp(s: Stamp) {
    0 <= s.ms < MsPerDay
  }

  /** `getHours()`. */
  function Hour(s: Stamp): (h: int)
    requires ValidStamp(s)
    ensures 0 <= h < 24
  {
    s.ms / MsPerHour
  }

  /** `getTime()` up to the fixed offset of the local time zone. */
  function Time(s: Stamp): int {
    s.day * MsPerDay + s.ms
  }

  /** Later stamps have larger times. */
  lemma TimeOrder(a: Stamp, b: Stamp)
    requires ValidStamp(a) && ValidStamp(b)
    ensures Time(a) < Time(b) <==> a.day < b.day || (a.day == b.day && a.ms < b.ms)
  {
    if a.day < b.day {
      assert Time(a) < (a.day + 1) * MsPerDay <= Time(b);
    } else if a.day > b.day {
      assert Time(b) < (b.day + 1) * MsPerDay <= Time(a);
    }
  }

  /** `toStartOfDay`: `None` for an input that does not parse, otherwise
      the same local day at midnight. */
  function ToStartOfDay(t: Option<Stamp>): (r: Option<Stamp>)
    ensures r.None? <==> t.None?
    ensures r.Some? ==> r.value.day == t.value.day && r.value.ms == 0 && ValidStamp(r.value)
  {
    match t
    case None => None
    case Some(s) => Some(Stamp(s.day, 0))
  }

  lemma ToStartOfDayIdempotent(t: Option<Stamp>)
    ensures ToStartOfDay(ToStartOfDay(t)) == ToStartOfDay(t)
  {
  }

  /** The key of a date: year as `String(year)`, month and day padded to
      two digits, joined by hyphens. */
  function DateKey(d: Date): (r: string)
    requires ValidDate(d)
    ensures |r| == |IntStr(d.year)| + 6
    ensures r[..|r| - 6] == IntStr(d.year)
    ensures r[|r| - 6] == '-' && r[|r| - 3] == '-'
  {
    Pad2Shape(d.month);
    Pad2Shape(d.day);
    IntStr(d.year) + "-" + Pad2(d.month) + "-" + Pad2(d.day)
  }

  /** The month and day fields of a key are the padded month and day. */
  lemma DateKeyFields(d: Date)
    requires ValidDate(d)
    ensures var r := DateKey(d);
            r[|r| - 5..|r| - 3] == Pad2(d.month) && r[|r| - 2..] == Pad2(d.day)
  {
    Pad2Shape(d.month);
    Pad2Shape(d.day);
    TailFields(IntStr(d.year), Pad2(d.month), Pad2(d.day));
  }

  /** The last two fields of `a-b-c` when `b` and `c` have two characters. */
  lemma TailFields(a: string, b: string, c: string)
    requires |b| == 2 && |c| == 2
    ensures var r := a + "-" + b + "-" + c;
            r[|r| - 5..|r| - 3] == b && r[|r| - 2..] == c
  {
  }

  /** Distinct dates have distinct keys. */
  lemma DateKeyInjective(d1: Date, d2: Date)
    requires ValidDate(d1) && ValidDate(d2) && DateKey(d1) == DateKey(d2)
    ensures d1 == d2
  {
    var r := DateKey(d1);
    DateKeyFields(d1);
    DateKeyFields(d2);
    IntStrInjective(d1.year, d2.year);
    Pad2Injective(d1.month, d2.month);
    Pad2Injective(d1.day, d2.day);
  }

  /** `localISO`: the key of the day's date. */
  function LocalISO(n: int): (r: string)
    ensures |r| == |IntStr(Civil(n).year)| + 6
    ensures r[..|r| - 6] == IntStr(Civil(n).year)
  {
    DateKey(Civil(n))
  }

  /** Distinct days have distinct keys, so grouping by key is grouping by
      day. */
  lemma LocalISOInjective(a: int, b: int)
    requires LocalISO(a) == LocalISO(b)
    ensures a == b
  {
    DateKeyInjective(Civil(a), Civil(b));
    CivilDayNumber(a);
    CivilDayNumber(b);
  }

  /** `x || 1` for the parsed month and day: undefined, NaN and 0 become 1. */
  function OrOne(v: Option<int>): (r: int)
    ensures r != 0
  {
    if v.None? || v.value == 0 then 1 else v.value
  }

  /** The numbers `fromLocalISO` reads from a key: `iso.split('-')` with
      `parseInt` on each of the first three parts. */
  function KeyFields(iso: string): (r: (Option<int>, Option<int>, Option<int>)) {
    var parts := Split(iso, "-");
    (ParseInt(parts[0]),
     if |parts| > 1 then ParseInt(parts[1]) else None,
     if |parts| > 2 then ParseInt(parts[2]) else None)
  }

  /** `new Date(year, monthIndex, day)` on a parsed year: NaN gives an
      invalid date, and the constructor reads a year in 0..99 as 1900 + year. */
  function DateConstructor(year: Option<int>, monthIndex: int, day: int): (r: Option<int>)
    ensures r.None? <==> year.None?
  {
    match year
    case None => None
    case Some(y) =>
      if 0 <= y <= 99 then Some(MakeDay(1900 + y, monthIndex, day))
      else Some(MakeDay(y, monthIndex, day))
  }

  /** `fromLocalISO` as written: `None` is the invalid date. */
  function FromLocalISO(iso: string): (r: Option<int>)
    ensures r.None? <==> KeyFields(iso).0.None?
  {
    var (year, month, day) := KeyFields(iso);
    DateConstructor(year, OrOne(month) - 1, OrOne(day))
  }

  /** `fromLocalISO` as evidently intended: the year is taken as written,
      as `setFullYear(year, monthIndex, day)` would. */
  function FromLocalISOFixed(iso: string): (r: Option<int>)
    ensures r.None? <==> KeyFields(iso).0.None?
  {
    var (year, month, day) := KeyFields(iso);
    match year
    case None => None
    case Some(y) => Some(MakeDay(y, OrOne(month) - 1, OrOne(day)))
  }

  lemma NoHyphen(s: string)
    requires AllDigits(s)
    ensures '-' !in s
  {
  }

  /** Regrouping a key's concatenation around its first hyphen. */
  lemma Regroup(a: string, b: string, c: string)
    ensures a + "-" + b + "-" + c == a + "-" + (b + "-" + c)
  {
    var p := a + "-" + b;
    assert p + "-" + c == p + ("-" + c);
    assert (a + "-") + b + ("-" + c) == (a + "-") + (b + ("-" + c));
    assert b + ("-" + c) == b + "-" + c;
  }

  /** Three hyphen-free parts joined by hyphens split back into them. */
  lemma SplitThree(a: string, b: string, c: string)
    requires '-' !in a && '-' !in b && '-' !in c
    ensures Split(a + "-" + b + "-" + c, "-") == [a, b, c]
  {
    var tail := b + "-" + c;
    SplitWhole(c, "-");
    SplitFirst(b, "-", c);
    assert Split(tail, "-") == [b, c];
    SplitFirst(a, "-", tail);
    assert Split(a + "-" + tail, "-") == [a, b, c];
    Regroup(a, b, c);
  }

  /** A key splits at its two hyphens into year, month and day. */
  lemma SplitKey(y: nat, m: nat, d: nat)
    requires m < 100 && d < 100
    ensures Split(NatStr(y) + "-" + Pad2(m) + "-" + Pad2(d), "-") == [NatStr(y), Pad2(m), Pad2(d)]
  {
    Pad2Shape(m);
    Pad2Shape(d);
    NoHyphen(NatStr(y));
    NoHyphen(Pad2(m));
    NoHyphen(Pad2(d));
    SplitThree(NatStr(y), Pad2(m), Pad2(d));
  }

  /** The key of a date with a non-negative year splits into its three
      fields and parses back to the year, month and day. */
  lemma KeyFieldsOfDateKey(d: Date)
    requires ValidDate(d) && d.year >= 0
    ensures KeyFields(DateKey(d)) == (Some(d.year), Some(d.month), Some(d.day))
  {
    assert DateKey(d) == NatStr(d.year) + "-" + Pad2(d.month) + "-" + Pad2(d.day);
    SplitKey(d.year, d.month, d.day);
    ParseNatStr(d.year);
    ParsePad2(d.month);
    ParsePad2(d.day);
  }

  /** What `fromLocalISO` makes of the key of a date in year 0 or later:
      the constructor applied to its year, month index and day. */
  lemma ReadDateKey(d: Date)
    requires ValidDate(d) && d.year >= 0
    ensures FromLocalISO(DateKey(d)) == DateConstructor(Some(d.year), d.month - 1, d.day)
    ensures FromLocalISOFixed(DateKey(d)) == Some(MakeDay(d.year, d.month - 1, d.day))
  {
    KeyFieldsOfDateKey(d);
    ReadFields(DateKey(d), d.year, d.month, d.day);
  }

  /** `fromLocalISO` on a key whose three fields parse, month and day not 0. */
  lemma ReadFields(iso: string, y: int, m: int, day: int)
    requires KeyFields(iso) == (Some(y), Some(m), Some(day)) && m != 0 && day != 0
    ensures FromLocalISO(iso) == DateConstructor(Some(y), m - 1, day)
    ensures FromLocalISOFixed(iso) == Some(MakeDay(y, m - 1, day))
  {
    var k := KeyFields(iso);
    assert k.0 == Some(y) && OrOne(k.1) - 1 == m - 1 && OrOne(k.2) == day;
  }

  /** The constructor on a parsed year and a month in 1..12. */
  lemma ConstructorDay(y: int, m: int, d: int)
    requires 1 <= m <= 12
    ensures 0 <= y <= 99 ==> DateConstructor(Some(y), m - 1, d) == Some(DayNumber(Date(1900 + y, m, d)))
    ensures !(0 <= y <= 99) ==> DateConstructor(Some(y), m - 1, d) == Some(DayNumber(Date(y, m, d)))
    ensures MakeDay(y, m - 1, d) == DayNumber(Date(y, m, d))
  {
  }

  /** As written, the key of every date in year 100 or later reads back
      as the same day. */
  lemma DateKeyRoundTrip(d: Date)
    requires ValidDate(d) && d.year >= 100
    ensures FromLocalISO(DateKey(d)) == Some(DayNumber(d))
  {
    ReadDateKey(d);
    ConstructorDay(d.year, d.month, d.day);
  }

  lemma LocalISORoundTrip(n: int)
    requires Civil(n).year >= 100
    ensures FromLocalISO(LocalISO(n)) == Some(n)
  {
    CivilDayNumber(n);
    DateKeyRoundTrip(Civil(n));
  }

  /** With the year taken as written, every date in year 0 or later round
      trips. */
  lemma DateKeyRoundTripFixed(d: Date)
    requires ValidDate(d) && d.year >= 0
    ensures FromLocalISOFixed(DateKey(d)) == Some(DayNumber(d))
  {
    ReadDateKey(d);
    ConstructorDay(d.year, d.month, d.day);
  }

  lemma LocalISORoundTripFixed(n: int)
    requires Civil(n).year >= 0
    ensures FromLocalISOFixed(LocalISO(n)) == Some(n)
  {
    CivilDayNumber(n);
    DateKeyRoundTripFixed(Civil(n));
  }

  /** The constructor reads a year in 0..99 as 1900 years later. */
  lemma ConstructorBefore100(d: Date)
    requires ValidDate(d) && 0 <= d.year <= 99
    ensures DateConstructor(Some(d.year), d.month - 1, d.day) == Some(DayNumber(Date(1900 + d.year, d.month, d.day)))
  {
    ConstructorDay(d.year, d.month, d.day);
  }

  /** So the day it builds lies after the date itself. */
  lemma ConstructorLater(d: Date)
    requires ValidDate(d) && 0 <= d.year <= 99
    ensures DateConstructor(Some(d.year), d.month - 1, d.day).Some?
    ensures DayNumber(d) < DateConstructor(Some(d.year), d.month - 1, d.day).value
  {
    ConstructorBefore100(d);
    LaterYear(d, 1900 + d.year);
  }

  /** The discrepancy: the key of a date in years 0..99 reads back as a
      later day. */
  lemma DateKeyRoundTripFailsBefore100(d: Date)
    requires ValidDate(d) && 0 <= d.year <= 99
    ensures FromLocalISO(DateKey(d)).Some?
    ensures DayNumber(d) < FromLocalISO(DateKey(d)).value
  {
    ReadDateKey(d);
    ConstructorLater(d);
  }

  /** So no day in years 0..99 survives the round trip. */
  lemma LocalISORoundTripFailsBefore100(n: int)
    requires 0 <= Civil(n).year <= 99
    ensures FromLocalISO(LocalISO(n)).Some?
    ensures n < FromLocalISO(LocalISO(n)).value
  {
    CivilDayNumber(n);
    DateKeyRoundTripFailsBefore100(Civil(n));
  }

  /** The key of a day before year 0 starts with the minus sign of
      `String(year)`, so `split('-')` puts an empty string first and
      `parseInt` of it is NaN: as written and as corrected, the key reads
      as an invalid date. */
  lemma NegativeYearKey(n: int)
    requires Civil(n).year < 0
    ensures FromLocalISO(LocalISO(n)).None?
    ensures FromLocalISOFixed(LocalISO(n)).None?
  {
    var s := LocalISO(n);
    var y := IntStr(Civil(n).year);
    assert s[..|s| - 6] == y && y[0] == '-';
    assert s[..1] == "-";
    SplitLeading(s, "-");
    assert ParseInt("").None?;
  }

  /** One such day: 0050-03-01 reads back as 1950-03-01. */
  lemma Year50Example()
    ensures FromLocalISO(DateKey(Date(50, 3, 1))) == Some(DayNumber(Date(1950, 3, 1)))
    ensures DayNumber(Date(50, 3, 1)) < DayNumber(Date(1950, 3, 1))
  {
    var d := Date(50, 3, 1);
    ReadDateKey(d);
    ConstructorBefore100(d);
    LaterYear(d, 1950);
  }

  /** `startOfWeek`: the Sunday on or before the day. */
  function StartOfWeek(n: int): (r: int)
    ensures Weekday(r) == 0
    ensures r <= n < r + 7
  {
    n - Weekday(n)
  }

  /** `endOfWeek`: six days after the week's Sunday, a Saturday. */
  function EndOfWeek(n: int): (r: int)
    ensures r == StartOfWeek(n) + 6
    ensures Weekday(r) == 6
    ensures r - 6 <= n <= r
  {
    StartOfWeek(n) + 6
  }

  /** The week of a day is the one Sunday-to-Saturday span containing it. */
  lemma {:induction false} StartOfWeekUnique(n: int, s: int)
    requires Weekday(s) == 0 && s <= n < s + 7
    ensures StartOfWeek(n) == s
  {
    var r := StartOfWeek(n);
    assert (r + 4) % 7 == 0 && (s + 4) % 7 == 0;
    assert (r - s) % 7 == 0;
  }

  lemma WeekBoundsIdempotent(n: int)
    ensures StartOfWeek(StartOfWeek(n)) == StartOfWeek(n)
    ensures StartOfWeek(EndOfWeek(n)) == StartOfWeek(n)
    ensures EndOfWeek(EndOfWeek(n)) == EndOfWeek(n)
    ensures EndOfWeek(StartOfWeek(n)) == EndOfWeek(n)
  {
    StartOfWeekUnique(StartOfWeek(n), StartOfWeek(n));
    StartOfWeekUnique(EndOfWeek(n), StartOfWeek(n));
  }
}
