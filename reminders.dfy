/** The weekly check-in reminder of `client/src/utils/reminders.ts`: UTC
    instants written in the iCalendar basic format, and the fifteen-line
    calendar text around one weekly event.  The clock read for `DTSTAMP`
    is a parameter. */
module Reminders {
  import opened Prelude
  import opened Text
  import opened Gregorian
  import opened DayKeys

  /** The farthest a `Date` can lie from the epoch: 8.64e15 ms. */
  const MaxTimeValue: int := 8_640_000_000_000_000

  /** A `Date`'s time value: whole milliseconds from 1970-01-01T00:00:00Z,
      or NaN for an invalid date. */
  datatype TimeValue = Time(ms: int) | NaN

  /** What a `Date` object can hold. */
  type JsDate = v: TimeValue | v.NaN? || -MaxTimeValue <= v.ms <= MaxTimeValue witness NaN

  /** `new Date(x)` for an integral `x`: out of range, the date is invalid. */
  function TimeClip(x: int): (v: JsDate)
    ensures v.Time? <==> -MaxTimeValue <= x <= MaxTimeValue
    ensures v.Time? ==> v.ms == x
  {
    if -MaxTimeValue <= x <= MaxTimeValue then Time(x) else NaN
  }

  /** What `getUTCFullYear`, `getUTCMonth() + 1`, `getUTCDate`,
      `getUTCHours`, `getUTCMinutes` and `getUTCSeconds` read. */
  datatype UtcFields = UtcFields(year: int, month: int, day: int, hours: int, minutes: int, seconds: int)

  /** The UTC fields of time value `t`: the day is `floor(t / msPerDay)`,
      the hours, minutes and seconds count whole units of `t` modulo 24, 60
      and 60.  They form a real date and clock time. */
  function UtcOf(t: int): (f: UtcFields)
    ensures ValidDate(Date(f.year, f.month, f.day))
    ensures 0 <= f.hours < 24 && 0 <= f.minutes < 60 && 0 <= f.seconds < 60
  {
    var date := Civil(t / MsPerDay);
    UtcFields(date.year, date.month, date.day, t / MsPerHour % 24, t / 60000 % 60, t / 1000 % 60)
  }

  /** `Date.UTC(year, month - 1, day, hours, minutes, seconds)`: the instant
      the fields name, a field out of its range carrying into the next. */
  function DateUTC(f: UtcFields): int {
    MakeDay(f.year, f.month - 1, f.day) * MsPerDay
      + f.hours * MsPerHour + f.minutes * 60000 + f.seconds * 1000
  }

  /** The UTC fields of `t` name `t` to the second. */
  lemma UtcOfInstant(t: int)
    ensures DateUTC(UtcOf(t)) == t - t % 1000
  {
    var f, n := UtcOf(t), t / MsPerDay;
    CivilDayNumber(n);
    assert MakeDay(f.year, f.month - 1, f.day) == n;
    TimeOfDay(t);
  }

  /** The hours, minutes and seconds of `t` add up to its time of day, less
      its milliseconds. */
  lemma TimeOfDay(t: int)
    ensures t / MsPerHour % 24 * MsPerHour + t / 60000 % 60 * 60000 + t / 1000 % 60 * 1000
            == t % MsPerDay - t % 1000
  {
    var q := t / 1000;
    var m := q / 60;
    var h := m / 60;
    var d := h / 24;
    assert t == 1000 * q + t % 1000;
    assert q == 60 * m + q % 60;
    assert m == 60 * h + m % 60;
    assert h == 24 * d + h % 24;
    assert t / 60000 == m;
    assert t / MsPerHour == h;
    assert t / MsPerDay == d;
  }

  /** Fields that `pad` writes as two digits. */
  predicate TwoDigitFields(f: UtcFields) {
    0 <= f.month < 100 && 0 <= f.day < 100 && 0 <= f.hours < 100 && 0 <= f.minutes < 100 && 0 <= f.seconds < 100
  }

  /** The text `formatICSDate` makes of the fields: `YYYYMMDDTHHMMSSZ`,
      every field but the year padded to two digits, the year written as
      `String` writes it. */
  function Stamp(f: UtcFields): string
    requires TwoDigitFields(f)
  {
    IntStr(f.year) + Pad2(f.month) + Pad2(f.day) + "T"
      + Pad2(f.hours) + Pad2(f.minutes) + Pad2(f.seconds) + "Z"
  }

  /** `formatICSDate`: the stamp of the date's UTC fields; an invalid date
      gives `NaN` for every field. */
  function FormatICSDate(v: JsDate): string {
    match v
    case NaN => "NaNNaNNaNTNaNNaNNaNZ"
    case Time(t) => Stamp(UtcOf(t))
  }

  /** The two-digit number at `s[i..i + 2]`, if both are digits. */
  function Field2(s: string, i: nat): (r: Option<nat>)
    requires i + 2 <= |s|
    ensures r.Some? ==> r.value < 100
  {
    if IsDigit(s[i]) && IsDigit(s[i + 1])
    then Some((s[i] as int - 48) * 10 + (s[i + 1] as int - 48))
    else None
  }

  /** A reader for `formatICSDate`'s output: the year is everything before
      the last twelve characters, which must read `MMDDTHHMMSSZ`. */
  function ParseICSDate(s: string): Option<UtcFields> {
    if |s| < 13 then None else ReadClock(ParseInt(s[..|s| - 12]), s[|s| - 12..])
  }

  /** The fields of a read year and a `MMDDTHHMMSSZ` text. */
  function ReadClock(year: Option<int>, tail: string): Option<UtcFields>
    requires |tail| == 12
  {
    var month, day := Field2(tail, 0), Field2(tail, 2);
    var hours, minutes, seconds := Field2(tail, 5), Field2(tail, 7), Field2(tail, 9);
    if tail[4] != 'T' || tail[11] != 'Z' || year.None? || month.None? || day.None?
       || hours.None? || minutes.None? || seconds.None?
    then None
    else Some(UtcFields(year.value, month.value, day.value, hours.value, minutes.value, seconds.value))
  }

  /** The twelve characters after the year, digit by digit. */
  function ClockText(f: UtcFields): (r: string)
    requires TwoDigitFields(f)
    ensures |r| == 12
  {
    [DigitChar(f.month / 10), DigitChar(f.month % 10), DigitChar(f.day / 10), DigitChar(f.day % 10), 'T',
     DigitChar(f.hours / 10), DigitChar(f.hours % 10), DigitChar(f.minutes / 10), DigitChar(f.minutes % 10),
     DigitChar(f.seconds / 10), DigitChar(f.seconds % 10), 'Z']
  }

  lemma StampTail(f: UtcFields)
    requires TwoDigitFields(f)
    ensures Stamp(f) == IntStr(f.year) + ClockText(f)
  {
    Pad2Digits(f.month);
    Pad2Digits(f.day);
    Pad2Digits(f.hours);
    Pad2Digits(f.minutes);
    Pad2Digits(f.seconds);
  }

  /** Two digit characters read back as the number they write. */
  lemma Field2Digits(s: string, i: nat, n: nat)
    requires n < 100 && i + 2 <= |s|
    requires s[i] == DigitChar(n / 10) && s[i + 1] == DigitChar(n % 10)
    ensures Field2(s, i) == Some(n)
  {
  }

  /** `ReadClock` reads back the clock text. */
  lemma ReadClockText(f: UtcFields)
    requires TwoDigitFields(f)
    ensures ReadClock(Some(f.year), ClockText(f)) == Some(f)
  {
    var t := ClockText(f);
    Field2Digits(t, 0, f.month);
    Field2Digits(t, 2, f.day);
    Field2Digits(t, 5, f.hours);
    Field2Digits(t, 7, f.minutes);
    Field2Digits(t, 9, f.seconds);
  }

  /** `ParseICSDate` reads back the fields of a stamp. */
  lemma StampRoundTrip(f: UtcFields)
    requires TwoDigitFields(f)
    ensures ParseICSDate(Stamp(f)) == Some(f)
  {
    StampTail(f);
    ParseIntStr(f.year);
    ReadClockText(f);
    ParseParts(IntStr(f.year), ClockText(f), f);
  }

  /** `ParseICSDate` reads a year followed by twelve characters of the
      form `MMDDTHHMMSSZ`. */
  lemma ParseParts(y: string, tail: string, f: UtcFields)
    requires |y| >= 1 && ParseInt(y) == Some(f.year)
    requires |tail| == 12 && ReadClock(Some(f.year), tail) == Some(f)
    ensures ParseICSDate(y + tail) == Some(f)
  {
    var s := y + tail;
    assert s[..|s| - 12] == y;
    assert s[|s| - 12..] == tail;
  }

  /** `ParseICSDate` inverts `formatICSDate`: it reads back the UTC fields
      of a valid date, which name its instant to the second, and rejects
      the text of an invalid one. */
  lemma ICSDateRoundTrip(v: JsDate)
    ensures v.NaN? ==> ParseICSDate(FormatICSDate(v)) == None
    ensures v.Time? ==> ParseICSDate(FormatICSDate(v)) == Some(UtcOf(v.ms))
                        && DateUTC(UtcOf(v.ms)) == v.ms - v.ms % 1000
  {
    if v.Time? {
      StampRoundTrip(UtcOf(v.ms));
      UtcOfInstant(v.ms);
    } else {
      var s := FormatICSDate(v);
      assert s[|s| - 12..][0] == 'N';
    }
  }

  /** Equal stamps name the same second. */
  lemma ICSDateInjective(a: JsDate, b: JsDate)
    requires a.Time? && b.Time? && FormatICSDate(a) == FormatICSDate(b)
    ensures a.ms / 1000 == b.ms / 1000
  {
    ICSDateRoundTrip(a);
    ICSDateRoundTrip(b);
  }

  /** For a four-digit year the stamp is `YYYYMMDDTHHMMSSZ`: sixteen
      characters, all digits but the `T` and the `Z`. */
  lemma StampShape(f: UtcFields)
    requires TwoDigitFields(f) && 1000 <= f.year <= 9999
    ensures var s := Stamp(f);
            |s| == 16 && s[8] == 'T' && s[15] == 'Z'
            && forall i :: 0 <= i < 16 && i != 8 && i != 15 ==> IsDigit(s[i])
  {
    var s, y := Stamp(f), IntStr(f.year);
    assert Pow10(3) == 1000;
    NatStrLength(f.year, 3);
    StampTail(f);
    forall i | 0 <= i < 4
      ensures IsDigit(s[i])
    {
      assert s[i] == y[i] && y[i] in y;
    }
  }

  /** The stamp of a date in a four-digit UTC year has that shape. */
  lemma ICSDateShape(v: JsDate)
    requires v.Time? && 1000 <= UtcOf(v.ms).year <= 9999
    ensures var s := FormatICSDate(v);
            |s| == 16 && s[8] == 'T' && s[15] == 'Z'
            && forall i :: 0 <= i < 16 && i != 8 && i != 15 ==> IsDigit(s[i])
  {
    StampShape(UtcOf(v.ms));
  }

  /** The options `buildWeeklyReminderICS` takes; `None` is an omitted
      (undefined) option, which takes its default. */
  datatype ReminderOptions = ReminderOptions(
    startDate: JsDate,
    durationMinutes: Option<int>,
    summary: Option<string>,
    description: Option<string>,
    occurrences: Option<int>)

  const DefaultDurationMinutes: int := 10
  const DefaultSummary: string := "MoodPeek weekly check-in"
  const DefaultDescription: string := "Take a minute to reflect on your week in MoodPeek."
  const DefaultOccurrences: int := 6

  function OrDefault<T>(o: Option<T>, default: T): T {
    if o.Some? then o.value else default
  }

  function Duration(opts: ReminderOptions): int {
    OrDefault(opts.durationMinutes, DefaultDurationMinutes)
  }

  function Summary(opts: ReminderOptions): string {
    OrDefault(opts.summary, DefaultSummary)
  }

  function Description(opts: ReminderOptions): string {
    OrDefault(opts.description, DefaultDescription)
  }

  function Occurrences(opts: ReminderOptions): int {
    OrDefault(opts.occurrences, DefaultOccurrences)
  }

  /** `new Date(start.getTime() + minutes * 60000)`. */
  function EndDate(start: JsDate, minutes: int): JsDate {
    match start
    case NaN => NaN
    case Time(t) => TimeClip(t + minutes * 60000)
  }

  /** `String(date.getTime())`. */
  function TimeStr(v: JsDate): string {
    match v
    case NaN => "NaN"
    case Time(t) => IntStr(t)
  }

  /** The event's `UID`, built from the start's time value. */
  function Uid(start: JsDate): string {
    "moodpeek-" + TimeStr(start) + "@moodpeek.app"
  }

  /** The lines `buildWeeklyReminderICS` joins, `now` standing for the
      `new Date()` it reads for `DTSTAMP`. */
  function ReminderLines(opts: ReminderOptions, now: JsDate): (lines: seq<string>)
    ensures |lines| == 15
  {
    var start := opts.startDate;
    CalendarLines(Uid(start), FormatICSDate(now), FormatICSDate(start),
                  FormatICSDate(EndDate(start, Duration(opts))), Summary(opts), Description(opts),
                  IntStr(Occurrences(opts)))
  }

  /** The fifteen lines around the event's values. */
  function CalendarLines(uid: string, stamp: string, start: string, end: string,
                         summary: string, description: string, count: string): (lines: seq<string>)
    ensures |lines| == 15
    ensures |lines[6]| >= 4 && |lines[7]| >= 8 && |lines[8]| >= 8 && |lines[9]| >= 6
    ensures |lines[10]| >= 8 && |lines[11]| >= 12 && |lines[12]| >= 24
  {
    ["BEGIN:VCALENDAR",
     "VERSION:2.0",
     "PRODID:-//MoodPeek//Weekly Reminder//EN",
     "CALSCALE:GREGORIAN",
     "METHOD:PUBLISH",
     "BEGIN:VEVENT",
     "UID:" + uid,
     "DTSTAMP:" + stamp,
     "DTSTART:" + start,
     "DTEND:" + end,
     "SUMMARY:" + summary,
     "DESCRIPTION:" + description,
     "RRULE:FREQ=WEEKLY;COUNT=" + count,
     "END:VEVENT",
     "END:VCALENDAR"]
  }

  /** `buildWeeklyReminderICS`: the lines joined with CRLF. */
  function BuildWeeklyReminderICS(opts: ReminderOptions, now: JsDate): string {
    Join(ReminderLines(opts, now), CRLF)
  }

  /** The texts the caller supplies hold no carriage return. */
  predicate PlainTexts(opts: ReminderOptions) {
    '\r' !in Summary(opts) && '\r' !in Description(opts)
  }

  lemma IntStrPlain(i: int)
    ensures '\r' !in IntStr(i)
  {
    var r := IntStr(i);
    if i >= 0 {
      assert AllDigits(r);
    } else {
      assert r == "-" + NatStr(-i);
      assert AllDigits(NatStr(-i));
    }
  }

  lemma ICSDatePlain(v: JsDate)
    ensures '\r' !in FormatICSDate(v)
  {
    if v.Time? {
      var f := UtcOf(v.ms);
      IntStrPlain(f.year);
      StampTail(f);
    }
  }

  /** Splitting the calendar text on CRLF gives back its fifteen lines,
      when the summary and the description hold no carriage return. */
  lemma ReminderSplit(opts: ReminderOptions, now: JsDate)
    requires PlainTexts(opts)
    ensures Split(BuildWeeklyReminderICS(opts, now), CRLF) == ReminderLines(opts, now)
  {
    var start := opts.startDate;
    ICSDatePlain(now);
    ICSDatePlain(start);
    ICSDatePlain(EndDate(start, Duration(opts)));
    IntStrPlain(Occurrences(opts));
    if start.Time? {
      IntStrPlain(start.ms);
    }
    CalendarSplit(Uid(start), FormatICSDate(now), FormatICSDate(start),
                  FormatICSDate(EndDate(start, Duration(opts))), Summary(opts), Description(opts),
                  IntStr(Occurrences(opts)));
  }

  /** The fifteen lines come back from their join when no value holds a
      carriage return. */
  lemma CalendarSplit(uid: string, stamp: string, start: string, end: string,
                      summary: string, description: string, count: string)
    requires '\r' !in uid && '\r' !in stamp && '\r' !in start && '\r' !in end
    requires '\r' !in summary && '\r' !in description && '\r' !in count
    ensures var lines := CalendarLines(uid, stamp, start, end, summary, description, count);
            Split(Join(lines, CRLF), CRLF) == lines
  {
    var lines := CalendarLines(uid, stamp, start, end, summary, description, count);
    HeaderPlain();
    FramePlain();
    NamesPlain();
    PlainAfter("UID:", uid);
    PlainAfter("DTSTAMP:", stamp);
    PlainAfter("DTSTART:", start);
    PlainAfter("DTEND:", end);
    PlainAfter("SUMMARY:", summary);
    PlainAfter("DESCRIPTION:", description);
    PlainAfter("RRULE:FREQ=WEEKLY;COUNT=", count);
    forall i | 0 <= i < |lines|
      ensures CRLF[0] !in lines[i]
    {
    }
    SplitJoin(lines, CRLF);
  }

  /** The calendar's heading lines hold no carriage return. */
  lemma HeaderPlain()
    ensures '\r' !in "BEGIN:VCALENDAR" && '\r' !in "VERSION:2.0"
    ensures '\r' !in "PRODID:-//MoodPeek//Weekly Reminder//EN"
  {
  }

  /** The remaining fixed lines hold no carriage return. */
  lemma FramePlain()
    ensures '\r' !in "CALSCALE:GREGORIAN" && '\r' !in "METHOD:PUBLISH"
    ensures '\r' !in "BEGIN:VEVENT" && '\r' !in "END:VEVENT" && '\r' !in "END:VCALENDAR"
  {
  }

  /** The property names hold no carriage return. */
  lemma NamesPlain()
    ensures '\r' !in "UID:" && '\r' !in "DTSTAMP:" && '\r' !in "DTSTART:" && '\r' !in "DTEND:"
    ensures '\r' !in "SUMMARY:" && '\r' !in "DESCRIPTION:" && '\r' !in "RRULE:FREQ=WEEKLY;COUNT="
  {
  }

  /** A line made of a name and a value holds no carriage return when
      neither does. */
  lemma PlainAfter(name: string, value: string)
    requires '\r' !in name && '\r' !in value
    ensures '\r' !in name + value
  {
    assert forall k :: 0 <= k < |name + value| ==> (name + value)[k] != '\r' by {
      forall k | 0 <= k < |name + value|
        ensures (name + value)[k] != '\r'
      {
        if k < |name| {
          assert (name + value)[k] == name[k];
        } else {
          assert (name + value)[k] == value[k - |name|];
        }
      }
    }
  }

  /** The text is one calendar around one event: fifteen lines,
      `BEGIN:VCALENDAR` first and `END:VCALENDAR` last, and within them a
      single `BEGIN:VEVENT` (line 6) and a single `END:VEVENT` (line 14). */
  lemma ReminderCalendar(opts: ReminderOptions, now: JsDate)
    requires PlainTexts(opts)
    ensures var lines := Split(BuildWeeklyReminderICS(opts, now), CRLF);
            |lines| == 15
            && (forall i :: 0 <= i < 15 ==> (lines[i] == "BEGIN:VCALENDAR" <==> i == 0))
            && (forall i :: 0 <= i < 15 ==> (lines[i] == "END:VCALENDAR" <==> i == 14))
            && (forall i :: 0 <= i < 15 ==> (lines[i] == "BEGIN:VEVENT" <==> i == 5))
            && (forall i :: 0 <= i < 15 ==> (lines[i] == "END:VEVENT" <==> i == 13))
  {
    ReminderSplit(opts, now);
    var start := opts.startDate;
    CalendarFrame(Uid(start), FormatICSDate(now), FormatICSDate(start),
                  FormatICSDate(EndDate(start, Duration(opts))), Summary(opts), Description(opts),
                  IntStr(Occurrences(opts)));
  }

  /** Only the first and last lines open and close the calendar, and only
      lines 6 and 14 open and close the event, whatever the values. */
  lemma CalendarFrame(uid: string, stamp: string, start: string, end: string,
                      summary: string, description: string, count: string)
    ensures var lines := CalendarLines(uid, stamp, start, end, summary, description, count);
            (forall i :: 0 <= i < 15 ==> (lines[i] == "BEGIN:VCALENDAR" <==> i == 0))
            && (forall i :: 0 <= i < 15 ==> (lines[i] == "END:VCALENDAR" <==> i == 14))
            && (forall i :: 0 <= i < 15 ==> (lines[i] == "BEGIN:VEVENT" <==> i == 5))
            && (forall i :: 0 <= i < 15 ==> (lines[i] == "END:VEVENT" <==> i == 13))
  {
    var lines := CalendarLines(uid, stamp, start, end, summary, description, count);
    assert lines[6][0] == 'U' && lines[7][0] == 'D' && lines[8][0] == 'D' && lines[9][0] == 'D';
    assert lines[10][0] == 'S' && lines[11][0] == 'D' && lines[12][0] == 'R';
  }

  /** The values read back from after their property names. */
  lemma CalendarValues(uid: string, stamp: string, start: string, end: string,
                       summary: string, description: string, count: string)
    ensures var lines := CalendarLines(uid, stamp, start, end, summary, description, count);
            && lines[6][4..] == uid && lines[7][8..] == stamp && lines[8][8..] == start
            && lines[9][6..] == end && lines[10][8..] == summary && lines[11][12..] == description
            && lines[12][24..] == count
  {
    ValueAfter("UID:", uid);
    ValueAfter("DTSTAMP:", stamp);
    ValueAfter("DTSTART:", start);
    ValueAfter("DTEND:", end);
    ValueAfter("SUMMARY:", summary);
    ValueAfter("DESCRIPTION:", description);
    ValueAfter("RRULE:FREQ=WEEKLY;COUNT=", count);
  }

  /** The value after a property name reads back as written. */
  lemma ValueAfter(name: string, value: string)
    ensures (name + value)[|name|..] == value
  {
  }

  /** Where `buildWeeklyReminderICS` writes each value: after its
      property name, on the lines `UID` to `RRULE`. */
  lemma ReminderValues(opts: ReminderOptions, now: JsDate)
    ensures var lines, start := ReminderLines(opts, now), opts.startDate;
            && lines[6][4..] == Uid(start) && lines[7][8..] == FormatICSDate(now)
            && lines[8][8..] == FormatICSDate(start)
            && lines[9][6..] == FormatICSDate(EndDate(start, Duration(opts)))
            && lines[10][8..] == Summary(opts) && lines[11][12..] == Description(opts)
            && lines[12][24..] == IntStr(Occurrences(opts))
  {
    var start := opts.startDate;
    CalendarValues(Uid(start), FormatICSDate(now), FormatICSDate(start),
                   FormatICSDate(EndDate(start, Duration(opts))), Summary(opts), Description(opts),
                   IntStr(Occurrences(opts)));
  }

  /** An omitted option takes its default: ten minutes, the MoodPeek
      summary and description, six occurrences; a given one is used as
      it is. */
  lemma OptionDefaults(opts: ReminderOptions)
    ensures Duration(opts) == if opts.durationMinutes.Some? then opts.durationMinutes.value else 10
    ensures Summary(opts) == if opts.summary.Some? then opts.summary.value else "MoodPeek weekly check-in"
    ensures Description(opts) == if opts.description.Some? then opts.description.value
                                 else "Take a minute to reflect on your week in MoodPeek."
    ensures Occurrences(opts) == if opts.occurrences.Some? then opts.occurrences.value else 6
  {
  }

  /** The event's ends, as written for `DTSTART` and `DTEND`, read back;
      their instants lie `minutes` apart.  An invalid start makes both ends
      unreadable; an end beyond the range of a `Date` makes only the end
      unreadable. */
  lemma EventSpan(start: JsDate, minutes: int)
    ensures var s, e := ParseICSDate(FormatICSDate(start)), ParseICSDate(FormatICSDate(EndDate(start, minutes)));
            && (start.NaN? ==> s.None? && e.None?)
            && (start.Time? ==> s == Some(UtcOf(start.ms)))
            && (start.Time? && -MaxTimeValue <= start.ms + minutes * 60000 <= MaxTimeValue
                ==> e.Some? && DateUTC(e.value) - DateUTC(UtcOf(start.ms)) == minutes * 60000)
            && (start.Time? && !(-MaxTimeValue <= start.ms + minutes * 60000 <= MaxTimeValue) ==> e.None?)
  {
    var end := EndDate(start, minutes);
    ICSDateRoundTrip(start);
    ICSDateRoundTrip(end);
    if start.Time? && end.Time? {
      var t, u := start.ms, end.ms;
      assert DateUTC(UtcOf(u)) == u - u % 1000;
      assert DateUTC(UtcOf(t)) == t - t % 1000;
      SecondsApart(t, u, minutes);
    }
  }

  /** Two instants whole minutes apart are as far apart once both are cut
      to the second. */
  lemma SecondsApart(t: int, u: int, minutes: int)
    requires u == t + minutes * 60000
    ensures (u - u % 1000) - (t - t % 1000) == minutes * 60000
  {
    assert u == (t - t % 1000) + (minutes * 60 + t % 1000 / 1000) * 1000 + t % 1000;
  }

  /** Distinct start dates give distinct `UID`s. */
  lemma UidInjective(a: JsDate, b: JsDate)
    requires Uid(a) == Uid(b)
    ensures a == b
  {
    var x, y := TimeStr(a), TimeStr(b);
    assert |x| == |y|;
    assert x == Uid(a)[9..|Uid(a)| - 13];
    assert y == Uid(b)[9..|Uid(b)| - 13];
    if a.Time? && b.Time? {
      IntStrInjective(a.ms, b.ms);
    }
  }

  /** Only the `DTSTAMP` line reads the clock. */
  lemma ClockOnlyInStamp(opts: ReminderOptions, now: JsDate, later: JsDate)
    ensures var a, b := ReminderLines(opts, now), ReminderLines(opts, later);
            forall i :: 0 <= i < 15 && i != 7 ==> a[i] == b[i]
  {
    var start := opts.startDate;
    StampOnly(Uid(start), FormatICSDate(now), FormatICSDate(later), FormatICSDate(start),
              FormatICSDate(EndDate(start, Duration(opts))), Summary(opts), Description(opts),
              IntStr(Occurrences(opts)));
  }

  /** Changing the stamp changes only the `DTSTAMP` line. */
  lemma StampOnly(uid: string, stamp: string, stamp': string, start: string, end: string,
                  summary: string, description: string, count: string)
    ensures var a := CalendarLines(uid, stamp, start, end, summary, description, count);
            var b := CalendarLines(uid, stamp', start, end, summary, description, count);
            forall i :: 0 <= i < 15 && i != 7 ==> a[i] == b[i]
  {
  }
}
