/** The calendar page's navigation state (client/src/pages/CalendarPage.tsx):
    the Sunday of the selected week and the first day of the month on
    screen, set up from the `start` query parameter and changed by picking
    a week or stepping a month back or forward. */
module CalendarView {
  import opened Prelude
  import opened Gregorian
  import opened DayKeys
  import opened MonthGrid

  /** Months counted from January of year 0: `12 * getFullYear() + getMonth()`. */
  function MonthIndex(d: Date): int {
    12 * d.year + d.month - 1
  }

  /** Two days fall in the same month of the same year. */
  predicate SameMonth(a: int, b: int) {
    Civil(a).year == Civil(b).year && Civil(a).month == Civil(b).month
  }

  /** `setDate(1)`: the first day of the month holding day `n`, `n` moved
      back by its day of the month less one. */
  function FirstOfMonth(n: int): (r: int)
    ensures Civil(r) == Date(Civil(n).year, Civil(n).month, 1)
    ensures r <= n
  {
    MonthOfDay(n);
    n - (Civil(n).day - 1)
  }

  /** A day less its day of the month less one is the first of its month. */
  lemma MonthOfDay(n: int)
    ensures var d := Civil(n);
            n - (d.day - 1) == FirstDay(d.year, d.month)
            && Civil(FirstDay(d.year, d.month)) == Date(d.year, d.month, 1)
  {
    var d := Civil(n);
    CivilDayNumber(n);
    CivilAt(FirstDay(d.year, d.month), Date(d.year, d.month, 1));
  }

  /** `setDate(1)` computes `MakeDay(year, month, 1)`: the same day. */
  lemma FirstOfMonthIsMakeDay(n: int)
    ensures FirstOfMonth(n) == MakeDay(Civil(n).year, Civil(n).month - 1, 1)
  {
    MonthOfDay(n);
  }

  /** `setMonth(getMonth() + delta)` on day `v`: the platform's `MakeDay`
      on the same year and day of the month, with the month index moved by
      `delta`; past the end of a shorter month the day runs on into the
      next. */
  function ShiftMonth(v: int, delta: int): int {
    MakeDay(Civil(v).year, Civil(v).month - 1 + delta, Civil(v).day)
  }

  /** The date `MakeDay` lands on when the day of the month fits: the month
      index carried into the year. */
  function Shifted(d: Date, delta: int): Date {
    var k := d.month - 1 + delta;
    Date(d.year + k / 12, k % 12 + 1, d.day)
  }

  /** The carried month index is `delta` months on from that of `d`, in
      a month numbered 1..12. */
  lemma ShiftedIndex(d: Date, delta: int)
    ensures 1 <= Shifted(d, delta).month <= 12 && Shifted(d, delta).day == d.day
    ensures MonthIndex(Shifted(d, delta)) == MonthIndex(d) + delta
  {
    var k := d.month - 1 + delta;
    assert k == 12 * (k / 12) + k % 12;
  }

  lemma IndexParts(y: int, k: int)
    requires 0 <= k < 12
    ensures (12 * y + k) / 12 == y && (12 * y + k) % 12 == k
  {
  }

  /** Two firsts of months with the same month index are the same day. */
  lemma SameIndexSameDay(a: int, b: int)
    requires Civil(a).day == 1 && Civil(b).day == 1
    requires MonthIndex(Civil(a)) == MonthIndex(Civil(b))
    ensures a == b
  {
    var da, db := Civil(a), Civil(b);
    MonthOfDay(a);
    MonthOfDay(b);
    assert da.year == db.year && da.month == db.month by {
      IndexParts(da.year, da.month - 1);
      IndexParts(db.year, db.month - 1);
    }
  }

  /** From the first of a month, `setMonth` lands on the first of the month
      `delta` months away, which `setDate(1)` then leaves alone. */
  lemma MonthStep(v: int, delta: int)
    requires Civil(v).day == 1
    ensures var n := ShiftMonth(v, delta);
            FirstOfMonth(n) == n
            && Civil(n).day == 1 && MonthIndex(Civil(n)) == MonthIndex(Civil(v)) + delta
  {
    var e := Shifted(Civil(v), delta);
    ShiftedIndex(Civil(v), delta);
    assert ShiftMonth(v, delta) == DayNumber(e);
    CivilAt(DayNumber(e), e);
  }

  /** A step back undoes a step forward, and the other way round. */
  lemma ShiftRoundTrip(v: int, delta: int, back: int)
    requires Civil(v).day == 1 && back == -delta
    ensures ShiftMonth(ShiftMonth(v, delta), back) == v
  {
    var n := ShiftMonth(v, delta);
    MonthStep(v, delta);
    ShiftLandsOn(n, back, v);
  }

  /** Stepping from the first of a month lands on the first of the month
      with the target index. */
  lemma ShiftLandsOn(n: int, delta: int, v: int)
    requires Civil(n).day == 1 && Civil(v).day == 1
    requires MonthIndex(Civil(n)) + delta == MonthIndex(Civil(v))
    ensures ShiftMonth(n, delta) == v
  {
    var w := ShiftMonth(n, delta);
    MonthStep(n, delta);
    SameIndexSameDay(w, v);
  }

  /** The grid row of the week starting on Sunday `sel` in the grid of the
      month of `visible`. */
  function SelectedRow(sel: int, visible: int): int {
    (sel - MatrixStart(Civil(visible).year, Civil(visible).month)) / 7
  }

  /** The selected week is shown: its Sunday starts a row of the grid of
      the visible month. */
  lemma SelectedWeekInGrid(sel: int, visible: int, marks: Marks)
    requires Weekday(sel) == 0 && Civil(visible).day == 1
    requires SameMonth(sel, visible) || sel == StartOfWeek(visible)
    ensures var g := MonthMatrix(Civil(visible).year, Civil(visible).month, marks);
            0 <= SelectedRow(sel, visible) < |g| && g[SelectedRow(sel, visible)].start == sel
  {
    var y, m := Civil(visible).year, Civil(visible).month;
    var s := MatrixStart(y, m);
    SelectedInSpan(sel, visible);
    SundayRow(s, sel, Rows(y, m));
    MatrixRow(y, m, marks, (sel - s) / 7);
  }

  /** The selected Sunday lies within the weeks of the grid. */
  lemma SelectedInSpan(sel: int, visible: int)
    requires Civil(visible).day == 1
    requires SameMonth(sel, visible) || sel == StartOfWeek(visible)
    ensures var y, m := Civil(visible).year, Civil(visible).month;
            MatrixStart(y, m) <= sel < MatrixStart(y, m) + 7 * Rows(y, m)
  {
    var y, m := Civil(visible).year, Civil(visible).month;
    MatrixSpan(y, m);
    MonthOfDay(visible);
    assert visible == FirstDay(y, m);
    if SameMonth(sel, visible) {
      WithinOwnMonth(sel);
      assert FirstDay(y, m) <= sel <= LastDay(y, m);
    }
  }

  /** A Sunday in the `n` weeks from Sunday `s` starts one of them. */
  lemma SundayRow(s: int, sel: int, n: int)
    requires Weekday(s) == 0 && Weekday(sel) == 0 && s <= sel < s + 7 * n
    ensures var w := (sel - s) / 7; 0 <= w < n && s + 7 * w == sel
  {
    assert (s + 4) % 7 == 0 && (sel + 4) % 7 == 0;
    assert (sel - s) % 7 == 0;
  }

  class Calendar {
    var selectedWeekStart: int
    var visibleMonth: int

    /** The selection is a Sunday, the visible month is held as its first
        day, and the selected week either lies in that month or is the week
        of its first day. */
    ghost predicate Valid()
      reads this
    {
      && Weekday(selectedWeekStart) == 0
      && Civil(visibleMonth).day == 1
      && (SameMonth(selectedWeekStart, visibleMonth) || selectedWeekStart == StartOfWeek(visibleMonth))
    }

    /** The initial state: the week of the parsed `start` parameter, or of
        today when it is absent or does not parse, and the first of that
        week's Sunday's month. */
    constructor(start: Option<Stamp>, today: int)
      ensures Valid()
      ensures selectedWeekStart == StartOfWeek(if ToStartOfDay(start).Some? then start.value.day else today)
      ensures visibleMonth == FirstOfMonth(selectedWeekStart)
    {
      var parsed := ToStartOfDay(start);
      var initialWeek := if parsed.Some? then StartOfWeek(parsed.value.day) else StartOfWeek(today);
      selectedWeekStart := initialWeek;
      visibleMonth := FirstOfMonth(initialWeek);
    }

    /** `selectWeek`: select the week of `date` and show its Sunday's month. */
    method SelectWeek(date: int)
      modifies this
      ensures Valid()
      ensures selectedWeekStart == StartOfWeek(date)
      ensures visibleMonth == FirstOfMonth(selectedWeekStart)
    {
      var nextWeek := StartOfWeek(date);
      selectedWeekStart := nextWeek;
      visibleMonth := FirstOfMonth(nextWeek);
    }

    /** `changeMonth`: show the previous or next month; keep the selected
        week when it lies in that month, otherwise select the week of the
        month's first day. */
    method ChangeMonth(prev: bool)
      requires Valid()
      modifies this
      ensures Valid()
      ensures MonthIndex(Civil(visibleMonth)) == MonthIndex(Civil(old(visibleMonth))) + (if prev then -1 else 1)
      ensures SameMonth(old(selectedWeekStart), visibleMonth) ==> selectedWeekStart == old(selectedWeekStart)
      ensures !SameMonth(old(selectedWeekStart), visibleMonth) ==> selectedWeekStart == StartOfWeek(visibleMonth)
    {
      var delta := if prev then -1 else 1;
      var next := ShiftMonth(visibleMonth, delta);
      MonthStep(visibleMonth, delta);
      next := FirstOfMonth(next);
      visibleMonth := next;
      var s, n := Civil(selectedWeekStart), Civil(next);
      var targetMatchesSelected := s.year == n.year && s.month == n.month;
      assert targetMatchesSelected <==> SameMonth(selectedWeekStart, next);
      if !targetMatchesSelected {
        selectedWeekStart := StartOfWeek(next);
      }
    }

    /** The `weeks` shown: the grid of the visible month, in which the
        selected week is a row. */
    method Weeks(marks: Marks) returns (weeks: seq<WeekRow>)
      requires Valid()
      ensures weeks == MonthMatrix(Civil(visibleMonth).year, Civil(visibleMonth).month, marks)
      ensures 0 <= SelectedRow(selectedWeekStart, visibleMonth) < |weeks|
      ensures weeks[SelectedRow(selectedWeekStart, visibleMonth)].start == selectedWeekStart
    {
      weeks := BuildMonthMatrix(visibleMonth, marks);
      SelectedWeekInGrid(selectedWeekStart, visibleMonth, marks);
    }
  }
}
