/** The month grid of the calendar page (`buildMonthMatrix`,
    client/src/pages/CalendarPage.tsx, lines 50-84): whole Sunday-to-Saturday
    weeks from the week holding the first of the month to the week holding
    its last day, each day flagged as in the month, logged, today or part of
    the current streak. */
module MonthGrid {
  import opened Gregorian
  import opened DayKeys

  /** `new Date(y, m - 1, 1)`: the first day of month `m` of year `y`. */
  function FirstDay(y: int, m: int): int
    requires 1 <= m <= 12
  {
    DayNumber(Date(y, m, 1))
  }

  /** `new Date(y, m, 0)`: day 0 of the following month, which is the last
      day of month `m`. */
  function LastDay(y: int, m: int): (r: int)
    requires 1 <= m <= 12
    ensures r == FirstDay(y, m) + DaysInMonth(y, m) - 1
  {
    MonthEnd(y, m);
    MakeDay(y, m, 0)
  }

  /** Day 0 of the month after `m` is the last day of `m`, also when `m` is
      December and the month index overflows into the next year. */
  lemma MonthEnd(y: int, m: int)
    requires 1 <= m <= 12
    ensures MakeDay(y, m, 0) == FirstDay(y, m) + DaysInMonth(y, m) - 1
  {
    NextMonthStart(y, m);
    if m < 12 {
      assert m / 12 == 0 && m % 12 == m;
    } else {
      assert m / 12 == 1 && m % 12 == 0;
    }
  }

  /** The day number of a valid date names that date. */
  lemma CivilAt(n: int, d: Date)
    requires ValidDate(d) && DayNumber(d) == n
    ensures Civil(n) == d
  {
    CivilOfDayNumber(d);
  }

  /** The `k`-th day of a month, day number `n`, is the date it names. */
  lemma DayInMonth(y: int, m: int, k: int, n: int)
    requires 1 <= m <= 12 && 1 <= k <= DaysInMonth(y, m)
    requires n == FirstDay(y, m) + k - 1
    ensures Civil(n) == Date(y, m, k)
  {
    CivilAt(n, Date(y, m, k));
  }

  /** A day is in the month it falls in: between the month's first and
      last day. */
  lemma WithinOwnMonth(n: int)
    ensures FirstDay(Civil(n).year, Civil(n).month) <= n <= LastDay(Civil(n).year, Civil(n).month)
  {
    var d := Civil(n);
    CivilDayNumber(n);
    assert n == FirstDay(d.year, d.month) + d.day - 1;
  }

  lemma DayBeforeMonth(y: int, m: int, n: int)
    requires 1 <= m <= 12
    requires FirstDay(y, m) - 7 < n < FirstDay(y, m)
    ensures Civil(n).month != m
  {
    var py := if m == 1 then y - 1 else y;
    var pm := if m == 1 then 12 else m - 1;
    assert LastDay(py, pm) + 1 == FirstDay(y, m);
    DayInMonth(py, pm, n - FirstDay(py, pm) + 1, n);
  }

  lemma DayAfterMonth(y: int, m: int, n: int)
    requires 1 <= m <= 12
    requires LastDay(y, m) < n < LastDay(y, m) + 7
    ensures Civil(n).month != m
  {
    var ny := if m == 12 then y + 1 else y;
    var nm := if m == 12 then 1 else m + 1;
    NextMonthStart(y, m);
    assert FirstDay(ny, nm) == LastDay(y, m) + 1;
    DayInMonth(ny, nm, n - LastDay(y, m), n);
  }

  /** Within a week of a month, a day has the month's number exactly when
      it lies between the month's first and last day: the grid's leading
      and trailing days belong to the neighbouring months. */
  lemma MonthOfNearbyDay(y: int, m: int, n: int)
    requires 1 <= m <= 12
    requires FirstDay(y, m) - 7 < n < LastDay(y, m) + 7
    ensures Civil(n).month == m <==> FirstDay(y, m) <= n <= LastDay(y, m)
  {
    if n < FirstDay(y, m) {
      DayBeforeMonth(y, m, n);
    } else if n > LastDay(y, m) {
      DayAfterMonth(y, m, n);
    } else {
      DayInMonth(y, m, n - FirstDay(y, m) + 1, n);
    }
  }

  /** Whole weeks around a span of 28 to 31 days number four to six. */
  lemma WeekSpan(f: int, l: int)
    requires 27 <= l - f <= 30
    ensures var n := EndOfWeek(l) - StartOfWeek(f) + 1;
            n == 7 * (n / 7) && 4 <= n / 7 <= 6
  {
    var s, t := StartOfWeek(f), StartOfWeek(l);
    assert (s + 4) % 7 == 0 && (t + 4) % 7 == 0;
    assert (t - s) % 7 == 0;
  }

  /** What the grid marks besides the month: the days that have entries
      (the keys of `entriesByDay`), the streak days and today. */
  datatype Marks = Marks(entryDays: set<int>, streakDays: set<int>, today: int)

  datatype WeekDay = WeekDay(day: int, isCurrentMonth: bool, hasEntries: bool, isToday: bool, isStreakDay: bool)

  datatype WeekRow = WeekRow(start: int, days: seq<WeekDay>)

  /** `matrixStart`: the Sunday of the week holding the first of the month. */
  function MatrixStart(y: int, m: int): int
    requires 1 <= m <= 12
  {
    StartOfWeek(FirstDay(y, m))
  }

  /** `matrixEnd`: the Saturday of the week holding the last of the month. */
  function MatrixEnd(y: int, m: int): int
    requires 1 <= m <= 12
  {
    EndOfWeek(LastDay(y, m))
  }

  function Rows(y: int, m: int): int
    requires 1 <= m <= 12
  {
    (MatrixEnd(y, m) - MatrixStart(y, m) + 1) / 7
  }

  /** The grid spans whole weeks: four, five or six of them. */
  lemma MatrixSpan(y: int, m: int)
    requires 1 <= m <= 12
    ensures MatrixEnd(y, m) - MatrixStart(y, m) + 1 == 7 * Rows(y, m)
    ensures 4 <= Rows(y, m) <= 6
  {
    WeekSpan(FirstDay(y, m), LastDay(y, m));
  }

  /** One cell: `isCurrentMonth` compares the month number only. */
  function Cell(day: int, month: int, marks: Marks): WeekDay {
    WeekDay(day, Civil(day).month == month, day in marks.entryDays, day == marks.today, day in marks.streakDays)
  }

  function Row(start: int, month: int, marks: Marks): (r: WeekRow)
    ensures |r.days| == 7
  {
    WeekRow(start, seq(7, i => Cell(start + i, month, marks)))
  }

  /** The grid of month `m` of year `y`. */
  function MonthMatrix(y: int, m: int, marks: Marks): seq<WeekRow>
    requires 1 <= m <= 12
  {
    var rows := if Rows(y, m) < 0 then 0 else Rows(y, m);
    seq(rows, w => Row(MatrixStart(y, m) + 7 * w, m, marks))
  }

  /** Row `w` of the grid starts `7 * w` days after its first Sunday. */
  lemma MatrixRow(y: int, m: int, marks: Marks, w: int)
    requires 1 <= m <= 12
    requires 0 <= w < |MonthMatrix(y, m, marks)|
    ensures MonthMatrix(y, m, marks)[w] == Row(MatrixStart(y, m) + 7 * w, m, marks)
  {
  }

  /** Cell `i` of a row is the day `i` days after its start. */
  lemma RowCell(start: int, m: int, marks: Marks, i: int)
    requires 0 <= i < 7
    ensures |Row(start, m, marks).days| == 7
    ensures Row(start, m, marks).days[i] == Cell(start + i, m, marks)
  {
  }

  /** `buildMonthMatrix`: a week row per pass of the `cursor` loop, a day
      per pass of the inner loop. */
  method BuildMonthMatrix(viewDate: int, marks: Marks) returns (weeks: seq<WeekRow>)
    ensures weeks == MonthMatrix(Civil(viewDate).year, Civil(viewDate).month, marks)
  {
    var view := Civil(viewDate);
    weeks := BuildRows(view.year, view.month, marks);
  }

  method BuildRows(y: int, m: int, marks: Marks) returns (weeks: seq<WeekRow>)
    requires 1 <= m <= 12
    ensures weeks == MonthMatrix(y, m, marks)
  {
    var firstOfMonth := FirstDay(y, m);
    var lastOfMonth := LastDay(y, m);
    var matrixStart := StartOfWeek(firstOfMonth);
    var matrixEnd := EndOfWeek(lastOfMonth);
    MatrixSpan(y, m);
    ghost var grid := MonthMatrix(y, m, marks);
    weeks := [];
    var cursor := matrixStart;
    while cursor <= matrixEnd
      invariant |weeks| <= |grid|
      invariant cursor == matrixStart + 7 * |weeks|
      invariant weeks == grid[..|weeks|]
      decreases matrixEnd - cursor
    {
      var row := BuildWeek(cursor, m, marks);
      weeks := weeks + [row];
      cursor := cursor + 7;
    }
  }

  /** One row: the seven days from `weekStart`. */
  method BuildWeek(weekStart: int, m: int, marks: Marks) returns (row: WeekRow)
    ensures row == Row(weekStart, m, marks)
  {
    ghost var cells := Row(weekStart, m, marks).days;
    var days: seq<WeekDay> := [];
    for i := 0 to 7
      invariant days == cells[..i]
    {
      var cell := Cell(weekStart + i, m, marks);
      assert cell == cells[i];
      days := days + [cell];
    }
    assert days == cells;
    row := WeekRow(weekStart, days);
  }

  /** The grid has four to six rows starting on a Sunday; its first row
      holds the first of the month and its last row the last, so every
      day of the month has a cell. */
  lemma MonthMatrixRows(y: int, m: int, marks: Marks)
    requires 1 <= m <= 12
    ensures var g := MonthMatrix(y, m, marks);
            && 4 <= |g| <= 6
            && Weekday(g[0].start) == 0
            && g[0].start <= FirstDay(y, m) < g[0].start + 7
            && g[|g| - 1].start <= LastDay(y, m) < g[|g| - 1].start + 7
            && Weekday(g[|g| - 1].start + 6) == 6
  {
    var g := MonthMatrix(y, m, marks);
    MatrixSpan(y, m);
    assert |g| == Rows(y, m);
    MatrixRow(y, m, marks, 0);
    MatrixRow(y, m, marks, |g| - 1);
    assert g[|g| - 1].start == MatrixEnd(y, m) - 6;
  }

  /** Every row of the grid holds seven consecutive days, and a cell is
      flagged as in the month exactly when its day lies between the
      month's first and last day: the leading and trailing days of the
      grid belong to the neighbouring months. */
  lemma RowFlags(y: int, m: int, marks: Marks, start: int, i: int)
    requires 1 <= m <= 12 && 0 <= i < 7
    requires FirstDay(y, m) - 7 < start + i < LastDay(y, m) + 7
    ensures var c := Row(start, m, marks).days[i];
            && c.day == start + i
            && (c.isCurrentMonth <==> FirstDay(y, m) <= c.day <= LastDay(y, m))
  {
    RowCell(start, m, marks, i);
    CellFlag(y, m, marks, start + i);
  }

  /** Every day of the month has its cell, flagged as in the month, in
      row `(d - start) / 7` at column `(d - start) % 7`. */
  lemma MonthDayCell(y: int, m: int, marks: Marks, d: int)
    requires 1 <= m <= 12
    requires FirstDay(y, m) <= d <= LastDay(y, m)
    ensures var g := MonthMatrix(y, m, marks);
            var w := (d - MatrixStart(y, m)) / 7;
            var i := (d - MatrixStart(y, m)) % 7;
            && 0 <= w < |g|
            && g[w].days[i].day == d
            && g[w].days[i].isCurrentMonth
  {
    var s := MatrixStart(y, m);
    var w := (d - s) / 7;
    var i := (d - s) % 7;
    MatrixSpan(y, m);
    var r := Rows(y, m);
    assert d - s == 7 * w + i && 0 <= i < 7;
    assert d - s < 7 * r;
    assert |MonthMatrix(y, m, marks)| == r;
    MatrixRow(y, m, marks, w);
    RowFlags(y, m, marks, s + 7 * w, i);
  }

  /** Cell `i` of row `w` holds the day `7 * w + i` days after the grid's
      first Sunday, flagged as in the month exactly when it is. */
  lemma GridCell(y: int, m: int, marks: Marks, w: int, i: int)
    requires 1 <= m <= 12
    requires 0 <= w < |MonthMatrix(y, m, marks)| && 0 <= i < 7
    ensures var c := MonthMatrix(y, m, marks)[w].days[i];
            && c.day == MatrixStart(y, m) + 7 * w + i
            && (c.isCurrentMonth <==> FirstDay(y, m) <= c.day <= LastDay(y, m))
  {
    var s := MatrixStart(y, m);
    MatrixSpan(y, m);
    MatrixRow(y, m, marks, w);
    InMatrix(y, m, s + 7 * w + i);
    RowFlags(y, m, marks, s + 7 * w, i);
  }

  /** No day has two cells: a cell holding `d` is the one `MonthDayCell`
      names. */
  lemma GridCellUnique(y: int, m: int, marks: Marks, d: int, w: int, i: int)
    requires 1 <= m <= 12
    requires 0 <= w < |MonthMatrix(y, m, marks)| && 0 <= i < 7
    requires MonthMatrix(y, m, marks)[w].days[i].day == d
    ensures w == (d - MatrixStart(y, m)) / 7 && i == (d - MatrixStart(y, m)) % 7
  {
    GridCell(y, m, marks, w, i);
    var k := d - MatrixStart(y, m);
    assert k == 7 * w + i;
  }

  /** The marks of cell `(w, i)`: `entriesByDay.has`, `iso === todayIso`
      and `streakDays.has` on its day. */
  lemma GridCellMarks(y: int, m: int, marks: Marks, w: int, i: int)
    requires 1 <= m <= 12
    requires 0 <= w < |MonthMatrix(y, m, marks)| && 0 <= i < 7
    ensures var c := MonthMatrix(y, m, marks)[w].days[i];
            && c.day == MatrixStart(y, m) + 7 * w + i
            && (c.hasEntries <==> c.day in marks.entryDays)
            && (c.isToday <==> c.day == marks.today)
            && (c.isStreakDay <==> c.day in marks.streakDays)
  {
    var start := MatrixStart(y, m) + 7 * w;
    MatrixRow(y, m, marks, w);
    RowCell(start, m, marks, i);
    var r := MonthMatrix(y, m, marks)[w];
    assert r == Row(start, m, marks);
    var c := r.days[i];
    assert c == Cell(start + i, m, marks);
  }

  /** A cell within a week of the month is flagged exactly when its day
      lies in the month. */
  lemma CellFlag(y: int, m: int, marks: Marks, x: int)
    requires 1 <= m <= 12
    requires FirstDay(y, m) - 7 < x < LastDay(y, m) + 7
    ensures Cell(x, m, marks).isCurrentMonth <==> FirstDay(y, m) <= x <= LastDay(y, m)
  {
    MonthOfNearbyDay(y, m, x);
  }

  /** The grid's days lie within a week of the month. */
  lemma InMatrix(y: int, m: int, x: int)
    requires 1 <= m <= 12
    requires MatrixStart(y, m) <= x <= MatrixEnd(y, m)
    ensures FirstDay(y, m) - 7 < x < LastDay(y, m) + 7
  {
  }
}
