/** Proleptic Gregorian calendar arithmetic, the part of the platform `Date`
    object that the insights engine relies on. A calendar day is a day number:
    the count of days since 1970-01-01 in the one local calendar the app
    assumes. `Civil` and `DayNumber` convert between day numbers and
    (year, month, day) triples and are proved to be inverse bijections. */
module Gregorian {

  /** A calendar date with a 1-based month and day, as `getFullYear`,
      `getMonth() + 1` and `getDate()` report them. */
  datatype Date = Date(year: int, month: int, day: int)

  predicate IsLeap(y: int) {
    y % 4 == 0 && (y % 100 != 0 || y % 400 == 0)
  }

  function DaysInYear(y: int): int {
    if IsLeap(y) then 366 else 365
  }

  function DaysInMonth(y: int, m: int): (r: int)
    requires 1 <= m <= 12
    ensures 28 <= r <= 31
    ensures r == 29 <==> m == 2 && IsLeap(y)
  {
    if m == 2 then (if IsLeap(y) then 29 else 28)
    else if m == 4 || m == 6 || m == 9 || m == 11 then 30
    else 31
  }

  predicate ValidDate(d: Date) {
    1 <= d.month <= 12 && 1 <= d.day <= DaysInMonth(d.year, d.month)
  }

  /** Leap years in 1..x (for x >= 0), extended to all x by floor division. */
  function Leaps(x: int): int {
    x / 4 - x / 100 + x / 400
  }

  /** Days from 1970-01-01 to January 1st of year `y`. */
  function DaysBeforeYear(y: int): int {
    365 * (y - 1970) + Leaps(y - 1) - 477
  }

  /** Days from January 1st to the first of month `m` (1-based) of year `y`. */
  function DaysBeforeMonth(y: int, m: int): (r: int)
    requires 1 <= m <= 12
  {
    [0, 31, 59, 90, 120, 151, 181, 212, 243, 273, 304, 334][m - 1]
      + (if m > 2 && IsLeap(y) then 1 else 0)
  }

  /** The day number of a (possibly out-of-range) day of a valid month: day
      0 is the last day of the previous month, day 32 may be in the next. */
  function DayNumber(d: Date): int
    requires 1 <= d.month <= 12
  {
    DaysBeforeYear(d.year) + DaysBeforeMonth(d.year, d.month) + d.day - 1
  }

  /** The `MakeDay` step of the `Date(year, monthIndex, date)` constructor:
      a 0-based month index outside 0..11 moves into neighbouring years and
      any day-of-month overflow moves into neighbouring months. */
  function MakeDay(year: int, monthIndex: int, date: int): (r: int)
    ensures 0 <= monthIndex <= 11 ==> r == DayNumber(Date(year, monthIndex + 1, date))
  {
    DayNumber(Date(year + monthIndex / 12, monthIndex % 12 + 1, date))
  }

  function Next(d: Date): (r: Date)
    requires ValidDate(d)
    ensures ValidDate(r)
  {
    if d.day < DaysInMonth(d.year, d.month) then Date(d.year, d.month, d.day + 1)
    else if d.month < 12 then Date(d.year, d.month + 1, 1)
    else Date(d.year + 1, 1, 1)
  }

  function Prev(d: Date): (r: Date)
    requires ValidDate(d)
    ensures ValidDate(r)
  {
    if d.day > 1 then Date(d.year, d.month, d.day - 1)
    else if d.month > 1 then Date(d.year, d.month - 1, DaysInMonth(d.year, d.month - 1))
    else Date(d.year - 1, 12, 31)
  }

  lemma LeapStep(y: int)
    ensures Leaps(y) - Leaps(y - 1) == if IsLeap(y) then 1 else 0
  {
    DivStep(y, 4);
    DivStep(y, 100);
    DivStep(y, 400);
    Divides(y, 4, 25);
    Divides(y, 100, 4);
  }

  /** `y / k` grows by one exactly at the multiples of `k`. */
  lemma DivStep(y: int, k: int)
    requires k == 4 || k == 100 || k == 400
    ensures y / k - (y - 1) / k == if y % k == 0 then 1 else 0
  {
  }

  /** A multiple of `k * j` is a multiple of `k`. */
  lemma Divides(y: int, k: int, j: int)
    requires (k == 4 && j == 25) || (k == 100 && j == 4)
    ensures y % (k * j) == 0 ==> y % k == 0
  {
  }

  /** Consecutive years are `DaysInYear` apart. */
  lemma YearStep(y: int)
    ensures DaysBeforeYear(y + 1) == DaysBeforeYear(y) + DaysInYear(y)
  {
    LeapStep(y);
  }

  lemma {:induction false} YearsMonotone(x: int, z: int)
    requires x <= z
    ensures DaysBeforeYear(x) <= DaysBeforeYear(z)
    decreases z - x
  {
    if x < z {
      YearsMonotone(x, z - 1);
      YearStep(z - 1);
    }
  }

  lemma DayNumberNext(d: Date)
    requires ValidDate(d)
    ensures DayNumber(Next(d)) == DayNumber(d) + 1
  {
    if d.day == DaysInMonth(d.year, d.month) && d.month == 12 {
      YearStep(d.year);
    }
  }

  lemma DayNumberPrev(d: Date)
    requires ValidDate(d)
    ensures DayNumber(Prev(d)) == DayNumber(d) - 1
  {
    if d.day == 1 && d.month == 1 {
      YearStep(d.year - 1);
    }
  }

  /** The date of day number `n`, reached from 1970-01-01 one day at a time. */
  function Civil(n: int): (r: Date)
    ensures ValidDate(r)
    decreases if n < 0 then -n else n
  {
    if n == 0 then Date(1970, 1, 1)
    else if n > 0 then Next(Civil(n - 1))
    else Prev(Civil(n + 1))
  }

  /** 1970-01-01 is day 0. */
  lemma EpochDay()
    ensures DayNumber(Date(1970, 1, 1)) == 0
  {
    assert Leaps(1969) == 477;
  }

  /** `Civil` inverts `DayNumber`: the date it finds has day number `n`. */
  lemma {:induction false} CivilDayNumber(n: int)
    ensures DayNumber(Civil(n)) == n
    decreases if n < 0 then -n else n
  {
    if n == 0 {
      EpochDay();
    } else if n > 0 {
      var d := Civil(n - 1);
      assert Civil(n) == Next(d);
      CivilDayNumber(n - 1);
      DayNumberNext(d);
    } else if n < 0 {
      var d := Civil(n + 1);
      assert Civil(n) == Prev(d);
      CivilDayNumber(n + 1);
      DayNumberPrev(d);
    }
  }

  /** Lexicographic order on (year, month, day). */
  predicate Before(a: Date, b: Date) {
    a.year < b.year
    || (a.year == b.year && a.month < b.month)
    || (a.year == b.year && a.month == b.month && a.day < b.day)
  }

  lemma OffsetInYear(d: Date)
    requires ValidDate(d)
    ensures 0 <= DaysBeforeMonth(d.year, d.month) + d.day - 1 < DaysInYear(d.year)
  {
  }

  /** Day numbers follow the calendar order. */
  lemma DayNumberStrictlyMonotone(a: Date, b: Date)
    requires ValidDate(a) && ValidDate(b) && Before(a, b)
    ensures DayNumber(a) < DayNumber(b)
  {
    OffsetInYear(a);
    OffsetInYear(b);
    if a.year < b.year {
      YearStep(a.year);
      YearsMonotone(a.year + 1, b.year);
    }
  }

  lemma DayNumberInjective(a: Date, b: Date)
    requires ValidDate(a) && ValidDate(b) && DayNumber(a) == DayNumber(b)
    ensures a == b
  {
    if Before(a, b) {
      DayNumberStrictlyMonotone(a, b);
    } else if Before(b, a) {
      DayNumberStrictlyMonotone(b, a);
    }
  }

  /** The same month and day in a later year has a larger day number. */
  lemma LaterYear(d: Date, y: int)
    requires ValidDate(d) && d.year < y
    ensures DayNumber(d) < DayNumber(Date(y, d.month, d.day))
  {
    YearStep(d.year);
    YearsMonotone(d.year + 1, y);
    OffsetInYear(d);
    assert DayNumber(d) < DaysBeforeYear(d.year + 1);
  }

  /** Round trip in the other direction: every valid date is the date of
      its own day number. */
  lemma CivilOfDayNumber(d: Date)
    requires ValidDate(d)
    ensures Civil(DayNumber(d)) == d
  {
    CivilDayNumber(DayNumber(d));
    DayNumberInjective(Civil(DayNumber(d)), d);
  }

  /** Day numbers and dates are ordered alike. */
  lemma CivilOrder(n: int, k: int)
    ensures n < k <==> Before(Civil(n), Civil(k))
  {
    var a, b := Civil(n), Civil(k);
    CivilDayNumber(n);
    CivilDayNumber(k);
    if n < k {
      if !Before(a, b) {
        if a == b {
        } else {
          assert Before(b, a);
          DayNumberStrictlyMonotone(b, a);
        }
      }
    } else if Before(a, b) {
      DayNumberStrictlyMonotone(a, b);
    }
  }

  /** Day of week, 0 = Sunday, as `getDay` reports it; 1970-01-01 was a
      Thursday. */
  function Weekday(n: int): (r: int)
    ensures 0 <= r < 7
  {
    (n + 4) % 7
  }

  /** The first day of the month that follows the month of `d`. */
  lemma NextMonthStart(y: int, m: int)
    requires 1 <= m <= 12
    ensures DayNumber(Date(y, m, DaysInMonth(y, m))) + 1
         == (if m < 12 then DayNumber(Date(y, m + 1, 1)) else DayNumber(Date(y + 1, 1, 1)))
  {
    DayNumberNext(Date(y, m, DaysInMonth(y, m)));
  }
}
