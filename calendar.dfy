/**
 * The calendar arithmetic of ECMAScript's `Date`, taken in one time zone
 * without daylight saving: the day number of a calendar date, the
 * normalisation that `new Date(year, monthIndex, day)` applies to a month
 * index outside 0..11 and to day 0, and the (year, month) key by which the
 * inventory listing groups its records.
 */
module Calendar {

  const MsPerDay: int := 86400000

  type Month = m: int | 1 <= m <= 12 witness 1

  /** A moment as its local calendar components; `ms` is the time of day in milliseconds. */
  datatype DateTime = DateTime(year: int, month: Month, day: int, ms: int)

  /** The (year, month) a moment falls in: what `formatMonth` renders as e.g. "enero de 2024". */
  datatype MonthKey = MonthKey(year: int, month: Month)

  predicate IsLeap(y: int)
  {
    y % 4 == 0 && (y % 100 != 0 || y % 400 == 0)
  }

  function DaysInYear(y: int): int
  {
    if IsLeap(y) then 366 else 365
  }

  function DaysInMonth(y: int, m: Month): int
  {
    if m == 2 then (if IsLeap(y) then 29 else 28)
    else if m == 4 || m == 6 || m == 9 || m == 11 then 30
    else 31
  }

  /** Days of year `y` before the first of month `m`; `m == 13` gives the whole year. */
  function DaysBeforeMonth(y: int, m: int): int
    requires 1 <= m <= 13
  {
    [0, 31, 59, 90, 120, 151, 181, 212, 243, 273, 304, 334, 365][m - 1]
      + (if m > 2 && IsLeap(y) then 1 else 0)
  }

  /** ECMAScript's DayFromYear: the day number of 1 January of `y`, day 0 being 1 January 1970. */
  function DayFromYear(y: int): int
  {
    365 * (y - 1970) + (y - 1969) / 4 - (y - 1901) / 100 + (y - 1601) / 400
  }

  /** Day number of day `d` of month `m` of year `y`; `d` may lie outside the month. */
  function DayNumber(y: int, m: Month, d: int): int
  {
    DayFromYear(y) + DaysBeforeMonth(y, m) + d - 1
  }

  function FirstDay(k: MonthKey): int
  {
    DayNumber(k.year, k.month, 1)
  }

  predicate ValidDateTime(t: DateTime)
  {
    1 <= t.day <= DaysInMonth(t.year, t.month) && 0 <= t.ms < MsPerDay
  }

  /** Milliseconds since the epoch: the order in which the driver compares and sorts dates. */
  function TimeValue(t: DateTime): int
  {
    DayNumber(t.year, t.month, t.day) * MsPerDay + t.ms
  }

  function MonthOf(t: DateTime): MonthKey
  {
    MonthKey(t.year, t.month)
  }

  /** The year argument of the `Date` constructor: 0..99 stand for 1900..1999. */
  function FullYear(y: int): int
  {
    if 0 <= y <= 99 then 1900 + y else y
  }

  /** The month that a 0-based month index of year `y` lands in once carried into the year. */
  function NormalMonth(y: int, monthIndex: int): MonthKey
  {
    MonthKey(y + monthIndex / 12, monthIndex % 12 + 1)
  }

  /** ECMAScript's MakeDay: carries the month index into the year, then counts `d - 1` days on. */
  function MakeDay(y: int, monthIndex: int, d: int): int
  {
    var k := NormalMonth(y, monthIndex);
    DayNumber(k.year, k.month, d)
  }

  /** `new Date(year, monthIndex, day)`: local midnight of that day, as a time value. */
  function LocalDate(year: int, monthIndex: int, day: int): int
  {
    MakeDay(FullYear(year), monthIndex, day) * MsPerDay
  }

  /** Euclidean division by a positive constant is determined by quotient and remainder. */
  lemma DivMod(a: int, n: int, q: int, r: int)
    requires n == 4 || n == 100 || n == 400
    requires a == n * q + r && 0 <= r < n
    ensures a / n == q && a % n == r
  {
  }

  lemma FloorStep(a: int, n: int)
    requires n == 4 || n == 100 || n == 400
    ensures (a + 1) / n - a / n == (if (a + 1) % n == 0 then 1 else 0)
  {
    if a % n == n - 1 {
      DivMod(a + 1, n, a / n + 1, 0);
    } else {
      DivMod(a + 1, n, a / n, a % n + 1);
    }
  }

  /** Shifting by a multiple of `n` keeps the remainder. */
  lemma ModShift(y: int, n: int, c: int)
    requires n == 4 || n == 100 || n == 400
    ensures (y - n * c) % n == y % n
  {
    DivMod(y - n * c, n, y / n - c, y % n);
  }

  /** Consecutive years start `DaysInYear` days apart, as the leap-year rule says. */
  lemma YearLength(y: int)
    ensures DayFromYear(y + 1) == DayFromYear(y) + DaysInYear(y)
  {
    FloorStep(y - 1969, 4);
    FloorStep(y - 1901, 100);
    FloorStep(y - 1601, 400);
    ModShift(y, 4, 492);
    ModShift(y, 100, 19);
    ModShift(y, 400, 4);
  }

  lemma MonthLength(y: int, m: Month)
    ensures DaysBeforeMonth(y, m + 1) == DaysBeforeMonth(y, m) + DaysInMonth(y, m)
  {
  }

  lemma {:induction false} YearsIncrease(y1: int, y2: int)
    requires y1 <= y2
    ensures DayFromYear(y1) <= DayFromYear(y2)
    decreases y2 - y1
  {
    if y1 < y2 {
      YearLength(y1);
      YearsIncrease(y1 + 1, y2);
    }
  }

  predicate MonthBefore(a: MonthKey, b: MonthKey)
  {
    a.year < b.year || (a.year == b.year && a.month < b.month)
  }

  /** An earlier month ends before a later one begins. */
  lemma MonthsIncrease(a: MonthKey, b: MonthKey)
    requires MonthBefore(a, b)
    ensures FirstDay(a) + DaysInMonth(a.year, a.month) <= FirstDay(b)
  {
    MonthLength(a.year, a.month);
    if a.year < b.year {
      YearLength(a.year);
      YearsIncrease(a.year + 1, b.year);
    }
  }

  /**
   * A valid moment's day number lies in the days of month `k` exactly when
   * the moment is in month `k`.
   */
  lemma InMonthDays(t: DateTime, k: MonthKey)
    requires ValidDateTime(t)
    ensures var n := DayNumber(t.year, t.month, t.day);
            FirstDay(k) <= n < FirstDay(k) + DaysInMonth(k.year, k.month) <==> MonthOf(t) == k
  {
    var n := DayNumber(t.year, t.month, t.day);
    var own := MonthOf(t);
    if MonthBefore(own, k) {
      MonthsIncrease(own, k);
      assert n < FirstDay(k);
    } else if MonthBefore(k, own) {
      MonthsIncrease(k, own);
      assert n >= FirstDay(k) + DaysInMonth(k.year, k.month);
    }
  }

  /**
   * `new Date(y, m, 1)` is the first day of the normalised month, and
   * `new Date(y, m + 1, 0)` its last day, December and February of leap
   * years included.
   */
  lemma MonthBounds(y: int, monthIndex: int)
    ensures var k := NormalMonth(y, monthIndex);
            MakeDay(y, monthIndex, 1) == FirstDay(k)
            && MakeDay(y, monthIndex + 1, 0) == FirstDay(k) + DaysInMonth(k.year, k.month) - 1
  {
    var k := NormalMonth(y, monthIndex);
    MonthLength(k.year, k.month);
    if monthIndex % 12 == 11 {
      assert (monthIndex + 1) / 12 == monthIndex / 12 + 1 && (monthIndex + 1) % 12 == 0;
      YearLength(k.year);
    } else {
      assert (monthIndex + 1) / 12 == monthIndex / 12 && (monthIndex + 1) % 12 == monthIndex % 12 + 1;
    }
  }
}
