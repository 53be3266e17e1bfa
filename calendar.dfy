/**
 * Calendar helpers of nurse-scheduler/src/lib/utils.ts over an abstract
 * proleptic Gregorian date (year, month 1..12, day 1..31) instead of a JS
 * `Date`: enumeration of the days of a month and weekend classification.
 */
module Calendar {

  datatype Date = Date(year: int, month: int, day: int)

  predicate IsLeapYear(y: int)
  {
    y % 4 == 0 && (y % 100 != 0 || y % 400 == 0)
  }

  function YearLength(y: int): int
  {
    if IsLeapYear(y) then 366 else 365
  }

  /** Number of days of month `m` (1-based) of year `y`. */
  function MonthLength(y: int, m: int): (n: int)
    requires 1 <= m <= 12
    ensures 28 <= n <= 31
    ensures n == 29 <==> m == 2 && IsLeapYear(y)
    ensures n == 28 <==> m == 2 && !IsLeapYear(y)
  {
    if m == 2 then (if IsLeapYear(y) then 29 else 28)
    else if m == 4 || m == 6 || m == 9 || m == 11 then 30
    else 31
  }

  /** A date that exists in the calendar; the model starts at 0001-01-01. */
  predicate ValidDate(d: Date)
  {
    1 <= d.year && 1 <= d.month <= 12 && 1 <= d.day <= MonthLength(d.year, d.month)
  }

  /** Days from 0001-01-01 to the first day of year `y`. */
  function DaysBeforeYear(y: int): int
    requires 1 <= y
  {
    var p := y - 1;
    365 * p + p / 4 - p / 100 + p / 400
  }

  /** Days from the first of January of year `y` to the first day of month `m`. */
  function DaysBeforeMonth(y: int, m: int): int
    requires 1 <= m <= 12
  {
    var before :=
      if m == 1 then 0 else if m == 2 then 31 else if m == 3 then 59
      else if m == 4 then 90 else if m == 5 then 120 else if m == 6 then 151
      else if m == 7 then 181 else if m == 8 then 212 else if m == 9 then 243
      else if m == 10 then 273 else if m == 11 then 304 else 334;
    before + if m > 2 && IsLeapYear(y) then 1 else 0
  }

  /** Days elapsed since 0001-01-01: the abstract day index of a date. */
  function DayNumber(d: Date): int
    requires ValidDate(d)
  {
    DaysBeforeYear(d.year) + DaysBeforeMonth(d.year, d.month) + d.day - 1
  }

  /** Counting the multiples of 4, 100 and 400 up to `y` adds one for each that
      divides `y`; a multiple of 400 is one of 100, and a multiple of 100 one of 4. */
  lemma MultiplesStep(y: int)
    requires 1 <= y
    ensures y / 4 == (y - 1) / 4 + (if y % 4 == 0 then 1 else 0)
    ensures y / 100 == (y - 1) / 100 + (if y % 100 == 0 then 1 else 0)
    ensures y / 400 == (y - 1) / 400 + (if y % 400 == 0 then 1 else 0)
    ensures y % 400 == 0 ==> y % 100 == 0
    ensures y % 100 == 0 ==> y % 4 == 0
  {
  }

  lemma YearStep(y: int)
    requires 1 <= y
    ensures DaysBeforeYear(y + 1) == DaysBeforeYear(y) + YearLength(y)
  {
    var p := y - 1;
    MultiplesStep(y);
    assert DaysBeforeYear(y + 1) == 365 * y + y / 4 - y / 100 + y / 400;
    assert DaysBeforeYear(y) == 365 * p + p / 4 - p / 100 + p / 400;
  }

  lemma {:induction false} DaysBeforeYearMonotone(y1: int, y2: int)
    requires 1 <= y1 <= y2
    ensures DaysBeforeYear(y1) + 365 * (y2 - y1) <= DaysBeforeYear(y2)
    decreases y2 - y1
  {
    if y1 < y2 {
      YearStep(y2 - 1);
      DaysBeforeYearMonotone(y1, y2 - 1);
    }
  }

  /** Every date of a year lies before the first day of the next year. */
  lemma DayNumberWithinYear(d: Date)
    requires ValidDate(d)
    ensures DaysBeforeYear(d.year) <= DayNumber(d) < DaysBeforeYear(d.year + 1)
  {
    YearStep(d.year);
  }

  /** The day after `d`, as `d.setDate(d.getDate() + 1)` advances a JS date. */
  function NextDate(d: Date): (r: Date)
    requires ValidDate(d)
    ensures ValidDate(r)
    ensures DayNumber(r) == DayNumber(d) + 1
  {
    if d.day < MonthLength(d.year, d.month) then Date(d.year, d.month, d.day + 1)
    else if d.month < 12 then Date(d.year, d.month + 1, 1)
    else YearStep(d.year); Date(d.year + 1, 1, 1)
  }

  /** Chronological order of dates, as JS compares `Date` values and as
      ISO `YYYY-MM-DD` strings compare (4-digit years, zero-padded fields). */
  predicate DateLt(a: Date, b: Date)
  {
    a.year < b.year || (a.year == b.year && (a.month < b.month || (a.month == b.month && a.day < b.day)))
  }

  predicate DateLe(a: Date, b: Date)
  {
    a == b || DateLt(a, b)
  }

  /** On valid dates the lexicographic order is the order of day indices. */
  lemma DateOrderIsDayOrder(a: Date, b: Date)
    requires ValidDate(a) && ValidDate(b)
    ensures DateLt(a, b) <==> DayNumber(a) < DayNumber(b)
    ensures a == b <==> DayNumber(a) == DayNumber(b)
  {
    DayNumberWithinYear(a);
    DayNumberWithinYear(b);
    if a.year < b.year {
      DaysBeforeYearMonotone(a.year + 1, b.year);
    } else if b.year < a.year {
      DaysBeforeYearMonotone(b.year + 1, a.year);
    }
  }

  /** 0 = Sunday .. 6 = Saturday, as `Date.prototype.getDay`; 0001-01-01 was a Monday. */
  function DayOfWeek(d: Date): (w: int)
    requires ValidDate(d)
    ensures 0 <= w < 7
  {
    (DayNumber(d) + 1) % 7
  }

  /** utils.ts `isWeekend`: Sunday or Saturday. */
  predicate IsWeekend(d: Date)
    requires ValidDate(d)
  {
    var w := DayOfWeek(d);
    w == 0 || w == 6
  }

  lemma ModSevenSucc(k: int)
    ensures (k + 1) % 7 == (k % 7 + 1) % 7
  {
  }

  lemma DayOfWeekAdvances(d: Date)
    requires ValidDate(d)
    ensures DayOfWeek(NextDate(d)) == (DayOfWeek(d) + 1) % 7
  {
    var k := DayNumber(d) + 1;
    assert DayNumber(NextDate(d)) + 1 == k + 1;
    ModSevenSucc(k);
  }

  /** The weekend is Saturday and the Sunday after it; the Monday after is a weekday. */
  lemma SaturdayThenSunday(d: Date)
    requires ValidDate(d) && DayOfWeek(d) == 6
    ensures IsWeekend(d) && IsWeekend(NextDate(d)) && !IsWeekend(NextDate(NextDate(d)))
  {
    var sunday := NextDate(d);
    DayOfWeekAdvances(d);
    assert DayOfWeek(sunday) == 0;
    DayOfWeekAdvances(sunday);
    assert DayOfWeek(NextDate(sunday)) == 1;
  }

  /** 2024-06-01 was a Saturday and 2024-06-03 a Monday. */
  lemma KnownWeekdays()
    ensures DayOfWeek(Date(2024, 6, 1)) == 6 && IsWeekend(Date(2024, 6, 1))
    ensures DayOfWeek(Date(2024, 6, 3)) == 1 && !IsWeekend(Date(2024, 6, 3))
  {
  }

  /** The year JS `new Date(year, monthIndex, day)` uses: 0..99 mean 1900..1999. */
  function JsYear(year: int): int
  {
    if 0 <= year <= 99 then 1900 + year else year
  }

  /** The (year, month) that `new Date(year, month - 1, 1)` lands in: JS carries
      a month index outside 0..11 into the year, rounding down. */
  function NormalizeMonth(year: int, month: int): (ym: (int, int))
    ensures 1 <= ym.1 <= 12
    ensures 12 * ym.0 + ym.1 == 12 * JsYear(year) + month
  {
    (JsYear(year) + (month - 1) / 12, (month - 1) % 12 + 1)
  }

  /** The dates of the month, day 1 to the last day. */
  function MonthDates(y: int, m: int): (r: seq<Date>)
    requires 1 <= m <= 12
  {
    seq(MonthLength(y, m), i requires 0 <= i < MonthLength(y, m) => Date(y, m, i + 1))
  }

  /** The enumeration has the Gregorian length of the month and runs from day 1
      through consecutive, strictly ascending dates of that month. */
  lemma MonthDatesShape(y: int, m: int)
    requires 1 <= y && 1 <= m <= 12
    ensures var r := MonthDates(y, m);
      && |r| == MonthLength(y, m)
      && (|r| == 29 <==> m == 2 && IsLeapYear(y))
      && r[0] == Date(y, m, 1) && r[|r| - 1] == Date(y, m, MonthLength(y, m))
      && (forall i | 0 <= i < |r| :: ValidDate(r[i]) && r[i].year == y && r[i].month == m)
      && (forall i | 0 <= i < |r| - 1 :: r[i + 1] == NextDate(r[i]))
      && (forall i, j | 0 <= i < j < |r| :: DayNumber(r[j]) == DayNumber(r[i]) + (j - i))
  {
  }

  /** One step of the walk over a month: day `k + 1` exists and is not after the
      last day; the day after it is day `k + 2`, or past the month after the last day. */
  lemma WalkStep(y: int, m: int, k: int)
    requires 1 <= y && 1 <= m <= 12 && 0 <= k < MonthLength(y, m)
    ensures ValidDate(Date(y, m, k + 1)) && DateLe(Date(y, m, k + 1), Date(y, m, MonthLength(y, m)))
    ensures k + 1 < MonthLength(y, m) ==> NextDate(Date(y, m, k + 1)) == Date(y, m, k + 2)
    ensures k + 1 == MonthLength(y, m) ==> !DateLe(NextDate(Date(y, m, k + 1)), Date(y, m, MonthLength(y, m)))
  {
  }

  /** The month a valid request normalizes to has 28..31 valid dates, and a
      1-based month of a year from 100 on is taken as given. */
  lemma NormalizedMonthDates(year: int, month: int)
    requires NormalizeMonth(year, month).0 >= 1
    ensures var (y, m) := NormalizeMonth(year, month); var r := MonthDates(y, m);
      && 28 <= |r| <= 31 && (forall i | 0 <= i < |r| :: ValidDate(r[i]))
      && (1 <= month <= 12 && year >= 100 ==>
            |r| == MonthLength(year, month) && forall i | 0 <= i < |r| :: r[i] == Date(year, month, i + 1))
  {
    var (y, m) := NormalizeMonth(year, month);
    MonthDatesShape(y, m);
    if 1 <= month <= 12 && year >= 100 {
      assert (y, m) == (year, month);
    }
  }

  /**
   * utils.ts `getDaysInMonth(year, month)` with the 1-based month: walks a
   * date from the first to the last day of the month one day at a time.
   */
  method DaysInMonth(year: int, month: int) returns (days: seq<Date>)
    requires NormalizeMonth(year, month).0 >= 1
    ensures var (y, m) := NormalizeMonth(year, month); days == MonthDates(y, m)
    ensures 28 <= |days| <= 31 && forall i | 0 <= i < |days| :: ValidDate(days[i])
    ensures 1 <= month <= 12 && year >= 100 ==>
      |days| == MonthLength(year, month) && forall i | 0 <= i < |days| :: days[i] == Date(year, month, i + 1)
  {
    var (y, m) := NormalizeMonth(year, month);
    var n := MonthLength(y, m);
    var first := Date(y, m, 1);
    var last := Date(y, m, n);
    var d := first;
    days := [];
    while DateLe(d, last)
      invariant 0 <= |days| <= n
      invariant days == MonthDates(y, m)[..|days|]
      invariant forall k | 0 <= k < |days| :: ValidDate(days[k])
      invariant |days| < n ==> d == Date(y, m, |days| + 1)
      invariant |days| == n ==> !DateLe(d, last)
      decreases n - |days|
    {
      WalkStep(y, m, |days|);
      days := days + [d];
      d := NextDate(d);
    }
    assert days == MonthDates(y, m);
    NormalizedMonthDates(year, month);
  }
}
