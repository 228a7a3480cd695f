/**
 * The proleptic Gregorian calendar of Python's `datetime`: the dates it can
 * hold and the day numbers that date subtraction counts with.
 */
module Calendar {

  datatype Date = Date(year: int, month: int, day: int)

  const MinYear := 1
  const MaxYear := 9999

  predicate IsLeapYear(y: int) {
    y % 4 == 0 && (y % 100 != 0 || y % 400 == 0)
  }

  function DaysInYear(y: int): int {
    if IsLeapYear(y) then 366 else 365
  }

  function DaysInMonth(y: int, m: int): int
    requires 1 <= m <= 12
  {
    if m == 2 then (if IsLeapYear(y) then 29 else 28)
    else if m == 4 || m == 6 || m == 9 || m == 11 then 30
    else 31
  }

  /** A date `datetime` accepts: year 1 to 9999 and a day that exists in its month. */
  predicate IsCalendarDate(d: Date) {
    && MinYear <= d.year <= MaxYear
    && 1 <= d.month <= 12
    && 1 <= d.day <= DaysInMonth(d.year, d.month)
  }

  /** Days in the years before year `y`. */
  function DaysBeforeYear(y: int): int
    requires y >= 1
  {
    var p := y - 1;
    p * 365 + p / 4 - p / 100 + p / 400
  }

  /** Days in a common year before the first of each month. */
  const CommonDaysBeforeMonth: seq<int> := [0, 31, 59, 90, 120, 151, 181, 212, 243, 273, 304, 334]

  /** Days in year `y` before the first of month `m`. */
  function DaysBeforeMonth(y: int, m: int): int
    requires 1 <= m <= 12
  {
    CommonDaysBeforeMonth[m - 1] + (if m > 2 && IsLeapYear(y) then 1 else 0)
  }

  /**
   * `date.toordinal()`: 0001-01-01 is day 1. Each year owns its own span
   * of day numbers, after every day of the years before it.
   */
  function DayNumber(d: Date): (n: int)
    requires IsCalendarDate(d)
    ensures DaysBeforeYear(d.year) < n <= DaysBeforeYear(d.year + 1)
  {
    DaysBeforeYearStep(d.year);
    DaysBeforeMonthInYear(d.year, d.month);
    DaysBeforeYear(d.year) + DaysBeforeMonth(d.year, d.month) + d.day
  }

  const LastDate := Date(MaxYear, 12, 31)

  /** The day number of 9999-12-31, the last date `datetime` can hold. */
  const MaxDayNumber := 3652059

  function NextDay(d: Date): Date
    requires IsCalendarDate(d)
  {
    if d.day < DaysInMonth(d.year, d.month) then Date(d.year, d.month, d.day + 1)
    else if d.month < 12 then Date(d.year, d.month + 1, 1)
    else Date(d.year + 1, 1, 1)
  }

  /** Calendar order: by year, then month, then day. */
  predicate Before(a: Date, b: Date) {
    || a.year < b.year
    || (a.year == b.year && a.month < b.month)
    || (a.year == b.year && a.month == b.month && a.day < b.day)
  }

  /** A year's days are the gap between the day counts before it and after it. */
  lemma DaysBeforeYearStep(y: int)
    requires y >= 1
    ensures DaysBeforeYear(y + 1) == DaysBeforeYear(y) + DaysInYear(y)
  {
    DivStep(y, 4);
    DivStep(y, 100);
    DivStep(y, 400);
    assert y % 100 == 0 ==> y % 4 == 0 by {
      if y % 100 == 0 {
        DivUnique(y, 4, 25 * (y / 100), 0);
      }
    }
    assert y % 400 == 0 ==> y % 100 == 0 by {
      if y % 400 == 0 {
        DivUnique(y, 100, 4 * (y / 400), 0);
      }
    }
  }

  /** Stepping from `y - 1` to `y` raises `y / k` by one exactly when `k` divides `y`. */
  lemma DivStep(y: int, k: int)
    requires k > 0
    ensures y / k - (y - 1) / k == if y % k == 0 then 1 else 0
  {
    var q, r := (y - 1) / k, (y - 1) % k;
    if r == k - 1 {
      DivUnique(y, k, q + 1, 0);
    } else {
      DivUnique(y, k, q, r + 1);
    }
  }

  lemma DivUnique(y: int, k: int, q: int, r: int)
    requires k > 0 && 0 <= r < k && y == k * q + r
    ensures y / k == q && y % k == r
  {
    var q0, r0 := y / k, y % k;
    assert k * (q0 - q) == r - r0 by {
      assert y == k * q0 + r0;
      assert k * (q0 - q) == k * q0 - k * q;
    }
    MultipleInsideIsZero(k, q0 - q);
  }

  /** The only multiple of `k` strictly between `-k` and `k` is zero. */
  lemma MultipleInsideIsZero(k: int, n: int)
    requires k > 0 && -k < k * n < k
    ensures n == 0
  {
    if n >= 1 {
      MulAtLeast(k, n);
    } else if n <= -1 {
      MulAtMost(k, n);
    }
  }

  lemma {:induction false} MulAtLeast(k: int, n: int)
    requires k > 0 && n >= 1
    ensures k * n >= k
    decreases n
  {
    if n > 1 {
      MulAtLeast(k, n - 1);
      assert k * n == k * (n - 1) + k;
    }
  }

  lemma {:induction false} MulAtMost(k: int, n: int)
    requires k > 0 && n <= -1
    ensures k * n <= -k
    decreases -n
  {
    if n < -1 {
      MulAtMost(k, n + 1);
      assert k * n == k * (n + 1) - k;
    }
  }

  lemma {:induction false} DaysBeforeYearGrows(y: int, z: int)
    requires 1 <= y <= z
    ensures DaysBeforeYear(y) + 365 * (z - y) <= DaysBeforeYear(z)
    decreases z - y
  {
    if y < z {
      DaysBeforeYearStep(y);
      DaysBeforeYearGrows(y + 1, z);
    }
  }

  lemma DaysBeforeMonthStep(y: int, m: int)
    requires 1 <= m < 12
    ensures DaysBeforeMonth(y, m + 1) == DaysBeforeMonth(y, m) + DaysInMonth(y, m)
  {
  }

  lemma DaysBeforeMonthInYear(y: int, m: int)
    requires 1 <= m <= 12
    ensures DaysBeforeMonth(y, m) + DaysInMonth(y, m) <= DaysInYear(y)
    ensures m == 12 ==> DaysBeforeMonth(y, m) + DaysInMonth(y, m) == DaysInYear(y)
  {
  }

  lemma {:induction false} DaysBeforeMonthGrows(y: int, m: int, n: int)
    requires 1 <= m < n <= 12
    ensures DaysBeforeMonth(y, m) + DaysInMonth(y, m) <= DaysBeforeMonth(y, n)
    decreases n - m
  {
    DaysBeforeMonthStep(y, m);
    if m + 1 < n {
      DaysBeforeMonthGrows(y, m + 1, n);
    }
  }

  /** Day numbers follow the calendar: one date comes before another exactly when its day number is smaller. */
  lemma DayNumberOrdered(a: Date, b: Date)
    requires IsCalendarDate(a) && IsCalendarDate(b)
    ensures Before(a, b) <==> DayNumber(a) < DayNumber(b)
  {
    if Before(a, b) {
      DayNumberBelow(a, b);
    } else if Before(b, a) {
      DayNumberBelow(b, a);
    }
  }

  lemma DayNumberBelow(a: Date, b: Date)
    requires IsCalendarDate(a) && IsCalendarDate(b) && Before(a, b)
    ensures DayNumber(a) < DayNumber(b)
  {
    if a.year < b.year {
      DaysBeforeMonthInYear(a.year, a.month);
      DaysBeforeYearStep(a.year);
      DaysBeforeYearGrows(a.year + 1, b.year);
    } else if a.month < b.month {
      DaysBeforeMonthGrows(a.year, a.month, b.month);
    }
  }

  /** The day after a date is again a date, one day number later. */
  lemma DayNumberNextDay(d: Date)
    requires IsCalendarDate(d) && d != LastDate
    ensures IsCalendarDate(NextDay(d))
    ensures DayNumber(NextDay(d)) == DayNumber(d) + 1
  {
    if d.day == DaysInMonth(d.year, d.month) {
      if d.month < 12 {
        DaysBeforeMonthStep(d.year, d.month);
      } else {
        DaysBeforeMonthInYear(d.year, d.month);
        DaysBeforeYearStep(d.year);
      }
    }
  }

  lemma LastDateDayNumber()
    ensures IsCalendarDate(LastDate) && DayNumber(LastDate) == MaxDayNumber
  {
  }

  /** The date `n` days after `d`, stepping one day at a time. */
  function AddDays(d: Date, n: nat): (r: Date)
    requires IsCalendarDate(d) && DayNumber(d) + n <= MaxDayNumber
    ensures IsCalendarDate(r) && DayNumber(r) == DayNumber(d) + n
    decreases n
  {
    if n == 0 then d
    else
      LastDateDayNumber();
      DayNumberNextDay(d);
      AddDays(NextDay(d), n - 1)
  }
}
