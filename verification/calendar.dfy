/**
 The proleptic Gregorian calendar as Python's `datetime` module counts it: a date is a
 (year, month, day) triple with year 1..9999, and its ordinal is the number of days from
 0001-01-01 (ordinal 1). Subtracting two `datetime` values at midnight yields the difference
 of their ordinals in whole days.
 */
module Calendar {

  /** A calendar date; only `Valid` dates are produced by the parser. */
  datatype Date = Date(year: int, month: int, day: int)

  /** Python's `datetime.MINYEAR` and `datetime.MAXYEAR`. */
  const MinYear: int := 1
  const MaxYear: int := 9999

  predicate IsLeap(y: int) {
    y % 4 == 0 && (y % 100 != 0 || y % 400 == 0)
  }

  function YearLength(y: int): (n: int)
    ensures n == 365 || n == 366
    ensures n == 366 <==> IsLeap(y)
  {
    if IsLeap(y) then 366 else 365
  }

  /** The number of days in month `m` of year `y`. */
  function DaysInMonth(y: int, m: int): (n: int)
    requires 1 <= m <= 12
    ensures 28 <= n <= 31
    ensures m == 2 ==> (n == 29 <==> IsLeap(y))
    ensures m != 2 ==> n >= 30
  {
    if m == 2 then (if IsLeap(y) then 29 else 28)
    else if m == 4 || m == 6 || m == 9 || m == 11 then 30
    else 31
  }

  /** A date `datetime.date` accepts: year in range, month 1..12, day within the month. */
  predicate Valid(d: Date) {
    && MinYear <= d.year <= MaxYear
    && 1 <= d.month <= 12
    && 1 <= d.day <= DaysInMonth(d.year, d.month)
  }

  /** Days in the months of a common year that precede each month (Python's `_DAYS_BEFORE_MONTH`). */
  const CommonDaysBefore: seq<int> := [0, 31, 59, 90, 120, 151, 181, 212, 243, 273, 304, 334]

  /** Days in year `y` before the first of month `m` (Python's `_days_before_month`). */
  function DaysBeforeMonth(y: int, m: int): int
    requires 1 <= m <= 12
  {
    CommonDaysBefore[m - 1] + (if m > 2 && IsLeap(y) then 1 else 0)
  }

  /** Days before January 1st of year `y`, counted from 0001-01-01 (Python's `_days_before_year`). */
  function DaysBeforeYear(y: int): int
    requires y >= 1
  {
    var n := y - 1;
    n * 365 + n / 4 - n / 100 + n / 400
  }

  /** The ordinal of a date: 0001-01-01 is day 1 (Python's `date.toordinal`). */
  function Ordinal(d: Date): (r: int)
    requires Valid(d)
    ensures r >= 1
    ensures r == YearsSpan(d.year) + MonthsSpan(d.year, d.month) + d.day
  {
    DaysBeforeYearIsSum(d.year);
    DaysBeforeMonthIsSum(d.year, d.month);
    DaysBeforeYear(d.year) + DaysBeforeMonth(d.year, d.month) + d.day
  }

  /** `a` falls strictly before `b` on the calendar: lexicographic order of (year, month, day). */
  predicate Before(a: Date, b: Date) {
    || a.year < b.year
    || (a.year == b.year && a.month < b.month)
    || (a.year == b.year && a.month == b.month && a.day < b.day)
  }

  // Reference definitions: the same counts obtained by adding up month and year lengths one at a time.

  /** The lengths of months 1..m-1 of year `y`, added one by one. */
  function MonthsSpan(y: int, m: int): int
    requires 1 <= m <= 13
  {
    if m == 1 then 0 else MonthsSpan(y, m - 1) + DaysInMonth(y, m - 1)
  }

  /** The lengths of years 1..y-1, added one by one. */
  function YearsSpan(y: int): int
    requires y >= 1
  {
    if y == 1 then 0 else YearsSpan(y - 1) + YearLength(y - 1)
  }

  /** The month table agrees with adding up month lengths. */
  lemma {:induction false} DaysBeforeMonthIsSum(y: int, m: int)
    requires 1 <= m <= 12
    ensures DaysBeforeMonth(y, m) == MonthsSpan(y, m)
  {
    if m > 1 {
      DaysBeforeMonthIsSum(y, m - 1);
    }
  }

  /** The twelve months of a year add up to the length of the year. */
  lemma MonthsFillYear(y: int)
    ensures MonthsSpan(y, 13) == YearLength(y)
  {
    DaysBeforeMonthIsSum(y, 12);
  }

  /** One step of floor division: `n / k` grows by one exactly when `n` is a multiple of `k`. */
  lemma FloorStep(n: int, k: int)
    requires n >= 1 && k >= 1
    ensures n / k - (n - 1) / k == (if n % k == 0 then 1 else 0)
  {
    var q, r := n / k, n % k;
    assert n == k * q + r;
    if r == 0 {
      assert n - 1 == k * (q - 1) + (k - 1);
      DivUnique(n - 1, k, q - 1, k - 1);
    } else {
      assert n - 1 == k * q + (r - 1);
      DivUnique(n - 1, k, q, r - 1);
    }
  }

  /** Division is determined by any quotient/remainder decomposition. */
  lemma DivUnique(n: int, k: int, q: int, r: int)
    requires k >= 1 && 0 <= r < k && n == k * q + r
    ensures n / k == q
  {
    var q', r' := n / k, n % k;
    assert k * (q' - q) == r - r';
    if q' > q {
      MulAtLeast(k, q' - q);
    } else if q' < q {
      MulAtLeast(k, q - q');
    }
  }

  lemma MulAtLeast(k: int, m: int)
    requires k >= 1 && m >= 1
    ensures k * m >= k
  {
  }

  /** Divisibility by 400 implies divisibility by 100, which implies divisibility by 4. */
  lemma CenturyDivisors(n: int)
    ensures n % 400 == 0 ==> n % 100 == 0
    ensures n % 100 == 0 ==> n % 4 == 0
  {
    if n % 400 == 0 {
      var q := n / 400;
      assert n == 100 * (4 * q);
    }
    if n % 100 == 0 {
      var q := n / 100;
      assert n == 4 * (25 * q);
    }
  }

  /** The closed form of Python's `_days_before_year` equals the year-by-year sum of year lengths. */
  lemma {:induction false} DaysBeforeYearIsSum(y: int)
    requires y >= 1
    ensures DaysBeforeYear(y) == YearsSpan(y)
  {
    if y > 1 {
      DaysBeforeYearIsSum(y - 1);
      var n := y - 1;
      FloorStep(n, 4);
      FloorStep(n, 100);
      FloorStep(n, 400);
      CenturyDivisors(n);
      assert DaysBeforeYear(y) - DaysBeforeYear(y - 1) == YearLength(n);
    }
  }

  /** A year's ordinals lie strictly after the days of the years before it and fill at most its own length. */
  lemma OrdinalWithinYear(d: Date)
    requires Valid(d)
    ensures DaysBeforeYear(d.year) < Ordinal(d) <= DaysBeforeYear(d.year) + YearLength(d.year)
  {
  }

  /** Every day of an earlier month precedes the first day of a later month of the same year. */
  lemma MonthsOrdered(y: int, m1: int, m2: int)
    requires 1 <= m1 < m2 <= 12
    ensures DaysBeforeMonth(y, m1) + DaysInMonth(y, m1) <= DaysBeforeMonth(y, m2)
  {
  }

  /** Every day of an earlier year precedes every day of a later year. */
  lemma {:induction false} YearsOrdered(y1: int, y2: int)
    requires 1 <= y1 < y2
    ensures DaysBeforeYear(y1) + YearLength(y1) <= DaysBeforeYear(y2)
  {
    DaysBeforeYearIsSum(y2);
    DaysBeforeYearIsSum(y1);
    if y2 == y1 + 1 {
    } else {
      YearsOrdered(y1, y2 - 1);
      DaysBeforeYearIsSum(y2 - 1);
    }
  }

  /** The ordinal orders valid dates exactly as the calendar does. */
  lemma OrdinalOrder(a: Date, b: Date)
    requires Valid(a) && Valid(b)
    ensures Before(a, b) <==> Ordinal(a) < Ordinal(b)
    ensures a == b <==> Ordinal(a) == Ordinal(b)
  {
    OrdinalWithinYear(a);
    OrdinalWithinYear(b);
    if a.year < b.year {
      YearsOrdered(a.year, b.year);
    } else if b.year < a.year {
      YearsOrdered(b.year, a.year);
    } else if a.month < b.month {
      MonthsOrdered(a.year, a.month, b.month);
    } else if b.month < a.month {
      MonthsOrdered(a.year, b.month, a.month);
    }
  }

  /** 0001-01-01 is ordinal 1, as in Python's `date.toordinal`. */
  lemma FirstOrdinal()
    ensures Ordinal(Date(1, 1, 1)) == 1
  {
  }
}
