/** The proleptic Gregorian calendar as Python's `datetime` and pandas use it:
    leap years, cumulative month lengths, day-of-year, and the day count from
    0001-01-01 (`date.toordinal`). */
module Calendar {

  import opened Arith

  predicate IsLeapYear(y: int) {
    y % 4 == 0 && (y % 100 != 0 || y % 400 == 0)
  }

  function YearLength(y: int): (n: int)
    ensures n == 365 || n == 366
  {
    if IsLeapYear(y) then 366 else 365
  }

  function DaysInMonth(y: int, m: int): (n: int)
    requires 1 <= m <= 12
    ensures 28 <= n <= 31
  {
    if m == 2 then (if IsLeapYear(y) then 29 else 28)
    else if m == 4 || m == 6 || m == 9 || m == 11 then 30
    else 31
  }

  /** Days of year `y` before the first of month `m` (month 13 stands for
      the end of the year), as a cumulative table with the leap day added
      from March on. */
  function DaysBeforeMonth(y: int, m: int): int
    requires 1 <= m <= 13
  {
    var table := [0, 31, 59, 90, 120, 151, 181, 212, 243, 273, 304, 334, 365];
    table[m - 1] + (if m > 2 && IsLeapYear(y) then 1 else 0)
  }

  /** The cumulative table agrees with the month lengths, and its last entry
      is the length of the year. */
  lemma MonthTableConsistent(y: int, m: int)
    requires 1 <= m <= 12
    ensures DaysBeforeMonth(y, m + 1) == DaysBeforeMonth(y, m) + DaysInMonth(y, m)
    ensures DaysBeforeMonth(y, 1) == 0 && DaysBeforeMonth(y, 13) == YearLength(y)
  {
  }

  predicate ValidDate(y: int, m: int, d: int) {
    1 <= m <= 12 && 1 <= d <= DaysInMonth(y, m)
  }

  /** The leap rule decides exactly whether February 29th exists, and so
      whether the year has a day 366. */
  lemma LeapDayExists(y: int)
    ensures ValidDate(y, 2, 29) <==> IsLeapYear(y)
    ensures YearLength(y) == 366 <==> ValidDate(y, 2, 29)
  {
  }

  /** The four years of the data: only 2020 is a leap year. The century
      rule: 1900 is not a leap year, 2000 is. */
  lemma DataYears()
    ensures IsLeapYear(2020) && !IsLeapYear(2019) && !IsLeapYear(2021) && !IsLeapYear(2022)
    ensures !IsLeapYear(1900) && IsLeapYear(2000)
  {
  }

  /** Position of a date in its year, 1 for January 1st (pandas `dayofyear`). */
  function DayOfYear(y: int, m: int, d: int): (n: int)
    requires ValidDate(y, m, d)
    ensures 1 <= n <= YearLength(y)
    ensures DaysBeforeMonth(y, m) < n <= DaysBeforeMonth(y, m + 1)
  {
    MonthTableConsistent(y, m);
    DaysBeforeMonth(y, m) + d
  }

  /** The month holding day `n` of year `y`: the last month `<= m` that starts
      before day `n`. */
  function MonthOf(y: int, n: int, m: int): (r: int)
    requires 1 <= m <= 12 && 1 <= n <= DaysBeforeMonth(y, m + 1)
    ensures 1 <= r <= m
    ensures DaysBeforeMonth(y, r) < n <= DaysBeforeMonth(y, r + 1)
  {
    if m == 1 || DaysBeforeMonth(y, m) < n then m else MonthOf(y, n, m - 1)
  }

  /** The (month, day) that is day `n` of year `y`. */
  function MonthDay(y: int, n: int): (md: (int, int))
    requires 1 <= n <= YearLength(y)
    ensures ValidDate(y, md.0, md.1) && DayOfYear(y, md.0, md.1) == n
  {
    MonthTableConsistent(y, 12);
    var m := MonthOf(y, n, 12);
    MonthTableConsistent(y, m);
    (m, n - DaysBeforeMonth(y, m))
  }

  /** Day-of-year is an order isomorphism from the valid dates of a year onto
      `1..YearLength(y)`: it is strictly increasing in (month, day) ... */
  lemma DayOfYearOrder(y: int, m1: int, d1: int, m2: int, d2: int)
    requires ValidDate(y, m1, d1) && ValidDate(y, m2, d2)
    ensures (m1 < m2 || (m1 == m2 && d1 < d2)) <==> DayOfYear(y, m1, d1) < DayOfYear(y, m2, d2)
  {
    if m1 < m2 {
      DaysBeforeMonthMonotone(y, m1 + 1, m2);
    } else if m2 < m1 {
      DaysBeforeMonthMonotone(y, m2 + 1, m1);
    }
  }

  /** ... and every day number is reached, by exactly the date `MonthDay`
      names. */
  lemma DayOfYearRoundTrip(y: int, m: int, d: int)
    requires ValidDate(y, m, d)
    ensures MonthDay(y, DayOfYear(y, m, d)) == (m, d)
  {
    var md := MonthDay(y, DayOfYear(y, m, d));
    DayOfYearOrder(y, m, d, md.0, md.1);
    DayOfYearOrder(y, md.0, md.1, m, d);
  }

  lemma DaysBeforeMonthMonotone(y: int, a: int, b: int)
    requires 1 <= a <= b <= 13
    ensures DaysBeforeMonth(y, a) <= DaysBeforeMonth(y, b)
  {
  }

  /** Days in the years before `y`: the Gregorian count Python's
      `date.toordinal` starts from. */
  function DaysBeforeYear(y: int): int {
    var p := y - 1;
    365 * p + p / 4 - p / 100 + p / 400
  }

  lemma YearStep(y: int)
    ensures DaysBeforeYear(y + 1) == DaysBeforeYear(y) + YearLength(y)
  {
    var p := y - 1;
    StepDiv(p, 4);
    StepDiv(p, 100);
    StepDiv(p, 400);
    assert y % 4 == 0 <==> (p + 1) % 4 == 0;
  }

  /** Raising the dividend by one raises the (floor) quotient exactly when
      the new dividend is a multiple. */
  lemma StepDiv(p: int, k: int)
    requires k > 0
    ensures (p + 1) / k == p / k + (if (p + 1) % k == 0 then 1 else 0)
  {
    var q, r := p / k, p % k;
    assert p == q * k + r;
    if r == k - 1 {
      assert p + 1 == (q + 1) * k + 0;
      DivModUnique(p + 1, k, q + 1, 0);
    } else {
      assert p + 1 == q * k + (r + 1);
      DivModUnique(p + 1, k, q, r + 1);
    }
  }

  /** The day number of a date counted from 0001-01-01 as day 1. */
  function Ordinal(y: int, m: int, d: int): int
    requires ValidDate(y, m, d)
  {
    DaysBeforeYear(y) + DayOfYear(y, m, d)
  }

  lemma {:induction false} DaysBeforeYearMonotone(a: int, b: int)
    requires a <= b
    ensures DaysBeforeYear(a) + 365 * (b - a) <= DaysBeforeYear(b)
    decreases b - a
  {
    if a < b {
      YearStep(b - 1);
      DaysBeforeYearMonotone(a, b - 1);
    }
  }

  /** Distinct dates have distinct ordinals, so a date is pinned down by its
      ordinal. */
  lemma OrdinalInjective(y1: int, m1: int, d1: int, y2: int, m2: int, d2: int)
    requires ValidDate(y1, m1, d1) && ValidDate(y2, m2, d2)
    requires Ordinal(y1, m1, d1) == Ordinal(y2, m2, d2)
    ensures y1 == y2 && m1 == m2 && d1 == d2
  {
    if y1 < y2 {
      YearStep(y1);
      DaysBeforeYearMonotone(y1 + 1, y2);
    } else if y2 < y1 {
      YearStep(y2);
      DaysBeforeYearMonotone(y2 + 1, y1);
    } else {
      DayOfYearRoundTrip(y1, m1, d1);
      DayOfYearRoundTrip(y2, m2, d2);
    }
  }

  /** The date that is day `n` counted from January 1st of year `y` (day 1),
      for any `n`: days past the end of the year run into the following
      years, days before the 1st into the preceding ones. This is
      `datetime(y, 1, 1) + timedelta(days=n-1)`. */
  function DateOfDay(y: int, n: int): (date: (int, int, int))
    ensures ValidDate(date.0, date.1, date.2)
    ensures Ordinal(date.0, date.1, date.2) == DaysBeforeYear(y) + n
    decreases if n < 1 then 1 else 0, if n < 1 then -n else n
  {
    if n < 1 then
      YearStep(y - 1);
      DateOfDay(y - 1, n + YearLength(y - 1))
    else if n > YearLength(y) then
      YearStep(y);
      DateOfDay(y + 1, n - YearLength(y))
    else
      var md := MonthDay(y, n);
      (y, md.0, md.1)
  }

  /** Ordinal of 9999-12-31, the last date Python's `datetime` can hold. */
  const MaxOrdinal: int := 3652059

  /** A date lies in years 1..9999 exactly when its ordinal lies in
      1..MaxOrdinal. */
  lemma OrdinalInRange(y: int, m: int, d: int)
    requires ValidDate(y, m, d)
    ensures 1 <= y <= 9999 <==> 1 <= Ordinal(y, m, d) <= MaxOrdinal
  {
    YearStep(y);
    assert DaysBeforeYear(1) == 0;
    assert DaysBeforeYear(10000) == MaxOrdinal;
    if y < 1 {
      DaysBeforeYearMonotone(y + 1, 1);
    } else if y <= 9999 {
      DaysBeforeYearMonotone(1, y);
      DaysBeforeYearMonotone(y + 1, 10000);
    } else {
      DaysBeforeYearMonotone(10000, y);
    }
  }
}
