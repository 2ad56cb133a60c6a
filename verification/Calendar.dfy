/** The proleptic Gregorian calendar, counted one year and one month at a time from 1970-01-01.
    It is the reference the closed forms of common/date_time.c are measured against. */
module Calendar {

  const SECONDS_PER_DAY := 86400

  predicate Leap(y: int) {
    y % 4 == 0 && (y % 100 != 0 || y % 400 == 0)
  }

  function DaysInYear(y: int): int {
    if Leap(y) then 366 else 365
  }

  function DaysInMonth(y: int, m: int): int {
    if m == 2 then (if Leap(y) then 29 else 28)
    else if m == 4 || m == 6 || m == 9 || m == 11 then 30
    else 31
  }

  function DaysBeforeYear(y: int): int
    requires 1970 <= y
    decreases y
  {
    if y == 1970 then 0 else DaysBeforeYear(y - 1) + DaysInYear(y - 1)
  }

  function DaysBeforeMonth(y: int, m: int): int
    requires 1 <= m <= 12
    decreases m
  {
    if m == 1 then 0 else DaysBeforeMonth(y, m - 1) + DaysInMonth(y, m - 1)
  }

  /** A day of the calendar on or after 1970-01-01. */
  predicate CivilDay(y: int, m: int, d: int) {
    1970 <= y && 1 <= m <= 12 && 1 <= d <= DaysInMonth(y, m)
  }

  /** Days elapsed since 1970-01-01. */
  function DayNumber(y: int, m: int, d: int): int
    requires CivilDay(y, m, d)
  {
    DaysBeforeYear(y) + DaysBeforeMonth(y, m) + d - 1
  }

  /** The closed form in which January and February close the previous year:
      days since 0000-03-01 of the first day of month m (3..14) of year y. */
  function MarchDays(y: int, m: int): int {
    365 * y + LeapDays(y) + 30 * m + 3 * (m + 1) / 5 - 92
  }

  /** Multiples of four, hundred and four hundred up to y: the leap days of the years 1 to y. */
  function LeapDays(y: int): int { y / 4 - y / 100 + y / 400 }

  lemma LeapDaysStep(y: int)
    ensures LeapDays(y) == LeapDays(y - 1) + (if Leap(y) then 1 else 0)
  {
    assert y / 4 == (y - 1) / 4 + (if y % 4 == 0 then 1 else 0);
    assert y / 100 == (y - 1) / 100 + (if y % 100 == 0 then 1 else 0);
    assert y / 400 == (y - 1) / 400 + (if y % 400 == 0 then 1 else 0);
    Multiples(y);
  }

  lemma Multiples(y: int)
    ensures y % 100 == 0 ==> y % 4 == 0
    ensures y % 400 == 0 ==> y % 100 == 0
  {
  }

  lemma {:induction false} DaysBeforeYearClosed(y: int)
    requires 1970 <= y
    ensures DaysBeforeYear(y) == 365 * (y - 1) + LeapDays(y - 1) - 719162
    decreases y
  {
    if y > 1970 {
      DaysBeforeYearClosed(y - 1);
      LeapDaysStep(y - 1);
    }
  }

  lemma {:induction false} DaysBeforeMonthClosed(y: int, m: int)
    requires 1 <= m <= 12
    ensures DaysBeforeMonth(y, m) ==
            if m <= 2 then 31 * (m - 1)
            else 30 * m + 3 * (m + 1) / 5 - 92 + 59 + (if Leap(y) then 1 else 0)
  {
    if m > 1 { DaysBeforeMonthClosed(y, m - 1); }
  }

  lemma DayNumberClosed(y: int, m: int, d: int)
    requires CivilDay(y, m, d)
    ensures DayNumber(y, m, d) ==
            (if m <= 2 then MarchDays(y - 1, m + 12) else MarchDays(y, m)) + d - 1 - 719468
  {
    DaysBeforeYearClosed(y);
    DaysBeforeMonthClosed(y, m);
    if m > 2 { LeapDaysStep(y); }
  }

  lemma {:induction false} DaysBeforeMonthGrows(y: int, m1: int, m2: int)
    requires 1 <= m1 < m2 <= 12
    ensures DaysBeforeMonth(y, m1) + DaysInMonth(y, m1) <= DaysBeforeMonth(y, m2)
    decreases m2
  {
    if m1 < m2 - 1 { DaysBeforeMonthGrows(y, m1, m2 - 1); }
  }

  lemma {:induction false} DaysBeforeYearGrows(y1: int, y2: int)
    requires 1970 <= y1 < y2
    ensures DaysBeforeYear(y1) + DaysInYear(y1) <= DaysBeforeYear(y2)
    decreases y2
  {
    if y1 < y2 - 1 { DaysBeforeYearGrows(y1, y2 - 1); }
  }

  lemma DayWithinYear(y: int, m: int, d: int)
    requires CivilDay(y, m, d)
    ensures 0 <= DaysBeforeMonth(y, m)
    ensures DaysBeforeMonth(y, m) + d <= DaysInYear(y)
  {
    DaysBeforeMonthClosed(y, m);
    DaysBeforeMonthClosed(y, 12);
  }

  /** The day number orders days as (year, month, day) does. */
  lemma DayNumberStrictlyMonotone(y1: int, m1: int, d1: int, y2: int, m2: int, d2: int)
    requires CivilDay(y1, m1, d1) && CivilDay(y2, m2, d2)
    requires y1 < y2 || (y1 == y2 && (m1 < m2 || (m1 == m2 && d1 < d2)))
    ensures DayNumber(y1, m1, d1) < DayNumber(y2, m2, d2)
  {
    DayWithinYear(y1, m1, d1);
    DayWithinYear(y2, m2, d2);
    if y1 < y2 {
      DaysBeforeYearGrows(y1, y2);
    } else if m1 < m2 {
      DaysBeforeMonthGrows(y1, m1, m2);
    }
  }
}
