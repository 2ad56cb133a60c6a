/** Seconds to date and back, date comparison and day of week: common/date_time.c. */
module DateTimes {
  import opened Calendar

  type u8 = x: int | 0 <= x < 0x100
  type u16 = x: int | 0 <= x < 0x1_0000

  /** Wrap-around of the 32-bit unsigned arithmetic. */
  function U32(x: int): int { x % 0x1_0000_0000 }

  datatype Date = Date(year: u16, month: u8, day: u8, dayOfWeek: u8,
                       hours: u8, minutes: u8, seconds: u8, milliseconds: u16)

  /** First second whose year no longer fits in 16 bits: 65536-01-01 00:00:00. */
  const YEAR_LIMIT := 2005949145600

  /** The calendar time a date stands for. */
  predicate Civil(dt: Date) {
    CivilDay(dt.year, dt.month, dt.day) && dt.hours < 24 && dt.minutes < 60 && dt.seconds < 60
  }

  function SecondsOf(dt: Date): int
    requires Civil(dt)
  {
    SECONDS_PER_DAY * DayNumber(dt.year, dt.month, dt.day) + 3600 * dt.hours + 60 * dt.minutes + dt.seconds
  }

  /* ---- the code's closed forms ---- */

  function DayOfWeek(y0: u16, m0: u8, d: u8): u8 {
    var m := if m0 <= 2 then m0 + 12 else m0;
    var y := if m0 <= 2 then (y0 - 1) % 0x1_0000 else y0;
    var j := y / 100;
    var k := y % 100;
    var h := d + 26 * (m + 1) / 10 + k + k / 4 + 5 * j + j / 4;
    (h + 5) % 7 + 1
  }

  /** Day number D shifted and with the skipped century leap days put back. */
  function JulianDay(D: nat): int {
    var a := U32((4 * D + 102032) / 146097 + 15);
    U32(D + 2442113 + a - a / 4)
  }

  function ShiftedYear(b: int): int { U32(20 * b - 2442) / 7305 }

  /** Year, month and day from the shifted year c and the shifted day d within it. */
  function MonthAndDay(c: int, d: int): (u16, u8, u8) {
    var e := U32(d * 1000) / 30601;
    var f := U32(d - e * 30 - U32(e * 601) / 1000);
    if e <= 13 then (U32(c - 4716) % 0x1_0000, U32(e - 1) % 0x100, f % 0x100)
    else (U32(c - 4715) % 0x1_0000, U32(e - 13) % 0x100, f % 0x100)
  }

  /** Year, month and day of day number D, each intermediate reduced to 32 bits. */
  function DateOfDay(D: nat): (u16, u8, u8) {
    var b := JulianDay(D);
    var c := ShiftedYear(b);
    MonthAndDay(c, U32(b - 365 * c - c / 4))
  }

  function UnixTimeToDate(t0: int): Date {
    var t := if t0 < 1 then 0 else t0;
    var (y, m, d) := DateOfDay(t / 60 / 60 / 24);
    Date(y, m, d, DayOfWeek(y, m, d), t / 60 / 60 % 24, t / 60 % 60, t % 60, 0)
  }

  function DateToUnixTime(dt: Date): int {
    var m := if dt.month <= 2 then dt.month + 12 else dt.month;
    var y := if dt.month <= 2 then U32(dt.year - 1) else dt.year;
    var days := U32(U32(365 * y) + y / 4 - y / 100 + y / 400) + U32(30 * m + 3 * (m + 1) / 5 + dt.day) - 719561;
    days * 86400 + 3600 * dt.hours + 60 * dt.minutes + dt.seconds
  }

  function Sign(x: int): int { if x < 0 then -1 else if x > 0 then 1 else 0 }

  function CompareDateTime(a: Date, b: Date): int {
    if a.year < b.year then -1
    else if a.year > b.year then 1
    else if a.month < b.month then -1
    else if a.month > b.month then 1
    else if a.day < b.day then -1
    else if a.day > b.day then 1
    else if a.hours < b.hours then -1
    else if a.hours > b.hours then 1
    else if a.minutes < b.minutes then -1
    else if a.minutes > b.minutes then 1
    else if a.seconds < b.seconds then -1
    else if a.seconds > b.seconds then 1
    else if a.milliseconds < b.milliseconds then -1
    else if a.milliseconds > b.milliseconds then 1
    else 0
  }

  /* ---- seconds to date ---- */

  /** Century, then year, then day of a year that starts in March, for a day counted from 0000-03-01. */
  lemma MarchForm(N: nat, C: int, J: int, Y: int, r: int)
    requires C == (4 * N + 3) / 146097
    requires J == N + C - C / 4
    requires Y == (4 * J + 3) / 1461
    requires r == J - 365 * Y - Y / 4
    ensures 0 <= r <= 365 && 0 <= Y
    ensures N == 365 * Y + LeapDays(Y) + r
    ensures r == 365 ==> Leap(Y + 1)
  {
    var q, s := C / 4, C % 4;
    var n := N - 146097 * q;
    assert s == (4 * n + 3) / 146097;
    Century(n, s);
    var yr := (4 * (n + s) + 3) / 1461;
    YearOfCycle(q, n + s, yr, J, Y);
    YearOfCentury(n, s, yr);
    CycleLeapDays(q, s, yr);
  }

  lemma YearOfCycle(q: int, j: int, yr: int, J: int, Y: int)
    requires J == 146100 * q + j && yr == (4 * j + 3) / 1461 && Y == (4 * J + 3) / 1461
    ensures Y == 400 * q + yr
  {
  }

  lemma CycleLeapDays(q: int, s: int, yr: int)
    requires 0 <= s < 4 && 100 * s <= yr < 100 * (s + 1)
    ensures (400 * q + yr) / 4 == 100 * q + yr / 4
    ensures LeapDays(400 * q + yr) == 97 * q + yr / 4 - s
    ensures Leap(400 * q + yr + 1) == Leap(yr + 1)
  {
    hide Leap;
    assert (400 * q + yr) / 4 == 100 * q + yr / 4;
    assert (400 * q + yr) / 100 == 4 * q + s;
    assert (400 * q + yr) / 400 == q;
    LeapCycle(q, yr + 1);
  }

  lemma LeapCycle(q: int, y: int)
    ensures Leap(400 * q + y) == Leap(y)
  {
    Remainders(q, y);
  }

  lemma Remainders(q: int, y: int)
    ensures (400 * q + y) % 4 == y % 4 && (400 * q + y) % 100 == y % 100 && (400 * q + y) % 400 == y % 400
  {
    assert (400 * q + y) / 4 == 100 * q + y / 4;
    assert (400 * q + y) / 100 == 4 * q + y / 100;
    assert (400 * q + y) / 400 == q + y / 400;
  }

  /** Century s of day n of a 400-year cycle. */
  lemma Century(n: int, s: int)
    requires 0 <= s < 4
    requires s == (4 * n + 3) / 146097
    ensures 36524 * s <= n < 36524 * (s + 1) + (if s == 3 then 1 else 0)
  {
  }

  lemma YearOfCentury(n: int, s: int, yr: int)
    requires 0 <= s < 4
    requires 36524 * s <= n < 36524 * (s + 1) + (if s == 3 then 1 else 0)
    requires yr == (4 * (n + s) + 3) / 1461
    ensures 100 * s <= yr < 100 * (s + 1)
    ensures var r := n + s - 365 * yr - yr / 4; 0 <= r <= 365 && (r == 365 ==> Leap(yr + 1))
  {
  }

  /** The month table of the March year: e is the month number plus one, f the day of the month. */
  lemma MonthForm(r: int, e: int, f: int)
    requires 0 <= r <= 365
    requires e == (r + 123) * 1000 / 30601
    requires f == r + 123 - e * 30 - e * 601 / 1000
    ensures 4 <= e <= 15
    ensures 30 * (e - 1) + 3 * e / 5 - 92 + f - 1 == r
    ensures 1 <= f <= 31
    ensures e - 1 == 4 || e - 1 == 6 || e - 1 == 9 || e - 1 == 11 ==> f <= 30
    ensures e - 1 == 14 ==> f <= 29 && (r < 365 ==> f <= 28)
  {
  }

  lemma U32Fits(x: int)
    requires 0 <= x < 0x1_0000_0000
    ensures U32(x) == x
  {
  }

  /** No 32-bit intermediate wraps, and each is a shifted March quantity. */
  lemma CenturyUnwrap(D: nat, a: int, b: int, C: int, J: int)
    requires D < YEAR_LIMIT / 86400
    requires a == (4 * D + 102032) / 146097 + 15 && b == D + 2442113 + a - a / 4
    requires C == (4 * (D + 719468) + 3) / 146097 && J == D + 719468 + C - C / 4
    ensures a == C - 4 && b == J + 1722642
    ensures 0 <= a < 0x1_0000_0000 && 0 <= b < 30000000
  {
  }

  lemma YearUnwrap(b: int, J: int, c: int, Y: int, r: int, d: int)
    requires b == J + 1722642 && 0 <= J < 28000000
    requires c == (20 * b - 2442) / 7305 && d == b - 365 * c - c / 4
    requires Y == (4 * J + 3) / 1461 && r == J - 365 * Y - Y / 4
    ensures c == Y + 4716 && d == r + 123
    ensures 0 <= 20 * b - 2442 < 0x1_0000_0000
  {
  }

  lemma DateOfDayUnwrapped(D: nat, C: int, J: int, Y: int, r: int, e: int, f: int)
    requires D < YEAR_LIMIT / 86400
    requires C == (4 * (D + 719468) + 3) / 146097 && J == D + 719468 + C - C / 4
    requires Y == (4 * J + 3) / 1461 && r == J - 365 * Y - Y / 4
    requires 0 <= r <= 365 && e == (r + 123) * 1000 / 30601 && 4 <= e <= 15
    requires f == r + 123 - e * 30 - e * 601 / 1000 && 1 <= f <= 31
    requires 1969 <= Y < 65536
    requires e > 13 ==> Y < 65535
    requires 0 <= J < 28000000
    ensures DateOfDay(D) == if e <= 13 then (Y, e - 1, f) else (Y + 1, e - 13, f)
  {
    var a := (4 * D + 102032) / 146097 + 15;
    var b := D + 2442113 + a - a / 4;
    CenturyUnwrap(D, a, b, C, J);
    U32Fits(a);
    U32Fits(b);
    var c := (20 * b - 2442) / 7305;
    var d := b - 365 * c - c / 4;
    YearUnwrap(b, J, c, Y, r, d);
    U32Fits(20 * b - 2442);
    U32Fits(d);
    assert DateOfDay(D) == MonthAndDay(Y + 4716, r + 123);
    MonthUnwrap(Y, r, e, f);
  }

  lemma MonthUnwrap(Y: int, r: int, e: int, f: int)
    requires 0 <= r <= 365 && e == (r + 123) * 1000 / 30601 && 4 <= e <= 15
    requires f == r + 123 - e * 30 - e * 601 / 1000 && 1 <= f <= 31
    requires 1969 <= Y < 65536
    requires e > 13 ==> Y < 65535
    ensures MonthAndDay(Y + 4716, r + 123) == if e <= 13 then (Y, e - 1, f) else (Y + 1, e - 13, f)
  {
    U32Fits((r + 123) * 1000);
    U32Fits(e * 601);
    U32Fits(f);
    if e <= 13 {
      U32Fits(Y);
      U32Fits(e - 1);
    } else {
      U32Fits(Y + 1);
      U32Fits(e - 13);
    }
  }

  /** The closed form picks the calendar's own date for every day whose year fits 16 bits. */
  lemma DateOfDayCorrect(D: nat)
    requires D < YEAR_LIMIT / 86400
    ensures var (y, m, d) := DateOfDay(D); CivilDay(y, m, d) && DayNumber(y, m, d) == D
  {
    hide DateOfDay, LeapDays, DayNumber, Leap;
    var N := D + 719468;
    var C := (4 * N + 3) / 146097;
    var J := N + C - C / 4;
    var Y := (4 * J + 3) / 1461;
    var r := J - 365 * Y - Y / 4;
    MarchForm(N, C, J, Y, r);
    var e := (r + 123) * 1000 / 30601;
    var f := r + 123 - e * 30 - e * 601 / 1000;
    MonthForm(r, e, f);
    YearRange(D, Y, r, e);
    DateOfDayUnwrapped(D, C, J, Y, r, e, f);
    var (y, m, d) := DateOfDay(D);
    DayNumberClosed(y, m, d);
  }

  lemma YearRange(D: nat, Y: int, r: int, e: int)
    requires D < YEAR_LIMIT / 86400
    requires D + 719468 == 365 * Y + LeapDays(Y) + r && 0 <= r <= 365
    requires e == (r + 123) * 1000 / 30601
    ensures 1969 <= Y < 65536
    ensures e <= 13 ==> 1970 <= Y
    ensures e > 13 ==> Y < 65535
  {
  }

  /* ---- date to seconds, weekday, comparison ---- */

  /** On every calendar time the closed form counts exactly the elapsed seconds. */
  lemma DateToUnixTimeCorrect(dt: Date)
    requires Civil(dt)
    ensures DateToUnixTime(dt) == SecondsOf(dt)
  {
    DayNumberClosed(dt.year, dt.month, dt.day);
    var m := if dt.month <= 2 then dt.month + 12 else dt.month;
    var y := if dt.month <= 2 then dt.year - 1 else dt.year;
    U32Fits(y);
    U32Fits(365 * y);
    YearDaysFit(y);
    U32Fits(365 * y + y / 4 - y / 100 + y / 400);
    U32Fits(30 * m + 3 * (m + 1) / 5 + dt.day);
  }

  lemma YearDaysFit(y: int)
    requires 0 <= y < 0x1_0000
    ensures 0 <= 365 * y + y / 4 - y / 100 + y / 400 < 24000000
  {
  }

  /** Zeller's congruence gives Monday 1 to Sunday 7; day number 0 is a Thursday. */
  lemma DayOfWeekCorrect(y: u16, m: u8, d: u8)
    requires CivilDay(y, m, d)
    ensures DayOfWeek(y, m, d) == (DayNumber(y, m, d) + 3) % 7 + 1
  {
    hide ZellerTerm, MarchDays, DayNumber, DayOfWeek;
    DayNumberClosed(y, m, d);
    var m' := if m <= 2 then m + 12 else m;
    var y' := if m <= 2 then y - 1 else y;
    var h := ZellerTerm(y', m', d);
    DayOfWeekTerm(y, m, d);
    var w := ZellerDays(y', m', d);
    SameWeekday(DayNumber(y, m, d) + 3, h + 5, w);
  }

  lemma DayOfWeekTerm(y: u16, m: u8, d: u8)
    requires 0 < y
    ensures DayOfWeek(y, m, d) == (ZellerTerm(if m <= 2 then y - 1 else y, if m <= 2 then m + 12 else m, d) + 5) % 7 + 1
  {
    assert (y - 1) % 0x1_0000 == y - 1;
    var h := ZellerTerm(if m <= 2 then y - 1 else y, if m <= 2 then m + 12 else m, d);
    assert DayOfWeek(y, m, d) == (h + 5) % 7 + 1;
  }

  function ZellerTerm(y: int, m: int, d: int): int {
    d + 26 * (m + 1) / 10 + y % 100 + y % 100 / 4 + 5 * (y / 100) + y / 100 / 4
  }

  lemma SameWeekday(x: int, h: int, w: int)
    requires x == h + 7 * w
    ensures x % 7 == h % 7
  {
  }

  lemma ZellerDays(y: int, m: int, d: int) returns (w: int)
    requires 0 <= y && 3 <= m <= 14
    ensures MarchDays(y, m) + d - 1 - 719468 + 3 == ZellerTerm(y, m, d) + 5 + 7 * w
  {
    var u := ZellerYear(y);
    var v := ZellerMonth(m);
    w := u + v - 102795;
  }

  /** The century and year terms of Zeller's congruence count the same days modulo 7. */
  lemma ZellerYear(y: int) returns (u: int)
    requires 0 <= y
    ensures 365 * y + LeapDays(y) == y % 100 + y % 100 / 4 + 5 * (y / 100) + y / 100 / 4 + 7 * u
  {
    var j, k := y / 100, y % 100;
    assert y / 4 == 25 * j + k / 4;
    assert y / 400 == j / 4;
    u := 52 * y + 17 * j;
  }

  lemma ZellerMonth(m: int) returns (v: int)
    requires 3 <= m <= 14
    ensures 30 * m + 3 * (m + 1) / 5 == 26 * (m + 1) / 10 - 2 + 7 * v
  {
    v := 4 * m;
  }

  lemma CompareIsSign(a: Date, b: Date)
    requires Civil(a) && Civil(b)
    requires a.milliseconds < 1000 && b.milliseconds < 1000
    ensures CompareDateTime(a, b) ==
            Sign(1000 * (SecondsOf(a) - SecondsOf(b)) + a.milliseconds - b.milliseconds)
  {
    if EarlierDay(a, b) {
      DayNumberStrictlyMonotone(a.year, a.month, a.day, b.year, b.month, b.day);
    } else if EarlierDay(b, a) {
      DayNumberStrictlyMonotone(b.year, b.month, b.day, a.year, a.month, a.day);
    }
  }

  predicate EarlierDay(a: Date, b: Date) {
    a.year < b.year || (a.year == b.year && (a.month < b.month || (a.month == b.month && a.day < b.day)))
  }

  /* ---- main results ---- */

  /** Every second whose year fits 16 bits becomes the calendar time it is, with the right weekday. */
  lemma UnixTimeToDateCorrect(t: int)
    requires 0 <= t < YEAR_LIMIT
    ensures Civil(UnixTimeToDate(t)) && SecondsOf(UnixTimeToDate(t)) == t
    ensures UnixTimeToDate(t).milliseconds == 0
    ensures UnixTimeToDate(t).dayOfWeek == (t / 86400 + 3) % 7 + 1
  {
    var D := t / 60 / 60 / 24;
    assert D == t / 86400;
    DateOfDayCorrect(D);
    var (y, m, d) := DateOfDay(D);
    DayOfWeekCorrect(y, m, d);
  }

  /** A calendar time survives the trip through seconds, losing only its milliseconds and any wrong weekday. */
  lemma DateRoundTrip(dt: Date)
    requires Civil(dt)
    ensures UnixTimeToDate(DateToUnixTime(dt)) ==
            dt.(milliseconds := 0, dayOfWeek := (DayNumber(dt.year, dt.month, dt.day) + 3) % 7 + 1)
  {
    DateToUnixTimeCorrect(dt);
    var t := SecondsOf(dt);
    SecondsBelowLimit(dt);
    UnixTimeToDateCorrect(t);
    CompareIsSign(UnixTimeToDate(t), dt.(milliseconds := 0));
    assert t / 86400 == DayNumber(dt.year, dt.month, dt.day);
  }

  lemma SecondsBelowLimit(dt: Date)
    requires Civil(dt)
    ensures 0 <= SecondsOf(dt) < YEAR_LIMIT
  {
    DayWithinYear(dt.year, dt.month, dt.day);
    DaysBeforeYearClosed(dt.year);
    DaysBeforeYearClosed(65536);
    assert DaysBeforeYear(65536) == YEAR_LIMIT / 86400;
    if dt.year < 65535 { DaysBeforeYearGrows(dt.year, 65536); }
    if dt.year > 1970 { DaysBeforeYearGrows(1970, dt.year); }
  }

  /** Later seconds become later dates. */
  lemma ConversionStrictlyMonotone(t1: int, t2: int)
    requires 0 <= t1 < YEAR_LIMIT && 0 <= t2 < YEAR_LIMIT
    ensures CompareDateTime(UnixTimeToDate(t1), UnixTimeToDate(t2)) == Sign(t1 - t2)
  {
    UnixTimeToDateCorrect(t1);
    UnixTimeToDateCorrect(t2);
    CompareIsSign(UnixTimeToDate(t1), UnixTimeToDate(t2));
  }

  /** What any 16-bit year can count up to, and where year 0 lands because its predecessor wraps. */
  lemma DateToUnixTimeRange(dt: Date)
    ensures if dt.year == 0 && dt.month <= 2 then 1040810010 <= DateToUnixTime(dt) / 86400 < 1040810400
            else DateToUnixTime(dt) < YEAR_LIMIT + 7700 * 86400
    ensures 0 < dt.year < 100 ==> DateToUnixTime(dt) < YEAR_LIMIT
    ensures dt.year == 0 && dt.month > 2 ==> DateToUnixTime(dt) < YEAR_LIMIT
  {
    var m := if dt.month <= 2 then dt.month + 12 else dt.month;
    var n := 30 * m + 3 * (m + 1) / 5 + dt.day;
    assert 0 <= n < 8100;
    U32Fits(n);
    if dt.year == 0 && dt.month <= 2 {
      assert U32(dt.year - 1) == 0xFFFF_FFFF;
      assert U32(365 * 0xFFFF_FFFF) == 0xFFFF_FE93;
      assert 0xFFFF_FE93 + 0xFFFF_FFFF / 4 - 0xFFFF_FFFF / 100 + 0xFFFF_FFFF / 400 == 0x1_0000_0000 + 1041529204;
      assert U32(0x1_0000_0000 + 1041529204) == 1041529204;
      assert 367 <= n < 700;
    } else {
      var y := if dt.month <= 2 then dt.year - 1 else dt.year;
      U32Fits(y);
      U32Fits(365 * y);
      YearDaysFit(y);
      U32Fits(365 * y + y / 4 - y / 100 + y / 400);
    }
  }

  lemma LateShift(D: nat, a: int, b: int, c: int, d: int)
    requires YEAR_LIMIT / 86400 <= D < YEAR_LIMIT / 86400 + 7700
    requires a == (4 * D + 102032) / 146097 + 15 && b == D + 2442113 + a - a / 4
    requires c == (20 * b - 2442) / 7305 && d == b - 365 * c - c / 4
    ensures 0 <= a < 0x1_0000_0000 && 0 <= b < 0x1_0000_0000 && 0 <= 20 * b - 2442 < 0x1_0000_0000
    ensures 65536 + 4715 <= c < 65536 + 4740 && 0 <= d < 1000
    ensures c == 65536 + 4715 ==> d >= 429
  {
  }

  /** The date of a day soon after the limit has lost its 65536 years. */
  lemma YearsLost(D: nat)
    requires YEAR_LIMIT / 86400 <= D < YEAR_LIMIT / 86400 + 7700
    ensures DateOfDay(D).0 < 100
  {
    hide U32, MonthAndDay;
    var a := (4 * D + 102032) / 146097 + 15;
    var b := D + 2442113 + a - a / 4;
    var c := (20 * b - 2442) / 7305;
    var d := b - 365 * c - c / 4;
    LateShift(D, a, b, c, d);
    U32Fits(a);
    U32Fits(b);
    U32Fits(20 * b - 2442);
    U32Fits(d);
    LostYear(c, d);
  }

  lemma LostYear(c: int, d: int)
    requires 65536 + 4715 <= c < 65536 + 4740 && 0 <= d < 1000
    requires c == 65536 + 4715 ==> d >= 429
    ensures MonthAndDay(c, d).0 < 100
  {
    U32Fits(d * 1000);
    U32Fits(c - 4716);
    U32Fits(c - 4715);
  }

  lemma WrappedShift(D: nat, a: int, b: int, w: int)
    requires 1040810010 <= D < 1040810400
    requires a == (4 * D + 102032) / 146097 + 15 && b == D + 2442113 + a - a / 4
    requires w == 20 * b - 2442 - 4 * 0x1_0000_0000
    ensures 0 <= a < 0x1_0000_0000 && 0 <= b < 0x1_0000_0000 && 0 <= w < 0x1_0000_0000
    ensures 504530 <= w / 7305 <= 504532
  {
  }

  lemma U32Wraps(x: int, q: int, w: int)
    requires w == x - q * 0x1_0000_0000 && 0 <= w < 0x1_0000_0000
    ensures U32(x) == w
  {
  }

  lemma WrappedMonth(c: int, d: int)
    requires 504530 <= c <= 504532
    ensures MonthAndDay(c, d).0 > 100
  {
    U32Fits(c - 4716);
    U32Fits(c - 4715);
  }

  /** Where year 0 lands, the forward conversion (whose 20 * b has wrapped four times) is not in year 0. */
  lemma WrappedYear(D: nat)
    requires 1040810010 <= D < 1040810400
    ensures DateOfDay(D).0 > 100
  {
    hide U32, MonthAndDay;
    var a := (4 * D + 102032) / 146097 + 15;
    var b := D + 2442113 + a - a / 4;
    var w := 20 * b - 2442 - 4 * 0x1_0000_0000;
    WrappedShift(D, a, b, w);
    U32Fits(a);
    U32Fits(b);
    U32Wraps(20 * b - 2442, 4, w);
    WrappedMonth(w / 7305, U32(b - 365 * (w / 7305) - w / 7305 / 4));
  }

  lemma DateDayBounds(t: int)
    requires 0 <= t
    ensures var dt := UnixTimeToDate(t); 0 <= t / 86400 && (dt.year, dt.month, dt.day) == DateOfDay(t / 86400)
  {
    assert t / 60 / 60 / 24 == t / 86400;
  }

  lemma LateSecondsDiffer(t: int)
    requires YEAR_LIMIT <= t
    ensures DateToUnixTime(UnixTimeToDate(t)) != t
  {
    var dt := UnixTimeToDate(t);
    DateToUnixTimeRange(dt);
    DateDayBounds(t);
    var D := t / 86400;
    if D < YEAR_LIMIT / 86400 + 7700 {
      YearsLost(D);
    } else if 1040810010 <= D < 1040810400 {
      WrappedYear(D);
    }
  }

  /** Going to a date and back returns the same second exactly when it is neither negative nor past year 65535. */
  lemma SecondsRoundTripExactly(t: int)
    ensures DateToUnixTime(UnixTimeToDate(t)) == t <==> 0 <= t < YEAR_LIMIT
  {
    if t < 0 {
      assert UnixTimeToDate(t) == UnixTimeToDate(0);
      UnixTimeToDateCorrect(0);
      DateToUnixTimeCorrect(UnixTimeToDate(0));
    } else if t < YEAR_LIMIT {
      UnixTimeToDateCorrect(t);
      DateToUnixTimeCorrect(UnixTimeToDate(t));
    } else {
      LateSecondsDiffer(t);
    }
  }

  /* ---- where time_t has only 32 bits ---- */

  /** The trip of a date through an unsigned 32-bit time_t. */
  function Through32(dt: Date): Date { UnixTimeToDate(U32(DateToUnixTime(dt))) }

  /** There a calendar time survives exactly when it is before 2106-02-07 06:28:16. */
  lemma DateRoundTrip32Exactly(dt: Date)
    requires Civil(dt)
    ensures Through32(dt) == dt.(milliseconds := 0, dayOfWeek := (DayNumber(dt.year, dt.month, dt.day) + 3) % 7 + 1)
            <==> SecondsOf(dt) < 0x1_0000_0000
  {
    DateToUnixTimeCorrect(dt);
    SecondsBelowLimit(dt);
    DateRoundTrip(dt);
    var t := SecondsOf(dt);
    hide UnixTimeToDate, Civil, SecondsOf, DayNumber, DateToUnixTime;
    if t < 0x1_0000_0000 {
      U32Fits(t);
    } else {
      U32Below(t);
      UnixTimeToDateCorrect(U32(t));
      SameDateSameSeconds(dt, U32(t));
    }
  }

  lemma U32Below(t: int)
    requires 0x1_0000_0000 <= t
    ensures 0 <= U32(t) < YEAR_LIMIT && U32(t) < t
  {
  }

  lemma SameDateSameSeconds(dt: Date, t: int)
    requires Civil(dt) && 0 <= t < YEAR_LIMIT && t != SecondsOf(dt)
    requires Civil(UnixTimeToDate(t)) && SecondsOf(UnixTimeToDate(t)) == t
    ensures forall w: u8 :: UnixTimeToDate(t) != dt.(milliseconds := 0, dayOfWeek := w)
  {
    forall w: u8 ensures SecondsOf(dt.(milliseconds := 0, dayOfWeek := w)) == SecondsOf(dt) {
    }
  }

  /* ---- the conversion as the code writes it, field by field ---- */

  class DateRecord {
    var year: u16
    var month: u8
    var day: u8
    var dayOfWeek: u8
    var hours: u8
    var minutes: u8
    var seconds: u8
    var milliseconds: u16

    function Value(): Date
      reads this
    {
      Date(year, month, day, dayOfWeek, hours, minutes, seconds, milliseconds)
    }

    method ConvertUnixTimeToDate(t0: int)
      modifies this
      ensures Value() == UnixTimeToDate(t0)
      ensures 0 <= t0 < YEAR_LIMIT ==> Civil(Value()) && SecondsOf(Value()) == t0
    {
      var t := t0;
      if t < 1 { t := 0; }
      milliseconds := 0;
      seconds := t % 60;
      t := t / 60;
      minutes := t % 60;
      t := t / 60;
      hours := t % 24;
      t := t / 24;
      SetDay(t);
      if 0 <= t0 < YEAR_LIMIT { UnixTimeToDateCorrect(t0); }
    }

    /** The second half of the conversion: year, month, day and weekday of day number t. */
    method SetDay(t: nat)
      modifies `year, `month, `day, `dayOfWeek
      ensures (year, month, day) == DateOfDay(t)
      ensures dayOfWeek == DayOfWeek(year, month, day)
    {
      var a := U32((4 * t + 102032) / 146097 + 15);
      var b := U32(t + 2442113 + a - a / 4);
      var c := U32(20 * b - 2442) / 7305;
      var d := U32(b - 365 * c - c / 4);
      assert DateOfDay(t) == MonthAndDay(c, d);
      SplitMonth(c, d);
      dayOfWeek := DayOfWeek(year, month, day);
    }

    method SplitMonth(c0: int, d: int)
      modifies `year, `month, `day
      ensures (year, month, day) == MonthAndDay(c0, d)
    {
      var c := c0;
      var e := U32(d * 1000) / 30601;
      var f := U32(d - e * 30 - U32(e * 601) / 1000);
      if e <= 13 {
        c := U32(c - 4716);
        e := U32(e - 1);
      } else {
        c := U32(c - 4715);
        e := U32(e - 13);
      }
      year := c % 0x1_0000;
      month := e % 0x100;
      day := f % 0x100;
    }
  }
}
