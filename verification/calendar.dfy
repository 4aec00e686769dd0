/** The proleptic Gregorian calendar over ticks: the calendar fields that the
    exporter prints in chart titles and file names. Python's datetime uses
    the same calendar and accepts years 1 to 9999 only. */
module Calendar {
  import opened Ticks

  predicate IsLeapYear(y: int) {
    y % 4 == 0 && (y % 100 != 0 || y % 400 == 0)
  }

  function YearLength(y: int): int {
    if IsLeapYear(y) then 366 else 365
  }

  /** Days from 0001-01-01 to y-01-01 (negative before year 1). */
  function OrdinalDays(y: int): int {
    365 * (y - 1) + (y - 1) / 4 - (y - 1) / 100 + (y - 1) / 400
  }

  const EpochYear: int := 1601

  /** Days from 1601-01-01 to y-01-01 (negative for earlier years). */
  function DaysBeforeYear(y: int): int {
    OrdinalDays(y) - OrdinalDays(EpochYear)
  }

  /** Division by a positive constant steps by one exactly at multiples. */
  lemma DivStep(y: int, k: int)
    requires k > 0
    ensures y / k - (y - 1) / k == (if y % k == 0 then 1 else 0)
  {
    var q, r := (y - 1) / k, (y - 1) % k;
    assert y == q * k + (r + 1);
    if r + 1 == k {
      DivExact(y, k, q + 1, 0);
    } else {
      DivExact(y, k, q, r + 1);
    }
  }

  lemma DivExact(n: int, d: int, q: int, r: int)
    requires d > 0 && 0 <= r < d && n == q * d + r
    ensures n / d == q && n % d == r
  {
    var q0, r0 := n / d, n % d;
    assert q0 * d + r0 == q * d + r;
    if q0 < q {
      Distribute(q, q0, d);
      MulAtLeast(q - q0, d);
      assert false;
    } else if q < q0 {
      Distribute(q0, q, d);
      MulAtLeast(q0 - q, d);
      assert false;
    }
  }

  lemma Distribute(a: int, b: int, d: int)
    ensures (a - b) * d == a * d - b * d
  {
  }

  lemma MulAtLeast(a: int, d: int)
    requires a >= 1 && d > 0
    ensures a * d >= d
  {
  }

  /** Consecutive January firsts are one year length apart. */
  lemma YearStep(y: int)
    ensures DaysBeforeYear(y + 1) == DaysBeforeYear(y) + YearLength(y)
  {
    DivStep(y, 4);
    DivStep(y, 100);
    DivStep(y, 400);
    if y % 400 == 0 {
      DivExact(y, 100, 4 * (y / 400), 0);
    }
    if y % 100 == 0 {
      DivExact(y, 4, 25 * (y / 100), 0);
    }
  }

  lemma {:induction false} YearsMonotone(a: int, b: int)
    requires a < b
    ensures DaysBeforeYear(a) + YearLength(a) <= DaysBeforeYear(b)
    decreases b - a
  {
    YearStep(a);
    if a + 1 < b {
      YearsMonotone(a + 1, b);
    }
  }

  /** A day number split into a year and a zero-based day of that year. */
  datatype YearDay = YearDay(year: int, dayOfYear: int)

  /** Walks year by year from `year`, forwards or backwards, until the day
      `d` (counted from the start of `year`) falls inside a year. */
  function YearWalk(d: int, year: int): (r: YearDay)
    ensures DaysBeforeYear(r.year) + r.dayOfYear == DaysBeforeYear(year) + d
    ensures 0 <= r.dayOfYear < YearLength(r.year)
    decreases (if d < 0 then 1 else 0), (if d < 0 then -d else d)
  {
    if d < 0 then
      YearStep(year - 1);
      YearWalk(d + YearLength(year - 1), year - 1)
    else if d < YearLength(year) then
      YearDay(year, d)
    else
      YearStep(year);
      YearWalk(d - YearLength(year), year + 1)
  }

  /** A day number has exactly one (year, day-of-year) split. */
  lemma YearUnique(y1: int, k1: int, y2: int, k2: int)
    requires DaysBeforeYear(y1) + k1 == DaysBeforeYear(y2) + k2
    requires 0 <= k1 < YearLength(y1) && 0 <= k2 < YearLength(y2)
    ensures y1 == y2 && k1 == k2
  {
    if y1 < y2 {
      YearsMonotone(y1, y2);
      assert false;
    } else if y2 < y1 {
      YearsMonotone(y2, y1);
      assert false;
    }
  }

  /** Days of year y before the first of month m (m = 13 gives the year). */
  function DaysBeforeMonth(y: int, m: int): int
    requires 1 <= m <= 13
  {
    var common := [0, 31, 59, 90, 120, 151, 181, 212, 243, 273, 304, 334, 365][m - 1];
    if IsLeapYear(y) && m > 2 then common + 1 else common
  }

  function MonthLength(y: int, m: int): int
    requires 1 <= m <= 12
  {
    if m == 2 then (if IsLeapYear(y) then 29 else 28)
    else if m == 4 || m == 6 || m == 9 || m == 11 then 30
    else 31
  }

  lemma MonthStep(y: int, m: int)
    requires 1 <= m <= 12
    ensures DaysBeforeMonth(y, m + 1) == DaysBeforeMonth(y, m) + MonthLength(y, m)
    ensures DaysBeforeMonth(y, 13) == YearLength(y)
  {
  }

  lemma MonthsMonotone(y: int, a: int, b: int)
    requires 1 <= a < b <= 12
    ensures DaysBeforeMonth(y, a + 1) <= DaysBeforeMonth(y, b)
  {
  }

  /** The month of day `doy` of year y, searching downwards from month m. */
  function MonthSearch(y: int, doy: int, m: int): (r: int)
    requires 1 <= m <= 12 && 0 <= doy < DaysBeforeMonth(y, m + 1)
    ensures 1 <= r <= m
    ensures DaysBeforeMonth(y, r) <= doy < DaysBeforeMonth(y, r + 1)
    decreases m
  {
    if DaysBeforeMonth(y, m) <= doy then m else MonthSearch(y, doy, m - 1)
  }

  lemma MonthUnique(y: int, doy: int, m1: int, m2: int)
    requires 1 <= m1 <= 12 && 1 <= m2 <= 12
    requires DaysBeforeMonth(y, m1) <= doy < DaysBeforeMonth(y, m1 + 1)
    requires DaysBeforeMonth(y, m2) <= doy < DaysBeforeMonth(y, m2 + 1)
    ensures m1 == m2
  {
    if m1 < m2 {
      MonthsMonotone(y, m1, m2);
      assert false;
    } else if m2 < m1 {
      MonthsMonotone(y, m2, m1);
      assert false;
    }
  }

  /** Calendar fields of an instant; `fraction` is the ticks past the minute. */
  datatype DateTime = DateTime(year: int, month: int, day: int, hour: int, minute: int, fraction: int)

  predicate Valid(c: DateTime) {
    && 1 <= c.month <= 12
    && 1 <= c.day <= MonthLength(c.year, c.month)
    && 0 <= c.hour < 24
    && 0 <= c.minute < 60
    && 0 <= c.fraction < TicksPerMinute
  }

  /** Days from 1601-01-01 to the given date. */
  function DayNumber(y: int, m: int, d: int): int
    requires 1 <= m <= 12
  {
    DaysBeforeYear(y) + DaysBeforeMonth(y, m) + d - 1
  }

  function TicksOf(c: DateTime): int
    requires 1 <= c.month <= 12
  {
    DayNumber(c.year, c.month, c.day) * TicksPerDay
      + c.hour * TicksPerHour + c.minute * TicksPerMinute + c.fraction
  }

  /** The calendar fields of instant t; they name t exactly. */
  function CivilOf(t: int): (c: DateTime)
    ensures Valid(c)
    ensures TicksOf(c) == t
  {
    var days := t / TicksPerDay;
    var rem := t % TicksPerDay;
    var yd := YearWalk(days, EpochYear);
    MonthStep(yd.year, 12);
    var m := MonthSearch(yd.year, yd.dayOfYear, 12);
    MonthStep(yd.year, m);
    var inHour := rem % TicksPerHour;
    DateTime(yd.year, m, yd.dayOfYear - DaysBeforeMonth(yd.year, m) + 1,
             rem / TicksPerHour, inHour / TicksPerMinute, inHour % TicksPerMinute)
  }

  /** Valid calendar fields are recovered from their instant. */
  lemma CivilOfTicksOf(c: DateTime)
    requires Valid(c)
    ensures CivilOf(TicksOf(c)) == c
  {
    var t := TicksOf(c);
    var days := DayNumber(c.year, c.month, c.day);
    var inHour := c.minute * TicksPerMinute + c.fraction;
    var rem := c.hour * TicksPerHour + inHour;
    DivExact(t, TicksPerDay, days, rem);
    DivExact(rem, TicksPerHour, c.hour, inHour);
    DivExact(inHour, TicksPerMinute, c.minute, c.fraction);
    MonthStep(c.year, c.month);
    MonthStep(c.year, 12);
    if c.month < 12 {
      MonthsMonotone(c.year, c.month, 12);
    }
    var yd := YearWalk(days, EpochYear);
    YearUnique(yd.year, yd.dayOfYear, c.year, DaysBeforeMonth(c.year, c.month) + c.day - 1);
    var m := MonthSearch(yd.year, yd.dayOfYear, 12);
    MonthUnique(c.year, yd.dayOfYear, m, c.month);
  }

  /** Python's datetime range: 0001-01-01 00:00 to 9999-12-31 23:59:59.999999. */
  const MinTicks: int := DaysBeforeYear(1) * TicksPerDay
  const MaxTicks: int := DaysBeforeYear(10000) * TicksPerDay - 10

  predicate InDatetimeRange(t: int) {
    MinTicks <= t <= MaxTicks
  }

  lemma RangeConstants()
    ensures MinTicks == -584_388 * TicksPerDay
    ensures MaxTicks == 3_067_671 * TicksPerDay - 10
    ensures DaysBeforeYear(1) == -584_388 && DaysBeforeYear(10000) == 3_067_671
  {
  }

  /** The year CivilOf gives an instant contains the instant's day. */
  lemma DayOfInstant(t: int)
    ensures DaysBeforeYear(CivilOf(t).year) <= t / TicksPerDay < DaysBeforeYear(CivilOf(t).year) + YearLength(CivilOf(t).year)
  {
    var yd := YearWalk(t / TicksPerDay, EpochYear);
  }

  /** Python's datetime range in whole days. */
  lemma DayBounds(t: int)
    ensures MinTicks <= t ==> DaysBeforeYear(1) <= t / TicksPerDay
    ensures t <= MaxTicks ==> t / TicksPerDay < DaysBeforeYear(10000)
  {
    RangeConstants();
    var q := t / TicksPerDay;
    assert TicksPerDay == 864_000_000_000;
    assert q * 864_000_000_000 <= t < q * 864_000_000_000 + 864_000_000_000;
  }

  lemma YearAtLeastOne(t: int)
    requires MinTicks <= t
    ensures 1 <= CivilOf(t).year
  {
    var y := CivilOf(t).year;
    DayBounds(t);
    DayOfInstant(t);
    if y < 1 {
      YearsMonotone(y, 1);
      assert false;
    }
  }

  lemma YearAtMost9999(t: int)
    requires t <= MaxTicks
    ensures CivilOf(t).year <= 9999
  {
    var y := CivilOf(t).year;
    DayBounds(t);
    DayOfInstant(t);
    if y > 10000 {
      YearsMonotone(10000, y);
      assert false;
    } else if y == 10000 {
      assert false;
    }
  }

  /** Every instant Python can hold has a four-digit year. */
  lemma RangeYears(t: int)
    requires InDatetimeRange(t)
    ensures 1 <= CivilOf(t).year <= 9999
  {
    YearAtLeastOne(t);
    YearAtMost9999(t);
  }

  /** The historian's epoch, tick 0, is 1601-01-01 00:00. */
  lemma EpochIsMidnight()
    ensures CivilOf(0) == DateTime(1601, 1, 1, 0, 0, 0)
  {
    var c := DateTime(1601, 1, 1, 0, 0, 0);
    assert DaysBeforeYear(1601) == 0;
    assert TicksOf(c) == 0;
    CivilOfTicksOf(c);
  }

  /** The Unix epoch lies exactly UnixEpochTicks after the historian's. */
  lemma UnixEpochIsMidnight()
    ensures CivilOf(UnixEpochTicks) == DateTime(1970, 1, 1, 0, 0, 0)
  {
    assert OrdinalDays(1970) == 719_162;
    assert OrdinalDays(EpochYear) == 584_388;
    CivilOfTicksOf(DateTime(1970, 1, 1, 0, 0, 0));
  }
}
