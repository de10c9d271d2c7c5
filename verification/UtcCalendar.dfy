/** UTC date arithmetic as ECMA-262 defines it (section 21.4.1, "Time Values and Time Range"), and the
    bucket starts that formatDateByInterval (balance/balance-history.service.ts) computes with it.
    Times are milliseconds since the epoch. */
module UtcCalendar {

  const MS_PER_DAY: int := 86400000
  const MS_PER_HOUR: int := 3600000

  datatype Interval = Hourly | Daily | Weekly | Monthly

  // ---------------------------------------------------------------- years

  function DayFromYear(y: int): int {
    365 * (y - 1970) + (y - 1969) / 4 - (y - 1901) / 100 + (y - 1601) / 400
  }

  predicate LeapYear(y: int) {
    y % 4 == 0 && (y % 100 != 0 || y % 400 == 0)
  }

  function DaysInYear(y: int): int {
    if LeapYear(y) then 366 else 365
  }

  lemma FourYearStep(y: int)
    ensures (y - 1968) / 4 == (y - 1969) / 4 + if y % 4 == 0 then 1 else 0
  {
  }

  lemma CenturyStep(y: int)
    ensures (y - 1900) / 100 == (y - 1901) / 100 + if y % 100 == 0 then 1 else 0
  {
  }

  lemma FourCenturyStep(y: int)
    ensures (y - 1600) / 400 == (y - 1601) / 400 + if y % 400 == 0 then 1 else 0
  {
  }

  lemma CenturiesDivide(y: int)
    ensures y % 400 == 0 ==> y % 100 == 0
    ensures y % 100 == 0 ==> y % 4 == 0
  {
  }

  /** The closed formula counts leap years correctly. */
  lemma YearLength(y: int)
    ensures DayFromYear(y + 1) - DayFromYear(y) == DaysInYear(y)
  {
    FourYearStep(y);
    CenturyStep(y);
    FourCenturyStep(y);
    CenturiesDivide(y);
  }

  lemma {:induction false} YearsAscend(y: int, z: int)
    requires y < z
    ensures DayFromYear(y) + 365 <= DayFromYear(z)
    decreases z - y
  {
    YearLength(z - 1);
    if y < z - 1 { YearsAscend(y, z - 1); }
  }

  /** The year that contains a day: the largest y with DayFromYear(y) <= d. */
  function YearFromDay(d: int): (y: int)
    ensures DayFromYear(y) <= d < DayFromYear(y + 1)
  {
    if d >= 0 then SearchUp(d, 1970) else SearchDown(d, 1970)
  }

  function SearchUp(d: int, y: int): (r: int)
    requires DayFromYear(y) <= d
    ensures DayFromYear(r) <= d < DayFromYear(r + 1)
    decreases d - DayFromYear(y)
  {
    YearLength(y);
    if d < DayFromYear(y + 1) then y else SearchUp(d, y + 1)
  }

  function SearchDown(d: int, y: int): (r: int)
    requires d < DayFromYear(y)
    ensures DayFromYear(r) <= d < DayFromYear(r + 1)
    decreases DayFromYear(y) - d
  {
    YearLength(y - 1);
    if DayFromYear(y - 1) <= d then y - 1 else SearchDown(d, y - 1)
  }

  // ---------------------------------------------------------------- months

  /** Days of the year before month m, for m in 0..12. */
  function DaysBeforeMonth(m: int, leap: bool): int {
    var l := if leap then 1 else 0;
    if m <= 0 then 0 else if m == 1 then 31 else if m == 2 then 59 + l else if m == 3 then 90 + l
    else if m == 4 then 120 + l else if m == 5 then 151 + l else if m == 6 then 181 + l
    else if m == 7 then 212 + l else if m == 8 then 243 + l else if m == 9 then 273 + l
    else if m == 10 then 304 + l else if m == 11 then 334 + l else 365 + l
  }

  function MonthFromDayInYear(n: int, leap: bool): (m: int)
    requires 0 <= n < (if leap then 366 else 365)
    ensures 0 <= m <= 11 && DaysBeforeMonth(m, leap) <= n < DaysBeforeMonth(m + 1, leap)
  {
    if n < DaysBeforeMonth(1, leap) then 0 else if n < DaysBeforeMonth(2, leap) then 1
    else if n < DaysBeforeMonth(3, leap) then 2 else if n < DaysBeforeMonth(4, leap) then 3
    else if n < DaysBeforeMonth(5, leap) then 4 else if n < DaysBeforeMonth(6, leap) then 5
    else if n < DaysBeforeMonth(7, leap) then 6 else if n < DaysBeforeMonth(8, leap) then 7
    else if n < DaysBeforeMonth(9, leap) then 8 else if n < DaysBeforeMonth(10, leap) then 9
    else if n < DaysBeforeMonth(11, leap) then 10 else 11
  }

  // ---------------------------------------------------------------- the Date getters

  function Day(t: int): int {
    t / MS_PER_DAY
  }

  function UtcFullYear(t: int): int {
    YearFromDay(Day(t))
  }

  /** The position of a day in its year. */
  function DayOfYear(d: int, y: int): (n: int)
    requires DayFromYear(y) <= d < DayFromYear(y + 1)
    ensures 0 <= n < DaysInYear(y)
  {
    YearLength(y);
    d - DayFromYear(y)
  }

  function DayInYear(t: int): (n: int)
    ensures 0 <= n < DaysInYear(UtcFullYear(t))
  {
    DayOfYear(Day(t), UtcFullYear(t))
  }

  /** getUTCMonth, from 0. */
  function UtcMonth(t: int): (m: int)
    ensures 0 <= m <= 11
  {
    MonthFromDayInYear(DayInYear(t), LeapYear(UtcFullYear(t)))
  }

  /** getUTCDate, from 1. */
  function UtcDate(t: int): int {
    DayInYear(t) - DaysBeforeMonth(UtcMonth(t), LeapYear(UtcFullYear(t))) + 1
  }

  function UtcHours(t: int): int {
    (t % MS_PER_DAY) / MS_PER_HOUR
  }

  /** getUTCDay: 0 is Sunday. */
  function UtcDay(t: int): (w: int)
    ensures 0 <= w <= 6
  {
    (Day(t) + 4) % 7
  }

  /** Date.UTC for a month in 0..11: years 0 to 99 stand for 1900 to 1999. */
  function DateUtc(year: int, month: int, date: int, hours: int): int {
    var y := if 0 <= year <= 99 then 1900 + year else year;
    (DayFromYear(y) + DaysBeforeMonth(month, LeapYear(y)) + date - 1) * MS_PER_DAY + hours * MS_PER_HOUR
  }

  /** Day 0 starts the year 1970 and is a Thursday; weekdays follow each other. */
  lemma Epoch(t: int)
    ensures DayFromYear(1970) == 0 && UtcDay(0) == 4
    ensures UtcDay(t + MS_PER_DAY) == (UtcDay(t) + 1) % 7
  {
    assert Day(t + MS_PER_DAY) == Day(t) + 1;
  }

  function MonthLengths(leap: bool): seq<int> {
    [31, if leap then 29 else 28, 31, 30, 31, 30, 31, 31, 30, 31, 30, 31]
  }

  /** The months have their lengths, and a date lies within its month. */
  lemma MonthHasItsLength(t: int)
    ensures forall m :: 0 <= m < 12 ==>
              DaysBeforeMonth(m + 1, true) == DaysBeforeMonth(m, true) + MonthLengths(true)[m]
              && DaysBeforeMonth(m + 1, false) == DaysBeforeMonth(m, false) + MonthLengths(false)[m]
    ensures DaysBeforeMonth(0, true) == DaysBeforeMonth(0, false) == 0
    ensures 1 <= UtcDate(t) <= MonthLengths(LeapYear(UtcFullYear(t)))[UtcMonth(t)]
  {
  }

  // ---------------------------------------------------------------- formatDateByInterval

  /** The start of the bucket of a time. The ISO string it is printed as is in one-to-one, order
      preserving correspondence with it for years 0 to 9999. */
  function BucketStart(t: int, interval: Interval): int {
    var year, month, day, hour := UtcFullYear(t), UtcMonth(t), UtcDate(t), UtcHours(t);
    match interval
    case Hourly => DateUtc(year, month, day, hour)
    case Daily => DateUtc(year, month, day, 0)
    case Weekly => DateUtc(year, month, day - UtcDay(t), 0)
    case Monthly => DateUtc(year, month, 1, 0)
  }

  /** Not one of the years that Date.UTC reads as 19xx. */
  predicate PlainYear(t: int) {
    !(0 <= UtcFullYear(t) <= 99)
  }

  /** What the buckets are: the hour, the day, the week from Sunday, the first of the month. */
  function BucketDay(t: int, interval: Interval): int {
    match interval
    case Weekly => Day(t) - UtcDay(t)
    case Monthly => Day(t) - (UtcDate(t) - 1)
    case _ => Day(t)
  }

  function PlainBucket(t: int, interval: Interval): int {
    BucketDay(t, interval) * MS_PER_DAY + if interval == Hourly then UtcHours(t) * MS_PER_HOUR else 0
  }

  /** Taking a date apart and putting it together again, k days back, is day arithmetic. */
  lemma DateRoundTrip(t: int, k: int, hours: int)
    requires PlainYear(t)
    ensures DateUtc(UtcFullYear(t), UtcMonth(t), UtcDate(t) - k, hours)
         == (Day(t) - k) * MS_PER_DAY + hours * MS_PER_HOUR
  {
    var year := UtcFullYear(t);
    assert UtcDate(t) == Day(t) - DayFromYear(year) - DaysBeforeMonth(UtcMonth(t), LeapYear(year)) + 1;
  }

  /** In the years 0 to 99 it lands over a year later. */
  lemma DateComesBackLate(t: int, date: int, hours: int)
    requires !PlainYear(t) && -6 <= date && 0 <= hours
    ensures DateUtc(UtcFullYear(t), UtcMonth(t), date, hours) > t
  {
    var year := UtcFullYear(t);
    TwentiethCentury(year);
    assert Day(t) < DayFromYear(year + 1);
    DateUtcInCentury(year, UtcMonth(t), date, hours);
    assert t < (Day(t) + 1) * MS_PER_DAY;
  }

  /** How many days the bucket of a time starts before it. */
  function DaysBack(t: int, interval: Interval): (k: int)
    ensures interval != Monthly ==> 0 <= k <= 6
  {
    match interval case Weekly => UtcDay(t) case Monthly => UtcDate(t) - 1 case _ => 0
  }

  function BucketHours(t: int, interval: Interval): int {
    if interval == Hourly then UtcHours(t) else 0
  }

  lemma BucketStartTakesBack(t: int, interval: Interval)
    ensures BucketStart(t, interval)
         == DateUtc(UtcFullYear(t), UtcMonth(t), UtcDate(t) - DaysBack(t, interval), BucketHours(t, interval))
    ensures PlainBucket(t, interval)
         == (Day(t) - DaysBack(t, interval)) * MS_PER_DAY + BucketHours(t, interval) * MS_PER_HOUR
  {
  }

  lemma BucketStartIsBucket(t: int, interval: Interval)
    ensures PlainYear(t) ==> BucketStart(t, interval) == PlainBucket(t, interval)
    ensures !PlainYear(t) ==> BucketStart(t, interval) > t
  {
    BucketStartTakesBack(t, interval);
    if PlainYear(t) {
      DateRoundTrip(t, DaysBack(t, interval), BucketHours(t, interval));
    } else {
      MonthStartInYear(t);
      DateComesBackLate(t, UtcDate(t) - DaysBack(t, interval), BucketHours(t, interval));
    }
  }

  /** The year 1900 + y starts well over a year after the year y ends. */
  lemma TwentiethCentury(y: int)
    ensures DayFromYear(y + 1900) >= DayFromYear(y + 1) + 730
  {
    YearsAscend(y + 1, y + 2);
    YearsAscend(y + 2, y + 1900);
  }

  lemma MonthStartInYear(t: int)
    ensures DayFromYear(UtcFullYear(t)) <= BucketDay(t, Monthly) <= Day(t) < DayFromYear(UtcFullYear(t) + 1)
    ensures BucketDay(t, Monthly)
         == DayFromYear(UtcFullYear(t)) + DaysBeforeMonth(UtcMonth(t), LeapYear(UtcFullYear(t)))
  {
    var year, n := UtcFullYear(t), DayInYear(t);
    assert BucketDay(t, Monthly) == Day(t) - n + DaysBeforeMonth(UtcMonth(t), LeapYear(year));
    assert 0 <= DaysBeforeMonth(UtcMonth(t), LeapYear(year)) <= n;
  }

  lemma YearsOfDaysAscend(d: int, e: int, y: int, z: int)
    requires d <= e && DayFromYear(y) <= d < DayFromYear(y + 1) && DayFromYear(z) <= e < DayFromYear(z + 1)
    ensures y <= z
    ensures y < z ==> d < DayFromYear(z)
  {
    if z < y { YearsAscendWeakly(z + 1, y); }
    if y < z { YearsAscendWeakly(y + 1, z); }
  }

  lemma YearsAscendWeakly(y: int, z: int)
    requires y <= z
    ensures DayFromYear(y) <= DayFromYear(z)
  {
    if y < z { YearsAscend(y, z); }
  }

  lemma MonthStartAscends(t: int, u: int)
    requires Day(t) <= Day(u)
    ensures BucketDay(t, Monthly) <= BucketDay(u, Monthly)
  {
    var y, z := UtcFullYear(t), UtcFullYear(u);
    MonthStartInYear(t);
    MonthStartInYear(u);
    YearsOfDaysAscend(Day(t), Day(u), y, z);
    if y == z { MonthsAscend(DayInYear(t), DayInYear(u), LeapYear(y)); }
  }

  lemma MonthsAscend(n: int, k: int, leap: bool)
    requires 0 <= n <= k < (if leap then 366 else 365)
    ensures DaysBeforeMonth(MonthFromDayInYear(n, leap), leap) <= DaysBeforeMonth(MonthFromDayInYear(k, leap), leap)
  {
  }

  lemma WeekStart(d: int)
    ensures d - (d + 4) % 7 == 7 * ((d + 4) / 7) - 4
  {
  }

  lemma QuotientsAscend(x: int, y: int)
    requires x <= y
    ensures x / MS_PER_DAY <= y / MS_PER_DAY && x / MS_PER_HOUR <= y / MS_PER_HOUR && x / 7 <= y / 7
  {
  }

  lemma HourBucket(t: int)
    ensures PlainBucket(t, Hourly) == (t / MS_PER_HOUR) * MS_PER_HOUR
  {
    var d, r := t / MS_PER_DAY, t % MS_PER_DAY;
    assert t == (d * 24 + r / MS_PER_HOUR) * MS_PER_HOUR + r % MS_PER_HOUR;
  }

  lemma BucketDayAscends(t: int, u: int, interval: Interval)
    requires t <= u
    ensures Day(t) <= Day(u) && BucketDay(t, interval) <= BucketDay(u, interval)
  {
    QuotientsAscend(t, u);
    match interval {
      case Weekly =>
        WeekStart(Day(t));
        WeekStart(Day(u));
        QuotientsAscend(Day(t) + 4, Day(u) + 4);
      case Monthly =>
        MonthStartAscends(t, u);
      case _ =>
    }
  }

  lemma PlainBucketAscends(t: int, u: int, interval: Interval)
    requires t <= u
    ensures PlainBucket(t, interval) <= PlainBucket(u, interval)
  {
    BucketDayAscends(t, u, interval);
    if interval == Hourly {
      HourBucket(t);
      HourBucket(u);
      QuotientsAscend(t, u);
    }
  }

  lemma MonthsDiffer(m: int, n: int, leap: bool)
    requires 0 <= m < n <= 11
    ensures DaysBeforeMonth(m, leap) < DaysBeforeMonth(n, leap)
  {
  }

  lemma SameMonthStartIff(t: int, u: int)
    ensures BucketDay(t, Monthly) == BucketDay(u, Monthly)
            <==> UtcFullYear(t) == UtcFullYear(u) && UtcMonth(t) == UtcMonth(u)
  {
    MonthStartInYear(t);
    MonthStartInYear(u);
    var y, z := UtcFullYear(t), UtcFullYear(u);
    if BucketDay(t, Monthly) == BucketDay(u, Monthly) {
      SameYear(BucketDay(t, Monthly), y, z);
      if UtcMonth(t) < UtcMonth(u) { MonthsDiffer(UtcMonth(t), UtcMonth(u), LeapYear(y)); }
      if UtcMonth(u) < UtcMonth(t) { MonthsDiffer(UtcMonth(u), UtcMonth(t), LeapYear(y)); }
    }
  }

  lemma SameYear(d: int, y: int, z: int)
    requires DayFromYear(y) <= d < DayFromYear(y + 1) && DayFromYear(z) <= d < DayFromYear(z + 1)
    ensures y == z
  {
    YearsOfDaysAscend(d, d, y, z);
    YearsOfDaysAscend(d, d, z, y);
  }

  /** The Sundays up to a day: day 3 was the first one after the epoch. */
  function SundaysUpTo(d: int): int {
    (d + 4) / 7
  }

  lemma SameWeekStartIff(t: int, u: int)
    ensures BucketDay(t, Weekly) == BucketDay(u, Weekly) <==> SundaysUpTo(Day(t)) == SundaysUpTo(Day(u))
  {
    WeekStart(Day(t));
    WeekStart(Day(u));
  }

  /** Two times in the same hour, the same day, the same week from Sunday, the same month of a year. */
  predicate SamePeriod(t: int, u: int, interval: Interval) {
    match interval
    case Hourly => t / 3600000 == u / 3600000
    case Daily => t / 86400000 == u / 86400000
    case Weekly => SundaysUpTo(t / 86400000) == SundaysUpTo(u / 86400000)
    case Monthly => UtcFullYear(t) == UtcFullYear(u) && UtcMonth(t) == UtcMonth(u)
  }

  /** Outside the years 0 to 99, two times share a bucket exactly when they lie in the same period. */
  lemma SameBucketIffSamePeriod(t: int, u: int, interval: Interval)
    requires PlainYear(t) && PlainYear(u)
    ensures BucketStart(t, interval) == BucketStart(u, interval) <==> SamePeriod(t, u, interval)
  {
    BucketStartIsBucket(t, interval);
    BucketStartIsBucket(u, interval);
    if interval == Hourly {
      HourBucket(t);
      HourBucket(u);
    } else {
      SameBucketDayIff(t, u, interval);
      SamePlainBucketIff(t, u, interval);
    }
  }

  lemma SamePlainBucketIff(t: int, u: int, interval: Interval)
    requires interval != Hourly
    ensures PlainBucket(t, interval) == PlainBucket(u, interval) <==> BucketDay(t, interval) == BucketDay(u, interval)
  {
  }

  lemma SameBucketDayIff(t: int, u: int, interval: Interval)
    requires interval != Hourly
    ensures BucketDay(t, interval) == BucketDay(u, interval) <==> SamePeriod(t, u, interval)
  {
    match interval {
      case Daily =>
      case Weekly =>
        SameWeekStartIff(t, u);
      case Monthly =>
        SameMonthStartIff(t, u);
    }
  }

  /** From a time outside the years 0 to 99 on, bucket starts do not go back, for every interval. */
  lemma BucketStartMonotone(t: int, u: int, interval: Interval)
    requires t <= u && PlainYear(t)
    ensures BucketStart(t, interval) <= BucketStart(u, interval)
  {
    BucketStartIsBucket(t, interval);
    BucketStartIsBucket(u, interval);
    if PlainYear(u) { PlainBucketAscends(t, u, interval); } else { BucketStartNotAfter(t, interval); }
  }

  /** When the year 100 starts. */
  const YEAR_100: int := DayFromYear(100) * MS_PER_DAY

  lemma YearOfDay(d: int, y: int)
    requires DayFromYear(y) <= d < DayFromYear(y + 1)
    ensures YearFromDay(d) == y
  {
    YearsOfDaysAscend(d, d, YearFromDay(d), y);
    YearsOfDaysAscend(d, d, y, YearFromDay(d));
  }

  lemma YearHundred(t: int)
    requires !PlainYear(t)
    ensures t <= YEAR_100 && PlainYear(YEAR_100)
  {
    YearsAscendWeakly(UtcFullYear(t) + 1, 100);
    YearsAscend(100, 101);
    assert Day(YEAR_100) == DayFromYear(100);
    YearOfDay(Day(YEAR_100), 100);
    BeforeDay(t, DayFromYear(100));
  }

  lemma BeforeDay(t: int, d: int)
    requires Day(t) < d
    ensures t <= d * MS_PER_DAY
  {
  }

  lemma DateUtcInCentury(year: int, month: int, date: int, hours: int)
    requires 0 <= year <= 99 && 0 <= hours
    ensures DateUtc(year, month, date, hours) >= (DayFromYear(1900 + year) + date - 1) * MS_PER_DAY
  {
  }

  lemma LaterDay(d: int, e: int, date: int)
    requires d + 7 < e && -6 <= date
    ensures (e + date - 1) * MS_PER_DAY > d * MS_PER_DAY
  {
  }

  /** Times in the years 0 to 99 have bucket starts after the year 100 begins. */
  lemma BucketAfterYearHundred(t: int, interval: Interval)
    requires !PlainYear(t)
    ensures BucketStart(t, interval) > YEAR_100
  {
    var year := UtcFullYear(t);
    var date := match interval case Weekly => UtcDate(t) - UtcDay(t) case Monthly => 1 case _ => UtcDate(t);
    var hours := if interval == Hourly then UtcHours(t) else 0;
    YearsAscend(100, 1900 + year);
    DateUtcInCentury(year, UtcMonth(t), date, hours);
    LaterDay(DayFromYear(100), DayFromYear(1900 + year), date);
  }

  /** The condition is exact: bucket starts never go back from t on if and only if t lies outside the
      years 0 to 99. */
  lemma BucketStartMonotoneIff(t: int, interval: Interval)
    ensures (forall u :: t <= u ==> BucketStart(t, interval) <= BucketStart(u, interval)) <==> PlainYear(t)
  {
    if PlainYear(t) {
      forall u | t <= u ensures BucketStart(t, interval) <= BucketStart(u, interval) {
        BucketStartMonotone(t, u, interval);
      }
    } else {
      YearHundred(t);
      BucketAfterYearHundred(t, interval);
      BucketStartNotAfter(YEAR_100, interval);
    }
  }

  /** A bucket starts at or before the times in it exactly outside the years 0 to 99. */
  lemma BucketStartNotAfter(t: int, interval: Interval)
    ensures BucketStart(t, interval) <= t <==> PlainYear(t)
  {
    BucketStartIsBucket(t, interval);
    assert t == Day(t) * MS_PER_DAY + t % MS_PER_DAY;
    if interval == Hourly { HourBucket(t); }
  }
}
