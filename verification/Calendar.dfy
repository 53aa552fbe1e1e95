/** Calendar arithmetic, after format.rs: the civil-from-days algorithm against the Gregorian
    rule for the day after (section 5.7 and Appendix C of RFC 3339). */
module Calendar {

  datatype Date = Date(year: int, month: int, day: int)

  // ---------------------------------------------------------------------------------------
  //  The calendar
  // ---------------------------------------------------------------------------------------

  predicate IsLeap(year: int) {
    year % 4 == 0 && (year % 100 != 0 || year % 400 == 0)
  }

  function DaysInMonth(year: int, month: int): int
    requires 1 <= month <= 12
  {
    if month == 2 then (if IsLeap(year) then 29 else 28)
    else if month in {4, 6, 9, 11} then 30
    else 31
  }

  predicate IsDate(d: Date) {
    1 <= d.month <= 12 && 1 <= d.day <= DaysInMonth(d.year, d.month)
  }

  function NextDay(d: Date): (next: Date)
    requires IsDate(d)
    ensures IsDate(next)
  {
    if d.day < DaysInMonth(d.year, d.month) then d.(day := d.day + 1)
    else if d.month < 12 then Date(d.year, d.month + 1, 1)
    else Date(d.year + 1, 1, 1)
  }

  const EPOCH := Date(1970, 1, 1)

  /** The date n days after 1 January 1970. */
  function DaysAfterEpoch(n: nat): (d: Date)
    ensures IsDate(d)
  {
    if n == 0 then EPOCH else NextDay(DaysAfterEpoch(n - 1))
  }

  predicate Before(a: Date, b: Date) {
    a.year < b.year || (a.year == b.year && (a.month < b.month || (a.month == b.month && a.day < b.day)))
  }

  // ---------------------------------------------------------------------------------------
  //  The algorithm
  // ---------------------------------------------------------------------------------------

  /** Years of a 400-year era that begins on 1 March, from the day within the era. */
  function YearOfEra(doe: int): int {
    (doe - doe / 1460 + doe / 36524 - doe / 146096) / 365
  }

  /** Days before year `yoe` of an era. */
  function DaysBeforeYear(yoe: int): int {
    365 * yoe + yoe / 4 - yoe / 100
  }

  /** Month and day from the day of a year that begins on 1 March. */
  function MonthPart(doy: int): int {
    (5 * doy + 2) / 153
  }

  function DaysBeforeMonth(mp: int): int {
    (153 * mp + 2) / 5
  }

  function CivilMonth(mp: int): int {
    if mp < 10 then mp + 3 else mp - 9
  }

  /** days_to_ymd; the negative branch of the era is not reached for days counted from 1970. */
  function DaysToYmd(days: nat): Date {
    var z := days + 719468;
    var era := z / 146097;
    var doe := z - era * 146097;
    var yoe := YearOfEra(doe);
    var doy := doe - DaysBeforeYear(yoe);
    var mp := MonthPart(doy);
    var m := CivilMonth(mp);
    var y := yoe + era * 400;
    Date(if m <= 2 then y + 1 else y, m, doy - DaysBeforeMonth(mp) + 1)
  }

  /** The last year of an era has one day more. */
  function DaysInEraYear(yoe: int): int {
    if yoe == 399 then 366 else DaysBeforeYear(yoe + 1) - DaysBeforeYear(yoe)
  }

  /** A day of an era as centuries, four-year cycles, years and days. */
  lemma YearOfEraDecomposed(c: int, q: int, e: int, d: int)
    requires 0 <= c <= 3 && 0 <= q <= 24 && 0 <= e <= 3
    requires 0 <= d <= if e == 3 && q < 24 then 365 else 364
    ensures YearOfEra(36524 * c + 1461 * q + 365 * e + d) == 100 * c + 4 * q + e
    ensures DaysBeforeYear(100 * c + 4 * q + e) == 36524 * c + 1461 * q + 365 * e
  {
    var s := 365 * e + d;
    var doe := 36524 * c + 1461 * q + s;
    var t := if 24 * c + q + s >= 1460 then 1 else 0;
    assert doe / 1460 == 25 * c + q + t;
    assert doe / 36524 == c;
    assert doe / 146096 == 0;
    assert doe - doe / 1460 + c == 365 * (100 * c + 4 * q) + s - t;
    assert (s - t) / 365 == e;
    var y := 100 * c + 4 * q + e;
    assert y / 4 == 25 * c + q;
    assert y / 100 == c;
  }

  lemma YearOfEraIsRight(doe: int)
    requires 0 <= doe < 146097
    ensures 0 <= YearOfEra(doe) <= 399
    ensures 0 <= doe - DaysBeforeYear(YearOfEra(doe)) < DaysInEraYear(YearOfEra(doe))
  {
    hide YearOfEra, IsLeap;
    if doe == 146096 {
      LastDayOfEra();
    } else {
      var c := doe / 36524;
      var r := doe - 36524 * c;
      var q := r / 1461;
      var s := r - 1461 * q;
      var e := if s == 1460 then 3 else s / 365;
      YearOfEraDecomposed(c, q, e, s - 365 * e);
      var y := 100 * c + 4 * q + e;
      YearInEra(c, q, e);
    }
  }

  lemma LastDayOfEra()
    ensures YearOfEra(146096) == 399 && DaysBeforeYear(399) == 145731
  {}

  /** Days before a year given as century, four-year cycle and year, and the days it has. */
  lemma YearInEra(c: int, q: int, e: int)
    requires 0 <= c <= 3 && 0 <= q <= 24 && 0 <= e <= 3
    ensures DaysBeforeYear(100 * c + 4 * q + e) == 36524 * c + 1461 * q + 365 * e
    ensures DaysInEraYear(100 * c + 4 * q + e) >= 365
    ensures e == 3 && q < 24 ==> DaysInEraYear(100 * c + 4 * q + e) == 366
  {
    var y := 100 * c + 4 * q + e;
    assert y / 4 == 25 * c + q && y / 100 == c;
    if e < 3 {
      assert (y + 1) / 4 == 25 * c + q && (y + 1) / 100 == c;
    } else if q < 24 {
      assert (y + 1) / 4 == 25 * c + q + 1 && (y + 1) / 100 == c;
    } else {
      assert (y + 1) / 4 == 25 * c + q + 1 && (y + 1) / 100 == c + 1;
    }
  }

  lemma DaysInEraYearIsLeap(yoe: int)
    requires 0 <= yoe <= 399
    ensures DaysInEraYear(yoe) == if IsLeap(yoe + 1) then 366 else 365
  {
    hide IsLeap;
    FourthYears(yoe);
    HundredthYears(yoe);
    LeapInEra(yoe);
  }

  lemma FourthYears(y: int)
    ensures (y + 1) / 4 - y / 4 == if (y + 1) % 4 == 0 then 1 else 0
  {}

  lemma HundredthYears(y: int)
    ensures (y + 1) / 100 - y / 100 == if (y + 1) % 100 == 0 then 1 else 0
  {}

  lemma LeapInEra(yoe: int)
    requires 0 <= yoe <= 399
    ensures IsLeap(yoe + 1) <==> (yoe + 1) % 4 == 0 && ((yoe + 1) % 100 != 0 || yoe == 399)
    ensures yoe == 399 ==> (yoe + 1) % 4 == 0
  {}

  /** Years of an era do not overlap, so the day tells the year. */
  lemma YearOfEraIsUnique(doe: int, y: int)
    requires 0 <= doe < 146097 && 0 <= y <= 399
    requires 0 <= doe - DaysBeforeYear(y) < DaysInEraYear(y)
    ensures YearOfEra(doe) == y
  {
    YearOfEraIsRight(doe);
    var x := YearOfEra(doe);
    if x < y {
      YearsFollow(x, y);
    } else if y < x {
      YearsFollow(y, x);
    }
  }

  lemma YearsFollow(x: int, y: int)
    requires 0 <= x < y <= 399
    ensures DaysBeforeYear(x) + DaysInEraYear(x) <= DaysBeforeYear(y)
  {
    assert y / 4 - (x + 1) / 4 >= y / 100 - (x + 1) / 100;
  }

  // ---------------------------------------------------------------------------------------
  //  Days of a year that begins in March
  // ---------------------------------------------------------------------------------------

  /** The date `doy` days after 1 March of year y. */
  function FromMarch(y: int, doy: int): Date {
    var mp := MonthPart(doy);
    var m := CivilMonth(mp);
    Date(if m <= 2 then y + 1 else y, m, doy - DaysBeforeMonth(mp) + 1)
  }

  function MarchYearLength(y: int): int {
    if IsLeap(y + 1) then 366 else 365
  }

  /** Days of the month `mp` months after March. */
  function MarchMonthLength(mp: int): int {
    if mp in {1, 3, 6, 8} then 30 else 31
  }

  lemma MonthsFollow(mp: int)
    requires 0 <= mp <= 10
    ensures DaysBeforeMonth(mp + 1) == DaysBeforeMonth(mp) + MarchMonthLength(mp) <= 337
  {}

  lemma MonthOfDay(doy: int)
    requires 0 <= doy < 366
    ensures 0 <= MonthPart(doy) <= 11
    ensures DaysBeforeMonth(MonthPart(doy)) <= doy < DaysBeforeMonth(MonthPart(doy) + 1)
  {}

  lemma DayOfMonth(mp: int, doy: int)
    requires 0 <= mp <= 11 && DaysBeforeMonth(mp) <= doy < DaysBeforeMonth(mp + 1)
    ensures MonthPart(doy) == mp
  {}

  lemma FromMarchSteps(y: int, doy: int)
    requires 0 <= doy < MarchYearLength(y)
    ensures IsDate(FromMarch(y, doy))
    ensures NextDay(FromMarch(y, doy))
         == if doy + 1 < MarchYearLength(y) then FromMarch(y, doy + 1) else FromMarch(y + 1, 0)
  {
    hide MonthPart, DaysBeforeMonth, IsLeap;
    var mp := MonthPart(doy);
    MonthOfDay(doy);
    assert DaysBeforeMonth(11) == 337 && DaysBeforeMonth(0) == 0 && MonthPart(0) == 0 by { EndsOfYear(); }
    if mp < 11 {
      MonthsFollow(mp);
      if doy + 1 < DaysBeforeMonth(mp + 1) {
        DayOfMonth(mp, doy + 1);
      } else {
        LaterMonth(mp);
        DayOfMonth(mp + 1, doy + 1);
      }
    } else if doy + 1 < MarchYearLength(y) {
      MonthOfDay(doy + 1);
      LastMonth(doy + 1);
    }
  }

  lemma EndsOfYear()
    ensures DaysBeforeMonth(11) == 337 && DaysBeforeMonth(0) == 0 && MonthPart(0) == 0
  {}

  lemma LaterMonth(mp: int)
    requires 0 <= mp <= 10
    ensures DaysBeforeMonth(mp + 1) < DaysBeforeMonth(mp + 2)
  {}

  lemma LastMonth(doy: int)
    requires 337 <= doy < 366
    ensures MonthPart(doy) == 11
  {}

  lemma DaysToYmdFromMarch(days: nat, era: int, yoe: int, doy: int)
    requires 0 <= yoe <= 399 && 0 <= doy < MarchYearLength(yoe + 400 * era)
    requires days + 719468 == 146097 * era + DaysBeforeYear(yoe) + doy
    ensures DaysToYmd(days) == FromMarch(yoe + 400 * era, doy)
  {
    hide IsLeap, YearOfEra, MonthPart, DaysBeforeMonth, CivilMonth;
    DaysInEraYearIsLeap(yoe);
    LeapRepeats(yoe + 1, era);
    var doe := DaysBeforeYear(yoe) + doy;
    if yoe < 399 {
      YearsFollow(yoe, 399);
    }
    EraIsQuotient(days + 719468, era, doe);
    YearOfEraIsUnique(doe, yoe);
  }

  lemma EraIsQuotient(z: int, era: int, doe: int)
    requires z == 146097 * era + doe && 0 <= doe < 146097
    ensures z / 146097 == era
  {}

  lemma LeapRepeats(y: int, era: int)
    ensures IsLeap(y + 400 * era) == IsLeap(y)
  {
    Remainder400(y, era);
    Remainder100(y, 4 * era);
    Remainder4(y, 100 * era);
  }

  lemma Remainder400(y: int, k: int)
    ensures (y + 400 * k) % 400 == y % 400
  {}

  lemma Remainder100(y: int, k: int)
    ensures (y + 100 * k) % 100 == y % 100
  {}

  lemma Remainder4(y: int, k: int)
    ensures (y + 4 * k) % 4 == y % 4
  {}

  /** Every day lies in one year of one era. */
  lemma PlaceInEra(days: nat) returns (era: int, yoe: int, doy: int)
    ensures 0 <= yoe <= 399 && 0 <= doy < MarchYearLength(yoe + 400 * era)
    ensures days + 719468 == 146097 * era + DaysBeforeYear(yoe) + doy
  {
    hide YearOfEra, IsLeap;
    var z := days + 719468;
    era := z / 146097;
    var doe := z - era * 146097;
    YearOfEraIsRight(doe);
    yoe := YearOfEra(doe);
    doy := doe - DaysBeforeYear(yoe);
    DaysInEraYearIsLeap(yoe);
    LeapRepeats(yoe + 1, era);
  }

  lemma YearLength(era: int, yoe: int)
    requires 0 <= yoe <= 399
    ensures MarchYearLength(yoe + 400 * era) == DaysInEraYear(yoe)
    ensures MarchYearLength(yoe + 400 * era) >= 365
    ensures DaysBeforeYear(399) + DaysInEraYear(399) == 146097 && DaysBeforeYear(0) == 0
  {
    DaysInEraYearIsLeap(yoe);
    LeapRepeats(yoe + 1, era);
  }

  /** One day more is the day after. */
  lemma DaysToYmdSteps(days: nat)
    ensures IsDate(DaysToYmd(days))
    ensures DaysToYmd(days + 1) == NextDay(DaysToYmd(days))
  {
    hide YearOfEra, FromMarch, NextDay, IsDate, IsLeap, DaysToYmd, MarchYearLength, DaysBeforeYear;
    var era, yoe, doy := PlaceInEra(days);
    var y := yoe + 400 * era;
    YearLength(era, yoe);
    FromMarchSteps(y, doy);
    DaysToYmdFromMarch(days, era, yoe, doy);
    if doy + 1 < MarchYearLength(y) {
      DaysToYmdFromMarch(days + 1, era, yoe, doy + 1);
    } else if yoe < 399 {
      YearLength(era, yoe + 1);
      DaysToYmdFromMarch(days + 1, era, yoe + 1, 0);
    } else {
      YearLength(era + 1, 0);
      DaysToYmdFromMarch(days + 1, era + 1, 0, 0);
    }
  }

  lemma EpochIsDayZero()
    ensures DaysToYmd(0) == EPOCH
  {
    assert 719468 / 146097 == 4 && 719468 - 4 * 146097 == 135080 && YearOfEra(135080) == 369;
  }

  /** The algorithm counts days: n gives the date n days after 1 January 1970. */
  lemma {:induction false} DaysToYmdCounts(n: nat)
    ensures DaysToYmd(n) == DaysAfterEpoch(n)
  {
    hide DaysToYmd, NextDay, IsDate;
    if n == 0 {
      EpochIsDayZero();
    } else {
      DaysToYmdCounts(n - 1);
      DaysToYmdSteps(n - 1);
    }
  }

  // ---------------------------------------------------------------------------------------
  //  Order and inverse
  // ---------------------------------------------------------------------------------------

  lemma NextDayIsLater(d: Date)
    requires IsDate(d)
    ensures Before(d, NextDay(d))
  {}

  lemma BeforeTransitive(a: Date, b: Date, c: Date)
    requires Before(a, b) && Before(b, c)
    ensures Before(a, c)
  {}

  /** Later days have later dates. */
  lemma {:induction false} DaysToYmdIncreases(m: nat, n: nat)
    requires m < n
    ensures Before(DaysToYmd(m), DaysToYmd(n))
    decreases n - m
  {
    hide DaysToYmd, NextDay, IsDate, Before;
    DaysToYmdSteps(m);
    NextDayIsLater(DaysToYmd(m));
    if m + 1 < n {
      DaysToYmdIncreases(m + 1, n);
      BeforeTransitive(DaysToYmd(m), DaysToYmd(m + 1), DaysToYmd(n));
    }
  }

  function DaysBeforeCivilMonth(year: int, month: int): int
    requires 1 <= month <= 13
    decreases month
  {
    if month == 1 then 0 else DaysBeforeCivilMonth(year, month - 1) + DaysInMonth(year, month - 1)
  }

  /** Days from 1 January of year 0 to 1 January of a year. */
  function DaysBeforeCivilYear(year: nat): nat
    decreases year
  {
    if year == 0 then 0 else DaysBeforeCivilYear(year - 1) + if IsLeap(year - 1) then 366 else 365
  }

  /** The number of a date, counting months and years one by one. */
  function DayNumber(d: Date): int
    requires IsDate(d) && d.year >= 0
  {
    DaysBeforeCivilYear(d.year) + DaysBeforeCivilMonth(d.year, d.month) + d.day - 1
  }

  lemma {:induction false} CivilMonthsGrow(year: int, m: int, n: int)
    requires 1 <= m <= n <= 13
    ensures DaysBeforeCivilMonth(year, m) <= DaysBeforeCivilMonth(year, n)
    decreases n - m
  {
    if m < n {
      CivilMonthsGrow(year, m, n - 1);
    }
  }

  lemma DaysInCivilYear(year: int)
    ensures DaysBeforeCivilMonth(year, 13) == if IsLeap(year) then 366 else 365
  {
    assert DaysBeforeCivilMonth(year, 5) == DaysBeforeCivilMonth(year, 3) + 31 + 30;
    assert DaysBeforeCivilMonth(year, 7) == DaysBeforeCivilMonth(year, 5) + 31 + 30;
    assert DaysBeforeCivilMonth(year, 9) == DaysBeforeCivilMonth(year, 7) + 31 + 31;
    assert DaysBeforeCivilMonth(year, 11) == DaysBeforeCivilMonth(year, 9) + 30 + 31;
  }

  lemma {:induction false} CivilYearsGrow(x: nat, y: nat)
    requires x <= y
    ensures DaysBeforeCivilYear(x) <= DaysBeforeCivilYear(y)
    decreases y
  {
    if x < y {
      CivilYearsGrow(x, y - 1);
    }
  }

  lemma DayNumberWithinYear(d: Date)
    requires IsDate(d) && d.year >= 0
    ensures DaysBeforeCivilYear(d.year) <= DayNumber(d) < DaysBeforeCivilYear(d.year + 1)
  {
    hide IsLeap, DaysBeforeCivilMonth;
    CivilMonthsGrow(d.year, 1, d.month);
    CivilMonthsGrow(d.year, d.month + 1, 13);
    DaysInCivilYear(d.year);
    MonthStep(d.year, d.month);
  }

  lemma MonthStep(year: int, month: int)
    requires 1 <= month <= 12
    ensures DaysBeforeCivilMonth(year, 1) == 0
    ensures DaysBeforeCivilMonth(year, month + 1) == DaysBeforeCivilMonth(year, month) + DaysInMonth(year, month)
  {}

  /** Earlier dates have smaller numbers, so a date is known by its number. */
  lemma DayNumberIncreases(a: Date, b: Date)
    requires IsDate(a) && IsDate(b) && a.year >= 0 && Before(a, b)
    ensures DayNumber(a) < DayNumber(b)
  {
    hide IsLeap, DaysBeforeCivilMonth, DaysBeforeCivilYear;
    if a.year < b.year {
      DayNumberWithinYear(a);
      DayNumberWithinYear(b);
      CivilYearsGrow(a.year + 1, b.year);
    } else if a.month < b.month {
      MonthStep(a.year, a.month);
      CivilMonthsGrow(a.year, a.month + 1, b.month);
    }
  }

  lemma NextDayCounts(d: Date)
    requires IsDate(d) && d.year >= 0
    ensures DayNumber(NextDay(d)) == DayNumber(d) + 1
  {
    hide IsLeap, DaysBeforeCivilMonth;
    MonthStep(d.year, d.month);
    MonthStep(d.year + 1, 1);
    DaysInCivilYear(d.year);
  }

  /** The number of days from 1 January 1970 to a date. */
  function DaysSinceEpoch(d: Date): int
    requires IsDate(d) && d.year >= 0
  {
    DayNumber(d) - DayNumber(EPOCH)
  }

  lemma {:induction false} DaysSinceEpochInverts(n: nat)
    ensures IsDate(DaysToYmd(n)) && DaysToYmd(n).year >= 1970
    ensures DaysSinceEpoch(DaysToYmd(n)) == n
  {
    hide DaysToYmd, DayNumber, NextDay;
    if n == 0 {
      EpochIsDayZero();
    } else {
      DaysSinceEpochInverts(n - 1);
      DaysToYmdSteps(n - 1);
      NextDayCounts(DaysToYmd(n - 1));
      NextDayIsLater(DaysToYmd(n - 1));
    }
  }

  /** Every date from 1970 on is the date of its number of days. */
  lemma DaysToYmdInverts(d: Date)
    requires IsDate(d) && d.year >= 1970
    ensures DaysSinceEpoch(d) >= 0
    ensures DaysToYmd(DaysSinceEpoch(d)) == d
  {
    hide DaysToYmd, DayNumber, IsLeap;
    if Before(d, EPOCH) {
      assert false;
    } else if d != EPOCH {
      DayNumberIncreases(EPOCH, d);
    }
    var n := DaysSinceEpoch(d);
    DaysSinceEpochInverts(n);
    var e := DaysToYmd(n);
    if Before(d, e) {
      DayNumberIncreases(d, e);
    } else if Before(e, d) {
      DayNumberIncreases(e, d);
    }
  }

  // ---------------------------------------------------------------------------------------
  //  Timestamps
  // ---------------------------------------------------------------------------------------

  datatype Timestamp = Timestamp(date: Date, hours: int, minutes: int, seconds: int, millis: int)

  /** chrono_minimal, before its fields are printed. */
  function ChronoMinimal(secs: nat, millis: nat): Timestamp {
    var timeOfDay := secs % 86400;
    Timestamp(DaysToYmd(secs / 86400), timeOfDay / 3600, (timeOfDay % 3600) / 60, timeOfDay % 60, millis)
  }

  datatype AbsoluteTime = NotAvailable | At(time: Timestamp)

  /** format_absolute_time, before printing. */
  function FormatAbsoluteTime(micros: nat): AbsoluteTime {
    if micros == 0 then NotAvailable
    else At(ChronoMinimal(micros / 1_000_000, (micros % 1_000_000) / 1000))
  }

  function MillisOf(t: Timestamp): int
    requires IsDate(t.date) && t.date.year >= 0
  {
    (((DaysSinceEpoch(t.date) * 24 + t.hours) * 60 + t.minutes) * 60 + t.seconds) * 1000 + t.millis
  }

  lemma ClockRecombines(secs: nat)
    ensures var t := secs % 86400;
      && 0 <= t / 3600 < 24 && 0 <= (t % 3600) / 60 < 60 && 0 <= t % 60 < 60
      && ((secs / 86400 * 24 + t / 3600) * 60 + (t % 3600) / 60) * 60 + t % 60 == secs
  {}

  /** A formatted time has all its fields in range and is the given time to the millisecond. */
  lemma FormattedTimeRecombines(micros: nat)
    requires micros > 0
    ensures var t := FormatAbsoluteTime(micros).time;
      && IsDate(t.date) && t.date.year >= 1970
      && 0 <= t.hours < 24 && 0 <= t.minutes < 60 && 0 <= t.seconds < 60 && 0 <= t.millis < 1000
      && MillisOf(t) == micros / 1000
  {
    hide DaysToYmd, DaysSinceEpoch;
    var secs := micros / 1_000_000;
    ClockRecombines(secs);
    DaysSinceEpochInverts(secs / 86400);
  }

  /** No 64-bit count of microseconds overflows the 32-bit year. */
  lemma YearFits(micros: nat)
    requires 0 < micros < 0x1_0000_0000_0000_0000
    ensures FormatAbsoluteTime(micros).time.date.year < 0x8000_0000
  {
    var days := micros / 1_000_000 / 86400;
    var z := days + 719468;
    YearOfEraIsRight(z - z / 146097 * 146097);
  }
}
