/**
 Civil dates and Unix time, as computed in several places: the counting loop and
 the closed form of crates/hoike-sign/src/generate.rs (the closed form again in
 crates/hoike-server/src/handlers.rs), and the inverse closed form of
 crates/hoike-sign/src/dogtag_sync.rs.
 */
module Calendar {
  import opened Wrappers
  import opened Bytes

  datatype Date = Date(year: int, month: int, day: int)

  predicate Leap(y: int) {
    y % 4 == 0 && (y % 100 != 0 || y % 400 == 0)
  }

  function YearDays(y: int): int {
    if Leap(y) then 366 else 365
  }

  function MonthDays(y: int, m: int): int {
    if m == 2 then (if Leap(y) then 29 else 28)
    else if m == 4 || m == 6 || m == 9 || m == 11 then 30
    else 31
  }

  predicate ValidDate(d: Date) {
    d.year >= 1970 && 1 <= d.month <= 12 && 1 <= d.day <= MonthDays(d.year, d.month)
  }

  // ---- counting ------------------------------------------------------------------------

  function DaysBeforeYear(y: int): nat
    decreases y
  {
    if y <= 1970 then 0 else DaysBeforeYear(y - 1) + YearDays(y - 1)
  }

  function DaysBeforeMonth(y: int, m: int): nat
    decreases m
  {
    if m <= 1 then 0 else DaysBeforeMonth(y, m - 1) + MonthDays(y, m - 1)
  }

  /** Days since 1970-01-01, counted year by year and month by month. */
  function CountDays(d: Date): int {
    DaysBeforeYear(d.year) + DaysBeforeMonth(d.year, d.month) + d.day - 1
  }

  // ---- the closed forms ------------------------------------------------------------------

  /** Day number to civil date; eras of 400 years starting in March. */
  function DaysToYmd(days: nat): Date {
    var z := days + 719468;
    var era := z / 146097;
    var doe := z - era * 146097;
    var yoe := YearOfEra(doe);
    var doy := doe - (365 * yoe + yoe / 4 - yoe / 100);
    var mp := (5 * doy + 2) / 153;
    var m := if mp < 10 then mp + 3 else mp - 9;
    Date(yoe + era * 400 + (if m <= 2 then 1 else 0), m, doy - (153 * mp + 2) / 5 + 1)
  }

  function YearOfEra(doe: int): int {
    (doe - doe / 1460 + doe / 36524 - doe / 146096) / 365
  }

  /** Civil date to day number, negative before 1970. */
  function DaysFromCivil(d: Date): int {
    var y := if d.month <= 2 then d.year - 1 else d.year;
    var era := y / 400;
    var yoe := y - era * 400;
    var doy := (153 * (if d.month > 2 then d.month - 3 else d.month + 9) + 2) / 5 + d.day - 1;
    era * 146097 + (yoe * 365 + yoe / 4 - yoe / 100 + doy) - 719468
  }

  // ---- counting agrees with the closed form -----------------------------------------------

  /** Days before the March-based year `y`, up to a constant. */
  function MarchDays(y: int): int {
    365 * y + y / 4 - y / 100 + y / 400
  }

  lemma EraDays(y: int)
    ensures y / 400 * 146097 + ((y - y / 400 * 400) * 365 + (y - y / 400 * 400) / 4 - (y - y / 400 * 400) / 100)
         == MarchDays(y)
  {
    var era, yoe := y / 400, y % 400;
    assert y == 400 * era + yoe;
    assert y / 4 == 100 * era + yoe / 4 && y / 100 == 4 * era + yoe / 100;
  }

  lemma MarchStep(y: int)
    ensures MarchDays(y) - MarchDays(y - 1) == YearDays(y)
  {
    StepDown(y, 4);
    StepDown(y, 100);
    StepDown(y, 400);
  }

  lemma StepDown(y: int, k: int)
    requires k == 4 || k == 100 || k == 400
    ensures y / k - (y - 1) / k == if y % k == 0 then 1 else 0
  {
  }

  /** Days from the first of March to the first of a month. */
  function MonthOffset(m: int): int {
    (153 * (if m > 2 then m - 3 else m + 9) + 2) / 5
  }

  lemma MonthSteps(m: int)
    requires 4 <= m <= 12
    ensures MonthOffset(m) - MonthOffset(m - 1) == MonthDays(1970, m - 1)
  {
  }

  lemma MonthEnds()
    ensures MonthOffset(1) == 306 && MonthOffset(2) == 337 && MonthOffset(3) == 0
  {
  }

  lemma CivilByMarch(d: Date)
    requires 1 <= d.month <= 12
    ensures DaysFromCivil(d)
         == (if d.month <= 2 then MarchDays(d.year - 1) else MarchDays(d.year)) + d.day - 719469 + MonthOffset(d.month)
  {
    EraDays(if d.month <= 2 then d.year - 1 else d.year);
  }

  lemma DaysAreConsecutive(y: int, m: int, day: int)
    requires 1 <= m <= 12
    ensures DaysFromCivil(Date(y, m, day)) == DaysFromCivil(Date(y, m, 1)) + day - 1
  {
    CivilByMarch(Date(y, m, day));
    CivilByMarch(Date(y, m, 1));
  }

  /** A day past the end of a month has the number of a day of the next month. */
  lemma DayRolls(y: int, m: int, day: int)
    requires 1 <= m < 12
    ensures DaysFromCivil(Date(y, m, day)) == DaysFromCivil(Date(y, m + 1, day - MonthDays(y, m)))
  {
    CivilByMarch(Date(y, m, day));
    CivilByMarch(Date(y, m + 1, day - MonthDays(y, m)));
    MonthEnds();
    if m == 2 {
      MarchStep(y);
    } else if m > 2 {
      MonthSteps(m + 1);
    }
  }

  lemma {:induction false} YearStarts(y: int)
    requires y >= 1970
    ensures DaysFromCivil(Date(y, 1, 1)) == DaysBeforeYear(y)
    decreases y
  {
    if y > 1970 {
      YearStarts(y - 1);
      CivilByMarch(Date(y, 1, 1));
      CivilByMarch(Date(y - 1, 1, 1));
      MarchStep(y - 1);
    }
  }

  lemma {:induction false} MonthStarts(y: int, m: int)
    requires y >= 1970 && 1 <= m <= 12
    ensures DaysFromCivil(Date(y, m, 1)) == DaysBeforeYear(y) + DaysBeforeMonth(y, m)
    decreases m
  {
    if m == 1 {
      YearStarts(y);
    } else {
      MonthStarts(y, m - 1);
      NextMonth(y, m);
    }
  }

  lemma NextMonth(y: int, m: int)
    requires 2 <= m <= 12
    ensures DaysFromCivil(Date(y, m, 1)) == DaysFromCivil(Date(y, m - 1, 1)) + MonthDays(y, m - 1)
  {
    CivilByMarch(Date(y, m, 1));
    CivilByMarch(Date(y, m - 1, 1));
    MonthEnds();
    if m == 3 {
      MarchStep(y);
    } else if m > 3 {
      MonthSteps(m);
    }
  }

  /** The counting loop and the closed form give every date the same number. */
  lemma CountingIsCivil(d: Date)
    requires d.year >= 1970 && 1 <= d.month <= 12
    ensures DaysFromCivil(d) == CountDays(d)
  {
    MonthStarts(d.year, d.month);
    DaysAreConsecutive(d.year, d.month, d.day);
  }

  // ---- the closed forms are inverse ---------------------------------------------------------

  /** A day of the era by century, four-year cycle, year and day of the March-based year. */
  predicate EraDay(c: int, q: int, s: int, doy: int) {
    0 <= c <= 3 && 0 <= q <= 24 && 0 <= s <= 3 && 0 <= doy <= LastDay(c, q, s)
  }

  predicate EndsLeap(c: int, q: int, s: int) {
    s == 3 && (q != 24 || c == 3)
  }

  function LastDay(c: int, q: int, s: int): int {
    if EndsLeap(c, q, s) then 365 else 364
  }

  lemma YearOfEraDay(c: int, q: int, s: int, doy: int)
    requires EraDay(c, q, s, doy)
    ensures YearOfEra(36524 * c + 1461 * q + 365 * s + doy) == 100 * c + 4 * q + s
  {
    var doe := 36524 * c + 1461 * q + 365 * s + doy;
    assert doe / 36524 - doe / 146096 == c;
    var e := if 24 * c + q + 365 * s + doy >= 1460 then 1 else 0;
    assert doe / 1460 == 25 * c + q + e;
    assert doe - doe / 1460 + c == 365 * (100 * c + 4 * q + s) + (doy - e);
  }

  lemma SplitEraDay(doe: int) returns (c: int, q: int, s: int, doy: int)
    requires 0 <= doe <= 146096
    ensures EraDay(c, q, s, doy) && doe == 36524 * c + 1461 * q + 365 * s + doy
  {
    c := if doe / 36524 > 3 then 3 else doe / 36524;
    var r := doe - 36524 * c;
    q := r / 1461;
    var t := r - 1461 * q;
    s := if t / 365 > 3 then 3 else t / 365;
    doy := t - 365 * s;
  }

  /** Day of the March-based year to month number from March, and back. */
  lemma MonthOfYearDay(mp: int, d: int)
    requires 0 <= mp <= 11 && 1 <= d <= 31
    requires mp in {1, 3, 6, 8} ==> d <= 30
    requires mp == 11 ==> d <= 29
    ensures (5 * ((153 * mp + 2) / 5 + d - 1) + 2) / 153 == mp
  {
  }

  lemma DayOfMonth(doy: int)
    requires 0 <= doy <= 365
    ensures var mp := (5 * doy + 2) / 153;
            var d := doy - (153 * mp + 2) / 5 + 1;
            && 0 <= mp <= 11 && 1 <= d <= 31
            && (mp in {1, 3, 6, 8} ==> d <= 30)
            && (mp == 11 ==> d <= 29 && (d == 29 <==> doy == 365))
  {
  }

  lemma LeapByParts(era: int, c: int, q: int, s: int)
    requires 0 <= c <= 3 && 0 <= q <= 24 && 0 <= s <= 3
    ensures Leap(400 * era + 100 * c + 4 * q + s + 1) <==> EndsLeap(c, q, s)
  {
    var y, w := 400 * era + 100 * c + 4 * q + s + 1, 4 * q + s + 1;
    if s != 3 {
      Remainder4(y, 100 * era + 25 * c + q, s + 1);
    } else {
      Remainder4(y, 100 * era + 25 * c + q + 1, 0);
      if w < 100 {
        Remainder100(y, 4 * era + c, w);
      } else {
        Remainder100(y, 4 * era + c + 1, 0);
        Remainder400(y, if c == 3 then era + 1 else era, if c == 3 then 0 else 100 * c + 100);
      }
    }
  }

  lemma Remainder4(y: int, a: int, r: int)
    requires y == 4 * a + r && 0 <= r < 4
    ensures y % 4 == r
  {
  }

  lemma Remainder100(y: int, a: int, r: int)
    requires y == 100 * a + r && 0 <= r < 100
    ensures y % 100 == r
  {
  }

  lemma Remainder400(y: int, a: int, r: int)
    requires y == 400 * a + r && 0 <= r < 400
    ensures y % 400 == r
  {
  }

  /** The year parts of a day number, and the date they make. */
  lemma DateOfParts(days: nat, era: int, c: int, q: int, s: int, doy: int)
    requires EraDay(c, q, s, doy) && days + 719468 == 146097 * era + (36524 * c + 1461 * q + 365 * s + doy)
    ensures var mp := (5 * doy + 2) / 153;
            var m := if mp < 10 then mp + 3 else mp - 9;
            DaysToYmd(days) == Date(400 * era + 100 * c + 4 * q + s + (if m <= 2 then 1 else 0), m,
                                    doy - (153 * mp + 2) / 5 + 1)
  {
    var doe, yoe := 36524 * c + 1461 * q + 365 * s + doy, 100 * c + 4 * q + s;
    assert 0 <= doe <= 146096;
    assert (days + 719468) / 146097 == era;
    YearOfEraDay(c, q, s, doy);
    assert yoe / 4 == 25 * c + q && yoe / 100 == c;
    assert doe - (365 * yoe + yoe / 4 - yoe / 100) == doy;
  }

  /** The March-based year and the day within it. */
  function MarchYear(d: Date): int {
    if d.month <= 2 then d.year - 1 else d.year
  }

  function MarchDay(d: Date): int {
    MonthOffset(d.month) + d.day - 1
  }

  lemma MarchByParts(era: int, c: int, q: int, s: int)
    requires 0 <= c <= 3 && 0 <= q <= 24 && 0 <= s <= 3
    ensures MarchDays(400 * era + 100 * c + 4 * q + s) == 146097 * era + 36524 * c + 1461 * q + 365 * s
  {
    var y := 400 * era + 100 * c + 4 * q + s;
    assert y / 4 == 100 * era + 25 * c + q;
    assert y / 100 == 4 * era + c;
    assert y / 400 == era;
  }

  lemma YearParts(y: int) returns (era: int, c: int, q: int, s: int)
    ensures 0 <= c <= 3 && 0 <= q <= 24 && 0 <= s <= 3 && y == 400 * era + 100 * c + 4 * q + s
  {
    era := y / 400;
    c := y % 400 / 100;
    q := y % 100 / 4;
    s := y % 4;
    assert y % 400 == 100 * c + y % 100;
    assert y % 100 == 4 * q + s;
  }

  /** A valid date's day stays inside its March-based year. */
  lemma MarchDayFits(d: Date, era: int, c: int, q: int, s: int)
    requires ValidDate(d) && 0 <= c <= 3 && 0 <= q <= 24 && 0 <= s <= 3
    requires MarchYear(d) == 400 * era + 100 * c + 4 * q + s
    ensures EraDay(c, q, s, MarchDay(d))
  {
    LeapByParts(era, c, q, s);
    MonthEnds();
  }

  lemma MarchMonth(m: int, day: int, y: int)
    requires 1 <= m <= 12 && 1 <= day <= MonthDays(y, m)
    ensures var doy := MonthOffset(m) + day - 1;
            var mp := (5 * doy + 2) / 153;
            mp == (if m > 2 then m - 3 else m + 9) && doy - (153 * mp + 2) / 5 + 1 == day
  {
    MonthOfYearDay(if m > 2 then m - 3 else m + 9, day);
  }

  lemma YmdOfParts(days: nat, d: Date, era: int, c: int, q: int, s: int)
    requires ValidDate(d) && MarchYear(d) == 400 * era + 100 * c + 4 * q + s && EraDay(c, q, s, MarchDay(d))
    requires days + 719468 == 146097 * era + (36524 * c + 1461 * q + 365 * s + MarchDay(d))
    ensures DaysToYmd(days) == d
  {
    DateOfParts(days, era, c, q, s, MarchDay(d));
    MarchMonth(d.month, d.day, d.year);
  }

  lemma CountByParts(d: Date, era: int, c: int, q: int, s: int)
    requires ValidDate(d) && 0 <= c <= 3 && 0 <= q <= 24 && 0 <= s <= 3
    requires MarchYear(d) == 400 * era + 100 * c + 4 * q + s
    ensures CountDays(d) + 719468 == 146097 * era + (36524 * c + 1461 * q + 365 * s + MarchDay(d))
  {
    CountingIsCivil(d);
    CivilByMarch(d);
    MarchByParts(era, c, q, s);
  }

  /** The closed form inverts counting on every valid date. */
  lemma YmdInvertsCounting(d: Date)
    requires ValidDate(d)
    ensures CountDays(d) >= 0 && DaysToYmd(CountDays(d)) == d
  {
    var era, c, q, s := YearParts(MarchYear(d));
    MarchDayFits(d, era, c, q, s);
    CountByParts(d, era, c, q, s);
    YmdOfParts(CountDays(d), d, era, c, q, s);
  }

  lemma MarchMonotone(x: int, y: int)
    requires x <= y
    ensures MarchDays(x) <= MarchDays(y)
    decreases y - x
  {
    if x < y {
      MarchMonotone(x, y - 1);
      MarchStep(y);
    }
  }

  lemma BeforeUnixTime(d: Date)
    requires d.year < 1970 && 1 <= d.month <= 12 && d.day <= MonthDays(d.year, d.month)
    ensures DaysFromCivil(d) < 0
  {
    CivilByMarch(d);
    MarchMonotone(MarchYear(d), if d.month <= 2 then 1968 else 1969);
    MonthEnds();
  }

  lemma CivilOfParts(days: nat, era: int, c: int, q: int, s: int, doy: int)
    requires EraDay(c, q, s, doy) && days + 719468 == 146097 * era + (36524 * c + 1461 * q + 365 * s + doy)
    ensures var d := DaysToYmd(days);
            1 <= d.month <= 12 && MarchYear(d) == 400 * era + 100 * c + 4 * q + s && MarchDay(d) == doy
            && 1 <= d.day <= MonthDays(d.year, d.month)
  {
    DateOfParts(days, era, c, q, s, doy);
    DayOfMonth(doy);
    LeapByParts(era, c, q, s);
    MonthBack((5 * doy + 2) / 153);
  }

  /** The date the closed form gives has a real month and day, and lies `days` after the epoch. */
  lemma YmdIsCivil(days: nat)
    ensures var d := DaysToYmd(days);
            1 <= d.month <= 12 && 1 <= d.day <= MonthDays(d.year, d.month) && DaysFromCivil(d) == days
  {
    var era := (days + 719468) / 146097;
    var c, q, s, doy := SplitEraDay((days + 719468) % 146097);
    CivilOfParts(days, era, c, q, s, doy);
    MarchByParts(era, c, q, s);
    CivilByMarch(DaysToYmd(days));
  }

  lemma MonthBack(mp: int)
    requires 0 <= mp <= 11
    ensures MonthOffset(if mp < 10 then mp + 3 else mp - 9) == (153 * mp + 2) / 5
  {
  }

  /** On every day from 1970 on, the closed form gives a valid date and counting returns the day. */
  lemma CountingInvertsYmd(days: nat)
    ensures ValidDate(DaysToYmd(days)) && CountDays(DaysToYmd(days)) == days
  {
    YmdIsCivil(days);
    var d := DaysToYmd(days);
    if d.year < 1970 {
      BeforeUnixTime(d);
    }
    CountingIsCivil(d);
  }

  // ---- Unix seconds --------------------------------------------------------------------------

  /** What `der::DateTime` holds; its constructor takes years 1970 to 9999. */
  datatype DateTime = DateTime(year: u16, month: u8, day: u8, hour: u8, minutes: u8, seconds: u8)

  predicate Accepts(dt: DateTime) {
    && dt.year <= 9999 && ValidDate(DateOf(dt)) && dt.hour <= 23 && dt.minutes <= 59 && dt.seconds <= 59
  }

  function DateOf(dt: DateTime): Date {
    Date(dt.year, dt.month, dt.day)
  }

  function EpochOf(dt: DateTime): int {
    CountDays(DateOf(dt)) * 86400 + dt.hour * 3600 + dt.minutes * 60 + dt.seconds
  }

  /** The counting loops of `datetime_to_epoch`. */
  method DatetimeToEpoch(dt: DateTime) returns (secs: int)
    requires Accepts(dt)
    ensures secs == EpochOf(dt)
  {
    var days := 0;
    for y := 1970 to dt.year
      invariant days == DaysBeforeYear(y)
    {
      days := days + if y % 4 == 0 && (y % 100 != 0 || y % 400 == 0) then 366 else 365;
    }
    var mdays := [0, 31, 28, 31, 30, 31, 30, 31, 31, 30, 31, 30, 31];
    for m := 1 to dt.month
      invariant days == DaysBeforeYear(dt.year) + DaysBeforeMonth(dt.year, m)
    {
      days := days + mdays[m];
      if m == 2 && Leap(dt.year) {
        days := days + 1;
      }
    }
    days := days + dt.day - 1;
    secs := days * 86400 + dt.hour * 3600 + dt.minutes * 60 + dt.seconds;
  }

  /** The year is narrowed to 16 bits before the date-time is made. */
  function Narrowed(d: Date, t: nat): Option<DateTime>
    requires ValidDate(d) && t < 86400
  {
    var dt := DateTime(d.year % 0x1_0000, d.month, d.day, t / 3600, t % 3600 / 60, t % 60);
    if Accepts(dt) then Some(dt) else None
  }

  function EpochToDatetime(secs: nat): Option<DateTime> {
    CountingInvertsYmd(secs / 86400);
    Narrowed(DaysToYmd(secs / 86400), secs % 86400)
  }

  lemma TimeOfDay(t: nat)
    requires t < 86400
    ensures t / 3600 <= 23 && t % 3600 / 60 <= 59 && t / 3600 * 3600 + t % 3600 / 60 * 60 + t % 60 == t
  {
  }

  lemma NarrowedRoundTrip(d: Date, t: nat)
    requires ValidDate(d) && t < 86400 && d.year < 0x1_0000
    ensures Narrowed(d, t).Some? <==> d.year <= 9999
    ensures Narrowed(d, t).Some? ==> EpochOf(Narrowed(d, t).value) == CountDays(d) * 86400 + t
  {
    TimeOfDay(t);
  }

  lemma NarrowedDiffers(d: Date, t: nat)
    requires ValidDate(d) && t < 86400 && d.year >= 0x1_0000 && Narrowed(d, t).Some?
    ensures EpochOf(Narrowed(d, t).value) != CountDays(d) * 86400 + t
  {
    TimeOfDay(t);
    var e := DateOf(Narrowed(d, t).value);
    if CountDays(e) == CountDays(d) {
      YmdInvertsCounting(d);
      YmdInvertsCounting(e);
    }
  }

  /** Times up to the end of 9999 convert and convert back. */
  lemma DatetimeRoundTrip(secs: nat)
    requires DaysToYmd(secs / 86400).year <= 9999
    ensures EpochToDatetime(secs).Some? && EpochOf(EpochToDatetime(secs).value) == secs
  {
    CountingInvertsYmd(secs / 86400);
    NarrowedRoundTrip(DaysToYmd(secs / 86400), secs % 86400);
  }

  /** A converted time is the one asked for if and only if its year was not narrowed. */
  lemma DatetimeExactly(secs: nat)
    requires EpochToDatetime(secs).Some?
    ensures EpochOf(EpochToDatetime(secs).value) == secs <==> DaysToYmd(secs / 86400).year < 0x1_0000
  {
    CountingInvertsYmd(secs / 86400);
    if DaysToYmd(secs / 86400).year < 0x1_0000 {
      NarrowedRoundTrip(DaysToYmd(secs / 86400), secs % 86400);
    } else {
      NarrowedDiffers(DaysToYmd(secs / 86400), secs % 86400);
    }
  }

  lemma AtMidnight(d: Date)
    requires ValidDate(d)
    ensures CountDays(d) >= 0 && EpochToDatetime(CountDays(d) * 86400) == Narrowed(d, 0)
  {
    YmdInvertsCounting(d);
    var secs := CountDays(d) * 86400;
    assert secs / 86400 == CountDays(d) && secs % 86400 == 0;
  }

  /** Every later year that is 1970 in 16 bits (67506 is the first) converts to 1970. */
  lemma NarrowingExample(d: Date)
    requires d.year > 1970 && d.year % 0x1_0000 == 1970 && d.month == 1 && d.day == 1
    ensures CountDays(d) >= 0 && EpochToDatetime(CountDays(d) * 86400) == Some(DateTime(1970, 1, 1, 0, 0, 0))
    ensures EpochOf(DateTime(1970, 1, 1, 0, 0, 0)) != CountDays(d) * 86400
  {
    AtMidnight(d);
    assert Narrowed(d, 0) == Some(DateTime(1970, 1, 1, 0, 0, 0));
    NarrowedDiffers(d, 0);
  }

  // ---- later days have later years ---------------------------------------------------------

  lemma {:induction false} YearsAccumulate(y: int, z: int)
    requires y <= z
    ensures DaysBeforeYear(y) <= DaysBeforeYear(z)
    decreases z
  {
    if y < z && z > 1970 {
      YearsAccumulate(y, z - 1);
    }
  }

  lemma {:induction false} MonthsFit(y: int, m: int)
    requires 1 <= m <= 12
    ensures DaysBeforeMonth(y, m) + MonthDays(y, m) <= YearDays(y)
  {
    CumulativeDays(y);
  }

  lemma CumulativeDays(y: int)
    ensures forall m :: 1 <= m <= 12 ==> DaysBeforeMonth(y, m) + MonthDays(y, m) <= YearDays(y)
  {
    var f := MonthDays(y, 2);
    assert DaysBeforeMonth(y, 2) == 31;
    assert DaysBeforeMonth(y, 3) == 31 + f;
    assert DaysBeforeMonth(y, 4) == 62 + f;
    assert DaysBeforeMonth(y, 5) == 92 + f;
    assert DaysBeforeMonth(y, 6) == 123 + f;
    assert DaysBeforeMonth(y, 7) == 153 + f;
    assert DaysBeforeMonth(y, 8) == 184 + f;
    assert DaysBeforeMonth(y, 9) == 215 + f;
    assert DaysBeforeMonth(y, 10) == 245 + f;
    assert DaysBeforeMonth(y, 11) == 276 + f;
    assert DaysBeforeMonth(y, 12) == 306 + f;
  }

  lemma YearsAscend(a: nat, b: nat)
    requires a <= b
    ensures DaysToYmd(a).year <= DaysToYmd(b).year
  {
    CountingInvertsYmd(a);
    CountingInvertsYmd(b);
    AscendingDates(DaysToYmd(a), DaysToYmd(b));
  }

  lemma AscendingDates(d: Date, e: Date)
    requires ValidDate(d) && ValidDate(e) && CountDays(d) <= CountDays(e)
    ensures d.year <= e.year
  {
    if e.year < d.year {
      MonthsFit(e.year, e.month);
      YearsAccumulate(e.year + 1, d.year);
    }
  }
}
