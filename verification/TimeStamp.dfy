/** The data frame header: its fields, their bit widths and the time they carry. */
module TimeStamp {
  import opened Arith
  import opened Options
  import opened Calendar

  const TICKS_PER_SECOND := 250_000_000 // the fine time counts 4 ns
  const TICKS_PER_COARSE := 31_250 // 125 microseconds
  const TICKS_PER_MS := 250_000
  const SECONDS_PER_DAY := 86_400
  const TICKS_PER_DAY := 21_600_000_000_000

  datatype DataFrameHeader = DataFrameHeader(
    pmtId: nat, efcmId: nat, towerId: nat, syncBytes: nat,
    t4ns: nat, frameCounter: nat, seconds: nat, days: nat, years: nat,
    nDataSamples: nat, fifoFull: nat, charge: nat, fragFlag: nat, zipFlag: nat)
  {
    /** The time fields fit their bit fields. */
    predicate TimeFits() {
      t4ns < 0x1_0000 && frameCounter < 0x2000 && seconds < 0x2_0000 && days < 0x400 && years < 0x100
    }
  }

  // ---- reading ----

  /** Reads the two BCD digits: x & 15, then 10 * (x & 240) shifted right by four. */
  function GetYears(h: DataFrameHeader): nat {
    h.years % 16 + (10 * (h.years / 16 % 16 * 16)) / 16
  }

  function GetDays(h: DataFrameHeader): nat {
    h.days % 16 + (10 * (h.days / 16 % 16 * 16)) / 16 + (100 * (h.days / 256 % 4 * 256)) / 256
  }

  function GetDayTime(h: DataFrameHeader): nat {
    h.seconds * TICKS_PER_SECOND + h.frameCounter * TICKS_PER_COARSE + h.t4ns
  }

  /** The product is taken in 32 unsigned bits. */
  function GetYearTime(h: DataFrameHeader): nat {
    86_400 * GetDays(h) % 0x1_0000_0000 * TICKS_PER_SECOND + GetDayTime(h)
  }

  function BissextileDays(years: nat): nat {
    if years % 4 == 0 then years / 4 else years / 4 + 1
  }

  /** 4 ns ticks since 1 January 2000. The sum of seconds is taken in 32 unsigned bits. */
  function GetFullTime(h: DataFrameHeader): nat {
    var years := GetYears(h);
    (31_536_000 * years + 86_400 * BissextileDays(years)) % 0x1_0000_0000 * TICKS_PER_SECOND + GetYearTime(h)
  }

  function TimesliceId(h: DataFrameHeader, sliceMs: int): int
    requires sliceMs > 0
  {
    GetFullTime(h) / TICKS_PER_MS / sliceMs
  }

  // ---- writing ----

  /** Division that rounds towards zero, as a duration cast does. */
  function Trunc(a: int, b: int): int
    requires b > 0
  {
    if a >= 0 then a / b else -((-a) / b)
  }

  /** A signed 32-bit counter of seconds. */
  function Wrap32(x: int): int {
    (x + 0x8000_0000) % 0x1_0000_0000 - 0x8000_0000
  }

  /** The assertion on the argument fails for negative days, which arrive as huge unsigned ones. */
  function WithDays(h: DataFrameHeader, gregorian: int): Option<DataFrameHeader> {
    if 0 <= gregorian < 367 then
      Some(h.(days := gregorian / 100 * 256 + gregorian % 100 / 10 * 16 + gregorian % 10))
    else None
  }

  function WithYears(h: DataFrameHeader, year: int): Option<DataFrameHeader> {
    if 0 <= year < 100 then Some(h.(years := year / 10 * 16 + year % 10)) else None
  }

  /** Each value is cut to the width of its bit field. */
  function WithDayTime(h: DataFrameHeader, time: int): Option<DataFrameHeader> {
    if time < TICKS_PER_DAY then
      var secs := Trunc(time, TICKS_PER_SECOND);
      var coarse := Trunc(time - secs * TICKS_PER_SECOND, TICKS_PER_COARSE);
      Some(h.(seconds := secs % 0x2_0000,
              frameCounter := coarse % 0x2000,
              t4ns := (time - secs * TICKS_PER_SECOND - coarse * TICKS_PER_COARSE) % 0x1_0000))
    else None
  }

  function WithYearTime(h: DataFrameHeader, time: int): Option<DataFrameHeader> {
    var gregorian := Trunc(time, TICKS_PER_DAY);
    match WithDays(h, gregorian)
    case None => None
    case Some(dated) => WithDayTime(dated, time - gregorian * TICKS_PER_DAY)
  }

  /** None where an assertion of the setters fails. */
  function WithFullTime(h: DataFrameHeader, time: int): Option<DataFrameHeader> {
    var s := Trunc(time, TICKS_PER_SECOND);
    var stamp := Wrap32(s);
    var year := YearOf(stamp / SECONDS_PER_DAY);
    match WithYears(h, year - 2000)
    case None => None
    case Some(dated) =>
      var inYear := stamp - DaysBefore(year) * SECONDS_PER_DAY;
      WithYearTime(dated, inYear * TICKS_PER_SECOND + (time - s * TICKS_PER_SECOND))
  }

  /** A header that the setters write to. */
  class HeaderRef {
    var header: DataFrameHeader

    constructor (header: DataFrameHeader)
      ensures this.header == header
    {
      this.header := header;
    }

    method SetDays(gregorian: int) returns (ok: bool)
      modifies this
      ensures ok <==> WithDays(old(header), gregorian).Some?
      ensures if ok then WithDays(old(header), gregorian) == Some(header) else header == old(header)
    {
      ok := 0 <= gregorian < 367;
      if ok {
        var hundreds, tens, units := gregorian / 100, gregorian % 100 / 10, gregorian % 10;
        header := header.(days := hundreds * 256 + tens * 16 + units);
      }
    }

    method SetYears(year: int) returns (ok: bool)
      modifies this
      ensures ok <==> WithYears(old(header), year).Some?
      ensures if ok then WithYears(old(header), year) == Some(header) else header == old(header)
    {
      ok := 0 <= year < 100;
      if ok {
        var tens, units := year / 10, year % 10;
        header := header.(years := tens * 16 + units);
      }
    }

    method SetDayTime(time: int) returns (ok: bool)
      modifies this
      ensures ok <==> WithDayTime(old(header), time).Some?
      ensures if ok then WithDayTime(old(header), time) == Some(header) else header == old(header)
    {
      ok := time < TICKS_PER_DAY;
      if ok {
        var secs := Trunc(time, TICKS_PER_SECOND);
        header := header.(seconds := secs % 0x2_0000);
        var coarse := Trunc(time - secs * TICKS_PER_SECOND, TICKS_PER_COARSE);
        header := header.(frameCounter := coarse % 0x2000);
        header := header.(t4ns := (time - secs * TICKS_PER_SECOND - coarse * TICKS_PER_COARSE) % 0x1_0000);
      }
    }

    method SetYearTime(time: int) returns (ok: bool)
      modifies this
      ensures ok <==> WithYearTime(old(header), time).Some?
      ensures ok ==> WithYearTime(old(header), time) == Some(header)
    {
      var gregorian := Trunc(time, TICKS_PER_DAY);
      ok := SetDays(gregorian);
      if ok {
        ok := SetDayTime(time - gregorian * TICKS_PER_DAY);
      }
    }

    method SetFullTime(time: int) returns (ok: bool)
      modifies this
      ensures ok <==> WithFullTime(old(header), time).Some?
      ensures ok ==> WithFullTime(old(header), time) == Some(header)
    {
      var s := Trunc(time, TICKS_PER_SECOND);
      var stamp := Wrap32(s);
      var year := YearOf(stamp / SECONDS_PER_DAY);
      ok := SetYears(year - 2000);
      if ok {
        var inYear := stamp - DaysBefore(year) * SECONDS_PER_DAY;
        ok := SetYearTime(inYear * TICKS_PER_SECOND + (time - s * TICKS_PER_SECOND));
      }
    }
  }

  // ---- the year formula ----

  /** 365 days a year and the leap-day formula count the days of the calendar from 2000 to 2100. */
  lemma {:induction false} YearFormulaIsCalendar(years: nat)
    requires years <= 100
    ensures DaysBefore(2000 + years) == 365 * years + BissextileDays(years)
  {
    if years > 0 {
      YearFormulaIsCalendar(years - 1);
    }
  }

  /** The first later year for which the formula is a day off: 2100 is not a leap year. */
  lemma YearFormulaFailsAfter2100()
    ensures DaysBefore(2101) == 365 * 101 + BissextileDays(101) - 1
  {
    YearFormulaIsCalendar(100);
  }

  // ---- well-formed headers ----

  /** Decimal digits, a day the year has, and each counter below the next unit. */
  predicate WellFormed(h: DataFrameHeader) {
    && h.years < 0x100 && h.years % 16 < 10 && h.years / 16 < 10
    && h.days < 0x400 && h.days % 16 < 10 && h.days / 16 % 16 < 10
    && GetDays(h) < DaysInYear(2000 + GetYears(h))
    && h.seconds < SECONDS_PER_DAY && h.frameCounter < 8000 && h.t4ns < TICKS_PER_COARSE
  }

  /** Day number since 1 January 2000. */
  ghost function DayNumber(h: DataFrameHeader): int {
    DaysBefore(2000 + GetYears(h)) + GetDays(h)
  }

  lemma HexDigits(h: int, t: int, u: int)
    requires 0 <= h < 4 && 0 <= t < 16 && 0 <= u < 16
    ensures var x := h * 256 + t * 16 + u;
            x < 0x400 && x % 16 == u && x / 16 == h * 16 + t && x / 16 % 16 == t && x / 256 == h
  {
  }

  lemma DecimalDigits(x: int)
    requires 0 <= x < 400
    ensures 0 <= x / 100 < 4 && 0 <= x % 100 / 10 < 10 && 0 <= x % 10 < 10
    ensures x / 100 * 100 + x % 100 / 10 * 10 + x % 10 == x
  {
  }

  /** The day that three BCD digits stand for. */
  lemma DaysFromDigits(header: DataFrameHeader, h: int, t: int, u: int)
    requires 0 <= h < 4 && 0 <= t < 16 && 0 <= u < 16 && header.days == h * 256 + t * 16 + u
    ensures GetDays(header) == 100 * h + 10 * t + u
  {
    HexDigits(h, t, u);
  }

  lemma YearsFromDigits(header: DataFrameHeader, t: int, u: int)
    requires 0 <= t < 16 && 0 <= u < 16 && header.years == t * 16 + u
    ensures GetYears(header) == 10 * t + u
  {
    HexDigits(0, t, u);
  }

  lemma BcdDaysDecode(h: DataFrameHeader, gregorian: int)
    requires 0 <= gregorian < 367
    ensures var d := WithDays(h, gregorian).value;
            d.days < 0x400 && d.days % 16 < 10 && d.days / 16 % 16 < 10 && GetDays(d) == gregorian
  {
    DecimalDigits(gregorian);
    HexDigits(gregorian / 100, gregorian % 100 / 10, gregorian % 10);
    DaysFromDigits(WithDays(h, gregorian).value, gregorian / 100, gregorian % 100 / 10, gregorian % 10);
  }

  lemma BcdYearsDecode(h: DataFrameHeader, year: int)
    requires 0 <= year < 100
    ensures var d := WithYears(h, year).value;
            d.years < 0x100 && d.years % 16 < 10 && d.years / 16 < 10 && GetYears(d) == year
  {
    HexDigits(0, year / 10, year % 10);
    YearsFromDigits(WithYears(h, year).value, year / 10, year % 10);
  }

  lemma DayTimeDecodes(h: DataFrameHeader, time: int)
    requires 0 <= time < TICKS_PER_DAY
    ensures var d := WithDayTime(h, time).value;
            && d.seconds < SECONDS_PER_DAY && d.frameCounter < 8000 && d.t4ns < TICKS_PER_COARSE
            && GetDayTime(d) == time && d.days == h.days && d.years == h.years
  {
  }

  lemma YearsBelow100(h: DataFrameHeader)
    requires h.years < 0x100 && h.years % 16 < 10 && h.years / 16 < 10
    ensures GetYears(h) == 10 * (h.years / 16) + h.years % 16 < 100
  {
    YearsFromDigits(h, h.years / 16, h.years % 16);
  }

  lemma FullTimeIsCalendarTime(h: DataFrameHeader)
    requires WellFormed(h)
    ensures GetFullTime(h) == DayNumber(h) * TICKS_PER_DAY + GetDayTime(h)
    ensures GetDayTime(h) < TICKS_PER_DAY
    ensures 0 <= DaysBefore(2000 + GetYears(h)) <= DayNumber(h) < DaysBefore(2000 + GetYears(h) + 1)
  {
    YearsBelow100(h);
    var y, d := GetYears(h), GetDays(h);
    YearFormulaIsCalendar(y);
    DaysBeforeGrows(2000, 2000 + y);
    SecondsDoNotWrap(y, d);
  }

  lemma SecondsDoNotWrap(y: nat, d: nat)
    requires y < 100 && d < 366
    ensures (31_536_000 * y + 86_400 * BissextileDays(y)) % 0x1_0000_0000 == 86_400 * (365 * y + BissextileDays(y))
    ensures 86_400 * d % 0x1_0000_0000 == 86_400 * d
  {
  }

  /** The year the 32-bit clock falls into, and the time since it began. */
  lemma ClockYear(s: int)
    requires 0 <= s < 0x8000_0000
    ensures var day := s / SECONDS_PER_DAY; var year := YearOf(day);
            && 2000 <= year < 2100
            && 0 <= day - DaysBefore(year) < DaysInYear(year) <= 366
  {
    var day := s / SECONDS_PER_DAY;
    var year := YearOf(day);
    YearFromIsYear(2000, day);
    YearFormulaIsCalendar(100);
    if year >= 2100 {
      DaysBeforeGrows(2100, year);
    }
    assert DaysBefore(year + 1) == DaysBefore(year) + DaysInYear(year);
  }

  /** Splitting the ticks of a year into a day and a time of day. */
  lemma SplitYearTime(time: int, first: int)
    requires time >= 0 && first * SECONDS_PER_DAY <= time / TICKS_PER_SECOND
    ensures var s := time / TICKS_PER_SECOND;
            var inYear := (s - first * SECONDS_PER_DAY) * TICKS_PER_SECOND + (time - s * TICKS_PER_SECOND);
            && inYear == time - first * TICKS_PER_DAY >= 0
            && inYear / TICKS_PER_DAY == s / SECONDS_PER_DAY - first
            && 0 <= inYear - inYear / TICKS_PER_DAY * TICKS_PER_DAY < TICKS_PER_DAY
  {
  }

  /** The day and time fields carry exactly `time`; the year digits are those of `h`. */
  ghost predicate CarriesYearTime(r: DataFrameHeader, h: DataFrameHeader, time: int) {
    && r.years == h.years
    && r.days < 0x400 && r.days % 16 < 10 && r.days / 16 % 16 < 10
    && r.seconds < SECONDS_PER_DAY && r.frameCounter < 8000 && r.t4ns < TICKS_PER_COARSE
    && GetDays(r) * TICKS_PER_DAY + GetDayTime(r) == time
    && GetDayTime(r) < TICKS_PER_DAY
  }

  lemma YearTimeDecodes(h: DataFrameHeader, time: int)
    requires 0 <= time < 367 * TICKS_PER_DAY
    ensures WithYearTime(h, time).Some? && CarriesYearTime(WithYearTime(h, time).value, h, time)
  {
    var g := time / TICKS_PER_DAY;
    BcdDaysDecode(h, g);
    DayTimeDecodes(WithDays(h, g).value, time - g * TICKS_PER_DAY);
  }

  /** setDFHFullTime in the range of the 32-bit clock: the fields it writes are those of the
      calendar, and reading them back gives the time. */
  lemma FullTimeRoundTrip(h: DataFrameHeader, time: int)
    requires 0 <= time < 0x8000_0000 * TICKS_PER_SECOND
    ensures var r := WithFullTime(h, time);
            r.Some? && WellFormed(r.value) && r.value.TimeFits() && GetFullTime(r.value) == time
  {
    hide YearOf, DaysBefore, GetFullTime, WellFormed, WithYearTime, CarriesYearTime;
    var s := time / TICKS_PER_SECOND;
    assert Trunc(time, TICKS_PER_SECOND) == s && Wrap32(s) == s < 0x8000_0000;
    var year := YearOf(s / SECONDS_PER_DAY);
    ClockYear(s);
    SplitYearTime(time, DaysBefore(year));
    BcdYearsDecode(h, year - 2000);
    var dated := WithYears(h, year - 2000).value;
    var inYear := time - DaysBefore(year) * TICKS_PER_DAY;
    YearTimeDecodes(dated, inYear);
    var r := WithYearTime(dated, inYear).value;
    assert WithFullTime(h, time) == Some(r);
    FieldsOfCalendarTime(r, dated, year, inYear);
  }

  lemma FieldsOfCalendarTime(r: DataFrameHeader, dated: DataFrameHeader, year: int, inYear: int)
    requires 2000 <= year < 2100 && 0 <= inYear < DaysInYear(year) * TICKS_PER_DAY
    requires CarriesYearTime(r, dated, inYear)
    requires dated.years < 0x100 && dated.years % 16 < 10 && dated.years / 16 < 10 && GetYears(dated) == year - 2000
    ensures WellFormed(r) && r.TimeFits()
    ensures GetFullTime(r) == DaysBefore(year) * TICKS_PER_DAY + inYear
  {
    assert GetYears(r) == GetYears(dated);
    FullTimeIsCalendarTime(r);
  }

  /** At 2^31 seconds, in 2068, the clock has wrapped to before 2000 and the year assertion fails; at
      2^32 seconds the setter silently writes the time zero. */
  lemma ClockWraps(h: DataFrameHeader)
    ensures WithFullTime(h, 0x8000_0000 * TICKS_PER_SECOND) == None
    ensures var r := WithFullTime(h, 0x1_0000_0000 * TICKS_PER_SECOND); r.Some? && GetFullTime(r.value) == 0
  {
    YearBackFromIsEarlier(2000, -0x8000_0000 / SECONDS_PER_DAY);
    SameStampSameFields(h, 0x1_0000_0000 * TICKS_PER_SECOND, 0);
    FullTimeRoundTrip(h, 0);
  }

  /** Over all integers: the setter succeeds with fields that read back as the time exactly when the
      time is not before 2000 and its seconds fit the signed 32-bit clock. */
  lemma FullTimeRoundTripExactlyWhen(h: DataFrameHeader, time: int)
    ensures (WithFullTime(h, time).Some? && GetFullTime(WithFullTime(h, time).value) == time)
            <==> 0 <= time < 0x8000_0000 * TICKS_PER_SECOND
  {
    if 0 <= time < 0x8000_0000 * TICKS_PER_SECOND {
      FullTimeRoundTrip(h, time);
    } else if time >= 0 && WithFullTime(h, time).Some? {
      // The clock has wrapped: either to before 2000, which the year assertion refuses, or to an
      // earlier time, which is what is written.
      var stamp := Wrap32(time / TICKS_PER_SECOND);
      if stamp < 0 {
        YearBackFromIsEarlier(2000, stamp / SECONDS_PER_DAY);
      } else {
        var earlier := stamp * TICKS_PER_SECOND + time % TICKS_PER_SECOND;
        WrappedTime(time, earlier);
        SameStampSameFields(h, time, earlier);
        FullTimeRoundTrip(h, earlier);
      }
    }
  }

  lemma WrappedTime(time: int, earlier: int)
    requires time >= 0x8000_0000 * TICKS_PER_SECOND
    requires earlier == Wrap32(time / TICKS_PER_SECOND) * TICKS_PER_SECOND + time % TICKS_PER_SECOND >= 0
    ensures 0 <= earlier < 0x8000_0000 * TICKS_PER_SECOND && earlier != time
    ensures earlier % TICKS_PER_SECOND == time % TICKS_PER_SECOND
    ensures Wrap32(earlier / TICKS_PER_SECOND) == Wrap32(time / TICKS_PER_SECOND)
  {
    var s := time / TICKS_PER_SECOND;
    assert s >= 0x8000_0000 && Wrap32(s) < 0x8000_0000;
    assert earlier / TICKS_PER_SECOND == Wrap32(s);
  }

  lemma SameStampSameFields(h: DataFrameHeader, s: int, t: int)
    requires s >= 0 && t >= 0 && s % TICKS_PER_SECOND == t % TICKS_PER_SECOND
    requires Wrap32(s / TICKS_PER_SECOND) == Wrap32(t / TICKS_PER_SECOND)
    ensures WithFullTime(h, s) == WithFullTime(h, t)
  {
    assert s - s / TICKS_PER_SECOND * TICKS_PER_SECOND == t - t / TICKS_PER_SECOND * TICKS_PER_SECOND;
  }

  /** Reading a well-formed header of the clock's range and writing the time back restores it. */
  lemma SetAfterGetRestores(h: DataFrameHeader)
    requires WellFormed(h) && GetFullTime(h) < 0x8000_0000 * TICKS_PER_SECOND
    ensures WithFullTime(h, GetFullTime(h)) == Some(h)
  {
    var t := GetFullTime(h);
    FullTimeRoundTrip(h, t);
    var r := WithFullTime(h, t).value;
    SameOtherFields(h, t);
    EqualTimesEqualFields(h, r);
  }

  lemma SameOtherFields(h: DataFrameHeader, time: int)
    requires WithFullTime(h, time).Some?
    ensures var r := WithFullTime(h, time).value;
            r == h.(t4ns := r.t4ns, frameCounter := r.frameCounter, seconds := r.seconds,
                   days := r.days, years := r.years)
  {
  }

  // ---- order ----

  /** Order on the raw fields, most significant first. */
  ghost predicate RawBefore(a: DataFrameHeader, b: DataFrameHeader) {
    if a.years != b.years then a.years < b.years
    else if a.days != b.days then a.days < b.days
    else if a.seconds != b.seconds then a.seconds < b.seconds
    else if a.frameCounter != b.frameCounter then a.frameCounter < b.frameCounter
    else a.t4ns < b.t4ns
  }

  /** Numbers of two digits compare like their digits, in any base the low digits are below. */
  lemma TwoDigitsOrder(base: int, t: int, u: int, v: int, w: int)
    requires 0 <= u < base && 0 <= w < base
    ensures base * t + u < base * v + w <==> t < v || (t == v && u < w)
    ensures base * t + u == base * v + w <==> t == v && u == w
  {
    MulStep(base, t, v);
    MulStep(base, v, t);
  }

  lemma ThreeDigitsOrder(h: int, t: int, u: int, i: int, v: int, w: int)
    requires 0 <= t < 10 && 0 <= u < 10 && 0 <= v < 10 && 0 <= w < 10
    ensures 256 * h + 16 * t + u < 256 * i + 16 * v + w <==> 100 * h + 10 * t + u < 100 * i + 10 * v + w
    ensures 256 * h + 16 * t + u == 256 * i + 16 * v + w <==> 100 * h + 10 * t + u == 100 * i + 10 * v + w
  {
    TwoDigitsOrder(16, t, u, v, w);
    TwoDigitsOrder(10, t, u, v, w);
    TwoDigitsOrder(256, h, 16 * t + u, i, 16 * v + w);
    TwoDigitsOrder(100, h, 10 * t + u, i, 10 * v + w);
  }

  lemma DaysSplit(a: DataFrameHeader)
    requires WellFormed(a)
    ensures a.days == 256 * (a.days / 256) + 16 * (a.days / 16 % 16) + a.days % 16
    ensures GetDays(a) == 100 * (a.days / 256) + 10 * (a.days / 16 % 16) + a.days % 16
  {
    hide GetDays, GetYears;
    assert a.days == 256 * (a.days / 256) + 16 * (a.days / 16 % 16) + a.days % 16;
    DaysFromDigits(a, a.days / 256, a.days / 16 % 16, a.days % 16);
  }

  lemma DigitsOrder(a: DataFrameHeader, b: DataFrameHeader)
    requires WellFormed(a) && WellFormed(b)
    ensures a.years < b.years <==> GetYears(a) < GetYears(b)
    ensures a.days < b.days <==> GetDays(a) < GetDays(b)
    ensures a.years == b.years <==> GetYears(a) == GetYears(b)
    ensures a.days == b.days <==> GetDays(a) == GetDays(b)
  {
    YearsBelow100(a);
    YearsBelow100(b);
    DaysSplit(a);
    DaysSplit(b);
    ThreeDigitsOrder(0, a.years / 16, a.years % 16, 0, b.years / 16, b.years % 16);
    ThreeDigitsOrder(a.days / 256, a.days / 16 % 16, a.days % 16, b.days / 256, b.days / 16 % 16, b.days % 16);
  }

  lemma DayTimeOrder(a: DataFrameHeader, b: DataFrameHeader)
    requires WellFormed(a) && WellFormed(b)
    ensures GetDayTime(a) < GetDayTime(b) <==>
            if a.seconds != b.seconds then a.seconds < b.seconds
            else if a.frameCounter != b.frameCounter then a.frameCounter < b.frameCounter
            else a.t4ns < b.t4ns
  {
  }

  /** Comparing well-formed headers field by field is comparing their times. */
  lemma RawOrderIsTimeOrder(a: DataFrameHeader, b: DataFrameHeader)
    requires WellFormed(a) && WellFormed(b)
    ensures RawBefore(a, b) <==> GetFullTime(a) < GetFullTime(b)
  {
    hide WellFormed, GetFullTime, GetDayTime, GetYears, GetDays, DaysBefore;
    FullTimeIsCalendarTime(a);
    FullTimeIsCalendarTime(b);
    DigitsOrder(a, b);
    DayTimeOrder(a, b);
    DayOrder(DayNumber(a), GetDayTime(a), DayNumber(b), GetDayTime(b));
    if GetYears(a) < GetYears(b) {
      DaysBeforeGrows(2000 + GetYears(a) + 1, 2000 + GetYears(b));
    } else if GetYears(b) < GetYears(a) {
      DaysBeforeGrows(2000 + GetYears(b) + 1, 2000 + GetYears(a));
    }
  }

  lemma DayOrder(d: int, s: int, e: int, t: int)
    requires 0 <= s < TICKS_PER_DAY && 0 <= t < TICKS_PER_DAY
    ensures d * TICKS_PER_DAY + s < e * TICKS_PER_DAY + t <==> d < e || (d == e && s < t)
  {
  }

  /** Well-formed headers of equal time have equal time fields. */
  lemma EqualTimesEqualFields(a: DataFrameHeader, b: DataFrameHeader)
    requires WellFormed(a) && WellFormed(b) && GetFullTime(a) == GetFullTime(b)
    ensures a.years == b.years && a.days == b.days && a.seconds == b.seconds
    ensures a.frameCounter == b.frameCounter && a.t4ns == b.t4ns
  {
    RawOrderIsTimeOrder(a, b);
    RawOrderIsTimeOrder(b, a);
  }

  /** The two header words that hold the time, as one little-endian 64-bit number. */
  ghost function TimeWords(h: DataFrameHeader): int {
    h.t4ns + 0x1_0000 * h.frameCounter + 0x2000_0000 * h.seconds + 0x4000_0000_0000 * h.days
    + 0x100_0000_0000_0000 * h.years
  }

  /** On well-formed headers the packed words order like the times they carry. */
  lemma PackedOrderIsTimeOrder(a: DataFrameHeader, b: DataFrameHeader)
    requires WellFormed(a) && WellFormed(b)
    ensures TimeWords(a) < TimeWords(b) <==> GetFullTime(a) < GetFullTime(b)
  {
    RawOrderIsTimeOrder(a, b);
  }

  /** All divisions of the setter round towards zero: a time less than 125 microseconds before 2000 passes
      every assertion and leaves its ticks, cut to sixteen bits, at the start of 2000. */
  lemma JustBefore2000(h: DataFrameHeader, time: int)
    requires -31_250 < time < 0
    ensures WithFullTime(h, time) ==
            Some(h.(years := 0, days := 0, seconds := 0, frameCounter := 0, t4ns := 0x1_0000 + time))
  {
    SmallTruncates(time, TICKS_PER_SECOND);
    SmallTruncates(time, TICKS_PER_COARSE);
    SmallTruncates(time, TICKS_PER_DAY);
    assert Wrap32(0) == 0 && YearOf(0) == 2000 && DaysBefore(2000) == 0;
    hide Trunc, Wrap32, YearOf, DaysBefore, WithYearTime;
    assert WithYearTime(h.(years := 0), time) ==
           Some(h.(years := 0, days := 0, seconds := 0, frameCounter := 0, t4ns := 0x1_0000 + time)) by {
      TicksJustBefore(h.(years := 0), time);
    }
  }

  lemma SmallTruncates(a: int, b: int)
    requires -b < a < 0
    ensures Trunc(a, b) == 0
  {
    QuotientIs(-a, b, 0, -a);
  }

  lemma TicksJustBefore(h: DataFrameHeader, time: int)
    requires -31_250 < time < 0
    ensures WithYearTime(h, time) == Some(h.(days := 0, seconds := 0, frameCounter := 0, t4ns := 0x1_0000 + time))
  {
    SmallTruncates(time, TICKS_PER_SECOND);
    SmallTruncates(time, TICKS_PER_COARSE);
    SmallTruncates(time, TICKS_PER_DAY);
    hide Trunc;
  }

  // ---- time slices ----

  /** Dividing by a millisecond and then by the slice length is one division of the tick count, and
      slice ids never fall as the time goes on. */
  lemma TimesliceIdIsFloor(h: DataFrameHeader, sliceMs: int)
    requires sliceMs > 0
    ensures TICKS_PER_MS * sliceMs > 0
    ensures TimesliceId(h, sliceMs) == GetFullTime(h) / (TICKS_PER_MS * sliceMs)
  {
    DivideTwice(GetFullTime(h), TICKS_PER_MS, sliceMs);
  }

  /** Slices of one millisecond are numbered a thousand to the second, of 250 million ticks. */
  lemma TimesliceIdInSeconds(h: DataFrameHeader, seconds: nat, ms: nat)
    requires ms < 1000
    requires 0 <= GetFullTime(h) - 250_000_000 * seconds - 250_000 * ms < 250_000
    ensures TimesliceId(h, 1) == 1000 * seconds + ms && TimesliceId(h, 1000) == seconds
    ensures TICKS_PER_MS * 1000 == TICKS_PER_SECOND
  {
    hide GetFullTime;
  }

  lemma TimesliceIdMonotone(a: DataFrameHeader, b: DataFrameHeader, sliceMs: int)
    requires sliceMs > 0 && WellFormed(a) && WellFormed(b) && (a == b || RawBefore(a, b))
    ensures TimesliceId(a, sliceMs) <= TimesliceId(b, sliceMs)
  {
    if a != b {
      RawOrderIsTimeOrder(a, b);
    }
    DivideMonotone(GetFullTime(a), GetFullTime(b), TICKS_PER_MS);
    DivideMonotone(GetFullTime(a) / TICKS_PER_MS, GetFullTime(b) / TICKS_PER_MS, sliceMs);
  }
}
