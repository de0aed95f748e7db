/** The closed-form date arithmetic of src/wallclock.rs, and the proof that both
    directions are the counting calendar. */
module CivilTime {
  import opened MachineInts
  import opened Calendar

  /** A civil date and time of day, UTC. */
  datatype Fields = Fields(date: Date, hour: int, minute: int, second: int) {
    predicate Valid() {
      date.Valid() && 0 <= hour < 24 && 0 <= minute < 60 && 0 <= second < 60
    }

    predicate Before(that: Fields) {
      date.Before(that.date) || (date == that.date && TimeOfDay() < that.TimeOfDay())
    }

    function TimeOfDay(): int {
      hour * 3600 + minute * 60 + second
    }
  }

  /** Seconds from the Unix epoch, by the counting calendar. */
  function EpochSeconds(f: Fields): int
    requires f.Valid()
  {
    DayNumber(f.date) * 86400 + f.TimeOfDay()
  }

  // ---- Date to instant -----------------------------------------------------

  function EraOfYear(y: i32): int {
    TruncDiv(if y >= 0 then y else WrapI32(y - 399), 400)
  }

  function YearInEra(y: i32): u64 {
    WrapU64(WrapI32(y - WrapI32(EraOfYear(y) * 400)))
  }

  function DayOfEra(yoe: u64, month: u32, day: u32): u64 {
    var mp := if month > 2 then month - 3 else month + 9;
    var doy := WrapU64((153 * mp + 2) / 5 + day - 1);
    WrapU64(yoe * 365 + yoe / 4 - yoe / 100 + doy)
  }

  /** The signed day number, before the cast to u64. */
  function DaysFromCivil(year: i32, month: u32, day: u32): i64 {
    var y := if month <= 2 then WrapI32(year - 1) else year;
    WrapI64(EraOfYear(y) * 146097 + WrapI64(DayOfEra(YearInEra(y), month, day)) - 719468)
  }

  function UnixFromYmdhms(year: i32, month: u32, day: u32, hour: u32, minute: u32, second: u32): u64 {
    WrapU64(WrapU64(DaysFromCivil(year, month, day)) * 86400 + hour * 3600 + minute * 60 + second)
  }

  // ---- Instant to date -----------------------------------------------------

  function YearOfEra(doe: int): int {
    (doe - doe / 1460 + doe / 36524 - doe / 146096) / 365
  }

  /** Days of an era that lie before its year yoe; years begin in March. */
  function YearStart(yoe: int): int {
    365 * yoe + yoe / 4 - yoe / 100
  }

  /** The date of a day number; the year is not yet cut to 32 bits. */
  function CivilFromDays(days: int): Date {
    var z := days + 719468;
    var era := TruncDiv(if z >= 0 then z else z - 146096, 146097);
    var doe := z - era * 146097;
    var yoe := YearOfEra(doe);
    MarchBasedDate(yoe + era * 400, doe - YearStart(yoe))
  }

  /** Day doy of the year that begins in March of the given year. */
  function MarchBasedDate(year: int, doy: int): Date {
    var mp := (5 * doy + 2) / 153;
    var m := if mp < 10 then mp + 3 else mp - 9;
    Date(if m <= 2 then year + 1 else year, m, doy - (153 * mp + 2) / 5 + 1)
  }

  function FieldsFromUnix(unix: u64): Fields {
    var date := CivilFromDays(unix / 86400);
    var secs := unix % 86400;
    Fields(date.(year := WrapI32(date.year)), secs / 3600, secs % 3600 / 60, secs % 60)
  }

  /** The year of this instant fits the 32-bit integer that holds it. */
  predicate YearFits(unix: nat) {
    CivilFromDays(unix / 86400).year <= 0x7FFF_FFFF
  }

  // ---- The closed forms are the counting calendar --------------------------

  lemma FloorByTruncation(a: int)
    ensures TruncDiv(if a >= 0 then a else a - 399, 400) == a / 400
    ensures TruncDiv(if a >= 0 then a else a - 146096, 146097) == a / 146097
  {
  }

  lemma MonthTable(mp: int)
    requires 0 <= mp < 12
    ensures (153 * mp + 2) / 5 == [0, 31, 61, 92, 122, 153, 184, 214, 245, 275, 306, 337][mp]
  {
  }

  /** The March-based closed form of a day number, over unbounded integers. */
  lemma MarchBasedDayNumber(d: Date)
    requires d.Valid()
    ensures var y := if d.month <= 2 then d.year - 1 else d.year;
            var mp := if d.month > 2 then d.month - 3 else d.month + 9;
            DayNumber(d) == y / 400 * 146097 + YearStart(y % 400) + (153 * mp + 2) / 5 + d.day - 1 - 719468
  {
    var y := if d.month <= 2 then d.year - 1 else d.year;
    var mp := if d.month > 2 then d.month - 3 else d.month + 9;
    var era, yoe := y / 400, y % 400;
    DaysBeforeYearClosed(d.year);
    DaysBeforeMonthTable(d.year, d.month);
    MonthTable(mp);
    LeapsThroughStep(d.year);
    LeapsInEras(y);
  }

  /** An era has 97 leap days. */
  lemma LeapsInEras(y: int)
    ensures LeapsThrough(y) == 97 * (y / 400) + y % 400 / 4 - y % 400 / 100
  {
    var era, yoe := y / 400, y % 400;
    assert y == 400 * era + yoe;
    assert y / 4 == 100 * era + yoe / 4;
    assert y / 100 == 4 * era + yoe / 100;
  }

  lemma YearWithinEra(y: int)
    requires -0x8000_0000 + 399 <= y <= 0x7FFF_FFFF
    ensures EraOfYear(y) == y / 400 && YearInEra(y) == y % 400
    ensures -0x60_0000 <= y / 400 <= 0x60_0000
  {
    FloorByTruncation(y);
    assert y == y / 400 * 400 + y % 400;
  }

  lemma DayWithinEra(yoe: u64, month: u32, day: u32)
    requires yoe < 400 && 1 <= month <= 12 && 1 <= day <= 31
    ensures var mp := if month > 2 then month - 3 else month + 9;
            DayOfEra(yoe, month, day) == YearStart(yoe) + (153 * mp + 2) / 5 + day - 1
    ensures DayOfEra(yoe, month, day) < 147000
  {
  }

  /** From 400 years above the 32-bit minimum on, nothing wraps and the signed day
      number is the counting calendar's. */
  lemma DaysFromCivilIsDayNumber(d: Date)
    requires d.Valid() && -0x8000_0000 + 400 <= d.year <= 0x7FFF_FFFF
    ensures DaysFromCivil(d.year, d.month, d.day) == DayNumber(d)
  {
    var y := if d.month <= 2 then d.year - 1 else d.year;
    YearWithinEra(y);
    DayWithinEra(y % 400, d.month, d.day);
    MarchBasedDayNumber(d);
  }

  /** For valid fields from 1970 on, the conversion is the counting calendar. */
  lemma UnixFromYmdhmsIsEpochSeconds(f: Fields)
    requires f.Valid() && 1970 <= f.date.year <= 0x7FFF_FFFF
    ensures UnixFromYmdhms(f.date.year, f.date.month, f.date.day, f.hour, f.minute, f.second) == EpochSeconds(f)
    ensures EpochSeconds(f) >= 0
  {
    DaysFromCivilIsDayNumber(f.date);
    DaysBeforeYearClosed(f.date.year);
    DayOfYearBounds(f.date);
    assert 0 <= DayNumber(f.date) < 0x1_0000_0000 * 367;
  }

  /** The divisions by 1460, 36524 and 146096 find the year of the era: an era is
      four centuries of 36524 days and a day, a century 25 cycles of 1461 days less
      a day, a cycle four years of 365 days and a day. */
  lemma YearOfEraIsYear(doe: int)
    requires 0 <= doe <= 146096
    ensures var k := YearOfEra(doe);
            0 <= k <= 399 && 0 <= doe - YearStart(k) <= (if IsLeap(k + 1) then 365 else 364)
  {
    var c := Min(doe / 36524, 3);
    var inCentury := doe - 36524 * c;
    var q := inCentury / 1461;
    var inCycle := inCentury - 1461 * q;
    var j := Min(inCycle / 365, 3);
    var r := inCycle - 365 * j;
    var k := 100 * c + 4 * q + j;
    assert 0 <= c <= 3 && 0 <= q <= 24 && 0 <= j <= 3 && 0 <= r <= 365;
    assert k / 4 == 25 * c + q && k / 100 == c;
    assert doe - YearStart(k) == r;
    CycleQuotient(c, q, j, r, doe);
    var early := doe / 1460 - (25 * c + q);
    assert doe / 36524 - doe / 146096 == c;
    assert doe - doe / 1460 + doe / 36524 - doe / 146096 == 365 * k + r - early;
    assert 0 <= r - early <= 364;
    assert YearOfEra(doe) == k;
    if r == 365 {
      assert j == 3 && (q < 24 || c == 3);
      assert IsLeap(k + 1);
    }
  }

  lemma CycleQuotient(c: int, q: int, j: int, r: int, doe: int)
    requires 0 <= c <= 3 && 0 <= q <= 24 && 0 <= j <= 3 && 0 <= r <= 365 && (r == 365 ==> j == 3)
    requires doe == 36524 * c + 1461 * q + 365 * j + r
    ensures doe / 1460 - (25 * c + q) == (if 24 * c + q + 365 * j + r >= 1460 then 1 else 0)
    ensures r == 365 ==> doe / 1460 - (25 * c + q) == 1
    ensures r == 0 ==> doe / 1460 - (25 * c + q) == 0
  {
    var rest := 24 * c + q + 365 * j + r;
    assert doe == 1460 * (25 * c + q) + rest && 0 <= rest < 2920;
  }

  lemma MarchBasedDateIsReal(year: int, doy: int)
    requires 0 <= doy <= (if IsLeap(year + 1) then 365 else 364)
    ensures var d := MarchBasedDate(year, doy);
            d.Valid() && DayNumber(d) == year / 400 * 146097 + YearStart(year % 400) + doy - 719468
  {
    var mp := (5 * doy + 2) / 153;
    MonthOfDay(doy);
    MonthTable(mp);
    var d := MarchBasedDate(year, doy);
    assert d.Valid() by {
      if mp < 11 {
        MonthTable(mp + 1);
      }
    }
    MarchBasedDayNumber(d);
  }

  lemma EraOfDay(days: int) returns (era: int, doe: int)
    ensures days + 719468 == era * 146097 + doe && 0 <= doe <= 146096
    ensures CivilFromDays(days) == MarchBasedDate(YearOfEra(doe) + era * 400, doe - YearStart(YearOfEra(doe)))
  {
    var z := days + 719468;
    FloorByTruncation(z);
    era, doe := z / 146097, z % 146097;
    assert TruncDiv(if z >= 0 then z else z - 146096, 146097) == era;
    assert doe == z - era * 146097;
  }

  lemma YearOfDay(days: int) returns (era: int, doe: int, yoe: int)
    ensures days + 719468 == era * 146097 + doe
    ensures 0 <= yoe <= 399 && 0 <= doe - YearStart(yoe) <= (if IsLeap(yoe + 1) then 365 else 364)
    ensures CivilFromDays(days) == MarchBasedDate(yoe + era * 400, doe - YearStart(yoe))
  {
    era, doe := EraOfDay(days);
    yoe := YearOfEra(doe);
    YearOfEraIsYear(doe);
  }

  lemma DateOfEraDay(era: int, doe: int, yoe: int)
    requires 0 <= yoe <= 399 && 0 <= doe - YearStart(yoe) <= (if IsLeap(yoe + 1) then 365 else 364)
    ensures var d := MarchBasedDate(yoe + era * 400, doe - YearStart(yoe));
            d.Valid() && DayNumber(d) == era * 146097 + doe - 719468
  {
    LeapWithinEra(era, yoe);
    MarchBasedDateIsReal(yoe + era * 400, doe - YearStart(yoe));
  }

  lemma LeapWithinEra(era: int, yoe: int)
    requires 0 <= yoe <= 399
    ensures IsLeap(yoe + era * 400 + 1) == IsLeap(yoe + 1)
    ensures (yoe + era * 400) / 400 == era && (yoe + era * 400) % 400 == yoe
  {
    ShiftByEra(yoe + 1, era);
    ShiftByEra(yoe, era);
  }

  lemma ShiftByEra(y: int, era: int)
    ensures (y + era * 400) % 4 == y % 4 && (y + era * 400) % 100 == y % 100
    ensures (y + era * 400) % 400 == y % 400 && (y + era * 400) / 400 == y / 400 + era
  {
    Remainder4(y / 4 + 100 * era, y % 4);
    Remainder100(y / 100 + 4 * era, y % 100);
    Remainder400(y / 400 + era, y % 400);
  }

  /** The formatter's date is a real date, and the one that is that many days
      after 1970-01-01. */
  lemma CivilFromDaysCounts(days: int)
    ensures CivilFromDays(days).Valid()
    ensures DayNumber(CivilFromDays(days)) == days
  {
    var era, doe, yoe := YearOfDay(days);
    DateOfEraDay(era, doe, yoe);
  }

  /** Day doy of a March-based year falls in its month mp; the last month, February,
      is cut where the year ends. */
  lemma MonthOfDay(doy: int)
    requires 0 <= doy <= 365
    ensures var mp := (5 * doy + 2) / 153;
            0 <= mp <= 11 && (153 * mp + 2) / 5 <= doy && (mp < 11 ==> doy < (153 * (mp + 1) + 2) / 5)
  {
  }

  /** Both conversions undo each other on dates. */
  lemma CivilFromDaysInverse(d: Date)
    requires d.Valid()
    ensures CivilFromDays(DayNumber(d)) == d
  {
    CivilFromDaysCounts(DayNumber(d));
    DayNumberOrder(CivilFromDays(DayNumber(d)), d);
  }

  lemma EpochSecondsParts(f: Fields)
    requires f.Valid()
    ensures EpochSeconds(f) / 86400 == DayNumber(f.date) && EpochSeconds(f) % 86400 == f.TimeOfDay()
    ensures f.TimeOfDay() / 3600 == f.hour
    ensures f.TimeOfDay() % 3600 / 60 == f.minute
    ensures f.TimeOfDay() % 60 == f.second
  {
  }

  /** Formatting's fields are the valid fields whose epoch seconds were given. */
  lemma FieldsFromUnixCounts(unix: u64)
    requires YearFits(unix)
    ensures FieldsFromUnix(unix).Valid() && EpochSeconds(FieldsFromUnix(unix)) == unix
    ensures FieldsFromUnix(unix).date.year >= 1970
  {
    var days := unix / 86400;
    CivilFromDaysCounts(days);
    var date := CivilFromDays(days);
    if date.year < 1970 {
      YearsAreOrdered(date.year, 1970);
      DayOfYearBounds(date);
    }
    var f := FieldsFromUnix(unix);
    assert f.date == date;
    TimeOfDayParts(unix % 86400);
    assert EpochSeconds(f) == days * 86400 + unix % 86400;
  }

  lemma TimeOfDayParts(secs: int)
    requires 0 <= secs < 86400
    ensures 0 <= secs / 3600 < 24 && 0 <= secs % 3600 / 60 < 60 && 0 <= secs % 60 < 60
    ensures secs / 3600 * 3600 + secs % 3600 / 60 * 60 + secs % 60 == secs
  {
    assert secs % 3600 % 60 == secs % 60;
  }

  /** Formatting recovers every valid date and time from 1970 on ... */
  lemma FieldsRoundTrip(f: Fields)
    requires f.Valid() && 1970 <= f.date.year <= 0x7FFF_FFFF
    ensures FieldsFromUnix(UnixFromYmdhms(f.date.year, f.date.month, f.date.day, f.hour, f.minute, f.second)) == f
    ensures EpochSeconds(f) >= 0 && YearFits(EpochSeconds(f))
  {
    UnixFromYmdhmsIsEpochSeconds(f);
    EpochSecondsParts(f);
    CivilFromDaysInverse(f.date);
  }

  /** ... and unix_from_ymdhms recovers every instant whose year fits. */
  lemma UnixRoundTrip(unix: u64)
    requires YearFits(unix)
    ensures var f := FieldsFromUnix(unix);
            f.date.month >= 1 && f.date.day >= 1 && f.hour >= 0 && f.minute >= 0 && f.second >= 0
            && UnixFromYmdhms(f.date.year, f.date.month, f.date.day, f.hour, f.minute, f.second) == unix
  {
    FieldsFromUnixCounts(unix);
    UnixFromYmdhmsIsEpochSeconds(FieldsFromUnix(unix));
  }

  /** Epoch seconds order fields as the calendar does. */
  lemma EpochSecondsOrder(a: Fields, b: Fields)
    requires a.Valid() && b.Valid()
    ensures a.Before(b) <==> EpochSeconds(a) < EpochSeconds(b)
  {
    DayNumberOrder(a.date, b.date);
  }
}
