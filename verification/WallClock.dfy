/** src/wallclock.rs: the anchored wall clock, the Kubernetes timestamp printer and
    the HTTP date parser. */
module WallClock {
  import opened Wrappers
  import opened MachineInts
  import opened Calendar
  import opened CivilTime
  import opened Text
  import opened Buffers

  // ---- The clock ----------------------------------------------------------------

  /** The two statics: a Unix time and the monotonic instant it was set at. */
  datatype Anchor = Anchor(unix: u64, bootMs: u64)

  const NEVER_ANCHORED := Anchor(0, 0)

  function UnixNow(a: Anchor, nowMs: u64): u64 {
    if a.unix == 0 then 0 else WrapU64(a.unix + SaturatingSub(nowMs, a.bootMs) / 1000)
  }

  class Clock {
    var anchorUnix: u64
    var anchorBootMs: u64

    function Now(): Anchor
      reads this
    {
      Anchor(anchorUnix, anchorBootMs)
    }

    constructor ()
      ensures Now() == NEVER_ANCHORED
    {
      anchorUnix, anchorBootMs := 0, 0;
    }

    method SetWallClock(unix: u64, nowMs: u64)
      modifies this
      ensures Now() == Anchor(unix, nowMs)
    {
      anchorUnix := unix;
      anchorBootMs := nowMs;
    }

    /** 0 before an anchor; afterwards the anchor and the whole seconds since. */
    method UnixNowSecs(nowMs: u64) returns (now: u64)
      ensures now == UnixNow(Now(), nowMs)
      ensures anchorUnix == 0 ==> now == 0
      ensures anchorUnix != 0 && nowMs <= anchorBootMs ==> now == anchorUnix
      ensures anchorUnix != 0 && anchorBootMs <= nowMs && anchorUnix + nowMs / 1000 < 0x1_0000_0000_0000_0000 ==>
                1000 * (now - anchorUnix) <= nowMs - anchorBootMs < 1000 * (now - anchorUnix + 1)
    {
      if anchorUnix == 0 {
        return 0;
      }
      now := WrapU64(anchorUnix + SaturatingSub(nowMs, anchorBootMs) / 1000);
    }
  }

  // ---- Printing -------------------------------------------------------------------

  /** `{:04}` of an i32; the sign counts as a column. */
  function YearText(year: i32): string {
    if year < 0 then "-" + Padded(Abs(year), 3) else Padded(year, 4)
  }

  function TimeText(hour: nat, minute: nat, second: nat): string {
    "T" + (Padded(hour, 2) + (":" + (Padded(minute, 2) + (":" + (Padded(second, 2) + ".000000Z")))))
  }

  function DateTail(month: nat, day: nat): string {
    "-" + (Padded(month, 2) + ("-" + Padded(day, 2)))
  }

  function Rfc3339(unix: u64): string {
    var f := FieldsFromUnix(unix);
    DateInRange(unix);
    YearText(f.date.year) + (DateTail(f.date.month, f.date.day) + TimeText(f.hour, f.minute, f.second))
  }

  lemma DateInRange(unix: u64)
    ensures var f := FieldsFromUnix(unix);
            1 <= f.date.month <= 12 && 1 <= f.date.day <= 31 && 0 <= f.hour < 24 && 0 <= f.minute < 60 && 0 <= f.second < 60
  {
    CivilFromDaysCounts(unix / 86400);
    TimeOfDayParts(unix % 86400);
  }

  method FmtRfc3339(unix: u64, out: HString) returns (ok: bool)
    requires out.Valid()
    modifies out
    ensures out.Valid()
    ensures ok <==> |old(out.text)| + |Rfc3339(unix)| <= out.capacity
    ensures ok ==> out.text == old(out.text) + Rfc3339(unix)
  {
    ok := out.Write(Rfc3339(unix));
  }

  lemma Pow10Values()
    ensures Pow10(1) == 10 && Pow10(2) == 100 && Pow10(3) == 1000 && Pow10(4) == 10_000
    ensures Pow10(10) == 10_000_000_000
  {
    assert Pow10(0) == 1 && Pow10(1) == 10 && Pow10(2) == 100 && Pow10(3) == 1000 && Pow10(4) == 10_000;
    assert Pow10(5) == 100_000 && Pow10(6) == 1_000_000 && Pow10(7) == 10_000_000 && Pow10(8) == 100_000_000;
    assert Pow10(9) == 1_000_000_000;
  }

  lemma {:induction false} PaddedLengthAtMost(n: nat, width: nat, most: nat)
    requires most >= 1 && width <= most && n < Pow10(most)
    ensures |Padded(n, width)| <= most
    decreases n + width
  {
    if most > 1 && (n >= 10 || width > 1) {
      assert Pow10(most) == 10 * Pow10(most - 1);
      PaddedLengthAtMost(n / 10, if width > 1 then width - 1 else 1, most - 1);
    }
  }

  /** Every u64 prints within the 40 characters that the callers reserve. */
  lemma Rfc3339Fits(unix: u64)
    ensures |Rfc3339(unix)| <= 34
  {
    var f := FieldsFromUnix(unix);
    DateInRange(unix);
    Pow10Values();
    PaddedLengthAtMost(Abs(f.date.year), 4, 10);
    PaddedLengthAtMost(Abs(f.date.year), 3, 10);
    PaddedLength(f.date.month, 2);
    PaddedLength(f.date.day, 2);
    PaddedLength(f.hour, 2);
    PaddedLength(f.minute, 2);
    PaddedLength(f.second, 2);
  }

  // ---- The date-time grammar, section 5.6 of RFC 3339 ------------------------------

  predicate DigitsAt(s: string, from: nat, to: nat)
    requires from <= to <= |s|
  {
    AllDigits(s[from..to])
  }

  function NumberAt(s: string, from: nat, to: nat): nat
    requires from <= to <= |s| && DigitsAt(s, from, to)
  {
    DigitsValue(s[from..to])
  }

  /** A date and time of day, and the microseconds of its last second. */
  datatype DateTime = DateTime(fields: Fields, micros: nat) {
    /** Microseconds from the Unix epoch, by the counting calendar. */
    function Instant(): int
      requires fields.Valid()
    {
      EpochSeconds(fields) * 1_000_000 + micros
    }
  }

  /** What follows the year: "-MM-DDTHH:MM:SS.ffffffZ". */
  predicate TailShape(t: string) {
    && |t| == 23 && t[0] == '-' && DigitsAt(t, 1, 3) && t[3] == '-' && DigitsAt(t, 4, 6) && t[6] == 'T'
    && DigitsAt(t, 7, 9) && t[9] == ':' && DigitsAt(t, 10, 12) && t[12] == ':' && DigitsAt(t, 13, 15)
    && t[15] == '.' && DigitsAt(t, 16, 22) && t[22] == 'Z'
  }

  /** Reads a date-time in UTC with a year of any number of digits and six digits of a
      fraction; the date must exist. */
  function ReadTimestamp(s: string): (r: Option<DateTime>)
    ensures r.Some? ==> r.value.fields.Valid()
  {
    if |s| < 27 then None
    else
      var n := |s| - 23;
      var t := s[n..];
      if DigitsAt(s, 0, n) && TailShape(t) then
        var f := Fields(Date(NumberAt(s, 0, n), NumberAt(t, 1, 3), NumberAt(t, 4, 6)),
                        NumberAt(t, 7, 9), NumberAt(t, 10, 12), NumberAt(t, 13, 15));
        if f.Valid() then Some(DateTime(f, NumberAt(t, 16, 22))) else None
      else None
  }

  /** The year of RFC 3339 has four digits. */
  function ReadRfc3339(s: string): (r: Option<DateTime>)
    ensures r.Some? ==> r.value.fields.Valid()
  {
    if |s| == 27 then ReadTimestamp(s) else None
  }

  /** 9999-12-31T23:59:59Z. */
  const LAST_FOUR_DIGIT_SECOND: u64 := 253402300799

  lemma FourDigitYears(unix: u64)
    ensures YearFits(unix) && FieldsFromUnix(unix).date.year <= 9999 <==> unix <= LAST_FOUR_DIGIT_SECOND
  {
    var last := Date(9999, 12, 31);
    DaysBeforeYearClosed(9999);
    DaysBeforeMonthTable(9999, 12);
    assert DayNumber(last) == LAST_FOUR_DIGIT_SECOND / 86400;
    CivilFromDaysCounts(unix / 86400);
    DayNumberOrder(last, CivilFromDays(unix / 86400));
  }

  lemma PaddedPair(n: nat)
    requires n < 100
    ensures |Padded(n, 2)| == 2 && DigitsValue(Padded(n, 2)) == n
  {
    Pow10Values();
    PaddedLength(n, 2);
    PaddedValue(n, 2);
  }

  /** A mark, two characters, and what follows them. */
  lemma PairColumns(mark: string, pair: string, rest: string)
    requires |mark| == 1 && |pair| == 2
    ensures var s := mark + (pair + rest);
            |s| == 3 + |rest| && s[0] == mark[0] && s[1..3] == pair && s[3..] == rest
  {
  }

  lemma DateColumns(month: string, day: string)
    requires |month| == |day| == 2
    ensures var s := "-" + (month + ("-" + day));
            |s| == 6 && s[0] == s[3] == '-' && s[1..3] == month && s[4..6] == day
  {
  }

  lemma SecondColumns(second: string)
    requires |second| == 2
    ensures var s := second + ".000000Z";
            |s| == 10 && s[0..2] == second && s[2] == '.' && s[3..9] == "000000" && s[9] == 'Z'
  {
    var fraction := ".000000Z";
    assert fraction[1..7] == "000000";
  }

  lemma NoMicroseconds()
    ensures AllDigits("000000") && DigitsValue("000000") == 0
  {
    var zeros := "000000";
    assert zeros[..5][..4] == zeros[..4] && zeros[..4][..3] == zeros[..3];
    assert zeros[..3][..2] == zeros[..2] && zeros[..2][..1] == zeros[..1] && zeros[..1][..0] == "";
    assert DigitsValue(zeros[..1]) == 0 && DigitsValue(zeros[..2]) == 0 && DigitsValue(zeros[..3]) == 0;
    assert DigitsValue(zeros[..4]) == 0 && DigitsValue(zeros[..5]) == 0;
  }

  /** Slices of a tail are slices of the whole. */
  lemma InTail(s: string, at: nat, from: nat, to: nat)
    requires from <= to && at + to <= |s|
    ensures s[at..][from..to] == s[at + from..at + to]
    ensures from < to ==> s[at..][from] == s[at + from]
  {
  }

  lemma HourAndMinute(s: string, hour: string, afterHour: string, minute: string, afterMinute: string)
    requires |hour| == |minute| == 2 && |afterMinute| >= 1
    requires s == "T" + (hour + afterHour) && afterHour == ":" + (minute + afterMinute)
    ensures |s| == 6 + |afterMinute| && s[0] == 'T' && s[3] == ':' && s[1..3] == hour && s[4..6] == minute
    ensures s[6..] == afterMinute
  {
    PairColumns("T", hour, afterHour);
    PairColumns(":", minute, afterMinute);
    InTail(s, 3, 0, 1);
    InTail(s, 3, 1, 3);
    assert s[6..] == s[3..][3..];
  }

  lemma AfterMinute(s: string, afterMinute: string, seconds: string)
    requires |s| == 17 && s[6..] == afterMinute == ":" + seconds && |seconds| == 10
    ensures s[6] == ':' && s[7..9] == seconds[0..2] && s[9] == seconds[2] && s[10..16] == seconds[3..9] && s[16] == seconds[9]
  {
    assert s[7..] == s[6..][1..] == seconds;
    InTail(s, 7, 0, 2);
    InTail(s, 7, 3, 9);
  }

  lemma TimeColumns(hour: string, minute: string, second: string)
    requires |hour| == |minute| == |second| == 2
    ensures var s := "T" + (hour + (":" + (minute + (":" + (second + ".000000Z")))));
            && |s| == 17 && s[0] == 'T' && s[3] == s[6] == ':' && s[9] == '.' && s[16] == 'Z'
            && s[1..3] == hour && s[4..6] == minute && s[7..9] == second && s[10..16] == "000000"
  {
    var seconds := second + ".000000Z";
    var afterHour := ":" + (minute + (":" + seconds));
    SecondColumns(second);
    HourAndMinute("T" + (hour + afterHour), hour, afterHour, minute, ":" + seconds);
    AfterMinute("T" + (hour + afterHour), ":" + seconds, seconds);
  }

  lemma TailColumns(date: string, time: string)
    requires |date| == 6 && |time| == 17
    ensures var t := date + time;
            && |t| == 23 && t[1..3] == date[1..3] && t[4..6] == date[4..6]
            && t[7..9] == time[1..3] && t[10..12] == time[4..6] && t[13..15] == time[7..9] && t[16..22] == time[10..16]
            && t[0] == date[0] && t[3] == date[3]
            && t[6] == time[0] && t[9] == time[3] && t[12] == time[6] && t[15] == time[9] && t[22] == time[16]
  {
    var t := date + time;
    assert t[6..] == time;
    InTail(t, 6, 1, 3);
    InTail(t, 6, 4, 6);
    InTail(t, 6, 7, 9);
    InTail(t, 6, 10, 16);
  }

  /** The fields stand in their columns, and the fraction is zero. */
  lemma TailReads(f: Fields)
    requires f.Valid()
    ensures var t := DateTail(f.date.month, f.date.day) + TimeText(f.hour, f.minute, f.second);
            && TailShape(t) && NumberAt(t, 1, 3) == f.date.month && NumberAt(t, 4, 6) == f.date.day
            && NumberAt(t, 7, 9) == f.hour && NumberAt(t, 10, 12) == f.minute && NumberAt(t, 13, 15) == f.second
            && NumberAt(t, 16, 22) == 0
  {
    PaddedPair(f.date.month);
    PaddedPair(f.date.day);
    PaddedPair(f.hour);
    PaddedPair(f.minute);
    PaddedPair(f.second);
    DateColumns(Padded(f.date.month, 2), Padded(f.date.day, 2));
    TimeColumns(Padded(f.hour, 2), Padded(f.minute, 2), Padded(f.second, 2));
    TailColumns(DateTail(f.date.month, f.date.day), TimeText(f.hour, f.minute, f.second));
    NoMicroseconds();
  }

  lemma YearAndTail(year: string, tail: string)
    requires |year| >= 4 && AllDigits(year) && TailShape(tail)
    ensures var s := year + tail;
            |s| >= 27 && s[0..|s| - 23] == year && s[|s| - 23..] == tail
  {
  }

  /** Wherever the year fits an i32 the text reads back as the printed fields with no
      microseconds, which count to the instant; up to the year 9999 it has 27 characters and
      is in the grammar. */
  lemma Rfc3339ReadsBack(unix: u64)
    requires YearFits(unix)
    ensures FieldsFromUnix(unix).Valid()
    ensures ReadTimestamp(Rfc3339(unix)) == Some(DateTime(FieldsFromUnix(unix), 0))
    ensures DateTime(FieldsFromUnix(unix), 0).Instant() == unix * 1_000_000
    ensures unix <= LAST_FOUR_DIGIT_SECOND ==>
              |Rfc3339(unix)| == 27 && ReadRfc3339(Rfc3339(unix)) == Some(DateTime(FieldsFromUnix(unix), 0))
  {
    FieldsFromUnixCounts(unix);
    DateInRange(unix);
    var f := FieldsFromUnix(unix);
    TailReads(f);
    PaddedValue(f.date.year, 4);
    YearAndTail(YearText(f.date.year), DateTail(f.date.month, f.date.day) + TimeText(f.hour, f.minute, f.second));
    if unix <= LAST_FOUR_DIGIT_SECOND {
      FourDigitYears(unix);
      Pow10Values();
      PaddedLength(f.date.year, 4);
    }
  }

  // ---- Order -------------------------------------------------------------------------

  lemma TimeTextOrder(a: Fields, b: Fields)
    requires a.Valid() && b.Valid()
    ensures LexLess(TimeText(a.hour, a.minute, a.second), TimeText(b.hour, b.minute, b.second))
       <==> a.TimeOfDay() < b.TimeOfDay()
  {
    Pow10Values();
    var tail := ".000000Z";
    var as2, bs2 := Padded(a.second, 2), Padded(b.second, 2);
    var am, bm := Padded(a.minute, 2), Padded(b.minute, 2);
    var ah, bh := Padded(a.hour, 2), Padded(b.hour, 2);
    PaddedPair(a.second);
    PaddedPair(b.second);
    PaddedPair(a.minute);
    PaddedPair(b.minute);
    PaddedPair(a.hour);
    PaddedPair(b.hour);
    PaddedOrder(a.second, b.second, 2);
    PaddedOrder(a.minute, b.minute, 2);
    PaddedOrder(a.hour, b.hour, 2);
    LexLessIrreflexive(tail);
    LexLessIrreflexive(":");
    LexLessIrreflexive("T");
    LexLessConcat(as2, bs2, tail, tail);
    LexLessConcat(":", ":", as2 + tail, bs2 + tail);
    LexLessConcat(am, bm, ":" + (as2 + tail), ":" + (bs2 + tail));
    LexLessConcat(":", ":", am + (":" + (as2 + tail)), bm + (":" + (bs2 + tail)));
    LexLessConcat(ah, bh, ":" + (am + (":" + (as2 + tail))), ":" + (bm + (":" + (bs2 + tail))));
    LexLessConcat("T", "T", ah + (":" + (am + (":" + (as2 + tail)))), bh + (":" + (bm + (":" + (bs2 + tail)))));
  }

  lemma DateTailOrder(a: Date, b: Date)
    requires a.Valid() && b.Valid()
    ensures var s, t := DateTail(a.month, a.day), DateTail(b.month, b.day);
            && |s| == |t|
            && (LexLess(s, t) <==> a.month < b.month || (a.month == b.month && a.day < b.day))
            && (s == t <==> a.month == b.month && a.day == b.day)
  {
    Pow10Values();
    var am, bm, ad, bd := Padded(a.month, 2), Padded(b.month, 2), Padded(a.day, 2), Padded(b.day, 2);
    PaddedPair(a.month);
    PaddedPair(b.month);
    PaddedPair(a.day);
    PaddedPair(b.day);
    PaddedOrder(a.month, b.month, 2);
    PaddedOrder(a.day, b.day, 2);
    LexLessIrreflexive("-");
    LexLessConcat("-", "-", ad, bd);
    LexLessConcat(am, bm, "-" + ad, "-" + bd);
    LexLessConcat("-", "-", am + ("-" + ad), bm + ("-" + bd));
    DateColumns(am, ad);
    DateColumns(bm, bd);
  }

  /** The microsecond that a timestamp denotes. */
  function MicrosecondRead(text: string): Option<int> {
    var d :- ReadRfc3339(text);
    Some(d.Instant())
  }

  /** The second that a timestamp denotes; None if it is not a whole one. */
  function TimeRead(text: string): Option<u64> {
    var micros :- MicrosecondRead(text);
    if micros % 1_000_000 == 0 && 0 <= micros / 1_000_000 < 0x1_0000_0000_0000_0000 then Some(micros / 1_000_000) else None
  }

  lemma WholeSecond(u: int)
    ensures u * 1_000_000 % 1_000_000 == 0 && u * 1_000_000 / 1_000_000 == u
  {
  }

  lemma TextOfSecond(text: string, d: DateTime, u: u64)
    requires ReadRfc3339(text) == Some(d) && d.fields.Valid() && d.Instant() == u * 1_000_000
    ensures MicrosecondRead(text) == Some(u * 1_000_000) && TimeRead(text) == Some(u)
  {
    WholeSecond(u);
  }

  lemma TimeReadsBack(u: u64)
    requires u <= LAST_FOUR_DIGIT_SECOND
    ensures MicrosecondRead(Rfc3339(u)) == Some(u * 1_000_000)
    ensures TimeRead(Rfc3339(u)) == Some(u)
  {
    FourDigitYears(u);
    Rfc3339ReadsBack(u);
    TextOfSecond(Rfc3339(u), DateTime(FieldsFromUnix(u), 0), u);
  }

  /** Up to the year 9999, timestamps sort as texts the way they sort as numbers. */
  lemma Rfc3339Order(a: u64, b: u64)
    requires a <= LAST_FOUR_DIGIT_SECOND && b <= LAST_FOUR_DIGIT_SECOND
    ensures LexLess(Rfc3339(a), Rfc3339(b)) <==> a < b
  {
    var f, g := FieldsFromUnix(a), FieldsFromUnix(b);
    FourDigitYears(a);
    FourDigitYears(b);
    FieldsFromUnixCounts(a);
    FieldsFromUnixCounts(b);
    EpochSecondsOrder(f, g);
    Pow10Values();
    PaddedLength(f.date.year, 4);
    PaddedLength(g.date.year, 4);
    PaddedOrder(f.date.year, g.date.year, 4);
    DateTailOrder(f.date, g.date);
    TimeTextOrder(f, g);
    var fy, gy := YearText(f.date.year), YearText(g.date.year);
    var fd, gd := DateTail(f.date.month, f.date.day), DateTail(g.date.month, g.date.day);
    var ft, gt := TimeText(f.hour, f.minute, f.second), TimeText(g.hour, g.minute, g.second);
    LexLessConcat(fd, gd, ft, gt);
    LexLessConcat(fy, gy, fd + ft, gd + gt);
  }

  // ---- Parsing -------------------------------------------------------------------------

  const MONTH_NAMES: seq<string> :=
    ["Jan", "Feb", "Mar", "Apr", "May", "Jun", "Jul", "Aug", "Sep", "Oct", "Nov", "Dec"]

  function MonthFromName(s: string): (r: Option<nat>)
    ensures r.Some? ==> 1 <= r.value <= 12
  {
    match s
    case "Jan" => Some(1)
    case "Feb" => Some(2)
    case "Mar" => Some(3)
    case "Apr" => Some(4)
    case "May" => Some(5)
    case "Jun" => Some(6)
    case "Jul" => Some(7)
    case "Aug" => Some(8)
    case "Sep" => Some(9)
    case "Oct" => Some(10)
    case "Nov" => Some(11)
    case "Dec" => Some(12)
    case _ => None
  }

  const MAX_U32: nat := 0xFFFF_FFFF

  function Nth(words: seq<string>, n: nat): Option<string> {
    if n < |words| then Some(words[n]) else None
  }

  function ParseHttpDate(s: string): Option<u64> {
    var comma := IndexOf(s, ',');
    if comma == |s| then None else ParseDateWords(Words(TrimStart(s[comma + 1..])))
  }

  function ParseDateWords(words: seq<string>): Option<u64> {
    var dayWord :- Nth(words, 0);
    var day :- ParseUnsigned(dayWord, MAX_U32);
    var monthWord :- Nth(words, 1);
    var month :- MonthFromName(monthWord);
    var yearWord :- Nth(words, 2);
    var year :- ParseSigned(yearWord, 0x8000_0000, 0x7FFF_FFFF);
    var timeWord :- Nth(words, 3);
    var hms := SplitOn(timeWord, ':');
    var hour :- ParseUnsigned(hms[0], MAX_U32);
    var minuteText :- Nth(hms, 1);
    var minute :- ParseUnsigned(minuteText, MAX_U32);
    var secondText :- Nth(hms, 2);
    var second :- ParseUnsigned(secondText, MAX_U32);
    Some(UnixFromYmdhms(year, month, day, hour, minute, second))
  }

  /** time-of-day, section 5.6.7 of RFC 9110. */
  function ClockText(f: Fields): string
    requires f.Valid()
  {
    Padded(f.hour, 2) + [':'] + (Padded(f.minute, 2) + [':'] + Padded(f.second, 2))
  }

  /** What an IMF-fixdate has around its fields: the day name, the white space after
      the comma and between the fields, and the zone. */
  datatype Framing = Framing(dayName: string, gap0: string, gap1: string, gap2: string, gap3: string, zone: string) {
    predicate Valid() {
      && ',' !in dayName
      && (forall i :: 0 <= i < |gap0| ==> gap0[i] in ONE_OCTET_SPACES)
      && gap1 != "" && gap2 != "" && gap3 != "" && OnlyGaps(gap1) && OnlyGaps(gap2) && OnlyGaps(gap3)
      && (zone != "" ==> zone[0] in ASCII_GAPS)
    }
  }

  lemma FramingIsSpace(w: Framing)
    requires w.Valid()
    ensures forall i :: 0 <= i < |w.gap0| ==> IsOneOctetSpace(w.gap0[i])
    ensures AllAsciiWhitespace(w.gap1) && AllAsciiWhitespace(w.gap2) && AllAsciiWhitespace(w.gap3)
    ensures w.zone != "" ==> IsAsciiWhitespace(w.zone[0])
  {
    GapsAreWhitespace(w.gap1);
    GapsAreWhitespace(w.gap2);
    GapsAreWhitespace(w.gap3);
    forall i | 0 <= i < |w.gap0|
      ensures IsOneOctetSpace(w.gap0[i])
    {
      GapChar(w.gap0[i]);
    }
    if w.zone != "" {
      GapChar(w.zone[0]);
    }
  }

  /** date1 and time-of-day. */
  function HttpDateTail(f: Fields, w: Framing): string
    requires f.Valid() && f.date.year >= 0
  {
    Padded(f.date.day, 2)
    + (w.gap1 + MONTH_NAMES[f.date.month - 1] + (w.gap2 + Padded(f.date.year, 4) + (w.gap3 + ClockText(f) + w.zone)))
  }

  function HttpDate(f: Fields, w: Framing): string
    requires f.Valid() && f.date.year >= 0
  {
    w.dayName + [','] + (w.gap0 + HttpDateTail(f, w))
  }

  lemma ClockWord(f: Fields)
    requires f.Valid()
    ensures SplitOn(ClockText(f), ':') == [Padded(f.hour, 2), Padded(f.minute, 2), Padded(f.second, 2)]
    ensures ClockText(f) != "" && NoAsciiWhitespace(ClockText(f))
  {
    ColonWord(Padded(f.hour, 2), Padded(f.minute, 2), Padded(f.second, 2));
  }

  lemma ColonWord(h: string, m: string, s: string)
    requires AllDigits(h) && AllDigits(m) && AllDigits(s)
    ensures SplitOn(h + [':'] + (m + [':'] + s), ':') == [h, m, s]
    ensures NoAsciiWhitespace(h + [':'] + (m + [':'] + s))
  {
    var rest := m + [':'] + s;
    SplitAtColon(h, rest);
    SplitAtColon(m, s);
    SplitOnWhole(s, ':');
    assert [h] + ([m] + [s]) == [h, m, s];
  }

  lemma SplitAtColon(digits: string, rest: string)
    requires AllDigits(digits)
    ensures SplitOn(digits + [':'] + rest, ':') == [digits] + SplitOn(rest, ':')
    ensures NoAsciiWhitespace(rest) ==> NoAsciiWhitespace(digits + [':'] + rest)
  {
    SplitOnConcat(digits, ':', rest);
  }

  lemma MonthNameReadsBack(month: nat)
    requires 1 <= month <= 12
    ensures MonthFromName(MONTH_NAMES[month - 1]) == Some(month)
    ensures |MONTH_NAMES[month - 1]| == 3 && NoAsciiWhitespace(MONTH_NAMES[month - 1])
  {
  }

  lemma ThreeWords(gap1: string, name: string, gap2: string, year: string, gap3: string, time: string, zone: string)
    requires gap1 != "" && gap2 != "" && gap3 != ""
    requires AllAsciiWhitespace(gap1) && AllAsciiWhitespace(gap2) && AllAsciiWhitespace(gap3)
    requires name != "" && year != "" && time != ""
    requires NoAsciiWhitespace(name) && NoAsciiWhitespace(year) && NoAsciiWhitespace(time)
    requires zone != "" ==> IsAsciiWhitespace(zone[0])
    ensures var s := gap1 + name + (gap2 + year + (gap3 + time + zone));
            s != "" && IsAsciiWhitespace(s[0]) && Words(s) == [name] + ([year] + ([time] + Words(zone)))
  {
    NextWord(gap3, time, zone);
    NextWord(gap2, year, gap3 + time + zone);
    NextWord(gap1, name, gap2 + year + (gap3 + time + zone));
  }

  predicate IsWord(s: string) {
    s != "" && NoAsciiWhitespace(s)
  }

  lemma FourWords(day: string, name: string, year: string, time: string, w: Framing)
    requires w.Valid() && IsWord(day) && IsDigit(day[0]) && IsWord(name) && IsWord(year) && IsWord(time)
    ensures var words := Words(TrimStart(w.gap0 + (day + (w.gap1 + name + (w.gap2 + year + (w.gap3 + time + w.zone))))));
            |words| >= 4 && words[0] == day && words[1] == name && words[2] == year && words[3] == time
  {
    var rest := w.gap1 + name + (w.gap2 + year + (w.gap3 + time + w.zone));
    FramingIsSpace(w);
    ThreeWords(w.gap1, name, w.gap2, year, w.gap3, time, w.zone);
    FirstWord(day, rest);
    FrontOf(day, rest);
    TrimToDigit(w.gap0, day + rest);
  }

  lemma TrimToDigit(gap0: string, body: string)
    requires forall i :: 0 <= i < |gap0| ==> IsOneOctetSpace(gap0[i])
    requires body != "" && IsDigit(body[0])
    ensures TrimStart(gap0 + body) == body
  {
    TrimStartConcat(gap0, body);
  }

  lemma DateWordsParse(words: seq<string>, month: nat, hms: seq<string>, f: Fields)
    requires |words| >= 4 && |hms| == 3 && SplitOn(words[3], ':') == hms && month == f.date.month && f.Valid()
    requires 0 <= f.date.year <= 9999
    requires ParseUnsigned(words[0], MAX_U32) == Some(f.date.day) && MonthFromName(words[1]) == Some(month)
    requires ParseSigned(words[2], 0x8000_0000, 0x7FFF_FFFF) == Some(f.date.year)
    requires ParseUnsigned(hms[0], MAX_U32) == Some(f.hour) && ParseUnsigned(hms[1], MAX_U32) == Some(f.minute)
    requires ParseUnsigned(hms[2], MAX_U32) == Some(f.second)
    ensures ParseDateWords(words) == Some(UnixFromYmdhms(f.date.year, month, f.date.day, f.hour, f.minute, f.second))
  {
  }

  lemma DateNumbersRead(f: Fields)
    requires f.Valid() && 1970 <= f.date.year <= 9999
    ensures ParseUnsigned(Padded(f.date.day, 2), MAX_U32) == Some(f.date.day)
    ensures ParseSigned(Padded(f.date.year, 4), 0x8000_0000, 0x7FFF_FFFF) == Some(f.date.year)
    ensures ParseUnsigned(Padded(f.hour, 2), MAX_U32) == Some(f.hour)
    ensures ParseUnsigned(Padded(f.minute, 2), MAX_U32) == Some(f.minute)
    ensures ParseUnsigned(Padded(f.second, 2), MAX_U32) == Some(f.second)
  {
    ParsePadded(f.date.day, 2, MAX_U32);
    ParsePaddedSigned(f.date.year, 4, 0x8000_0000, 0x7FFF_FFFF);
    ParsePadded(f.hour, 2, MAX_U32);
    ParsePadded(f.minute, 2, MAX_U32);
    ParsePadded(f.second, 2, MAX_U32);
  }

  lemma DateWordsRead(f: Fields, words: seq<string>)
    requires f.Valid() && 1970 <= f.date.year <= 9999
    requires |words| >= 4 && words[0] == Padded(f.date.day, 2) && MonthFromName(words[1]) == Some(f.date.month)
    requires words[2] == Padded(f.date.year, 4) && words[3] == ClockText(f)
    ensures ParseDateWords(words) == Some(UnixFromYmdhms(f.date.year, f.date.month, f.date.day, f.hour, f.minute, f.second))
  {
    ClockWord(f);
    DateNumbersRead(f);
    DateWordsParse(words, f.date.month, [Padded(f.hour, 2), Padded(f.minute, 2), Padded(f.second, 2)], f);
  }

  lemma HttpDateWords(f: Fields, w: Framing)
    requires f.Valid() && 0 <= f.date.year && w.Valid()
    ensures var words := Words(TrimStart(w.gap0 + HttpDateTail(f, w)));
            && |words| >= 4 && words[0] == Padded(f.date.day, 2) && words[1] == MONTH_NAMES[f.date.month - 1]
            && words[2] == Padded(f.date.year, 4) && words[3] == ClockText(f)
  {
    MonthNameReadsBack(f.date.month);
    ClockWord(f);
    FourWords(Padded(f.date.day, 2), MONTH_NAMES[f.date.month - 1], Padded(f.date.year, 4), ClockText(f), w);
  }

  /** Every IMF-fixdate of section 5.6.7 of RFC 9110 from 1970 on, whatever stands for
      the day name and the zone and however wide the gaps are, parses to its instant. */
  lemma ParseHttpDateReads(f: Fields, w: Framing)
    requires f.Valid() && 1970 <= f.date.year <= 9999 && w.Valid()
    ensures EpochSeconds(f) >= 0 && ParseHttpDate(HttpDate(f, w)) == Some(EpochSeconds(f))
  {
    var rest := w.gap0 + HttpDateTail(f, w);
    IndexOfConcat(w.dayName, ',', rest);
    assert HttpDate(f, w)[|w.dayName| + 1..] == rest;
    HttpDateWords(f, w);
    MonthNameReadsBack(f.date.month);
    DateWordsRead(f, Words(TrimStart(rest)));
    UnixFromYmdhmsIsEpochSeconds(f);
  }

  /** Parser and printer composed: the printed timestamp of a parsed HTTP date shows
      the same date and time. */
  lemma HttpDatePrintsBack(f: Fields, w: Framing)
    requires f.Valid() && 1970 <= f.date.year <= 9999 && w.Valid()
    ensures var r := ParseHttpDate(HttpDate(f, w));
            r.Some? && ReadRfc3339(Rfc3339(r.value)) == Some(DateTime(f, 0))
  {
    ParseHttpDateReads(f, w);
    UnixFromYmdhmsIsEpochSeconds(f);
    FieldsRoundTrip(f);
    FourDigitYears(EpochSeconds(f));
    Rfc3339ReadsBack(EpochSeconds(f));
  }

  // ---- What the parser accepts -----------------------------------------------------------

  /** The six numbers of a date text, as they are written. */
  datatype DateNumbers = DateNumbers(day: nat, month: nat, year: int, hour: nat, minute: nat, second: nat) {
    predicate Fit() {
      && day <= MAX_U32 && 1 <= month <= 12 && -0x8000_0000 <= year <= 0x7FFF_FFFF
      && hour <= MAX_U32 && minute <= MAX_U32 && second <= MAX_U32
    }

    function Unix(): u64
      requires Fit()
    {
      UnixFromYmdhms(year, month, day, hour, minute, second)
    }
  }

  ghost predicate SaysTime(text: string, d: DateNumbers) {
    var hms := SplitOn(text, ':');
    |hms| >= 3 && Numeral(hms[0], d.hour) && Numeral(hms[1], d.minute) && Numeral(hms[2], d.second)
  }

  ghost predicate WordsSay(words: seq<string>, d: DateNumbers) {
    && d.Fit() && |words| >= 4 && Numeral(words[0], d.day) && words[1] == MONTH_NAMES[d.month - 1]
    && SignedNumeral(words[2], d.year) && SaysTime(words[3], d)
  }

  /** Behind the first comma there are a day, the name of a month, a year and a time. */
  ghost predicate SaysDate(s: string, d: DateNumbers) {
    var comma := IndexOf(s, ',');
    comma < |s| && WordsSay(Words(TrimStart(s[comma + 1..])), d)
  }

  lemma MonthExactly(s: string, month: nat)
    requires 1 <= month <= 12
    ensures MonthFromName(s) == Some(month) <==> s == MONTH_NAMES[month - 1]
  {
    MonthNameReadsBack(month);
  }

  /** Each part of the words is read as its number. */
  predicate WordsRead(words: seq<string>, d: DateNumbers) {
    && d.Fit() && |words| >= 4 && ParseUnsigned(words[0], MAX_U32) == Some(d.day) && MonthFromName(words[1]) == Some(d.month)
    && ParseSigned(words[2], 0x8000_0000, 0x7FFF_FFFF) == Some(d.year)
    && var hms := SplitOn(words[3], ':');
       && |hms| >= 3 && ParseUnsigned(hms[0], MAX_U32) == Some(d.hour) && ParseUnsigned(hms[1], MAX_U32) == Some(d.minute)
       && ParseUnsigned(hms[2], MAX_U32) == Some(d.second)
  }

  lemma SaidWordsAreRead(words: seq<string>, d: DateNumbers)
    requires WordsSay(words, d)
    ensures WordsRead(words, d)
  {
    ParseUnsignedExactly(words[0], MAX_U32, d.day);
    MonthExactly(words[1], d.month);
    ParseSignedExactly(words[2], 0x8000_0000, 0x7FFF_FFFF, d.year);
    var hms := SplitOn(words[3], ':');
    ParseUnsignedExactly(hms[0], MAX_U32, d.hour);
    ParseUnsignedExactly(hms[1], MAX_U32, d.minute);
    ParseUnsignedExactly(hms[2], MAX_U32, d.second);
  }

  lemma WordsAccepted(words: seq<string>, d: DateNumbers)
    requires WordsRead(words, d)
    ensures ParseDateWords(words) == Some(d.Unix())
  {
  }

  /** Every part of accepted words was read. */
  lemma AcceptedParts(words: seq<string>)
    requires ParseDateWords(words).Some?
    ensures |words| >= 4 && ParseUnsigned(words[0], MAX_U32).Some? && MonthFromName(words[1]).Some?
    ensures ParseSigned(words[2], 0x8000_0000, 0x7FFF_FFFF).Some?
    ensures var hms := SplitOn(words[3], ':');
            && |hms| >= 3 && ParseUnsigned(hms[0], MAX_U32).Some? && ParseUnsigned(hms[1], MAX_U32).Some?
            && ParseUnsigned(hms[2], MAX_U32).Some?
  {
  }

  lemma AcceptedNumeral(s: string) returns (n: nat)
    requires ParseUnsigned(s, MAX_U32).Some?
    ensures n <= MAX_U32 && Numeral(s, n)
  {
    n := ParseUnsigned(s, MAX_U32).value;
    ParseUnsignedExactly(s, MAX_U32, n);
  }

  lemma AcceptedTime(text: string, hms: seq<string>) returns (hour: nat, minute: nat, second: nat)
    requires hms == SplitOn(text, ':') && |hms| >= 3
    requires ParseUnsigned(hms[0], MAX_U32).Some? && ParseUnsigned(hms[1], MAX_U32).Some? && ParseUnsigned(hms[2], MAX_U32).Some?
    ensures hour <= MAX_U32 && minute <= MAX_U32 && second <= MAX_U32
    ensures Numeral(hms[0], hour) && Numeral(hms[1], minute) && Numeral(hms[2], second)
  {
    hour := AcceptedNumeral(hms[0]);
    minute := AcceptedNumeral(hms[1]);
    second := AcceptedNumeral(hms[2]);
  }

  lemma AcceptedDate(day: string, month: string, year: string) returns (dayN: nat, monthN: nat, yearN: int)
    requires ParseUnsigned(day, MAX_U32).Some? && MonthFromName(month).Some?
    requires ParseSigned(year, 0x8000_0000, 0x7FFF_FFFF).Some?
    ensures dayN <= MAX_U32 && Numeral(day, dayN) && 1 <= monthN <= 12 && month == MONTH_NAMES[monthN - 1]
    ensures -0x8000_0000 <= yearN <= 0x7FFF_FFFF && SignedNumeral(year, yearN)
  {
    dayN := AcceptedNumeral(day);
    monthN := MonthFromName(month).value;
    MonthExactly(month, monthN);
    yearN := ParseSigned(year, 0x8000_0000, 0x7FFF_FFFF).value;
    ParseSignedExactly(year, 0x8000_0000, 0x7FFF_FFFF, yearN);
  }

  lemma NumbersSay(words: seq<string>, hms: seq<string>, d: DateNumbers)
    requires |words| >= 4 && hms == SplitOn(words[3], ':') && |hms| >= 3 && d.Fit()
    requires Numeral(words[0], d.day) && words[1] == MONTH_NAMES[d.month - 1] && SignedNumeral(words[2], d.year)
    requires Numeral(hms[0], d.hour) && Numeral(hms[1], d.minute) && Numeral(hms[2], d.second)
    ensures WordsSay(words, d)
  {
  }

  lemma DateAccepted(words: seq<string>) returns (day: nat, month: nat, year: int)
    requires ParseDateWords(words).Some?
    ensures |words| >= 4 && day <= MAX_U32 && Numeral(words[0], day) && 1 <= month <= 12 && words[1] == MONTH_NAMES[month - 1]
    ensures -0x8000_0000 <= year <= 0x7FFF_FFFF && SignedNumeral(words[2], year)
  {
    AcceptedParts(words);
    day, month, year := AcceptedDate(words[0], words[1], words[2]);
  }

  lemma TimeAccepted(words: seq<string>) returns (hms: seq<string>, hour: nat, minute: nat, second: nat)
    requires ParseDateWords(words).Some?
    ensures |words| >= 4 && hms == SplitOn(words[3], ':') && |hms| >= 3
    ensures hour <= MAX_U32 && minute <= MAX_U32 && second <= MAX_U32
    ensures Numeral(hms[0], hour) && Numeral(hms[1], minute) && Numeral(hms[2], second)
  {
    AcceptedParts(words);
    hms := SplitOn(words[3], ':');
    hour, minute, second := AcceptedTime(words[3], hms);
  }

  lemma AcceptedWordsSay(words: seq<string>) returns (d: DateNumbers)
    requires ParseDateWords(words).Some?
    ensures WordsSay(words, d)
  {
    var day, month, year := DateAccepted(words);
    var hms, hour, minute, second := TimeAccepted(words);
    d := DateNumbers(day, month, year, hour, minute, second);
    NumbersSay(words, hms, d);
  }

  /** A text is accepted exactly if it says a date, and then for the instant of its numbers. */
  lemma ParseHttpDateExactly(s: string)
    ensures forall d :: SaysDate(s, d) ==> ParseHttpDate(s) == Some(d.Unix())
    ensures ParseHttpDate(s).Some? <==> exists d :: SaysDate(s, d)
  {
    var comma := IndexOf(s, ',');
    if comma < |s| {
      var words := Words(TrimStart(s[comma + 1..]));
      forall d | SaysDate(s, d)
        ensures ParseHttpDate(s) == Some(d.Unix())
      {
        SaidWordsAreRead(words, d);
        WordsAccepted(words, d);
      }
      if ParseHttpDate(s).Some? {
        var d := AcceptedWordsSay(words);
        assert SaysDate(s, d);
      }
    }
  }

  /** In particular a word that is no name of a month is refused, whatever stands around it. */
  lemma UnknownMonthIsRefused(w: Framing, day: string, name: string, year: string, time: string)
    requires w.Valid() && IsWord(day) && IsDigit(day[0]) && IsWord(name) && IsWord(year) && IsWord(time)
    requires name !in MONTH_NAMES
    ensures ParseHttpDate(w.dayName + [','] + (w.gap0 + (day + (w.gap1 + name + (w.gap2 + year + (w.gap3 + time + w.zone)))))).None?
  {
    var rest := w.gap0 + (day + (w.gap1 + name + (w.gap2 + year + (w.gap3 + time + w.zone))));
    var s := w.dayName + [','] + rest;
    IndexOfConcat(w.dayName, ',', rest);
    assert s[|w.dayName| + 1..] == rest;
    FourWords(day, name, year, time, w);
    ParseHttpDateExactly(s);
  }

  // ---- A clock with one anchor ---------------------------------------------------------

  /** With one anchor and a monotonic time source, printed times never go backwards. */
  lemma PrintedTimeMonotone(a: Anchor, earlier: u64, later: u64)
    requires earlier <= later && UnixNow(a, earlier) <= LAST_FOUR_DIGIT_SECOND && UnixNow(a, later) <= LAST_FOUR_DIGIT_SECOND
    requires a.unix + later / 1000 < 0x1_0000_0000_0000_0000
    ensures UnixNow(a, earlier) <= UnixNow(a, later)
    ensures !LexLess(Rfc3339(UnixNow(a, later)), Rfc3339(UnixNow(a, earlier)))
  {
    Rfc3339Order(UnixNow(a, later), UnixNow(a, earlier));
  }
}
