/**
 * Instants and calendar days as the request validation sees them.
 *
 * Time is counted in milliseconds since 1970-01-01T00:00Z. The server runs in
 * a time zone with a fixed offset, in minutes east of UTC (daylight saving is
 * not modelled). A date-only string `YYYY-MM-DD` denotes, when read by
 * `new Date(...)`, midnight UTC of that calendar day; any other string is
 * modelled as an Invalid Date (`None`). As in V8, the engine under Node, a
 * day past the end of its month but not past 31 rolls over into the next
 * month.
 */
module Dates {
  import opened Wrappers
  import Text

  const MsPerMinute := 60000
  const MsPerDay := 86400000
  const MinutesPerDay := 1440

  predicate IsLeapYear(y: int)
  {
    (y % 4 == 0 && y % 100 != 0) || y % 400 == 0
  }

  function DaysInMonth(y: int, m: int): (n: int)
    requires 1 <= m <= 12
    ensures 28 <= n <= 31
  {
    if m == 2 then (if IsLeapYear(y) then 29 else 28)
    else if m == 4 || m == 6 || m == 9 || m == 11 then 30
    else 31
  }

  /** Days from 1970-01-01 to the given proleptic Gregorian date. */
  function DaysFromCivil(y: int, m: int, d: int): int
    requires 1 <= m <= 12
  {
    var y' := if m <= 2 then y - 1 else y;
    var era := y' / 400;
    var yoe := y' - era * 400;
    var mp := if m > 2 then m - 3 else m + 9;
    var doy := (153 * mp + 2) / 5 + d - 1;
    var doe := yoe * 365 + yoe / 4 - yoe / 100 + doy;
    era * 146097 + doe - 719468
  }

  predicate AllDigits(s: string)
  {
    forall i :: 0 <= i < |s| ==> Text.IsDigit(s[i])
  }

  /**
   * The calendar day named by a `YYYY-MM-DD` string, as a day number. The
   * month must be 1 to 12 and the day 1 to 31; a day beyond the month's
   * length counts on into the next month.
   */
  function ParseIsoDate(s: string): (r: Option<int>)
    ensures r.Some? ==> |s| == 10 && s[4] == '-' && s[7] == '-'
  {
    if |s| == 10 && s[4] == '-' && s[7] == '-'
       && AllDigits(s[..4]) && AllDigits(s[5..7]) && AllDigits(s[8..])
    then
      var y := Text.DecimalValue(s[..4]);
      var m := Text.DecimalValue(s[5..7]);
      var d := Text.DecimalValue(s[8..]);
      if 1 <= m <= 12 && 1 <= d <= 31 then Some(DaysFromCivil(y, m, d)) else None
    else None
  }

  /** Two decimal digits of `n`, with a leading zero. */
  function Pad2(n: nat): (s: string)
    requires n < 100
    ensures |s| == 2 && AllDigits(s) && Text.DecimalValue(s) == n
  {
    var s := [Text.DigitChar(n / 10), Text.DigitChar(n % 10)];
    assert s[..1] == [s[0]] && [s[0]][..0] == [];
    assert Text.DecimalValue([s[0]]) == n / 10;
    s
  }

  /** Four decimal digits of `n`, with leading zeros. */
  function Pad4(n: nat): (s: string)
    requires n < 10000
    ensures |s| == 4 && AllDigits(s) && Text.DecimalValue(s) == n
  {
    var s := Pad2(n / 100) + Pad2(n % 100);
    DecimalAppend2(Pad2(n / 100), Pad2(n % 100));
    s
  }

  lemma DecimalAppend2(a: string, b: string)
    requires AllDigits(a) && AllDigits(b) && |b| == 2
    ensures AllDigits(a + b)
    ensures Text.DecimalValue(a + b) == Text.DecimalValue(a) * 100 + Text.DecimalValue(b)
  {
    var ab := a + b;
    var a1 := a + b[..1];
    assert ab[..|ab| - 1] == a1;
    assert a1[..|a1| - 1] == a;
    assert b[..1][..0] == [];
    assert Text.DecimalValue(a1) == Text.DecimalValue(a) * 10 + Text.DigitValue(b[0]);
    assert Text.DecimalValue(b[..1]) == Text.DigitValue(b[0]);
  }

  /** The `YYYY-MM-DD` text of a calendar date (what a date input submits). */
  function IsoDate(y: nat, m: nat, d: nat): (s: string)
    requires y < 10000 && 1 <= m <= 12 && 1 <= d <= DaysInMonth(y, m)
  {
    DateText(y, m, d)
  }

  /** The text of a year, a month and a day of at most 31, with leading zeros. */
  function DateText(y: nat, m: nat, d: nat): (s: string)
    requires y < 10000 && m < 100 && d < 100
    ensures |s| == 10
  {
    Pad4(y) + "-" + Pad2(m) + "-" + Pad2(d)
  }

  /** Any month 1 to 12 and day 1 to 31 is read as that day number; any other month or day is an Invalid Date. */
  lemma ParseDateText(y: nat, m: nat, d: nat)
    requires y < 10000 && m < 100 && d < 100
    ensures ParseIsoDate(DateText(y, m, d)) == if 1 <= m <= 12 && 1 <= d <= 31 then Some(DaysFromCivil(y, m, d)) else None
  {
    var s := DateText(y, m, d);
    assert s[..4] == Pad4(y);
    assert s[5..7] == Pad2(m);
    assert s[8..] == Pad2(d);
  }

  /** Reading back the text of a date yields that date's day number. */
  lemma ParseIsoDateRoundTrip(y: nat, m: nat, d: nat)
    requires y < 10000 && 1 <= m <= 12 && 1 <= d <= DaysInMonth(y, m)
    ensures ParseIsoDate(IsoDate(y, m, d)) == Some(DaysFromCivil(y, m, d))
  {
    ParseDateText(y, m, d);
  }

  /**
   * A day past the month's end rolls over: in 2024, February 30 is read as
   * March 1, while a day of 32 is an Invalid Date.
   */
  lemma OverlongDayRollsOver()
    ensures DaysInMonth(2024, 2) < 30
    ensures ParseIsoDate(DateText(2024, 2, 30)) == ParseIsoDate(IsoDate(2024, 3, 1))
    ensures ParseIsoDate(DateText(2024, 2, 32)).None?
  {
    ParseDateText(2024, 2, 30);
    ParseDateText(2024, 2, 32);
    ParseIsoDateRoundTrip(2024, 3, 1);
    FebruaryThirtieth();
  }

  lemma FebruaryThirtieth()
    ensures DaysFromCivil(2024, 2, 30) == DaysFromCivil(2024, 3, 1)
  {
    assert DaysFromCivil(2024, 2, 30) == 19783;
    assert DaysFromCivil(2024, 3, 1) == 19783;
  }

  /** The local calendar day containing instant `ms`: the day `setHours(0, 0, 0, 0)` keeps. */
  function LocalDay(ms: int, offsetMinutes: int): int
  {
    (ms + offsetMinutes * MsPerMinute) / MsPerDay
  }

  /**
   * The day the validation compares, as written: `new Date(s)` yields midnight
   * UTC of the named day, and `setHours(0, 0, 0, 0)` moves it to midnight of
   * the LOCAL day that contains that instant.
   */
  function MidnightDayAsWritten(s: string, offsetMinutes: int): (r: Option<int>)
    ensures r.Some? <==> ParseIsoDate(s).Some?
  {
    match ParseIsoDate(s)
    case None => None
    case Some(day) => Some(LocalDay(day * MsPerDay, offsetMinutes))
  }

  /**
   * Whatever the offset, the as-written day is the named day moved by the
   * offset's whole number of days, rounded down: a day earlier anywhere west
   * of UTC within a day of it, the named day from UTC to a day east of it.
   */
  lemma AsWrittenShiftsByWholeDays(s: string, offsetMinutes: int)
    requires ParseIsoDate(s).Some?
    ensures MidnightDayAsWritten(s, offsetMinutes) == Some(ParseIsoDate(s).value + offsetMinutes / MinutesPerDay)
  {
    var day := ParseIsoDate(s).value;
    var q, rem := offsetMinutes / MinutesPerDay, offsetMinutes % MinutesPerDay;
    assert offsetMinutes * MsPerMinute == q * MsPerDay + rem * MsPerMinute by {
      assert offsetMinutes == q * MinutesPerDay + rem;
    }
    var ms := day * MsPerDay + offsetMinutes * MsPerMinute;
    assert ms == (day + q) * MsPerDay + rem * MsPerMinute;
    DivBetween(ms, day + q);
  }

  /** West of UTC the as-written day is the day BEFORE the one the string names. */
  lemma AsWrittenShiftsWestOfUtc(s: string, offsetMinutes: int)
    requires -MinutesPerDay < offsetMinutes < 0
    requires ParseIsoDate(s).Some?
    ensures MidnightDayAsWritten(s, offsetMinutes) == Some(ParseIsoDate(s).value - 1)
  {
    var day := ParseIsoDate(s).value;
    var ms := day * MsPerDay + offsetMinutes * MsPerMinute;
    assert (day - 1) * MsPerDay <= ms < day * MsPerDay;
    DivBetween(ms, day - 1);
  }

  /** At UTC or east of it the as-written day is the day the string names. */
  lemma AsWrittenExactEastOfUtc(s: string, offsetMinutes: int)
    requires 0 <= offsetMinutes < MinutesPerDay
    requires ParseIsoDate(s).Some?
    ensures MidnightDayAsWritten(s, offsetMinutes) == ParseIsoDate(s)
  {
    var day := ParseIsoDate(s).value;
    var ms := day * MsPerDay + offsetMinutes * MsPerMinute;
    assert day * MsPerDay <= ms < (day + 1) * MsPerDay;
    DivBetween(ms, day);
  }

  lemma DivBetween(ms: int, q: int)
    requires q * MsPerDay <= ms < (q + 1) * MsPerDay
    ensures ms / MsPerDay == q
  {
  }

  /**
   * A concrete instance: at 12:00 on 2024-05-01 in UTC-5 (instant
   * 1714582800000) the as-written check places the departure "2024-05-01",
   * which is today there, on an earlier day than today.
   */
  lemma TodayLooksPastAsWritten()
    ensures ParseIsoDate(IsoDate(2024, 5, 1)) == Some(LocalDay(1714582800000, -300))
    ensures MidnightDayAsWritten(IsoDate(2024, 5, 1), -300).value < LocalDay(1714582800000, -300)
  {
    ParseIsoDateRoundTrip(2024, 5, 1);
    assert DaysFromCivil(2024, 5, 1) == 19844;
    DivBetween(1714582800000 - 300 * MsPerMinute, 19844);
    AsWrittenShiftsWestOfUtc(IsoDate(2024, 5, 1), -300);
  }

  /**
   * The corrected day: the calendar day the string names, compared with the
   * server's local calendar day, whatever the time-zone offset.
   */
  function CalendarDay(s: string): (r: Option<int>)
    ensures r == MidnightDayAsWritten(s, 0)
  {
    AsWrittenExactEastOfUtcOrNone(s);
    ParseIsoDate(s)
  }

  lemma AsWrittenExactEastOfUtcOrNone(s: string)
    ensures ParseIsoDate(s) == MidnightDayAsWritten(s, 0)
  {
    if ParseIsoDate(s).Some? { AsWrittenExactEastOfUtc(s, 0); }
  }

  /** With the corrected day, today's date (in the server's zone) is never before today. */
  lemma CalendarTodayIsToday(y: nat, m: nat, d: nat, nowMs: int, offsetMinutes: int)
    requires y < 10000 && 1 <= m <= 12 && 1 <= d <= DaysInMonth(y, m)
    requires LocalDay(nowMs, offsetMinutes) == DaysFromCivil(y, m, d)
    ensures CalendarDay(IsoDate(y, m, d)) == Some(LocalDay(nowMs, offsetMinutes))
  {
    ParseIsoDateRoundTrip(y, m, d);
  }
}
