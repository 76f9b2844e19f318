/**
 * The embeddable widget's time formatter: a 24-hour `HH:MM` text becomes a
 * 12-hour clock reading. JavaScript's `parseInt` (leading white space, an
 * optional sign, a `0x` prefix, then as many digits as there are; no digit
 * at all is NaN, here `None`) and its `%` (the remainder takes the sign of
 * the dividend) are written out.
 */
module Widget {
  import opened Wrappers
  import opened Text
  import Dates

  function TrimStart(s: string): (r: string)
    ensures |r| <= |s| && r == s[|s| - |r|..]
    ensures r != [] ==> !IsSpace(r[0])
  {
    if s != [] && IsSpace(s[0]) then TrimStart(s[1..]) else s
  }

  /** The longest prefix made of decimal digits. */
  function DigitPrefix(s: string): (r: string)
    ensures |r| <= |s| && r == s[..|r|]
    ensures forall i :: 0 <= i < |r| ==> IsDigit(r[i])
    ensures |r| < |s| ==> !IsDigit(s[|r|])
  {
    if s != [] && IsDigit(s[0]) then [s[0]] + DigitPrefix(s[1..]) else []
  }

  predicate IsHexDigit(c: char)
  {
    IsDigit(c) || 'a' <= c <= 'f' || 'A' <= c <= 'F'
  }

  function HexDigitValue(c: char): (d: nat)
    requires IsHexDigit(c)
    ensures d < 16
  {
    if IsDigit(c) then DigitValue(c)
    else if 'a' <= c <= 'f' then c as int - 'a' as int + 10
    else c as int - 'A' as int + 10
  }

  /** The longest prefix made of hexadecimal digits. */
  function HexPrefix(s: string): (r: string)
    ensures |r| <= |s| && r == s[..|r|]
    ensures forall i :: 0 <= i < |r| ==> IsHexDigit(r[i])
  {
    if s != [] && IsHexDigit(s[0]) then [s[0]] + HexPrefix(s[1..]) else []
  }

  function HexValue(s: string): nat
    requires forall i :: 0 <= i < |s| ==> IsHexDigit(s[i])
  {
    if s == [] then 0 else HexValue(s[..|s| - 1]) * 16 + HexDigitValue(s[|s| - 1])
  }

  /** The digits `parseInt` reads once white space and sign are gone: hexadecimal after `0x`, decimal otherwise. */
  function ParseUnsigned(u: string): (r: Option<nat>)
  {
    if |u| >= 2 && u[0] == '0' && (u[1] == 'x' || u[1] == 'X') then
      var h := HexPrefix(u[2..]);
      if h == [] then None else Some(HexValue(h))
    else
      var d := DigitPrefix(u);
      if d == [] then None else Some(DecimalValue(d))
  }

  /**
   * `parseInt(s)` with no radix; `None` is NaN. Text that, once white space
   * is skipped, starts with neither a digit nor a sign is NaN.
   */
  function ParseInt(s: string): (r: Option<int>)
    ensures var t := TrimStart(s);
      (t == [] || !(IsDigit(t[0]) || t[0] == '-' || t[0] == '+')) ==> r.None?
  {
    var t := TrimStart(s);
    if t != [] && t[0] == '-' then
      (match ParseUnsigned(t[1..]) case None => None case Some(n) => Some(-(n as int)))
    else if t != [] && t[0] == '+' then
      (match ParseUnsigned(t[1..]) case None => None case Some(n) => Some(n))
    else
      (match ParseUnsigned(t) case None => None case Some(n) => Some(n))
  }

  /** JavaScript's `a % b` for `b > 0`: truncating division, so the remainder has the sign of `a`. */
  function JsRem(a: int, b: int): (r: int)
    requires b > 0
    ensures -b < r < b
    ensures a >= 0 ==> r == a % b
  {
    if a >= 0 then a % b else -((-a) % b)
  }

  /** `hour % 12 || 12`: NaN and a zero remainder both fall back to 12. */
  function Hour12(hour: Option<int>): int
  {
    if hour.None? then 12
    else var m := JsRem(hour.value, 12); if m == 0 then 12 else m
  }

  /** `hour >= 12 ? 'PM' : 'AM'`; NaN compares false. */
  function AmPm(hour: Option<int>): string
  {
    if hour.Some? && hour.value >= 12 then "PM" else "AM"
  }

  /**
   * `formatTime`: the text before the first colon is the hour and the text
   * between the first and second colons the minutes, copied as they are
   * (the word `undefined` when there is no colon).
   */
  function FormatTime(timeStr: string): (r: string)
    ensures r == "" <==> timeStr == ""
    ensures r != "" ==> |r| >= 5 && (r[|r| - 3..] == " AM" || r[|r| - 3..] == " PM")
  {
    if timeStr == "" then ""
    else
      var parts := Split(timeStr, ':');
      var minutes := if |parts| > 1 then parts[1] else "undefined";
      var hour := ParseInt(parts[0]);
      IntToString(Hour12(hour)) + ":" + minutes + " " + AmPm(hour)
  }

  // ---------------------------------------------------------------------------
  // Properties

  /** The decimal text of any integer parses back to it. */
  lemma ParseIntRoundTrip(n: int)
    ensures ParseInt(IntToString(n)) == Some(n)
  {
    var digits := NatToString(if n < 0 then -n else n);
    DigitsParse(digits);
    DecimalRoundTrip(if n < 0 then -n else n);
    if n < 0 {
      var t := "-" + digits;
      assert IntToString(n) == t;
      assert t[1..] == digits;
      assert !IsSpace(t[0]);
      assert TrimStart(t) == t;
    }
  }

  lemma DigitIsNotSpace(c: char)
    requires IsDigit(c)
    ensures !IsSpace(c) && c != '-' && c != '+'
  {
  }

  /** A text of digits alone is read as its decimal value; a leading zero does not make it hexadecimal. */
  lemma DigitsParse(s: string)
    requires s != [] && forall i :: 0 <= i < |s| ==> IsDigit(s[i])
    ensures ParseUnsigned(s) == Some(DecimalValue(s))
    ensures ParseInt(s) == Some(DecimalValue(s))
    ensures TrimStart(s) == s
  {
    DigitIsNotSpace(s[0]);
    assert TrimStart(s) == s;
    DigitsAreDecimal(s);
  }

  /** The unsigned reading of a digit text. */
  lemma DigitsAreDecimal(s: string)
    requires s != [] && forall i :: 0 <= i < |s| ==> IsDigit(s[i])
    ensures ParseUnsigned(s) == Some(DecimalValue(s))
  {
    AllDigitsPrefix(s);
    if |s| >= 2 {
      DigitIsNotSpace(s[1]);
      assert s[1] != 'x' && s[1] != 'X';
    }
  }

  lemma {:induction false} AllDigitsPrefix(s: string)
    requires forall i :: 0 <= i < |s| ==> IsDigit(s[i])
    ensures DigitPrefix(s) == s
  {
    if s != [] {
      AllDigitsPrefix(s[1..]);
      assert s == [s[0]] + s[1..];
    }
  }

  /** The 12-hour reading of any hour: between 1 and 12 for a clock hour, PM exactly from noon on. */
  lemma HourReading(h: int)
    ensures 0 <= h < 24 ==> 1 <= Hour12(Some(h)) <= 12
    ensures AmPm(Some(h)) == "PM" <==> h >= 12
    ensures 0 <= h < 24 ==> (if AmPm(Some(h)) == "PM" then Hour12(Some(h)) % 12 + 12 else Hour12(Some(h)) % 12) == h
  {
  }

  /** A time `HH:MM` as a time input submits it. */
  function ClockText(h: nat, m: nat): string
    requires h < 100 && m < 100
  {
    Dates.Pad2(h) + ":" + Dates.Pad2(m)
  }

  /**
   * `formatTime` on `hours:minutes`: the hour as `parseInt` reads it on the
   * 12-hour dial, the minutes copied verbatim, and the half of the day.
   */
  lemma FormatTimeOfParts(hours: string, minutes: string)
    requires ':' !in hours && ':' !in minutes
    ensures FormatTime(hours + ":" + minutes)
            == IntToString(Hour12(ParseInt(hours))) + ":" + minutes + " " + AmPm(ParseInt(hours))
  {
    SplitTwoPieces(hours, minutes, ':');
  }

  /** Anything after a second colon, such as seconds, is dropped. */
  lemma SecondsAreDropped(hours: string, minutes: string, rest: string)
    requires ':' !in hours && ':' !in minutes
    ensures FormatTime(hours + ":" + minutes + ":" + rest) == FormatTime(hours + ":" + minutes)
  {
    var t := hours + ":" + minutes + ":" + rest;
    SplitThreePieces(hours, minutes, rest, ':');
    var parts := Split(t, ':');
    assert parts[0] == hours && parts[1] == minutes && |parts| > 1;
    assert FormatTime(t) == IntToString(Hour12(ParseInt(hours))) + ":" + minutes + " " + AmPm(ParseInt(hours));
    FormatTimeOfParts(hours, minutes);
  }

  /** `a:b:rest` splits into `a`, `b` and the pieces of `rest`. */
  lemma SplitThreePieces(a: string, b: string, rest: string, c: char)
    requires c !in a && c !in b
    ensures Split(a + [c] + b + [c] + rest, c) == [a, b] + Split(rest, c)
  {
    assert a + [c] + b + [c] + rest == a + [c] + (b + [c] + rest);
    SplitAtSeparator(a, b + [c] + rest, c);
    SplitAtSeparator(b, rest, c);
  }

  /** `formatTime` on a clock time: the hour on the 12-hour dial without a leading zero, the minutes as given, and the half of the day. */
  lemma FormatClockTime(h: nat, m: nat)
    requires h < 24 && m < 60
    ensures FormatTime(ClockText(h, m))
            == IntToString(if h % 12 == 0 then 12 else h % 12) + ":" + Dates.Pad2(m) + " " + (if h >= 12 then "PM" else "AM")
  {
    var hh, mm := Dates.Pad2(h), Dates.Pad2(m);
    assert ':' !in hh && ':' !in mm by {
      assert hh == [hh[0], hh[1]] && mm == [mm[0], mm[1]];
    }
    FormatTimeOfParts(hh, mm);
    DigitsParse(hh);
  }

  /** `a + [c] + b` splits at `c` into `a` and `b` when neither holds `c`. */
  lemma SplitTwoPieces(a: string, b: string, c: char)
    requires c !in a && c !in b
    ensures Split(a + [c] + b, c) == [a, b]
  {
    SplitAtSeparator(a, b, c);
    SplitWithoutSeparator(b, c);
  }

  /**
   * By `FormatClockTime`: "00:30" reads "12:30 AM", "13:05" reads "1:05 PM"
   * and "09:00" reads "9:00 AM".
   */
  lemma ClockExamples()
    ensures IntToString(Hour12(Some(0))) == "12" && AmPm(Some(0)) == "AM"
    ensures IntToString(Hour12(Some(13))) == "1" && AmPm(Some(13)) == "PM"
    ensures IntToString(Hour12(Some(9))) == "9" && AmPm(Some(9)) == "AM"
  {
    assert NatToString(1) == "1";
  }

  /** An empty time reads as nothing. */
  lemma EmptyTime()
    ensures FormatTime("") == ""
  {
  }

  /** Text whose hour is not a number reads as 12, in the morning; text without a colon has minutes `undefined`. */
  lemma FormatTimeOddInput(hour: string)
    requires hour != [] && ':' !in hour && ParseInt(hour).None?
    ensures FormatTime(hour) == "12:undefined AM"
  {
    SplitWithoutSeparator(hour, ':');
    assert IntToString(12) == "12" by {
      assert NatToString(1) == "1";
    }
  }

  /** Negative hours keep their sign, as JavaScript's remainder does; -12 is a zero remainder and reads 12. */
  lemma NegativeHours()
    ensures Hour12(Some(-5)) == -5
    ensures Hour12(Some(-12)) == 12
    ensures Hour12(Some(-13)) == -1
  {
  }
}
