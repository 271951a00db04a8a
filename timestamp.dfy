/**
 * The server-side receive stamp of a chat message: the wall-clock time of
 * receipt rendered as `strftime('%H:%M')`, i.e. a zero-padded 24-hour hour,
 * a colon and a zero-padded minute. Seconds and finer fields are dropped.
 * The clock itself is not modelled: the handler receives the reading.
 */
module Timestamp {
  import opened Wrappers

  /** A reading of the server's local wall clock (the fields the stamp can see). */
  datatype Instant = Instant(hour: nat, minute: nat, second: nat)

  /** What a 24-hour clock can return. */
  predicate IsClockReading(t: Instant)
  {
    t.hour < 24 && t.minute < 60 && t.second < 60
  }

  predicate IsDigit(c: char)
  {
    '0' <= c <= '9'
  }

  function Digit(d: nat): (c: char)
    requires d < 10
    ensures IsDigit(c)
  {
    ('0' as int + d) as char
  }

  function DigitValue(c: char): (d: nat)
    requires IsDigit(c)
    ensures d < 10 && Digit(d) == c
  {
    c as int - '0' as int
  }

  /** The shape `strftime('%H:%M')` produces: "HH:MM" with HH < 24 and MM < 60. */
  predicate IsHHMM(s: string)
  {
    && |s| == 5
    && IsDigit(s[0]) && IsDigit(s[1]) && s[2] == ':' && IsDigit(s[3]) && IsDigit(s[4])
    && DigitValue(s[0]) * 10 + DigitValue(s[1]) < 24
    && DigitValue(s[3]) < 6
  }

  /** `strftime('%H:%M')` of a time whose hour is `hour` and minute is `minute`. */
  function FormatHHMM(hour: nat, minute: nat): (s: string)
    requires hour < 24 && minute < 60
    ensures IsHHMM(s)
  {
    [Digit(hour / 10), Digit(hour % 10), ':', Digit(minute / 10), Digit(minute % 10)]
  }

  /** The reading a client could take back out of a stamp. */
  function ParseHHMM(s: string): (r: Option<(nat, nat)>)
    ensures r.Some? <==> IsHHMM(s)
    ensures r.Some? ==> r.value.0 < 24 && r.value.1 < 60
  {
    if IsHHMM(s) then
      Some((DigitValue(s[0]) * 10 + DigitValue(s[1]), DigitValue(s[3]) * 10 + DigitValue(s[4])))
    else
      None
  }

  /** Reading a stamp gives back the hour and minute it was made from. */
  lemma ParseFormat(hour: nat, minute: nat)
    requires hour < 24 && minute < 60
    ensures ParseHHMM(FormatHHMM(hour, minute)) == Some((hour, minute))
  {
  }

  /** Every well-formed stamp is the stamp of the time it reads as. */
  lemma FormatParse(s: string)
    requires ParseHHMM(s).Some?
    ensures FormatHHMM(ParseHHMM(s).value.0, ParseHHMM(s).value.1) == s
  {
  }

  /** Two times share a stamp exactly when they agree on hour and minute. */
  lemma FormatInjective(h1: nat, m1: nat, h2: nat, m2: nat)
    requires h1 < 24 && m1 < 60 && h2 < 24 && m2 < 60
    ensures FormatHHMM(h1, m1) == FormatHHMM(h2, m2) <==> h1 == h2 && m1 == m2
  {
  }
}
