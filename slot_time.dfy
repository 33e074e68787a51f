/** Clock arithmetic of the weekly availability editor (ManageSlots): start
    times are the "HH:MM" strings of an `<input type="time">`, every session
    lasts a fixed fifty minutes, and times are shown in 12-hour form. */
module SlotTime {
  import opened Text

  /** FIXED_DURATION: the length of every session, in minutes. */
  const FixedDuration: nat := 50
  const MinutesPerDay: nat := 1440

  /** A value the time picker produces: two-digit hours 00..23, a colon and
      two-digit minutes 00..59. */
  predicate IsClockTime(t: string) {
    |t| == 5 && t[2] == ':' && AllDigits(t[..2]) && AllDigits(t[3..])
    && DecimalValue(t[..2]) < 24 && DecimalValue(t[3..]) < 60
  }

  function HourOf(t: string): (h: nat)
    requires IsClockTime(t)
    ensures h < 24
  {
    DecimalValue(t[..2])
  }

  function MinuteOf(t: string): (m: nat)
    requires IsClockTime(t)
    ensures m < 60
  {
    DecimalValue(t[3..])
  }

  /** timeToMinutes: minutes since midnight. */
  function TimeToMinutes(t: string): (m: nat)
    requires IsClockTime(t)
    ensures m < MinutesPerDay
  {
    HourOf(t) * 60 + MinuteOf(t)
  }

  lemma MinutesSplit(t: string)
    requires IsClockTime(t)
    ensures TimeToMinutes(t) / 60 == HourOf(t) && TimeToMinutes(t) % 60 == MinuteOf(t)
  {
  }

  lemma DayArithmetic(m: nat)
    ensures (m / 60) % 24 * 60 + m % 60 == m % MinutesPerDay
  {
    var q, r := m / 60, m % 60;
    var k, h := q / 24, q % 24;
    assert m == 60 * q + r;
    assert q == 24 * k + h;
    assert 60 * q == 1440 * k + 60 * h;
    ModOfDecomposition(m, k, 60 * h + r);
  }

  /** `m % MinutesPerDay` is the remainder of any decomposition into whole
      days and a part shorter than one day. */
  lemma ModOfDecomposition(m: nat, k: nat, x: nat)
    requires x < MinutesPerDay && m == MinutesPerDay * k + x
    ensures m % MinutesPerDay == x
  {
  }

  /** The "HH:MM" form of a minute count, wrapped to one day: hours are
      `Math.floor(m / 60) % 24` and minutes `m % 60`, each padded to two digits. */
  function Clock(m: nat): (t: string)
    ensures IsClockTime(t)
    ensures TimeToMinutes(t) == m % MinutesPerDay
  {
    var t := Pad2((m / 60) % 24) + ":" + Pad2(m % 60);
    assert t[..2] == Pad2((m / 60) % 24) && t[3..] == Pad2(m % 60);
    DayArithmetic(m);
    t
  }

  /** Converting a picker value to minutes and back gives the same string. */
  lemma ClockRoundTrip(t: string)
    requires IsClockTime(t)
    ensures Clock(TimeToMinutes(t)) == t
  {
    MinutesSplit(t);
    Pad2OfDecimal(t[..2]);
    Pad2OfDecimal(t[3..]);
    assert t == t[..2] + ":" + t[3..];
  }

  /** Equal minute counts come from equal picker values. */
  lemma TimeToMinutesInjective(s: string, t: string)
    requires IsClockTime(s) && IsClockTime(t)
    ensures TimeToMinutes(s) == TimeToMinutes(t) <==> s == t
  {
    if TimeToMinutes(s) == TimeToMinutes(t) {
      ClockRoundTrip(s);
      ClockRoundTrip(t);
    }
  }

  /** calculateEndTime: the end of a session starting at `t`, wrapped past
      midnight; an unset start has an unset end. */
  function CalculateEndTime(t: string): (r: string)
    requires t == "" || IsClockTime(t)
    ensures t == "" <==> r == ""
    ensures t != "" ==>
              IsClockTime(r) && TimeToMinutes(r) == (TimeToMinutes(t) + FixedDuration) % MinutesPerDay
  {
    if t == "" then "" else Clock(TimeToMinutes(t) + FixedDuration)
  }

  /** A session ends on the day it starts exactly when it starts before 23:10. */
  lemma EndTimeSameDay(t: string)
    requires IsClockTime(t)
    ensures TimeToMinutes(CalculateEndTime(t)) == TimeToMinutes(t) + FixedDuration
        <==> TimeToMinutes(t) + FixedDuration < MinutesPerDay
  {
    var e := TimeToMinutes(t) + FixedDuration;
    if e >= MinutesPerDay {
      assert e % MinutesPerDay == e - MinutesPerDay;
    }
  }

  /** `hour % 12 || 12`: the hour on a 12-hour dial. */
  function DisplayHour(h: nat): (d: nat)
    requires h < 24
    ensures 1 <= d <= 12
  {
    if h % 12 == 0 then 12 else h % 12
  }

  /** The 24-hour hour of a 12-hour dial reading. */
  function To24Hour(d: nat, pm: bool): (h: nat)
    requires 1 <= d <= 12
    ensures h < 24 && (h >= 12 <==> pm)
  {
    d % 12 + (if pm then 12 else 0)
  }

  /** The dial reading and the AM/PM half determine the hour. */
  lemma DisplayHourInverse(h: nat)
    requires h < 24
    ensures To24Hour(DisplayHour(h), h >= 12) == h
  {
  }

  /** formatTime: "h:MM AM" or "h:MM PM" with the picker's own minute digits;
      an unset time formats as the empty string. */
  function FormatTime(t: string): (r: string)
    requires t == "" || IsClockTime(t)
    ensures t == "" <==> r == ""
  {
    if t == "" then ""
    else
      var h := HourOf(t);
      NatToString(DisplayHour(h)) + ":" + t[3..] + (if h >= 12 then " PM" else " AM")
  }

  /** Reading a 12-hour label back into the picker's "HH:MM" form, or None when
      the label is not one `FormatTime` could produce. */
  function ReadTwelveHour(s: string): Option<string> {
    if |s| < 7 then None
    else
      var dial, minutes, half := s[..|s| - 6], s[|s| - 5..|s| - 3], s[|s| - 3..];
      if s[|s| - 6] != ':' || (half != " AM" && half != " PM") then None
      else if !AllDigits(dial) || !AllDigits(minutes) then None
      else
        var d := DecimalValue(dial);
        if d < 1 || 12 < d || 60 <= DecimalValue(minutes) then None
        else Some(Pad2(To24Hour(d, half == " PM")) + ":" + minutes)
  }

  /** The 12-hour label loses nothing: reading it back gives the picker value. */
  lemma FormatTimeReadBack(t: string)
    requires IsClockTime(t)
    ensures ReadTwelveHour(FormatTime(t)) == Some(t)
  {
    var h := HourOf(t);
    var dial := NatToString(DisplayHour(h));
    var half := if h >= 12 then " PM" else " AM";
    var s := FormatTime(t);
    assert s == dial + ":" + t[3..] + half;
    assert s[..|s| - 6] == dial;
    assert s[|s| - 5..|s| - 3] == t[3..];
    assert s[|s| - 3..] == half;
    assert s[|s| - 6] == ':';
    DecimalRoundTrip(DisplayHour(h));
    DisplayHourInverse(h);
    Pad2OfDecimal(t[..2]);
    assert t == t[..2] + ":" + t[3..];
  }
}
