/**
 * The hourly slot grid of the booking screen: fifteen labels from
 * 8:00 AM to 10:00 PM in 12-hour form, the `strptime(t, "%I:%M %p")`
 * reading of a label, and the rule that disables a slot button.
 */
module Slots {
  import opened Wrappers
  import opened Text
  import opened Calendar

  /** A time of day on the 24-hour clock. */
  datatype Clock = Clock(hour: int, minute: int)

  function ClockMinutes(c: Clock): int {
    c.hour * 60 + c.minute
  }

  function NowMinutes(now: Now): int {
    now.hour * 60 + now.minute
  }

  const FirstHour: nat := 8
  const LastHour: nat := 22
  const SlotCount: nat := LastHour - FirstHour + 1

  /** `hour % 12 or 12`: the hour on a 12-hour dial. */
  function Hour12(hour: nat): (h: nat)
    ensures 1 <= h <= 12
  {
    if hour % 12 == 0 then 12 else hour % 12
  }

  /** The label of the slot that starts at `hour`, e.g. `"9:00 AM"` or `"12:00 PM"`. */
  function SlotLabel(hour: nat): string {
    DecimalString(Hour12(hour)) + ":00 " + (if hour < 12 then "AM" else "PM")
  }

  /** The labels of the grid, hour ascending. */
  function SlotGrid(): (g: seq<string>)
    ensures |g| == SlotCount
  {
    seq(SlotCount, i requires 0 <= i < SlotCount => SlotLabel(FirstHour + i))
  }

  predicate AllSpace(s: string) {
    forall i :: 0 <= i < |s| ==> IsSpace(s[i])
  }

  /** The `%M` field, pattern `[0-5]\d|\d`. */
  function MinuteField(f: string): (r: Option<nat>)
    ensures r.Some? ==> r.value < 60
  {
    if |f| == 1 && IsDigit(f[0]) then Some(DigitValue(f[0]))
    else if |f| == 2 && '0' <= f[0] <= '5' && IsDigit(f[1]) then Some(DigitValue(f[0]) * 10 + DigitValue(f[1]))
    else None
  }

  /** The `%p` field: `am` or `pm` in any letter case; `Some(true)` is PM. */
  function Meridiem(f: string): Option<bool> {
    if Lower(f) == "am" then Some(false)
    else if Lower(f) == "pm" then Some(true)
    else None
  }

  /** How `strptime` combines `%I` and `%p`: 12 AM is hour 0, 12 PM is hour 12. */
  function To24Hour(h12: nat, pm: bool): nat {
    if !pm then (if h12 == 12 then 0 else h12)
    else (if h12 == 12 then 12 else h12 + 12)
  }

  /**
   * `datetime.strptime(t, "%I:%M %p").time()`, or `None` where it raises.
   * The hour field runs up to the colon, the minute field up to the first
   * white space, then one or more white-space characters and the marker
   * end the string.
   */
  function ParseTime12(t: string): (r: Option<Clock>)
    ensures r.Some? ==> 0 <= r.value.hour < 24 && 0 <= r.value.minute < 60
  {
    var hourLen := if |t| > 1 && t[1] == ':' then 1 else if |t| > 2 && t[2] == ':' then 2 else 0;
    if hourLen == 0 then None
    else
      var rest := t[hourLen + 1..];
      var minuteLen := if |rest| > 1 && IsSpace(rest[1]) then 1 else if |rest| > 2 && IsSpace(rest[2]) then 2 else 0;
      if minuteLen == 0 then None
      else
        var tail := rest[minuteLen..];
        if |tail| < 3 || !AllSpace(tail[..|tail| - 2]) then None
        else
          match (OneToTwelve(t[..hourLen]), MinuteField(rest[..minuteLen]), Meridiem(tail[|tail| - 2..]))
          case (Some(h), Some(m), Some(pm)) => Some(Clock(To24Hour(h, pm), m))
          case _ => None
  }

  /** The current-time rule: the slot's hour is over, or has begun and it is past the hour. */
  predicate SlotPassed(hour: int, now: Now) {
    hour < now.hour || (hour == now.hour && 0 < now.minute)
  }

  /** A slot button is disabled when its label is booked, or when the date is today and the slot has begun. */
  predicate SlotDisabled(slot: string, hour: int, booked: seq<string>, isToday: bool, now: Now) {
    slot in booked || (isToday && SlotPassed(hour, now))
  }

  /** The number the 12-hour label shows reads back as that number. */
  lemma HourFieldRoundTrip(n: nat)
    requires 1 <= n <= 12
    ensures OneToTwelve(DecimalString(n)) == Some(n)
  {
    var d := DecimalString(n);
    if n >= 10 {
      TwoDigitValue(d);
      assert DigitValue(d[0]) * 10 + DigitValue(d[1]) == n;
      assert d[0] == '1';
    } else {
      assert d[..0] == [];
    }
  }

  lemma MarkerMeridiem(pm: bool)
    ensures Meridiem(if pm then "PM" else "AM") == Some(pm)
  {
    assert Lower("AM") == "am" by {
      assert Lower("AM")[0] == 'a' && Lower("AM")[1] == 'm';
    }
    assert Lower("PM") == "pm" by {
      assert Lower("PM")[0] == 'p' && Lower("PM")[1] == 'm';
    }
  }

  /** How the parser splits a string shaped like a slot label: hour field, minute "00", marker. */
  lemma LabelShapeParse(d: string, marker: string)
    requires 1 <= |d| <= 2 && AllDigits(d) && |marker| == 2
    ensures ParseTime12(d + ":00 " + marker)
            == if OneToTwelve(d).Some? && Meridiem(marker).Some?
               then Some(Clock(To24Hour(OneToTwelve(d).value, Meridiem(marker).value), 0))
               else None
  {
    var t := d + ":00 " + marker;
    var hourLen := |d|;
    assert t[..hourLen] == d;
    assert t[hourLen] == ':';
    assert hourLen == 2 ==> IsDigit(t[1]);
    var rest := t[hourLen + 1..];
    assert rest == "00 " + marker;
    var tail := rest[2..];
    assert tail == " " + marker;
    assert tail[..|tail| - 2] == " ";
    assert tail[|tail| - 2..] == marker;
    assert MinuteField(rest[..2]) == Some(0);
  }

  /** The 12-hour dial and the marker give back the hour of the day. */
  lemma DialHour(hour: nat)
    requires hour < 24
    ensures To24Hour(Hour12(hour), hour >= 12) == hour
  {
    if hour < 12 {
      assert hour % 12 == hour;
    } else {
      assert hour % 12 == hour - 12;
    }
  }

  /**
   * Every label of the day reads back, through the parser `get_status`
   * uses, as its own hour on the minute 0.
   */
  lemma SlotLabelRoundTrip(hour: nat)
    requires hour < 24
    ensures ParseTime12(SlotLabel(hour)) == Some(Clock(hour, 0))
  {
    var n := Hour12(hour);
    var marker := if hour < 12 then "AM" else "PM";
    assert SlotLabel(hour) == DecimalString(n) + ":00 " + marker;
    HourFieldRoundTrip(n);
    MarkerMeridiem(hour >= 12);
    LabelShapeParse(DecimalString(n), marker);
    DialHour(hour);
  }

  /** Distinct hours of the day have distinct labels. */
  lemma SlotLabelInjective(h1: nat, h2: nat)
    requires h1 < 24 && h2 < 24 && SlotLabel(h1) == SlotLabel(h2)
    ensures h1 == h2
  {
    SlotLabelRoundTrip(h1);
    SlotLabelRoundTrip(h2);
  }

  lemma SlotGridDistinct()
    ensures forall i, j :: 0 <= i < j < SlotCount ==> SlotGrid()[i] != SlotGrid()[j]
  {
    forall i, j | 0 <= i < j < SlotCount
      ensures SlotGrid()[i] != SlotGrid()[j]
    {
      assert SlotGrid()[i] == SlotLabel(FirstHour + i) && SlotGrid()[j] == SlotLabel(FirstHour + j);
      if SlotGrid()[i] == SlotGrid()[j] {
        SlotLabelInjective(FirstHour + i, FirstHour + j);
      }
    }
  }

  lemma SlotGridParses()
    ensures forall i :: 0 <= i < SlotCount ==> ParseTime12(SlotGrid()[i]) == Some(Clock(FirstHour + i, 0))
  {
    forall i | 0 <= i < SlotCount
      ensures ParseTime12(SlotGrid()[i]) == Some(Clock(FirstHour + i, 0))
    {
      assert SlotGrid()[i] == SlotLabel(FirstHour + i);
      SlotLabelRoundTrip(FirstHour + i);
    }
  }

  /** The fifteen labels of the grid are pairwise distinct and read back as their hours. */
  lemma SlotGridWellFormed()
    ensures forall i, j :: 0 <= i < j < SlotCount ==> SlotGrid()[i] != SlotGrid()[j]
    ensures forall i :: 0 <= i < SlotCount ==> ParseTime12(SlotGrid()[i]) == Some(Clock(FirstHour + i, 0))
  {
    SlotGridDistinct();
    SlotGridParses();
  }

  /** The time rule disables exactly the slots whose start lies strictly before now. */
  lemma SlotPassedIsStarted(hour: int, now: Now)
    requires ValidNow(now)
    ensures SlotPassed(hour, now) <==> ClockMinutes(Clock(hour, 0)) < NowMinutes(now)
  {
  }
}
