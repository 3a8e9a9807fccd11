/**
 * The status resolver `get_status`: from an appointment's date string,
 * its slot labels and the current time it derives "Completed" or
 * "Ongoing", falling back to "Ongoing" whenever a string does not parse.
 */
module Status {
  import opened Wrappers
  import opened Text
  import opened Calendar
  import opened Slots

  const Completed := "Completed"
  const Ongoing := "Ongoing"
  const Cancelled := "Cancelled"

  /** A slot label that parses and whose start, on today's date, is not after now. */
  predicate SlotOver(t: string, now: Now) {
    ParseTime12(t).Some? && ClockMinutes(ParseTime12(t).value) <= NowMinutes(now)
  }

  /** The `all_past` scan: it stops at the first slot that fails to parse or still lies ahead. */
  function AllSlotsOver(times: seq<string>, now: Now): bool {
    if times == [] then true
    else
      match ParseTime12(times[0])
      case None => false
      case Some(c) => if ClockMinutes(c) > NowMinutes(now) then false else AllSlotsOver(times[1..], now)
  }

  /** `get_status(date_str, time_list)` read at the instant `now`. */
  function ResolveStatus(date: string, times: seq<string>, now: Now): (r: string)
    ensures r == Completed || r == Ongoing
  {
    match ParseDate(date)
    case None => Ongoing
    case Some(d) =>
      if Before(d, now.date) then Completed
      else if d == now.date then (if AllSlotsOver(times, now) then Completed else Ongoing)
      else Ongoing
  }

  /** The early-exit scan holds exactly when every slot parses and has started. */
  lemma {:induction false} AllSlotsOverMeans(times: seq<string>, now: Now)
    ensures AllSlotsOver(times, now) <==> forall i :: 0 <= i < |times| ==> SlotOver(times[i], now)
  {
    if times != [] {
      AllSlotsOverMeans(times[1..], now);
      assert forall i :: 1 <= i < |times| ==> times[i] == times[1..][i - 1];
    }
  }

  lemma BeforeIsStrict(a: Date, b: Date)
    ensures !(Before(a, b) && Before(b, a))
    ensures !Before(a, a)
    ensures a != b && !Before(a, b) ==> Before(b, a)
  {
  }

  /**
   * What `get_status` decides, case by case: a past date is "Completed",
   * a future date "Ongoing", today's date "Completed" exactly when every
   * slot parses and has started (so an empty list counts as finished),
   * and a date that does not parse "Ongoing".
   */
  lemma ResolveStatusCases(date: string, times: seq<string>, now: Now)
    ensures ParseDate(date).None? ==> ResolveStatus(date, times, now) == Ongoing
    ensures ParseDate(date).Some? && Before(ParseDate(date).value, now.date) ==>
              ResolveStatus(date, times, now) == Completed
    ensures ParseDate(date).Some? && Before(now.date, ParseDate(date).value) ==>
              ResolveStatus(date, times, now) == Ongoing
    ensures ParseDate(date) == Some(now.date) ==>
              (ResolveStatus(date, times, now) == Completed <==>
               forall i :: 0 <= i < |times| ==> SlotOver(times[i], now))
    ensures ParseDate(date) == Some(now.date) && times == [] ==> ResolveStatus(date, times, now) == Completed
    ensures (exists i :: 0 <= i < |times| && ParseTime12(times[i]).None?) ==>
              ResolveStatus(date, times, now) == Completed ==> ParseDate(date).Some? && Before(ParseDate(date).value, now.date)
  {
    AllSlotsOverMeans(times, now);
    if ParseDate(date).Some? {
      BeforeIsStrict(ParseDate(date).value, now.date);
    }
  }

  /**
   * A slot the grid still offers today, once booked alone, resolves
   * "Ongoing" except at the exact top of its own hour, when its start
   * equals now and `get_status` already calls it "Completed".
   */
  lemma OfferedTodaySlotResolves(hour: nat, now: Now)
    requires ValidNow(now) && hour < 24 && !SlotPassed(hour, now)
    ensures ResolveStatus(FormatDate(now.date), [SlotLabel(hour)], now)
            == if hour == now.hour then Completed else Ongoing
  {
    ParseFormatDate(now.date);
    SlotLabelRoundTrip(hour);
    AllSlotsOverMeans([SlotLabel(hour)], now);
    BeforeIsStrict(now.date, now.date);
  }

  /**
   * A date the picker accepts (not `<` today's string) is never in the
   * past, so it can only resolve "Completed" on its own day.
   */
  lemma PickedDateNotPast(d: Date, times: seq<string>, now: Now)
    requires ValidDate(d) && ValidNow(now) && !LexLess(FormatDate(d), FormatDate(now.date))
    ensures ResolveStatus(FormatDate(d), times, now) == Completed ==> d == now.date
  {
    IsoOrderIsChronological(d, now.date);
    ParseFormatDate(d);
  }

  /** The loop of `get_status`, with its `break` and the exception a bad label raises. */
  method GetStatus(date: string, times: seq<string>, now: Now) returns (r: string)
    ensures r == ResolveStatus(date, times, now)
  {
    var parsed := ParseDate(date);
    if parsed.None? {
      return Ongoing;
    }
    var d := parsed.value;
    if Before(d, now.date) {
      return Completed;
    } else if d != now.date {
      return Ongoing;
    }
    var allPast := true;
    var i := 0;
    while i < |times|
      invariant 0 <= i <= |times|
      invariant allPast
      invariant forall j :: 0 <= j < i ==> SlotOver(times[j], now)
    {
      var c := ParseTime12(times[i]);
      if c.None? {
        AllSlotsOverMeans(times, now);
        return Ongoing;
      }
      if ClockMinutes(c.value) > NowMinutes(now) {
        assert !SlotOver(times[i], now);
        allPast := false;
        break;
      }
      i := i + 1;
    }
    AllSlotsOverMeans(times, now);
    r := if allPast then Completed else Ongoing;
  }
}
