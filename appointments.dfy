/**
 * The appointment directory as a value: the specification functions the
 * store's methods are proved against, and what they promise about
 * booked slots, identifiers, booking, reconciliation and the dashboard
 * counters.
 */
module Appointments {
  import opened Wrappers
  import opened Text
  import opened Calendar
  import opened Slots
  import opened Status
  import opened Records

  /** A record holds its slots when it is for this doctor and date and is not cancelled. */
  predicate Reserves(a: Appointment, doctor: string, date: string) {
    a.doctor == doctor && a.date == date && a.status != Cancelled
  }

  /** `get_booked_times`: the slot lists of the holding records, concatenated in directory order. */
  function BookedTimes(files: seq<Entry>, doctor: string, date: string): seq<string> {
    if files == [] then []
    else
      var last := files[|files| - 1].appt;
      BookedTimes(files[..|files| - 1], doctor, date) + (if Reserves(last, doctor, date) then last.time else [])
  }

  /**
   * A label is booked exactly when some record for that doctor and date,
   * not cancelled, lists it; a cancelled record never contributes.
   */
  lemma {:induction false} BookedTimesMeans(files: seq<Entry>, doctor: string, date: string, t: string)
    ensures t in BookedTimes(files, doctor, date) <==>
            exists i :: 0 <= i < |files| && Reserves(files[i].appt, doctor, date) && t in files[i].appt.time
  {
    if files != [] {
      var init := files[..|files| - 1];
      BookedTimesMeans(init, doctor, date, t);
      assert forall i :: 0 <= i < |init| ==> init[i] == files[i];
    }
  }

  lemma BookedTimesSnoc(files: seq<Entry>, e: Entry, doctor: string, date: string)
    ensures BookedTimes(files + [e], doctor, date)
            == BookedTimes(files, doctor, date) + (if Reserves(e.appt, doctor, date) then e.appt.time else [])
  {
    assert (files + [e])[..|files|] == files;
  }

  /**
   * Distinct identifiers. The application writes `appointment<n>.json`
   * without leading zeros, so distinct file names carry distinct numbers.
   */
  predicate DistinctIds(files: seq<Entry>) {
    forall i, j :: 0 <= i < j < |files| ==> files[i].id != files[j].id
  }

  /** `max(existing_numbers, default=0)`. */
  function MaxId(files: seq<Entry>): (m: nat)
    ensures forall i :: 0 <= i < |files| ==> files[i].id <= m
    ensures files == [] ==> m == 0
    ensures files != [] ==> exists i :: 0 <= i < |files| && files[i].id == m
  {
    if files == [] then 0
    else
      var init := files[..|files| - 1];
      var last := files[|files| - 1].id;
      assert forall i :: 0 <= i < |init| ==> init[i] == files[i];
      if MaxId(init) < last then last else MaxId(init)
  }

  /** The identifier `book_appointment` gives the next file. */
  function NextId(files: seq<Entry>): nat {
    MaxId(files) + 1
  }

  /** `profile.get('Fee', 'Not Available')`. */
  function BookingFee(profile: DoctorProfile): string {
    profile.fee.GetOr("Not Available")
  }

  datatype BookingOutcome = NoTimeSelected | Booked(id: nat)

  /** The directory after `book_appointment`: unchanged without a selected slot, else one new "Ongoing" file. */
  function Book(files: seq<Entry>, profile: DoctorProfile, user: string, date: string, times: seq<string>): seq<Entry> {
    if times == [] then files
    else files + [Entry(NextId(files), Appointment(profile.fullName, user, date, times, BookingFee(profile), Ongoing))]
  }

  /**
   * Booking writes nothing without a slot; otherwise it appends one record
   * whose identifier exceeds every existing one (so no file is
   * overwritten), whose status is "Ongoing" and whose fee is the profile's.
   */
  lemma BookingEffects(files: seq<Entry>, profile: DoctorProfile, user: string, date: string, times: seq<string>)
    ensures times == [] ==> Book(files, profile, user, date, times) == files
    ensures times != [] ==>
              var r := Book(files, profile, user, date, times);
              && |r| == |files| + 1 && r[..|files|] == files
              && (forall i :: 0 <= i < |files| ==> files[i].id < r[|files|].id)
              && r[|files|].appt == Appointment(profile.fullName, user, date, times, BookingFee(profile), Ongoing)
    ensures DistinctIds(files) ==> DistinctIds(Book(files, profile, user, date, times))
  {
    if times != [] {
      var r := Book(files, profile, user, date, times);
      assert r[..|files|] == files;
    }
  }

  /** After a booking, the doctor's booked list for that date is the old list followed by the new slots. */
  lemma BookingExtendsBookedTimes(files: seq<Entry>, profile: DoctorProfile, user: string, date: string,
                                  times: seq<string>, doctor: string, day: string)
    ensures BookedTimes(Book(files, profile, user, date, times), doctor, day)
            == BookedTimes(files, doctor, day) + (if profile.fullName == doctor && date == day then times else [])
  {
    if times != [] {
      var e := Entry(NextId(files), Appointment(profile.fullName, user, date, times, BookingFee(profile), Ongoing));
      BookedTimesSnoc(files, e, doctor, day);
    } else {
      assert BookedTimes(files, doctor, day) + [] == BookedTimes(files, doctor, day);
    }
  }

  predicate NoDuplicates(s: seq<string>) {
    forall i, j :: 0 <= i < j < |s| ==> s[i] != s[j]
  }

  /** No slot label is held twice for one doctor and date. */
  ghost predicate NoDoubleBooking(files: seq<Entry>) {
    forall doctor, date :: NoDuplicates(BookedTimes(files, doctor, date))
  }

  lemma NoDuplicatesAppend(a: seq<string>, b: seq<string>)
    requires NoDuplicates(a) && NoDuplicates(b) && forall t :: t in b ==> t !in a
    ensures NoDuplicates(a + b)
  {
    forall i, j | 0 <= i < j < |a + b|
      ensures (a + b)[i] != (a + b)[j]
    {
      if i < |a| && j >= |a| {
        assert (a + b)[j] in b;
      }
    }
  }

  /**
   * Booking only slots that are free and distinct keeps every doctor's
   * booked list free of repeats: the guarantee the slot grid gives when
   * the booking follows it.
   */
  lemma BookingFreeSlotsKeepsNoDoubleBooking(files: seq<Entry>, profile: DoctorProfile, user: string,
                                             date: string, times: seq<string>)
    requires NoDoubleBooking(files)
    requires NoDuplicates(times)
    requires forall t :: t in times ==> t !in BookedTimes(files, profile.fullName, date)
    ensures NoDoubleBooking(Book(files, profile, user, date, times))
  {
    forall doctor, day
      ensures NoDuplicates(BookedTimes(Book(files, profile, user, date, times), doctor, day))
    {
      BookingExtendsBookedTimes(files, profile, user, date, times, doctor, day);
      var extra := if profile.fullName == doctor && date == day then times else [];
      assert NoDuplicates(BookedTimes(files, doctor, day));
      NoDuplicatesAppend(BookedTimes(files, doctor, day), extra);
    }
  }

  lemma SingleRecordBookedTimes(id: nat, a: Appointment, doctor: string, date: string)
    ensures BookedTimes([Entry(id, a)], doctor, date) == if Reserves(a, doctor, date) then a.time else []
  {
    BookedTimesSnoc([], Entry(id, a), doctor, date);
    assert [] + [Entry(id, a)] == [Entry(id, a)];
  }

  /**
   * `book_appointment` does not check the slots again when it writes:
   * from a store without double booking (one record holding one slot),
   * a second booking of that slot for the same doctor and date produces one.
   */
  lemma BookingDoesNotRecheckSlots(a: Appointment, id: nat, profile: DoctorProfile, user: string)
    requires a.doctor == profile.fullName && a.status != Cancelled && |a.time| == 1
    ensures NoDoubleBooking([Entry(id, a)])
    ensures !NoDoubleBooking(Book([Entry(id, a)], profile, user, a.date, a.time))
  {
    forall doctor, date
      ensures NoDuplicates(BookedTimes([Entry(id, a)], doctor, date))
    {
      SingleRecordBookedTimes(id, a, doctor, date);
    }
    RebookedSlotHeldTwice(a, id, profile, user);
  }

  lemma RebookedSlotHeldTwice(a: Appointment, id: nat, profile: DoctorProfile, user: string)
    requires a.doctor == profile.fullName && a.status != Cancelled && |a.time| == 1
    ensures !NoDuplicates(BookedTimes(Book([Entry(id, a)], profile, user, a.date, a.time), a.doctor, a.date))
  {
    BookingExtendsBookedTimes([Entry(id, a)], profile, user, a.date, a.time, a.doctor, a.date);
    SingleRecordBookedTimes(id, a, a.doctor, a.date);
    var held := BookedTimes(Book([Entry(id, a)], profile, user, a.date, a.time), a.doctor, a.date);
    assert held == a.time + a.time;
    assert held[0] == held[1];
  }

  /** Reconciliation writes a record when `get_status` says "Completed" and the stored status differs. */
  predicate NeedsWrite(a: Appointment, now: Now) {
    ResolveStatus(a.date, a.time, now) == Completed && a.status != Completed
  }

  function Reconcile(a: Appointment, now: Now): Appointment {
    if NeedsWrite(a, now) then a.(status := Completed) else a
  }

  /** Whose records a dashboard reconciles and counts. */
  datatype Scope = OfUser(email: string) | OfDoctor(name: string) | Everyone

  predicate InScope(a: Appointment, scope: Scope) {
    match scope
    case OfUser(email) => a.user == email
    case OfDoctor(name) => a.doctor == name
    case Everyone => true
  }

  function ReconcileEntry(e: Entry, scope: Scope, now: Now): Entry {
    if InScope(e.appt, scope) then e.(appt := Reconcile(e.appt, now)) else e
  }

  /** The directory after a dashboard's reconciliation pass over its scope. */
  function ReconcileIn(files: seq<Entry>, scope: Scope, now: Now): seq<Entry> {
    seq(|files|, i requires 0 <= i < |files| => ReconcileEntry(files[i], scope, now))
  }

  /**
   * Reconciliation touches only the status of records in scope, and only
   * to set "Completed" where `get_status` says so, over any stored status,
   * "Cancelled" included.
   */
  lemma ReconcileOnlyCompletes(files: seq<Entry>, scope: Scope, now: Now, i: nat)
    requires i < |files|
    ensures |ReconcileIn(files, scope, now)| == |files|
    ensures var e, r := files[i], ReconcileIn(files, scope, now)[i];
            && r.id == e.id
            && r.appt == e.appt.(status := r.appt.status)
            && (InScope(e.appt, scope) && ResolveStatus(e.appt.date, e.appt.time, now) == Completed ==> r.appt.status == Completed)
            && (r.appt.status != e.appt.status ==> InScope(e.appt, scope) && r.appt.status == Completed)
    ensures DistinctIds(files) ==> DistinctIds(ReconcileIn(files, scope, now))
  {
  }

  lemma ReconcileKeepsIds(files: seq<Entry>, scope: Scope, now: Now)
    requires DistinctIds(files)
    ensures DistinctIds(ReconcileIn(files, scope, now))
  {
  }

  /**
   * Progress of a dashboard's pass: the first `i` records reconciled, the
   * rest untouched, then record `i` reconciled too.
   */
  lemma ReconcileStep(files: seq<Entry>, cur: seq<Entry>, i: nat, scope: Scope, now: Now)
    requires |cur| == |files| && i < |files|
    requires forall j :: 0 <= j < i ==> cur[j] == ReconcileEntry(files[j], scope, now)
    requires forall j :: i <= j < |files| ==> cur[j] == files[j]
    ensures var next := cur[i := ReconcileEntry(files[i], scope, now)];
            && next[..i] == cur[..i]
            && (forall j :: 0 <= j < i + 1 ==> next[j] == ReconcileEntry(files[j], scope, now))
            && (forall j :: i + 1 <= j < |files| ==> next[j] == files[j])
  {
  }

  /** A finished pass is the reconciled directory. */
  lemma ReconcileDone(files: seq<Entry>, cur: seq<Entry>, scope: Scope, now: Now)
    requires |cur| == |files|
    requires forall j :: 0 <= j < |files| ==> cur[j] == ReconcileEntry(files[j], scope, now)
    ensures cur == ReconcileIn(files, scope, now) && cur[..|cur|] == cur
  {
  }

  /** A second pass writes nothing and changes nothing. */
  lemma ReconcileSettles(files: seq<Entry>, scope: Scope, now: Now)
    ensures var r := ReconcileIn(files, scope, now);
            && (forall i :: 0 <= i < |r| && InScope(r[i].appt, scope) ==> !NeedsWrite(r[i].appt, now))
            && ReconcileIn(r, scope, now) == r
  {
    var r := ReconcileIn(files, scope, now);
    forall i | 0 <= i < |r|
      ensures ReconcileEntry(r[i], scope, now) == r[i]
    {
    }
  }

  /** Cancellation is not absorbing: a cancelled record whose date is past comes back "Completed". */
  lemma CancellationNotAbsorbing(a: Appointment, now: Now)
    requires a.status == Cancelled
    requires ParseDate(a.date).Some? && Before(ParseDate(a.date).value, now.date)
    ensures Reconcile(a, now).status == Completed
  {
    ResolveStatusCases(a.date, a.time, now);
  }

  /** How the dashboards bucket a stored status. */
  datatype StatusClass = Finished | Dropped | Active

  function ClassOf(status: string): StatusClass {
    if status == Completed then Finished else if status == Cancelled then Dropped else Active
  }

  /** After reconciliation a record is still active exactly when it was active and `get_status` says "Ongoing". */
  lemma ReconciledClass(a: Appointment, now: Now)
    ensures var before, after := ClassOf(a.status), ClassOf(Reconcile(a, now).status);
            var ongoing := ResolveStatus(a.date, a.time, now) == Ongoing;
            && (after == Active <==> before == Active && ongoing)
            && (after == Dropped <==> before == Dropped && ongoing)
            && (after == Finished <==> before == Finished || !ongoing)
  {
  }

  /** Number of records in scope whose status falls in class `c`. */
  function Count(files: seq<Entry>, scope: Scope, c: StatusClass): nat {
    if files == [] then 0
    else
      var last := files[|files| - 1].appt;
      Count(files[..|files| - 1], scope, c) + (if InScope(last, scope) && ClassOf(last.status) == c then 1 else 0)
  }

  /** Number of records in scope. */
  function ScopeSize(files: seq<Entry>, scope: Scope): nat {
    if files == [] then 0
    else ScopeSize(files[..|files| - 1], scope) + (if InScope(files[|files| - 1].appt, scope) then 1 else 0)
  }

  /** The three counters of a dashboard partition the records in its scope. */
  lemma {:induction false} CountsPartition(files: seq<Entry>, scope: Scope)
    ensures Count(files, scope, Finished) + Count(files, scope, Dropped) + Count(files, scope, Active)
            == ScopeSize(files, scope)
  {
    if files != [] {
      CountsPartition(files[..|files| - 1], scope);
    }
  }

  /** The doctor dashboard's income: the integer fees of the doctor's "Completed" records. */
  function Income(files: seq<Entry>, doctor: string): int {
    if files == [] then 0
    else
      var last := files[|files| - 1].appt;
      Income(files[..|files| - 1], doctor) + (if last.doctor == doctor && last.status == Completed then FeeValue(last.fee) else 0)
  }

  /** The doctor dashboard's patients: the users of the doctor's records that are not cancelled. */
  function Patients(files: seq<Entry>, doctor: string): set<string> {
    if files == [] then {}
    else
      var last := files[|files| - 1].appt;
      Patients(files[..|files| - 1], doctor) + (if last.doctor == doctor && last.status != Cancelled then {last.user} else {})
  }

  /** What one more record adds to each dashboard total. */
  lemma TotalsStep(files: seq<Entry>, k: nat, scope: Scope, c: StatusClass, doctor: string)
    requires k < |files|
    ensures var a := files[k].appt;
            && Count(files[..k + 1], scope, c)
               == Count(files[..k], scope, c) + (if InScope(a, scope) && ClassOf(a.status) == c then 1 else 0)
            && Income(files[..k + 1], doctor)
               == Income(files[..k], doctor) + (if a.doctor == doctor && a.status == Completed then FeeValue(a.fee) else 0)
            && Patients(files[..k + 1], doctor)
               == Patients(files[..k], doctor) + (if a.doctor == doctor && a.status != Cancelled then {a.user} else {})
  {
    assert files[..k + 1][..k] == files[..k];
  }

  lemma {:induction false} PatientsMeans(files: seq<Entry>, doctor: string, u: string)
    ensures u in Patients(files, doctor) <==>
            exists i :: 0 <= i < |files| && files[i].appt.doctor == doctor && files[i].appt.status != Cancelled
                        && files[i].appt.user == u
  {
    if files != [] {
      var init := files[..|files| - 1];
      PatientsMeans(init, doctor, u);
      assert forall i :: 0 <= i < |init| ==> init[i] == files[i];
    }
  }

  /** Distinct patients never outnumber the doctor's finished and active records. */
  lemma {:induction false} PatientsBound(files: seq<Entry>, doctor: string)
    ensures |Patients(files, doctor)| <= Count(files, OfDoctor(doctor), Finished) + Count(files, OfDoctor(doctor), Active)
  {
    if files != [] {
      PatientsBound(files[..|files| - 1], doctor);
    }
  }

  /** A fee typed into the digits-only fee field never lowers the income, whatever its length. */
  lemma DigitFeeNonNegative(fee: string)
    requires AllDigits(fee)
    ensures FeeValue(fee) >= 0
  {
    if fee != [] && |fee| <= MaxIntDigits {
      DigitFeeValue(fee);
    } else if fee != [] {
      LongFeeValue(fee);
    } else {
      assert Strip(fee) == [];
    }
  }

  lemma ReconcilePrefix(files: seq<Entry>, scope: Scope, now: Now)
    requires files != []
    ensures ReconcileIn(files, scope, now)[..|files| - 1] == ReconcileIn(files[..|files| - 1], scope, now)
  {
  }

  /**
   * With no fee that `int()` reads as negative (the digits-only fee field
   * guarantees this, `DigitFeeNonNegative`), reconciliation can only raise
   * a doctor's income: it only ever turns records "Completed".
   */
  lemma {:induction false} ReconcileRaisesIncome(files: seq<Entry>, scope: Scope, now: Now, doctor: string)
    requires forall i :: 0 <= i < |files| ==> FeeValue(files[i].appt.fee) >= 0
    ensures Income(ReconcileIn(files, scope, now), doctor) >= Income(files, doctor)
  {
    if files != [] {
      var n := |files| - 1;
      var r := ReconcileIn(files, scope, now);
      ReconcilePrefix(files, scope, now);
      ReconcileRaisesIncome(files[..n], scope, now, doctor);
      assert r[n].appt.fee == files[n].appt.fee;
    }
  }

  /** `data["status"] = status` on the file with this identifier. */
  function SetStatus(files: seq<Entry>, id: nat, status: string): seq<Entry> {
    seq(|files|, i requires 0 <= i < |files| =>
      if files[i].id == id then files[i].(appt := files[i].appt.(status := status)) else files[i])
  }

  predicate HasId(files: seq<Entry>, id: nat) {
    exists i :: 0 <= i < |files| && files[i].id == id
  }

  /**
   * The cancel and complete handlers overwrite the stored status without
   * looking at it, and change nothing but that record's status: applied
   * twice, the last one wins. What keeps them off settled records is the
   * button guard, `ButtonGuardKeepsSettled`.
   */
  lemma StatusActionsOverwrite(files: seq<Entry>, id: nat, s1: string, s2: string)
    ensures SetStatus(SetStatus(files, id, s1), id, s2) == SetStatus(files, id, s2)
    ensures forall i :: 0 <= i < |files| && files[i].id == id ==> SetStatus(files, id, s1)[i].appt.status == s1
    ensures forall i :: 0 <= i < |files| ==>
              SetStatus(files, id, s1)[i].appt == files[i].appt.(status := SetStatus(files, id, s1)[i].appt.status)
  {
  }

  /**
   * The dashboards draw cancel and complete buttons only for the records
   * they list: those neither "Completed" nor "Cancelled" once reconciled.
   */
  predicate Listed(files: seq<Entry>, id: nat) {
    exists i :: 0 <= i < |files| && files[i].id == id && ClassOf(files[i].appt.status) == Active
  }

  /**
   * A button action follows a reconciliation and acts on a listed record,
   * so every record that is "Completed" or "Cancelled" after reconciling
   * keeps its status, and a stored "Completed" is never overwritten.
   */
  lemma ButtonGuardKeepsSettled(files: seq<Entry>, scope: Scope, now: Now, id: nat, status: string)
    requires DistinctIds(files)
    requires Listed(ReconcileIn(files, scope, now), id)
    ensures var r := ReconcileIn(files, scope, now);
            var after := SetStatus(r, id, status);
            && |after| == |files|
            && (forall i :: 0 <= i < |files| && ClassOf(r[i].appt.status) != Active ==> after[i] == r[i])
            && (forall i :: 0 <= i < |files| && files[i].appt.status == Completed ==> after[i].appt.status == Completed)
  {
    var r := ReconcileIn(files, scope, now);
    ReconcileKeepsIds(files, scope, now);
    var j :| 0 <= j < |r| && r[j].id == id && ClassOf(r[j].appt.status) == Active;
    forall i | 0 <= i < |files| && ClassOf(r[i].appt.status) != Active
      ensures SetStatus(r, id, status)[i] == r[i]
    {
      assert i != j;
      assert r[i].id != r[j].id;
    }
    forall i | 0 <= i < |files| && files[i].appt.status == Completed
      ensures r[i].appt.status == Completed
    {
      ReconcileOnlyCompletes(files, scope, now, i);
    }
  }

  /**
   * An appointment cancelled while it was listed does not stay cancelled:
   * once its date has passed, the next dashboard that reconciles it turns
   * it "Completed".
   */
  lemma CancelledPastAppointmentReturns(files: seq<Entry>, i: nat, scope: Scope, earlier: Now, now: Now)
    requires i < |files| && InScope(files[i].appt, scope)
    requires ClassOf(ReconcileIn(files, scope, earlier)[i].appt.status) == Active
    requires ParseDate(files[i].appt.date).Some? && Before(ParseDate(files[i].appt.date).value, now.date)
    ensures var cancelled := SetStatus(ReconcileIn(files, scope, earlier), files[i].id, Cancelled);
            && cancelled[i].appt.status == Cancelled
            && ReconcileIn(cancelled, scope, now)[i].appt.status == Completed
  {
    var r := ReconcileIn(files, scope, earlier);
    var c := SetStatus(r, files[i].id, Cancelled);
    assert r[i].id == files[i].id && r[i].appt.date == files[i].appt.date;
    assert c[i].appt.status == Cancelled && c[i].appt.date == files[i].appt.date;
    CancellationNotAbsorbing(c[i].appt, now);
  }

  /**
   * Reconciling one scope and then every record is reconciling every
   * record: the reloads after a booking leave the fully reconciled directory.
   */
  lemma ReconcileThenAll(files: seq<Entry>, scope: Scope, now: Now)
    ensures ReconcileIn(ReconcileIn(files, scope, now), Everyone, now) == ReconcileIn(files, Everyone, now)
  {
    var r := ReconcileIn(files, scope, now);
    forall i | 0 <= i < |files|
      ensures ReconcileEntry(r[i], Everyone, now) == ReconcileEntry(files[i], Everyone, now)
    {
      var a := files[i].appt;
      if NeedsWrite(a, now) {
        assert Reconcile(a, now).date == a.date && Reconcile(a, now).time == a.time;
      }
    }
  }
}
