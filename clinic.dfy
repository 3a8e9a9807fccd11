/**
 * The application's on-disk state as one store object, and the
 * operations of the dashboards that read and rewrite it: each loop of
 * the application is a loop here, proved against the specification
 * functions of `Appointments` and `Doctors`.
 */
module Clinic {
  import opened Wrappers
  import opened Text
  import opened Calendar
  import opened Slots
  import opened Status
  import opened Records
  import opened Appointments
  import opened Doctors

  /** One button of the time grid: its label and whether it can be pressed. */
  datatype TimeButton = TimeButton(text: string, enabled: bool)

  /** `on_date_change` refuses a picked date that sorts before today's ISO date string. */
  predicate DateSelectable(selected: string, now: Now)
    requires ValidNow(now)
  {
    !LexLess(selected, FormatDate(now.date))
  }

  /** For a date the calendar formats, the string test is the calendar test: no past day is offered. */
  lemma DateSelectableMeans(d: Date, now: Now)
    requires ValidDate(d) && ValidNow(now)
    ensures DateSelectable(FormatDate(d), now) <==> !Before(d, now.date)
  {
    IsoOrderIsChronological(d, now.date);
  }

  class ClinicStore {
    /** The appointment directory, in listing order. */
    var appointments: seq<Entry>
    /** Doctor folders and their profiles. */
    var doctors: map<string, DoctorProfile>
    /** User account files, by file name. */
    var users: map<string, Account>
    /** Admin account files, by file name. */
    var admins: map<string, Account>

    ghost predicate Valid()
      reads this
    {
      DistinctIds(appointments) && FoldersByEmail(doctors) && UniqueNames(doctors)
    }

    constructor ()
      ensures appointments == [] && doctors == map[] && users == map[] && admins == map[]
      ensures Valid()
    {
      appointments := [];
      doctors := map[];
      users := map[];
      admins := map[];
    }

    /** `get_booked_times`. */
    method GetBookedTimes(doctor: string, date: string) returns (booked: seq<string>)
      ensures booked == BookedTimes(appointments, doctor, date)
    {
      booked := [];
      var i := 0;
      while i < |appointments|
        invariant 0 <= i <= |appointments|
        invariant booked == BookedTimes(appointments[..i], doctor, date)
      {
        var a := appointments[i].appt;
        if a.doctor == doctor && a.date == date && a.status != Cancelled {
          booked := booked + a.time;
        }
        assert appointments[..i + 1][..i] == appointments[..i];
        i := i + 1;
      }
      assert appointments[..i] == appointments;
    }

    /**
     * `refresh_time_buttons`: fifteen buttons, 8 AM to 10 PM; a button is
     * enabled exactly when its label is not booked for this doctor and
     * date and, on today's date, its hour has not begun.
     */
    method RefreshTimeButtons(doctor: string, date: string, now: Now) returns (buttons: seq<TimeButton>)
      requires ValidNow(now)
      ensures |buttons| == SlotCount
      ensures forall i :: 0 <= i < |buttons| ==> buttons[i].text == SlotGrid()[i]
      ensures forall i :: 0 <= i < |buttons| ==>
                (buttons[i].enabled <==>
                   && buttons[i].text !in BookedTimes(appointments, doctor, date)
                   && !(date == FormatDate(now.date) && SlotPassed(FirstHour + i, now)))
    {
      var booked := GetBookedTimes(doctor, date);
      var isToday := date == FormatDate(now.date);
      buttons := [];
      var hour := FirstHour;
      while hour <= LastHour
        invariant FirstHour <= hour <= LastHour + 1
        invariant |buttons| == hour - FirstHour
        invariant forall i :: 0 <= i < |buttons| ==>
                    buttons[i] == TimeButton(SlotLabel(FirstHour + i),
                                             !SlotDisabled(SlotLabel(FirstHour + i), FirstHour + i, booked, isToday, now))
      {
        var text := SlotLabel(hour);
        var disabled := false;
        if text in booked {
          disabled := true;
        } else if isToday {
          if hour < now.hour || (hour == now.hour && 0 < now.minute) {
            disabled := true;
          }
        }
        buttons := buttons + [TimeButton(text, !disabled)];
        hour := hour + 1;
      }
    }

    /** The identifier scan of `book_appointment`: one more than the largest identifier on file. */
    method NextAppointmentId() returns (id: nat)
      ensures id == NextId(appointments)
      ensures forall i :: 0 <= i < |appointments| ==> appointments[i].id < id
    {
      var largest := 0;
      var i := 0;
      while i < |appointments|
        invariant 0 <= i <= |appointments|
        invariant largest == MaxId(appointments[..i])
      {
        assert appointments[..i + 1][..i] == appointments[..i];
        if largest < appointments[i].id {
          largest := appointments[i].id;
        }
        i := i + 1;
      }
      assert appointments[..i] == appointments;
      id := largest + 1;
    }

    /** `book_appointment`: no write without a selected slot, else a new "Ongoing" record under a fresh identifier. */
    method BookAppointment(profile: DoctorProfile, user: string, date: string, times: seq<string>)
      returns (outcome: BookingOutcome)
      requires Valid()
      modifies this
      ensures appointments == Book(old(appointments), profile, user, date, times)
      ensures outcome == if times == [] then NoTimeSelected else Booked(NextId(old(appointments)))
      ensures doctors == old(doctors) && users == old(users) && admins == old(admins)
      ensures Valid()
    {
      BookingEffects(appointments, profile, user, date, times);
      if times == [] {
        return NoTimeSelected;
      }
      var id := NextAppointmentId();
      var fee := profile.fee.GetOr("Not Available");
      appointments := appointments + [Entry(id, Appointment(profile.fullName, user, date, times, fee, Ongoing))];
      outcome := Booked(id);
    }

    /**
     * A click on the booking button as a whole: the write of
     * `book_appointment`, then the reloads of the user's and the admin's
     * dashboards, which reconcile the user's records and then every record.
     */
    method BookAndRefresh(profile: DoctorProfile, user: string, date: string, times: seq<string>, now: Now)
      returns (outcome: BookingOutcome)
      requires Valid()
      modifies this
      ensures appointments == if times == [] then old(appointments)
                              else ReconcileIn(Book(old(appointments), profile, user, date, times), Everyone, now)
      ensures outcome == if times == [] then NoTimeSelected else Booked(NextId(old(appointments)))
      ensures doctors == old(doctors) && users == old(users) && admins == old(admins)
      ensures Valid()
    {
      outcome := BookAppointment(profile, user, date, times);
      if times == [] {
        return;
      }
      ghost var booked := appointments;
      var _, _, _ := LoadUserBookings(user, now);
      var _, _, _ := LoadAdminBookings(now);
      ReconcileThenAll(booked, OfUser(user), now);
    }

    /** The rewrite each dashboard makes to one record: "Completed" when `get_status` says so and the file says otherwise. */
    method ReconcileAt(i: nat, now: Now)
      requires i < |appointments|
      modifies this
      ensures appointments == old(appointments)[i := old(appointments)[i].(appt := Reconcile(old(appointments)[i].appt, now))]
      ensures doctors == old(doctors) && users == old(users) && admins == old(admins)
    {
      var a := appointments[i].appt;
      var status := GetStatus(a.date, a.time, now);
      if status == Completed && a.status != Completed {
        appointments := appointments[i := appointments[i].(appt := a.(status := Completed))];
      }
    }

    /** One step of a dashboard's pass: reconcile record `i` when it is in scope, and read it back. */
    method ReconcileInScope(i: nat, scope: Scope, now: Now) returns (a: Appointment)
      requires i < |appointments|
      modifies this
      ensures appointments == old(appointments)[i := ReconcileEntry(old(appointments)[i], scope, now)]
      ensures a == appointments[i].appt
      ensures doctors == old(doctors) && users == old(users) && admins == old(admins)
    {
      if InScope(appointments[i].appt, scope) {
        ReconcileAt(i, now);
      }
      a := appointments[i].appt;
    }

    /** `load_user_bookings`: reconcile the user's records, then count them by stored status. */
    method LoadUserBookings(user: string, now: Now) returns (completed: nat, cancelled: nat, ongoing: nat)
      requires Valid()
      modifies this
      ensures appointments == ReconcileIn(old(appointments), OfUser(user), now)
      ensures completed == Count(appointments, OfUser(user), Finished)
      ensures cancelled == Count(appointments, OfUser(user), Dropped)
      ensures ongoing == Count(appointments, OfUser(user), Active)
      ensures doctors == old(doctors) && users == old(users) && admins == old(admins)
      ensures Valid()
    {
      ghost var files := appointments;
      var scope := OfUser(user);
      completed, cancelled, ongoing := 0, 0, 0;
      var i := 0;
      while i < |appointments|
        invariant |appointments| == |files| && 0 <= i <= |files|
        invariant forall j :: 0 <= j < i ==> appointments[j] == ReconcileEntry(files[j], scope, now)
        invariant forall j :: i <= j < |files| ==> appointments[j] == files[j]
        invariant completed == Count(appointments[..i], scope, Finished)
        invariant cancelled == Count(appointments[..i], scope, Dropped)
        invariant ongoing == Count(appointments[..i], scope, Active)
        invariant doctors == old(doctors) && users == old(users) && admins == old(admins)
      {
        ghost var cur := appointments;
        ReconcileStep(files, cur, i, scope, now);
        var a := ReconcileInScope(i, scope, now);
        if a.user == user {
          if a.status == Completed {
            completed := completed + 1;
          } else if a.status == Cancelled {
            cancelled := cancelled + 1;
          } else {
            ongoing := ongoing + 1;
          }
        }
        assert appointments == cur[i := ReconcileEntry(files[i], scope, now)];
        TotalsStep(appointments, i, scope, Finished, "");
        TotalsStep(appointments, i, scope, Dropped, "");
        TotalsStep(appointments, i, scope, Active, "");
        i := i + 1;
      }
      ReconcileDone(files, appointments, scope, now);
      ReconcileKeepsIds(files, scope, now);
    }

    /**
     * `load_admin_bookings`: the number of doctor folders and of user
     * files, and, after reconciling every record, the number still active.
     */
    method LoadAdminBookings(now: Now) returns (doctorCount: nat, patientCount: nat, ongoing: nat)
      requires Valid()
      modifies this
      ensures doctorCount == |doctors| && patientCount == |users|
      ensures appointments == ReconcileIn(old(appointments), Everyone, now)
      ensures ongoing == Count(appointments, Everyone, Active)
      ensures doctors == old(doctors) && users == old(users) && admins == old(admins)
      ensures Valid()
    {
      doctorCount := |doctors|;
      patientCount := |users|;
      ghost var files := appointments;
      ongoing := 0;
      var i := 0;
      while i < |appointments|
        invariant |appointments| == |files| && 0 <= i <= |files|
        invariant forall j :: 0 <= j < i ==> appointments[j] == ReconcileEntry(files[j], Everyone, now)
        invariant forall j :: i <= j < |files| ==> appointments[j] == files[j]
        invariant ongoing == Count(appointments[..i], Everyone, Active)
        invariant doctors == old(doctors) && users == old(users) && admins == old(admins)
        invariant doctorCount == |doctors| && patientCount == |users|
      {
        ghost var cur := appointments;
        ReconcileStep(files, cur, i, Everyone, now);
        var a := ReconcileInScope(i, Everyone, now);
        if a.status != Cancelled && a.status != Completed {
          ongoing := ongoing + 1;
        }
        assert appointments == cur[i := ReconcileEntry(files[i], Everyone, now)];
        TotalsStep(appointments, i, Everyone, Active, "");
        i := i + 1;
      }
      ReconcileDone(files, appointments, Everyone, now);
      ReconcileKeepsIds(files, Everyone, now);
    }

    /** What one reconciled record adds to the doctor dashboard's income, patients and active count. */
    static method TallyDoctorRecord(a: Appointment, name: string, income: int, patients: set<string>, active: nat)
      returns (income': int, patients': set<string>, active': nat)
      ensures income' == income + (if a.doctor == name && a.status == Completed then FeeValue(a.fee) else 0)
      ensures patients' == patients + (if a.doctor == name && a.status != Cancelled then {a.user} else {})
      ensures active' == active + (if InScope(a, OfDoctor(name)) && ClassOf(a.status) == Active then 1 else 0)
    {
      income', patients', active' := income, patients, active;
      if a.doctor == name {
        if a.status == Completed {
          income' := income + FeeValue(a.fee);
          patients' := patients + {a.user};
        } else if a.status != Cancelled {
          active' := active + 1;
          patients' := patients + {a.user};
        }
      }
    }

    /**
     * `load_doctor_dashboard`: reconcile the doctor's records, then sum
     * the integer fees of the "Completed" ones, collect the users of those
     * not cancelled, and count those still active.
     */
    method LoadDoctorDashboard(name: string, now: Now) returns (income: int, patientCount: nat, active: nat)
      requires Valid()
      modifies this
      ensures appointments == ReconcileIn(old(appointments), OfDoctor(name), now)
      ensures income == Income(appointments, name)
      ensures patientCount == |Patients(appointments, name)|
      ensures active == Count(appointments, OfDoctor(name), Active)
      ensures doctors == old(doctors) && users == old(users) && admins == old(admins)
      ensures Valid()
    {
      ghost var files := appointments;
      var scope := OfDoctor(name);
      income, active := 0, 0;
      var patients: set<string> := {};
      var i := 0;
      while i < |appointments|
        invariant |appointments| == |files| && 0 <= i <= |files|
        invariant forall j :: 0 <= j < i ==> appointments[j] == ReconcileEntry(files[j], scope, now)
        invariant forall j :: i <= j < |files| ==> appointments[j] == files[j]
        invariant income == Income(appointments[..i], name)
        invariant patients == Patients(appointments[..i], name)
        invariant active == Count(appointments[..i], scope, Active)
        invariant doctors == old(doctors) && users == old(users) && admins == old(admins)
      {
        ghost var cur := appointments;
        ReconcileStep(files, cur, i, scope, now);
        var a := ReconcileInScope(i, scope, now);
        income, patients, active := TallyDoctorRecord(a, name, income, patients, active);
        assert appointments == cur[i := ReconcileEntry(files[i], scope, now)];
        TotalsStep(appointments, i, scope, Active, name);
        i := i + 1;
      }
      ReconcileDone(files, appointments, scope, now);
      ReconcileKeepsIds(files, scope, now);
      patientCount := |patients|;
    }

    /**
     * The handlers of the cancel and complete buttons: write the new status
     * into the record with this identifier. The handlers do not look at the
     * stored status; the dashboards draw these buttons only for listed
     * records (`ButtonGuardKeepsSettled`).
     */
    method WriteStatus(id: nat, status: string) returns (found: bool)
      requires Valid()
      modifies this
      ensures found == HasId(old(appointments), id)
      ensures appointments == SetStatus(old(appointments), id, status)
      ensures doctors == old(doctors) && users == old(users) && admins == old(admins)
      ensures Valid()
    {
      found := exists i :: 0 <= i < |appointments| && appointments[i].id == id;
      appointments := SetStatus(appointments, id, status);
    }

    /** The duplicate scan of `save_doctor` over every doctor folder. */
    method NameOrEmailOnFile(name: string, email: string) returns (taken: bool)
      ensures taken == NameOrEmailTaken(doctors, name, email)
    {
      var unseen := doctors.Keys;
      while unseen != {}
        invariant unseen <= doctors.Keys
        invariant forall folder :: folder in doctors && folder !in unseen ==>
                    doctors[folder].fullName != name && doctors[folder].email != email
        decreases |unseen|
      {
        var folder :| folder in unseen;
        if doctors[folder].fullName == name || doctors[folder].email == email {
          return true;
        }
        unseen := unseen - {folder};
      }
      taken := false;
    }

    /** The checks of `save_doctor` on the cleaned form, in order, the last one scanning every folder. */
    method CheckDoctorForm(f: DoctorForm) returns (error: Option<SaveError>)
      ensures error == SaveCheck(doctors, f)
    {
      if !AllFilled(f) {
        return Some(MissingField);
      }
      if !Validators.IsValidEmail(f.email) {
        return Some(InvalidEmail);
      }
      if !Validators.IsStrongPassword(f.password) {
        return Some(WeakPassword);
      }
      var taken := NameOrEmailOnFile(f.name, f.email);
      error := if taken then Some(Duplicate) else None;
    }

    /** The checks and the write of `save_doctor`, on the cleaned form. */
    method SaveCleanForm(f: DoctorForm, hash: string -> string) returns (error: Option<SaveError>)
      requires Valid()
      modifies this
      ensures error == SaveCheck(old(doctors), f)
      ensures doctors == SaveClean(old(doctors), f, hash)
      ensures appointments == old(appointments) && users == old(users) && admins == old(admins)
      ensures Valid()
    {
      error := CheckDoctorForm(f);
      SaveEffects(doctors, f, hash);
      if error.None? {
        doctors := doctors[f.email := NewProfile(f, hash)];
      }
    }

    /** `save_doctor`: clean the form, check it, and on success write the new profile under the e-mail. */
    method SaveDoctorForm(raw: DoctorForm, hash: string -> string) returns (error: Option<SaveError>)
      requires Valid()
      modifies this
      ensures error == SaveCheck(old(doctors), CleanForm(raw))
      ensures doctors == SaveDoctor(old(doctors), raw, hash)
      ensures appointments == old(appointments) && users == old(users) && admins == old(admins)
      ensures Valid()
    {
      error := SaveCleanForm(CleanForm(raw), hash);
    }

    /** `update_doctor_status`: warn on an empty selection, else set the availability of each selected folder. */
    method UpdateDoctorStatus(selected: seq<string>, status: string) returns (ok: bool)
      requires Valid()
      modifies this
      ensures ok == (selected != [])
      ensures doctors == SetAvailability(old(doctors), selected, status)
      ensures appointments == old(appointments) && users == old(users) && admins == old(admins)
      ensures Valid()
    {
      if selected == [] {
        assert doctors == SetAvailability(doctors, selected, status);
        return false;
      }
      ghost var start := doctors;
      var i := 0;
      while i < |selected|
        invariant 0 <= i <= |selected|
        invariant doctors == SetAvailability(start, selected[..i], status)
        invariant appointments == old(appointments) && users == old(users) && admins == old(admins)
      {
        var folder := selected[i];
        assert selected[..i + 1] == selected[..i] + [folder];
        AvailabilityStep(start, selected[..i], folder, status);
        if folder in doctors {
          doctors := doctors[folder := doctors[folder].(availability := Some(status))];
        }
        i := i + 1;
      }
      assert selected[..i] == selected;
      AvailabilityKeepsInvariants(start, selected, status);
      ok := true;
    }

    /** The appointment scan of `remove_selected_doctor`. */
    method HasOngoingRecord(name: string) returns (found: bool)
      ensures found == HasOngoing(appointments, name)
    {
      found := false;
      var i := 0;
      while i < |appointments|
        invariant 0 <= i <= |appointments|
        invariant !found ==> forall j :: 0 <= j < i ==> !(appointments[j].appt.doctor == name && appointments[j].appt.status == Ongoing)
        invariant found ==> HasOngoing(appointments, name)
      {
        if appointments[i].appt.doctor == name && appointments[i].appt.status == Ongoing {
          found := true;
          break;
        }
        i := i + 1;
      }
    }

    /** One selected folder of `remove_selected_doctor`: report its doctor as blocked, or delete it. */
    method RemoveOne(folder: string, confirmed: set<string>, blocked: seq<string>) returns (blocked': seq<string>)
      modifies this
      ensures var named := folder in old(doctors) && old(doctors)[folder].fullName != "";
              var busy := named && HasOngoing(appointments, old(doctors)[folder].fullName);
              && doctors == (if named && !busy && folder in confirmed then old(doctors) - {folder} else old(doctors))
              && blocked' == (if busy && old(doctors)[folder].fullName !in blocked
                              then blocked + [old(doctors)[folder].fullName] else blocked)
      ensures appointments == old(appointments) && users == old(users) && admins == old(admins)
    {
      blocked' := blocked;
      if folder in doctors && doctors[folder].fullName != "" {
        var name := doctors[folder].fullName;
        var busy := HasOngoingRecord(name);
        if busy {
          if name !in blocked {
            blocked' := blocked + [name];
          }
        } else if folder in confirmed {
          doctors := doctors - {folder};
        }
      }
    }

    /**
     * `remove_selected_doctor`: each selected folder with a named profile
     * is either blocked (its doctor has a stored "Ongoing" record; the name
     * is reported once) or deleted when the admin confirms.
     */
    method RemoveSelectedDoctors(selected: seq<string>, confirmed: set<string>) returns (ok: bool, blocked: seq<string>)
      requires Valid()
      modifies this
      ensures ok == (selected != [])
      ensures doctors == Removed(old(doctors), appointments, selected, confirmed)
      ensures NoDuplicates(blocked)
      ensures forall n :: n in blocked <==> n in BlockedNames(old(doctors), appointments, selected)
      ensures appointments == old(appointments) && users == old(users) && admins == old(admins)
      ensures Valid()
    {
      blocked := [];
      ghost var start := doctors;
      if selected == [] {
        assert doctors == Removed(start, appointments, selected, confirmed);
        return false, [];
      }
      var i := 0;
      while i < |selected|
        invariant 0 <= i <= |selected|
        invariant doctors == Removed(start, appointments, selected[..i], confirmed)
        invariant NoDuplicates(blocked)
        invariant forall n :: n in blocked <==> n in BlockedNames(start, appointments, selected[..i])
        invariant appointments == old(appointments) && users == old(users) && admins == old(admins)
      {
        var folder := selected[i];
        assert selected[..i + 1] == selected[..i] + [folder];
        RemovalStep(start, appointments, selected[..i], folder, confirmed);
        blocked := RemoveOne(folder, confirmed, blocked);
        i := i + 1;
      }
      assert selected[..i] == selected;
      RemovalKeepsInvariants(start, appointments, selected, confirmed);
      ok := true;
    }
  }
}
