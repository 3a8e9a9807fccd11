/**
 * The admin's operations on the doctor directory, and the account lookup
 * shared by sign-up: a folder per doctor, named by the doctor's e-mail,
 * holding `profile.json`.
 */
module Doctors {
  import opened Wrappers
  import opened Text
  import opened Validators
  import opened Records
  import opened Status
  import opened Calendar
  import opened Appointments

  /**
   * `email_exists`: some user or admin file name, lowered, is the address
   * followed by ".json", or some doctor profile's e-mail, lowered, is the
   * address. The lookup lowers what is stored, not the argument.
   */
  predicate EmailExists(users: map<string, Account>, admins: map<string, Account>,
                        doctors: map<string, DoctorProfile>, email: string) {
    (exists file :: file in users && Lower(file) == email + ".json")
    || (exists file :: file in admins && Lower(file) == email + ".json")
    || (exists folder :: folder in doctors && Lower(doctors[folder].email) == email)
  }

  /** A lowered string never equals one that holds an uppercase letter. */
  lemma LoweredDiffers(s: string, t: string, i: nat)
    requires i < |t| && IsUpper(t[i])
    ensures Lower(s) != t
  {
    if |s| == |t| {
      assert !IsUpper(Lower(s)[i]);
    }
  }

  /**
   * An account stored as `<e>.json` under any capitalisation, or a doctor
   * whose profile e-mail is `e` under any capitalisation, is found by the
   * lowered address; an address with an uppercase letter is never found.
   */
  lemma EmailExistsIgnoresStoredCase(users: map<string, Account>, admins: map<string, Account>,
                                     doctors: map<string, DoctorProfile>, e: string)
    ensures (exists file :: file in users && Lower(file) == Lower(e) + ".json") ==> EmailExists(users, admins, doctors, Lower(e))
    ensures forall folder :: folder in doctors && Lower(doctors[folder].email) == Lower(e) ==> EmailExists(users, admins, doctors, Lower(e))
    ensures (exists i :: 0 <= i < |e| && IsUpper(e[i])) ==> !EmailExists(users, admins, doctors, e)
  {
    if i :| 0 <= i < |e| && IsUpper(e[i]) {
      assert (e + ".json")[i] == e[i];
      forall file | file in users || file in admins
        ensures Lower(file) != e + ".json"
      {
        LoweredDiffers(file, e + ".json", i);
      }
      forall folder | folder in doctors
        ensures Lower(doctors[folder].email) != e
      {
        LoweredDiffers(doctors[folder].email, e, i);
      }
    }
  }

  /** The add-doctor form as typed, before `save_doctor` cleans it. */
  datatype DoctorForm = DoctorForm(
    name: string,
    email: string,
    password: string,
    experience: string,
    fee: string,
    specialty: string,
    address: string,
    about: string,
    image: string)

  const SpecialtyPlaceholder := "Select specialty"

  /** Every field stripped, the e-mail lowered, the specialty placeholder read as empty. */
  function CleanForm(raw: DoctorForm): (f: DoctorForm)
    ensures forall i :: 0 <= i < |f.email| ==> !IsUpper(f.email[i])
    ensures f.specialty != SpecialtyPlaceholder
    ensures f.image == raw.image
  {
    var specialty := Strip(raw.specialty);
    DoctorForm(Strip(raw.name), Lower(Strip(raw.email)), Strip(raw.password), Strip(raw.experience),
               Strip(raw.fee), if specialty == SpecialtyPlaceholder then "" else specialty,
               Strip(raw.address), Strip(raw.about), raw.image)
  }

  predicate AllFilled(f: DoctorForm) {
    f.name != "" && f.email != "" && f.password != "" && f.experience != "" && f.fee != ""
    && f.specialty != "" && f.address != "" && f.about != ""
  }

  datatype SaveError = MissingField | InvalidEmail | WeakPassword | Duplicate

  /** Some stored profile has exactly this full name or exactly this e-mail. */
  predicate NameOrEmailTaken(doctors: map<string, DoctorProfile>, name: string, email: string) {
    exists folder :: folder in doctors && (doctors[folder].fullName == name || doctors[folder].email == email)
  }

  /** The checks of `save_doctor`, in the order it makes them, on the cleaned form. */
  function SaveCheck(doctors: map<string, DoctorProfile>, f: DoctorForm): Option<SaveError> {
    if !AllFilled(f) then Some(MissingField)
    else if !IsValidEmail(f.email) then Some(InvalidEmail)
    else if !IsStrongPassword(f.password) then Some(WeakPassword)
    else if NameOrEmailTaken(doctors, f.name, f.email) then Some(Duplicate)
    else None
  }

  /** The profile `save_doctor` writes. */
  function NewProfile(f: DoctorForm, hash: string -> string): DoctorProfile {
    DoctorProfile(f.name, f.email, hash(f.password), f.experience, Some(f.fee), f.specialty,
                  f.address, f.about, Some("Available"), f.image)
  }

  /** The doctor directory after the checks and the write of `save_doctor`, given the cleaned form. */
  function SaveClean(doctors: map<string, DoctorProfile>, f: DoctorForm, hash: string -> string): map<string, DoctorProfile> {
    if SaveCheck(doctors, f).Some? then doctors else doctors[f.email := NewProfile(f, hash)]
  }

  /** The doctor directory after `save_doctor`. */
  function SaveDoctor(doctors: map<string, DoctorProfile>, raw: DoctorForm, hash: string -> string): map<string, DoctorProfile> {
    SaveClean(doctors, CleanForm(raw), hash)
  }

  /** Each folder is named by the e-mail its profile holds. */
  predicate FoldersByEmail(doctors: map<string, DoctorProfile>) {
    forall folder :: folder in doctors ==> doctors[folder].email == folder
  }

  /** No two folders hold the same full name. */
  predicate UniqueNames(doctors: map<string, DoctorProfile>) {
    forall a, b :: a in doctors && b in doctors && a != b ==> doctors[a].fullName != doctors[b].fullName
  }

  /**
   * A rejected form leaves the directory alone. An accepted one adds a
   * folder under the cleaned e-mail holding a new profile whose password
   * is hashed, whose fee is the form's and whose availability is
   * "Available"; every other folder is unchanged, and folder names and
   * full names stay unique.
   */
  lemma SaveEffects(doctors: map<string, DoctorProfile>, f: DoctorForm, hash: string -> string)
    requires FoldersByEmail(doctors) && UniqueNames(doctors)
    ensures var r := SaveClean(doctors, f, hash);
            && (SaveCheck(doctors, f).Some? ==> r == doctors)
            && (SaveCheck(doctors, f).None? ==>
                  && f.email !in doctors
                  && r.Keys == doctors.Keys + {f.email}
                  && r[f.email].availability == Some("Available")
                  && r[f.email].fee == Some(f.fee)
                  && r[f.email].passwordHash == hash(f.password)
                  && (forall folder :: folder in doctors ==> r[folder] == doctors[folder]))
    ensures FoldersByEmail(SaveClean(doctors, f, hash)) && UniqueNames(SaveClean(doctors, f, hash))
  {
    if SaveCheck(doctors, f).None? {
      var r := SaveClean(doctors, f, hash);
      assert !NameOrEmailTaken(doctors, f.name, f.email);
      forall folder | folder in doctors
        ensures folder != f.email
      {
        assert doctors[folder].email != f.email;
      }
      forall a, b | a in r && b in r && a != b
        ensures r[a].fullName != r[b].fullName
      {
        if a == f.email {
          assert doctors[b].fullName != f.name;
        } else if b == f.email {
          assert doctors[a].fullName != f.name;
        }
      }
    }
  }

  /** A form whose cleaned name or e-mail is already on file is never saved. */
  lemma SaveRejectsDuplicates(doctors: map<string, DoctorProfile>, f: DoctorForm, hash: string -> string, folder: string)
    requires folder in doctors
    requires doctors[folder].fullName == f.name || doctors[folder].email == f.email
    ensures SaveClean(doctors, f, hash) == doctors
  {
    assert NameOrEmailTaken(doctors, f.name, f.email);
  }

  /** `update_doctor_status`: every selected folder that exists gets the new availability. */
  function SetAvailability(doctors: map<string, DoctorProfile>, selected: seq<string>, status: string): map<string, DoctorProfile> {
    map folder | folder in doctors :: if folder in selected then doctors[folder].(availability := Some(status)) else doctors[folder]
  }

  /**
   * Selected doctors get exactly the new availability and nothing else;
   * the others and the set of folders are untouched; the last bulk update
   * wins.
   */
  lemma SetAvailabilityEffects(doctors: map<string, DoctorProfile>, selected: seq<string>, s1: string, s2: string)
    ensures var r := SetAvailability(doctors, selected, s1);
            && r.Keys == doctors.Keys
            && (forall folder :: folder in doctors && folder in selected ==> r[folder] == doctors[folder].(availability := Some(s1)))
            && (forall folder :: folder in doctors && folder !in selected ==> r[folder] == doctors[folder])
    ensures SetAvailability(SetAvailability(doctors, selected, s1), selected, s2) == SetAvailability(doctors, selected, s2)
  {
  }

  /** One more folder of the selection: what the loop of `update_doctor_status` does with it. */
  lemma AvailabilityStep(doctors: map<string, DoctorProfile>, done: seq<string>, folder: string, status: string)
    ensures var cur := SetAvailability(doctors, done, status);
            SetAvailability(doctors, done + [folder], status)
            == if folder in cur then cur[folder := cur[folder].(availability := Some(status))] else cur
  {
    var cur := SetAvailability(doctors, done, status);
    var next := SetAvailability(doctors, done + [folder], status);
    if folder in cur {
      var upd := cur[folder := cur[folder].(availability := Some(status))];
      assert next.Keys == upd.Keys;
      forall k | k in next
        ensures next[k] == upd[k]
      {
      }
    } else {
      assert next.Keys == cur.Keys;
    }
  }

  lemma AvailabilityKeepsInvariants(doctors: map<string, DoctorProfile>, selected: seq<string>, status: string)
    requires FoldersByEmail(doctors) && UniqueNames(doctors)
    ensures FoldersByEmail(SetAvailability(doctors, selected, status)) && UniqueNames(SetAvailability(doctors, selected, status))
  {
  }

  /** Some appointment names the doctor with the stored status exactly "Ongoing". */
  predicate HasOngoing(files: seq<Entry>, name: string) {
    exists i :: 0 <= i < |files| && files[i].appt.doctor == name && files[i].appt.status == Ongoing
  }

  /** A selected folder whose doctor cannot be removed. */
  predicate Blocked(doctors: map<string, DoctorProfile>, files: seq<Entry>, folder: string) {
    folder in doctors && doctors[folder].fullName != "" && HasOngoing(files, doctors[folder].fullName)
  }

  /** A selected folder that `remove_selected_doctor` deletes: a named doctor, not blocked, and confirmed. */
  predicate Deletes(doctors: map<string, DoctorProfile>, files: seq<Entry>, folder: string, confirmed: set<string>) {
    folder in doctors && doctors[folder].fullName != "" && !HasOngoing(files, doctors[folder].fullName)
    && folder in confirmed
  }

  /** The doctor directory after `remove_selected_doctor`. */
  function Removed(doctors: map<string, DoctorProfile>, files: seq<Entry>, selected: seq<string>,
                   confirmed: set<string>): map<string, DoctorProfile> {
    map folder | folder in doctors && !(folder in selected && Deletes(doctors, files, folder, confirmed)) :: doctors[folder]
  }

  /** The names `remove_selected_doctor` reports as blocked. */
  function BlockedNames(doctors: map<string, DoctorProfile>, files: seq<Entry>, selected: seq<string>): set<string> {
    set folder | folder in doctors && folder in selected && Blocked(doctors, files, folder) :: doctors[folder].fullName
  }

  /**
   * A blocked doctor is never deleted, and is reported; a folder outside
   * the selection is never deleted; whatever survives keeps its profile.
   */
  lemma BlockedNeverDeleted(doctors: map<string, DoctorProfile>, files: seq<Entry>, selected: seq<string>,
                            confirmed: set<string>, folder: string)
    requires folder in doctors && (folder !in selected || Blocked(doctors, files, folder))
    ensures var r := Removed(doctors, files, selected, confirmed);
            folder in r && r[folder] == doctors[folder]
    ensures folder in selected ==> doctors[folder].fullName in BlockedNames(doctors, files, selected)
  {
  }

  /** One more folder of the selection: what the loop of `remove_selected_doctor` does with it. */
  lemma RemovalStep(doctors: map<string, DoctorProfile>, files: seq<Entry>, done: seq<string>, folder: string,
                    confirmed: set<string>)
    ensures var cur := Removed(doctors, files, done, confirmed);
            var named := folder in cur && cur[folder].fullName != "";
            && (folder in cur ==> folder in doctors && cur[folder] == doctors[folder])
            && Removed(doctors, files, done + [folder], confirmed)
               == (if named && !HasOngoing(files, cur[folder].fullName) && folder in confirmed then cur - {folder} else cur)
            && BlockedNames(doctors, files, done + [folder])
               == BlockedNames(doctors, files, done)
                  + (if named && HasOngoing(files, cur[folder].fullName) then {cur[folder].fullName} else {})
  {
    var cur := Removed(doctors, files, done, confirmed);
    if folder in doctors && Blocked(doctors, files, folder) {
      assert folder in cur;
    }
  }

  lemma RemovalKeepsInvariants(doctors: map<string, DoctorProfile>, files: seq<Entry>, selected: seq<string>,
                               confirmed: set<string>)
    requires FoldersByEmail(doctors) && UniqueNames(doctors)
    ensures FoldersByEmail(Removed(doctors, files, selected, confirmed))
    ensures UniqueNames(Removed(doctors, files, selected, confirmed))
  {
  }

  /**
   * Each doctor's outcome depends on that doctor alone: removing two
   * selections one after the other is removing both at once.
   */
  lemma RemovalComposes(doctors: map<string, DoctorProfile>, files: seq<Entry>, s1: seq<string>, s2: seq<string>,
                        confirmed: set<string>)
    ensures Removed(Removed(doctors, files, s1, confirmed), files, s2, confirmed)
            == Removed(doctors, files, s1 + s2, confirmed)
  {
    var mid := Removed(doctors, files, s1, confirmed);
    var lhs := Removed(mid, files, s2, confirmed);
    var rhs := Removed(doctors, files, s1 + s2, confirmed);
    forall folder
      ensures folder in lhs <==> folder in rhs
    {
      if folder in doctors && folder in mid {
        assert Deletes(mid, files, folder, confirmed) == Deletes(doctors, files, folder, confirmed);
      }
    }
  }

  /**
   * Removal looks at the stored status, not the resolved one: a doctor
   * blocked only by "Ongoing" records whose dates are past is unblocked by
   * any dashboard's reconciliation over all records, though `get_status`
   * gave "Completed" for them before and after.
   */
  lemma RemovalChecksStoredStatus(doctors: map<string, DoctorProfile>, files: seq<Entry>, folder: string, now: Now)
    requires Blocked(doctors, files, folder)
    requires forall i :: 0 <= i < |files| && files[i].appt.doctor == doctors[folder].fullName && files[i].appt.status == Ongoing
               ==> ParseDate(files[i].appt.date).Some? && Before(ParseDate(files[i].appt.date).value, now.date)
    ensures !Blocked(doctors, ReconcileIn(files, Everyone, now), folder)
  {
    var r := ReconcileIn(files, Everyone, now);
    forall i | 0 <= i < |r| && r[i].appt.doctor == doctors[folder].fullName
      ensures r[i].appt.status != Ongoing
    {
      ReconcileOnlyCompletes(files, Everyone, now, i);
      if files[i].appt.status == Ongoing {
        ResolveStatusCases(files[i].appt.date, files[i].appt.time, now);
      }
    }
  }
}
