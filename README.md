# Clinic appointment engine — a verified Dafny model

The clinic application lets patients book hourly slots with doctors. Doctors
see their caseload and income. Admins manage doctors and appointments. Under
its desktop screens sits a small engine:

- a time grid of fifteen hourly slots, 8 AM to 10 PM, with the booked and
  already-started slots disabled;
- `get_status`, which decides from an appointment's date, its slot labels and
  the current time whether it is "Completed" or "Ongoing";
- `book_appointment`, which numbers each new appointment file one more
  than the largest number in use (gaps are not reused);
- three dashboards that first rewrite stored statuses to "Completed" when
  `get_status` says so, then count, sum fees and collect patients;
- the cancel and complete buttons;
- the admin's doctor operations: add, set availability, and remove a
  doctor unless they have an "Ongoing" appointment;
- the input validators and the account e-mail lookup.

This project models that engine in Dafny and proves what it does.

Modules, in dependency order:

- `Wrappers`: `Option`.
- `Text`: ASCII digits, letters and white space. Python's `str.lower`, `str.strip` and string `<`.
- `Calendar`: dates, `strptime(…, "%Y-%m-%d")` field by field, and `strftime('%Y-%m-%d')`.
- `Slots`: the slot labels, `strptime(…, "%I:%M %p")`, and the disable rule of the time grid.
- `Status`: `get_status` as a function, and its loop as a method.
- `Validators`: password, e-mail, contact and number checks, and `check_password`.
- `Records`: the JSON records, and Python's `int()` as applied to a fee, with CPython's limit of 4300 digits.
- `Appointments`: the appointment directory as a sequence of numbered records, and the specification functions for booked slots, identifiers, booking, reconciliation and the counters.
- `Doctors`: the doctor directory as a map from folder name to profile. It also holds the e-mail lookup, the add-doctor checks, bulk availability and the removal rule.
- `Clinic`: the class `ClinicStore`. Its fields are the four directories. Its methods are the application's loops, each proved equal to the specification functions above.

The current time is a parameter `Now(date, hour, minute)`. Seconds play no
part: slot labels always have second 0, so a slot is after "now" exactly
when its minute of the day is.

## Model

| member | source | states |
|---|---|---|
| Calendar.ParseDate | Python/UserDashboard.py:761 | `strptime` with `%Y-%m-%d` yields only real dates (year 1–9999, day within the month), else raises |
| Calendar.ParseFormatDate | Python/UserDashboard.py:570 | reading back today's `strftime('%Y-%m-%d')` string gives the same date |
| Calendar.FormatDateInjective | Python/UserDashboard.py:570 | two dates print alike only when they are equal, so the "is today" string test is a date test |
| Calendar.IsoOrderIsChronological | Python/UserDashboard.py:589-590 | for 4-digit years, string `<` on ISO dates holds exactly when the first date is earlier |
| Slots.SlotGrid | Python/UserDashboard.py:574-575 | the grid has fifteen labels, one per hour from 8 to 22 |
| Slots.SlotLabelRoundTrip | Python/UserDashboard.py:771 | parsing any hour's label (built at line 575) with `%I:%M %p` gives back that hour and minute 0 |
| Slots.SlotLabelInjective | Python/UserDashboard.py:575 | distinct hours of the day have distinct labels |
| Slots.SlotGridWellFormed | Python/UserDashboard.py:574-575 | the fifteen grid labels are pairwise distinct and each parses back as its own hour |
| Slots.SlotPassedIsStarted | Python/UserDashboard.py:580-581 | the time test of the grid holds exactly when the slot's start is strictly before now |
| Slots.ParseTime12 | Python/UserDashboard.py:771 | a parsed label always yields an hour below 24 and a minute below 60 |
| Status.ResolveStatus | Python/UserDashboard.py:759-784 | the status is always "Completed" or "Ongoing" |
| Status.AllSlotsOverMeans | Python/UserDashboard.py:766-775 | the early-exit slot scan holds exactly when every slot parses and has started |
| Status.ResolveStatusCases | Python/UserDashboard.py:759-784 | past date gives "Completed" and future date "Ongoing". Today gives "Completed" iff every slot parses and has started, so an empty list gives "Completed". An unparseable date gives "Ongoing". An unparseable slot can be "Completed" only on a past date |
| Status.OfferedTodaySlotResolves | Python/UserDashboard.py:578-582 | a slot the grid offers today, booked alone, resolves "Ongoing" except at the exact top of its own hour |
| Status.PickedDateNotPast | Python/UserDashboard.py:587-594 | a date the picker accepts is never past, so it resolves "Completed" only on the day itself |
| Status.GetStatus | Python/UserDashboard.py:759-784 | the loop with its `break`, and the exception path, compute `ResolveStatus` |
| Validators.StrongPasswordShape | Python/UserDashboard.py:96-101 | a strong password has at least 3 characters (the three classes are disjoint) and stays strong with anything added on either side |
| Validators.StrongPasswordExamples | Python/UserDashboard.py:96-101 | "Abc123!" is strong; taking out its uppercase letter ("bc123!"), its digits ("Abc!") or its symbol ("Abc123") makes it weak |
| Validators.ValidEmailIsLoose | Python/UserDashboard.py:103-104 | any string holding both `@` and `.` passes, even "@." and ".@"; "user@example" fails |
| Validators.KeystrokeValidatorsPrefixClosed | Python/UserDashboard.py:106-107 | if the contact check, or the number check of lines 435-436, accepts a value, it accepts every prefix, so the value can be typed key by key; an accepted contact is numeric |
| Validators.CheckPasswordMeans | Python/UserDashboard.py:429-433 | with a one-to-one hash, a stored hash accepts exactly the password it was made from |
| Records.DigitFeeValue | Python/UserDashboard.py:1263 | a fee of plain digits, at most 4300 of them, adds its decimal value to the income |
| Records.LongFeeValue | Python/UserDashboard.py:1262-1265 | a fee of more than 4300 digits makes `int()` raise `ValueError` and adds 0 |
| Records.FeeValueGrouped | Python/UserDashboard.py:1263 | `int()` accepts digit groups joined by `_`, so such a fee adds the digits read together, provided they number at most 4300 (the `_` does not count) |
| Records.FeeValueNegative | Python/UserDashboard.py:1263 | a fee with a leading minus and at most 4300 digits subtracts its value (the sign does not count) |
| Records.FeeValueDecimal | Python/UserDashboard.py:1262-1265 | a fee with a decimal point raises `ValueError` and adds 0 |
| Appointments.BookedTimesMeans | Python/UserDashboard.py:747-757 | a label is booked iff some record for that doctor and date, not "Cancelled", lists it; cancelled records never contribute |
| Appointments.MaxId | Python/UserDashboard.py:608-617 | the largest identifier on file bounds every identifier and is one of them; 0 for an empty directory |
| Appointments.BookingEffects | Python/UserDashboard.py:604-632 | no slot selected: nothing is written. Otherwise one record is appended, with an identifier above every existing one, the selected slots, the profile's fee (or "Not Available") and status "Ongoing". Distinct identifiers stay distinct |
| Appointments.BookingExtendsBookedTimes | Python/UserDashboard.py:747-757 | after a booking, the doctor's booked list for that date is the old list followed by the new slots |
| Appointments.BookingFreeSlotsKeepsNoDoubleBooking | Python/UserDashboard.py:578-582 | booking distinct slots that are not yet booked keeps every doctor's booked list free of repeats |
| Appointments.BookingDoesNotRecheckSlots | Python/UserDashboard.py:600-632 | booking an already held slot again produces a double booking; nothing at write time stops it |
| Appointments.ReconcileOnlyCompletes | Python/UserDashboard.py:805-810 | reconciliation (here and at lines 1052-1057 and 1254-1259) changes only statuses of records in scope. It sets "Completed" whenever `get_status` says so, over any stored status including "Cancelled". Identifiers are unchanged |
| Appointments.ReconcileSettles | Python/UserDashboard.py:807-810 | after one pass no record in scope needs a write, and a second pass changes nothing |
| Appointments.CancellationNotAbsorbing | Python/UserDashboard.py:807-810 | a "Cancelled" record with a past date is rewritten to "Completed" |
| Appointments.ReconciledClass | Python/UserDashboard.py:807-819 | after reconciliation a record is active iff it was active and resolves "Ongoing"; cancelled iff it was cancelled and resolves "Ongoing"; completed otherwise |
| Appointments.CountsPartition | Python/UserDashboard.py:812-819 | the Completed, Cancelled and Ongoing counts add up to the number of records in scope |
| Appointments.PatientsMeans | Python/UserDashboard.py:1261-1273 | a user is among a doctor's patients iff some record of that doctor for that user is not "Cancelled" |
| Appointments.PatientsBound | Python/UserDashboard.py:1261-1273 | the distinct patients never outnumber the doctor's completed plus active records |
| Appointments.ReconcileRaisesIncome | Python/UserDashboard.py:1256-1264 | when no fee reads as negative (true of every digits-only fee, `DigitFeeNonNegative`), reconciliation never lowers a doctor's income |
| Appointments.StatusActionsOverwrite | Python/UserDashboard.py:1141-1147 | a cancel or complete handler (also lines 870-876, 1111-1117, 1322-1328) sets that record's status whatever it was, and nothing else; of two writes the last wins |
| Appointments.ButtonGuardKeepsSettled | Python/UserDashboard.py:1052-1060 | the buttons exist only for records listed after reconciling (also lines 812-817, 869, 1261-1270), so an action leaves every "Completed" or "Cancelled" record as it was, and a stored "Completed" is never overwritten |
| Appointments.CancelledPastAppointmentReturns | Python/UserDashboard.py:870-876 | an appointment cancelled while it was listed does not stay cancelled: once its date has passed, the next reconciliation makes it "Completed" |
| Appointments.ReconcileThenAll | Python/UserDashboard.py:636-637 | reconciling the user's records and then every record equals reconciling every record once |
| Doctors.EmailExistsIgnoresStoredCase | Python/UserDashboard.py:19-37 | an account stored under any capitalisation is found by the lowered address. An address containing an uppercase letter is never found |
| Doctors.CleanForm | Python/UserDashboard.py:272-282 | the cleaned e-mail has no uppercase letter, and the specialty placeholder is never kept |
| Doctors.SaveEffects | Python/UserDashboard.py:284-326 | a rejected form changes nothing. An accepted one adds a folder under the e-mail with a hashed password, the form's fee and "Available", and leaves every other folder unchanged. Folders stay keyed by e-mail and names stay unique |
| Doctors.SaveRejectsDuplicates | Python/UserDashboard.py:298-305 | a form whose name or e-mail matches any stored profile is never saved |
| Doctors.SetAvailabilityEffects | Python/UserDashboard.py:1362-1370 | selected existing doctors get exactly the new availability; the others and the set of folders are untouched; the last update wins |
| Doctors.BlockedNeverDeleted | Python/UserDashboard.py:1399-1420 | a blocked doctor, or one not selected, is never deleted and keeps their profile; a selected blocked doctor is reported |
| Doctors.RemovalComposes | Python/UserDashboard.py:1384-1420 | each doctor's outcome depends on that doctor alone: removing two selections in turn equals removing both at once |
| Doctors.RemovalChecksStoredStatus | Python/UserDashboard.py:1399-1415 | blocking reads the stored status. A doctor blocked only by past "Ongoing" records is unblocked by a dashboard's reconciliation, although `get_status` said "Completed" before and after |
| Clinic.DateSelectableMeans | Python/UserDashboard.py:587-594 | the picker accepts a formatted date exactly when it is not before today |
| Clinic.ClinicStore.GetBookedTimes | Python/UserDashboard.py:747-757 | the loop returns exactly `BookedTimes` of the directory |
| Clinic.ClinicStore.RefreshTimeButtons | Python/UserDashboard.py:561-585 | fifteen buttons labelled with the grid. A button is enabled exactly when its label is not booked for that doctor and date and, on today's date, its hour has not begun |
| Clinic.ClinicStore.NextAppointmentId | Python/UserDashboard.py:608-617 | the scan returns one more than the largest identifier, above every identifier on file |
| Clinic.ClinicStore.BookAppointment | Python/UserDashboard.py:600-632 | the write alone: the directory becomes `Book(...)` of the old one, other directories unchanged; the outcome names the new identifier |
| Clinic.ClinicStore.BookAndRefresh | Python/UserDashboard.py:600-643 | the whole click: without a slot nothing changes; otherwise the directory becomes the booked directory with every record reconciled |
| Clinic.ClinicStore.LoadUserBookings | Python/UserDashboard.py:786-819 | the user's records are reconciled in place, and the three counts are those of the reconciled directory |
| Clinic.ClinicStore.LoadAdminBookings | Python/UserDashboard.py:1037-1062 | doctor and user counts are the directory sizes. Every record is reconciled, and the count is of records still active |
| Clinic.ClinicStore.LoadDoctorDashboard | Python/UserDashboard.py:1235-1273 | the doctor's records are reconciled. Income, patient count and active count are those of the reconciled directory |
| Clinic.ClinicStore.WriteStatus | Python/UserDashboard.py:1111-1117 | the handlers of the cancel and complete buttons (also lines 870-876, 1141-1147, 1322-1328): the record with that identifier gets the new status. The result says whether such a record exists |
| Clinic.ClinicStore.ReconcileAt | Python/UserDashboard.py:1052-1057 | the rewrite of one record (also lines 805-810, 1254-1259): it becomes `Reconcile` of itself, that is "Completed" exactly when `get_status` says so, and nothing else changes |
| Clinic.ClinicStore.ReconcileInScope | Python/UserDashboard.py:1250-1259 | one pass of a dashboard's loop (also lines 800-810): the record is reconciled when it is in the dashboard's scope and left alone otherwise |
| Clinic.ClinicStore.TallyDoctorRecord | Python/UserDashboard.py:1261-1273 | what one reconciled record adds: its fee's `int()` value to income if "Completed", its user to the patients unless "Cancelled", one to the active count otherwise |
| Clinic.ClinicStore.NameOrEmailOnFile | Python/UserDashboard.py:298-305 | the scan over every doctor folder finds a stored profile with this exact name or e-mail iff one exists |
| Clinic.ClinicStore.SaveCleanForm | Python/UserDashboard.py:284-326 | on the cleaned form: the error is that of the checks, and the directory gains the new profile under the e-mail exactly when they pass |
| Clinic.ClinicStore.RemoveOne | Python/UserDashboard.py:1382-1420 | one selected folder: a named doctor with a stored "Ongoing" record is reported once, otherwise it is deleted if confirmed; folders without a named profile are skipped |
| Clinic.ClinicStore.CheckDoctorForm | Python/UserDashboard.py:284-305 | the checks run in source order: missing field, e-mail, password, then the duplicate scan |
| Clinic.ClinicStore.SaveDoctorForm | Python/UserDashboard.py:269-326 | the doctor directory becomes `SaveDoctor(...)` of the old one, and the error is that of the checks |
| Clinic.ClinicStore.UpdateDoctorStatus | Python/UserDashboard.py:1356-1370 | an empty selection is refused; otherwise the doctor directory becomes `SetAvailability(...)` |
| Clinic.ClinicStore.HasOngoingRecord | Python/UserDashboard.py:1399-1411 | the scan finds a record of that doctor with stored status exactly "Ongoing" iff one exists |
| Clinic.ClinicStore.RemoveSelectedDoctors | Python/UserDashboard.py:1374-1420 | the doctor directory becomes `Removed(...)`. The blocked list has no repeats and holds exactly the names of the selected blocked doctors |

## Where the code departs from the expected behaviour

Some of what the code does differs from what a user of the application
would expect. Everywhere, the model follows the code, and a lemma states
the difference:

- A booking would be expected to fail on a slot already taken and on a past date. `book_appointment` checks neither when it writes (`BookingDoesNotRecheckSlots`). Only the slot grid and the date picker stand in the way, by disabling buttons.
- A cancelled appointment would be expected to stay cancelled. An appointment cancelled while upcoming is rewritten to "Completed" by the first dashboard that reconciles it after its date has passed, and its fee then counts as income (`CancellationNotAbsorbing`, `CancelledPastAppointmentReturns`).
- Removing a doctor would be expected to be blocked by appointments still to come. The code tests the stored status "Ongoing", so a past appointment that no dashboard has reconciled yet still blocks removal, and reconciling it lifts the block (`RemovalChecksStoredStatus`).
- A doctor's patients would be expected to be those with finished or upcoming appointments. The code counts every record that is not "Cancelled", whatever its status string (`PatientsMeans`).
- An e-mail lookup would be expected to ignore case on both sides. `email_exists` lowers what is stored but not the address it is given (`EmailExistsIgnoresStoredCase`).
- The doctor duplicate check compares names and e-mails exactly, as stored.

## Left out

- Screens, widgets, message boxes and navigation are left out, as is the `after(...)` polling that reloads the doctor list.
- File and JSON I/O are replaced by in-memory directories. The appointment directory is a sequence in listing order. Doctors and accounts are maps keyed by folder or file name. Files that fail to parse, other files in the directories, and JSON keys missing from a record are not modelled. Doctor folders without a `profile.json` are not modelled either, so `LoadAdminBookings` counts doctors with a profile.
- `hash_password` is SHA-256 in the application. Here it is a function the caller passes in.
- Image selection, resizing and copying are not modelled. Deleting a doctor's folder is modelled as removing its key.
- The clock is a parameter read once per operation; the application reads it several times.
- `str.isdigit`, `str.isupper`, `str.lower`, white space and the `%p` marker are modelled for ASCII only. Python also accepts other Unicode digits and letters.
- Display formatting is left out: dates in lists, the currency prefix, and the sorting of the blocked-names warning.
- The per-doctor yes/no confirmation of removal is the set `confirmed` of folders the admin approves.
- Sign-up and login screens are not part of this model beyond the validators, `check_password` and `email_exists` they call. The appointment and doctor list views are not part of this model either.
- Clinic.ClinicStore.RefreshTimeButtons: requires a valid clock reading (year at least 1000), because `strftime` pads shorter years differently. `FormatDate` pads every year to four digits, so it is `strftime('%Y-%m-%d')` only from year 1000 on.
- Clinic.ClinicStore.WriteStatus: models the handler alone. The guard that draws the buttons only for listed records is the separate lemma `ButtonGuardKeepsSettled`. The dashboard reloads that follow each action are separate calls (`LoadUserBookings`, `LoadAdminBookings`, `LoadDoctorDashboard`).
