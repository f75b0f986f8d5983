# Clinic appointment scheduling core, modelled in Dafny

This project models the scheduling core of a Spring Boot clinic back end.
Doctors publish a daily template of appointment times. Patients book,
reschedule and cancel appointments. Doctors list their appointments of a
day and attach one prescription per appointment. Admins save, update and
delete doctors.

The model has three layers.

- **Store.** The four repositories are one object, `Store.Repositories`.
  Each table is a sequence of rows in insertion order. The store keeps its
  integrity constraints as the class invariant `Valid()`:
  - doctor ids and appointment ids are distinct and below the next
    generated id (patient ids are not constrained);
  - every appointment status is 0 or 1;
  - every appointment's doctor and patient exist;
  - each appointment has at most one prescription.
- **State-changing operations.** These are methods on the store. Each
  method states its exact new state, including "nothing changes" on every
  error path. They are: DoctorService save/update/delete, AppointmentService
  book/update/cancel/changeStatus, PrescriptionService save, and the two
  controller handlers.
- **Queries.** These are functions: availability, doctor filters, the
  filterDoctor and filterPatient dispatch, slot validation, patient
  uniqueness, the day listing with its DTO projection, and the
  AppointmentDTO constructor. The `Appointment` entity is a class whose
  setters each change one field. The booking handler takes it as the
  request body and stores its row (`Record()`).

Times are whole minutes. A date is a day number and a time of day is a
minute 0..1439. A failing repository call is the input `storeFails`. The
clock the `@Future` constraint reads is the input `now`. The identity a
token carries is an input (an email), and "the token is valid" is a boolean
input.

Some behaviours of the source that the model states:
- Deleting a doctor removes that doctor's appointments but not their
  prescriptions.
- The prescription handler marks the appointment Completed even when the
  save is then refused.
- Under the three-argument validation that stands in for the
  one-argument validateAppointment the update calls (see Left out), an
  update that keeps the stored doctor and start time never succeeds.
  Validation counts the appointment's own row as a booking
  (`AppointmentService.UnchangedSlotUpdateConflicts`).

The source compares a doctor's String slots with LocalTime values in two
places. The main model compares times of day. The comparison as written is
modelled separately in module `AsWritten` (see Findings).

## Model

| member | source | states |
|---|---|---|
| Times.PlusHours | app/src/main/java/com/project/back_end/DTO/AppointmentDTO.java:108 | plusHours moves the instant by exactly 60·h minutes on the absolute timeline |
| Times.PlusOneHourRollsOver | app/src/main/java/com/project/back_end/DTO/AppointmentDTO.java:108 | one hour later is the same date below 23:00, and the next date with time − 23:00 from 23:00 on |
| Times.WithinDayIffSameDate | app/src/main/java/com/project/back_end/services/DoctorService.java:129-134 | at minute precision, an instant lies in the inclusive window [date 00:00, date 23:59] exactly when it is on that date |
| Times.SplitJoin | app/src/main/java/com/project/back_end/DTO/AppointmentDTO.java:106-107 | recombining the date part and the time part gives back the instant |
| Text.ContainsIffOccurs | app/src/main/java/com/project/back_end/services/DoctorService.java:208-210 | the substring scan holds exactly when the fragment occurs at some position |
| Seqs.Filter | app/src/main/java/com/project/back_end/services/DoctorService.java:221-227 | a filter keeps exactly the elements satisfying the predicate, never more copies than the input |
| Seqs.FilterIsSubsequence | app/src/main/java/com/project/back_end/services/DoctorService.java:221-227 | a filter keeps the input order |
| Seqs.FilterCount | app/src/main/java/com/project/back_end/services/DoctorService.java:140-141 | a filter keeps every copy of a kept element and no copy of a dropped one |
| Seqs.FilterKeepsDistinct | app/src/main/java/com/project/back_end/services/DoctorService.java:188-189 | deleting rows keeps primary keys distinct |
| Entities.FindDoctor | app/src/main/java/com/project/back_end/services/DoctorService.java:123-124 | findById finds a doctor with that id, and finds none exactly when no row has it |
| Entities.FindDoctorByEmail | app/src/main/java/com/project/back_end/services/DoctorService.java:149 | findByEmail finds a doctor with that email, and none exactly when no row has it |
| Entities.FindPatientByEmail | app/src/main/java/com/project/back_end/services/Service.java:187-190 | findByEmail finds a patient with that email, and none exactly when no row has it |
| Entities.FindPatientByEmailOrPhone | app/src/main/java/com/project/back_end/services/Service.java:165 | findByEmailOrPhone finds none exactly when no patient shares the email or the phone |
| Entities.FindAppointment | app/src/main/java/com/project/back_end/services/AppointmentService.java:96-98 | findById finds a row with that id, and none exactly when no row has it |
| Entities.FoundAppointmentIsUnique | app/src/main/java/com/project/back_end/services/AppointmentService.java:146-148 | with distinct ids, findById returns the one row with that id; the booking relies on it to find the row it stored |
| Store.Repositories.constructor | app/src/main/java/com/project/back_end/models/Appointment.java:18-57 | a store holding only registered patients satisfies the key, status-range, reference and prescription constraints |
| DoctorService.BookedTimes | app/src/main/java/com/project/back_end/services/DoctorService.java:129-138 | the booked set holds exactly the times of day at which that doctor has an appointment on that date |
| DoctorService.SortTimes | app/src/main/java/com/project/back_end/services/DoctorService.java:142 | sorted() returns an ascending permutation of its input |
| DoctorService.SortedUnbookedCount | app/src/main/java/com/project/back_end/services/DoctorService.java:140-142 | filtering out booked times and sorting keeps each unbooked slot as often as the template lists it and drops booked ones |
| DoctorService.GetDoctorAvailability | app/src/main/java/com/project/back_end/services/DoctorService.java:122-144 | empty for an unknown doctor; otherwise sorted, and a time is listed iff it is in the template and not booked that day, as often as the template lists it |
| DoctorService.FilterDoctorsByTime | app/src/main/java/com/project/back_end/services/DoctorService.java:220-228 | keeps, in order, exactly the doctors with some slot before noon for "AM" (any case), after noon for any other period |
| DoctorService.NoonOnlyMatchesNoPeriod | app/src/main/java/com/project/back_end/services/DoctorService.java:224-225 | a doctor whose only slot is 12:00 matches neither "AM" nor any other period, since both comparisons with noon are strict |
| DoctorService.FindDoctorByName | app/src/main/java/com/project/back_end/services/DoctorService.java:208-210 | a subsequence of the table (its order kept) holding exactly the doctors whose name contains the fragment, ignoring case |
| DoctorService.FilterDoctorByNameAndSpecialty | app/src/main/java/com/project/back_end/services/DoctorService.java:239-241 | a subsequence of the table (its order kept) holding exactly the doctors whose name contains the fragment and whose specialty equals the given one, ignoring case |
| DoctorService.FilterDoctorBySpecialty | app/src/main/java/com/project/back_end/services/DoctorService.java:252-254 | a subsequence of the table (its order kept) holding exactly the doctors whose specialty equals the given one, ignoring case |
| DoctorService.FilterDoctorsByNameSpecialtyAndTime | app/src/main/java/com/project/back_end/services/DoctorService.java:214-217 | a subsequence of the table (its order kept) holding exactly the doctors matching name and specialty with some slot in the period |
| DoctorService.FilterDoctorByNameAndTime | app/src/main/java/com/project/back_end/services/DoctorService.java:232-235 | a subsequence of the table (its order kept) holding exactly the doctors matching the name with some slot in the period |
| DoctorService.FilterDoctorByTimeAndSpecialty | app/src/main/java/com/project/back_end/services/DoctorService.java:245-248 | a subsequence of the table (its order kept) holding exactly the doctors matching the specialty with some slot in the period |
| DoctorService.WithProfileOf | app/src/main/java/com/project/back_end/services/DoctorService.java:166-171 | the updated doctor takes name, email, phone, specialty and times from the request and keeps its id and password |
| DoctorService.UpdateDoctorRow | app/src/main/java/com/project/back_end/services/DoctorService.java:166-173 | updating a row keeps the table's length and every row's id |
| DoctorService.FindAfterUpdateDoctor | app/src/main/java/com/project/back_end/services/DoctorService.java:162-175 | after the update, findById of that id yields the doctor with the new profile; other ids are unaffected |
| DoctorService.UpdateDoctorRowPreserves | app/src/main/java/com/project/back_end/services/DoctorService.java:166-173 | an update keeps the store's integrity constraints |
| DoctorService.DeleteDoctorPreserves | app/src/main/java/com/project/back_end/services/DoctorService.java:186-190 | deleting a doctor with its appointments keeps the store's integrity constraints |
| DoctorService.SaveDoctor | app/src/main/java/com/project/back_end/services/DoctorService.java:148-158 | -1 and no change iff the email is taken; 0 and no change on a store failure; otherwise 1 and the doctor appended under a new id |
| DoctorService.UpdateDoctor | app/src/main/java/com/project/back_end/services/DoctorService.java:162-175 | -1 and no change iff the id is unknown; otherwise 1 and the row takes the new profile, keeping id and password |
| DoctorService.DeleteDoctor | app/src/main/java/com/project/back_end/services/DoctorService.java:185-194 | -1 and no change for an unknown id; 0 and no change on a store failure; otherwise 1, the doctor and exactly that doctor's appointments removed |
| DoctorService.DeleteDoctorKeepsOthers | app/src/main/java/com/project/back_end/services/DoctorService.java:188 | deleteAllByDoctorId leaves every other doctor's appointment, in order |
| Service.DoctorRoute | app/src/main/java/com/project/back_end/services/Service.java:133-151 | each of the eight given/null combinations of name, specialty and time reaches its own query |
| Service.MatchingDoctors | app/src/main/java/com/project/back_end/services/Service.java:133-151 | the doctors meeting every given criterion, in table order |
| Service.FilterDoctor | app/src/main/java/com/project/back_end/services/Service.java:133-151 | whichever query is reached, the result is exactly the doctors meeting the conjunction of the given criteria, in order |
| Service.NoCriteriaReturnsAll | app/src/main/java/com/project/back_end/services/Service.java:148-149 | with no criterion, every doctor is returned |
| Service.ValidateAppointment | app/src/main/java/com/project/back_end/services/Service.java:155-161 | -1 iff the doctor is unknown; 1 iff the time is a template slot not booked that day, equivalently iff it is in the availability; 0 otherwise |
| Service.BookedSlotConflicts | app/src/main/java/com/project/back_end/services/Service.java:159-160 | once an appointment is stored, its own doctor, date and time validate to 0 |
| Service.BookingLeavesOtherSlots | app/src/main/java/com/project/back_end/services/Service.java:159-160 | storing an appointment changes the verdict for no other doctor, date or time |
| Service.ValidatePatient | app/src/main/java/com/project/back_end/services/Service.java:164-166 | true iff no stored patient has the same email or the same phone |
| Service.PatientRoute | app/src/main/java/com/project/back_end/services/Service.java:192-202 | the four given/null combinations of condition and doctor name reach four distinct queries, each for the resolved patient id with the given arguments |
| Service.FilterPatient | app/src/main/java/com/project/back_end/services/Service.java:185-208 | empty when the email cannot be extracted, the patient is unknown or the query fails; otherwise the routed query's result |
| AppointmentDtos.NewAppointmentDto | app/src/main/java/com/project/back_end/DTO/AppointmentDTO.java:89-110 | copies the ten given fields; with no start time the three derived fields are absent, otherwise date and time of day recombine to the start and the end is 60 minutes later |
| AppointmentDtos.DtoEndTimeDate | app/src/main/java/com/project/back_end/DTO/AppointmentDTO.java:108 | the derived end time rolls to the next date exactly for starts from 23:00 |
| AppointmentModel.Appointment.constructor | app/src/main/java/com/project/back_end/models/Appointment.java:18-57 | the object holds the given id, doctor, patient, start time and status |
| AppointmentModel.Appointment.EndTime | app/src/main/java/com/project/back_end/models/Appointment.java:64-67 | one hour after the start, on the next date for starts from 23:00 |
| AppointmentModel.DateAndTimeRecompose | app/src/main/java/com/project/back_end/models/Appointment.java:73-85 | the date and time-of-day getters recombine to the start time |
| AppointmentModel.Appointment.SetId | app/src/main/java/com/project/back_end/models/Appointment.java:95-97 | sets the id and changes no other field |
| AppointmentModel.Appointment.SetDoctor | app/src/main/java/com/project/back_end/models/Appointment.java:101-103 | sets the doctor and changes no other field |
| AppointmentModel.Appointment.SetPatient | app/src/main/java/com/project/back_end/models/Appointment.java:107-109 | sets the patient and changes no other field |
| AppointmentModel.Appointment.SetAppointmentTime | app/src/main/java/com/project/back_end/models/Appointment.java:113-115 | sets the start time and changes no other field |
| AppointmentModel.Appointment.SetStatus | app/src/main/java/com/project/back_end/models/Appointment.java:119-121 | sets the status, unchecked, and changes no other field |
| AppointmentService.ReplaceAppointmentAt | app/src/main/java/com/project/back_end/services/AppointmentService.java:121 | saving an appointment with an existing id replaces exactly the rows with that id |
| AppointmentService.MarkCompleted | app/src/main/java/com/project/back_end/services/AppointmentService.java:232 | updateStatus(1, id) sets status Completed on the rows with that id and leaves every other row as it was |
| AppointmentService.FindAfterAppend | app/src/main/java/com/project/back_end/services/AppointmentService.java:83 | after an insert under a fresh id, findById finds the new row, and other ids find what they found before |
| AppointmentService.FindAfterReplace | app/src/main/java/com/project/back_end/services/AppointmentService.java:121 | after the replacement, findById of that id yields the new appointment; other ids are unaffected |
| AppointmentService.FindAfterMarkCompleted | app/src/main/java/com/project/back_end/services/AppointmentService.java:230-233 | after changeStatus, findById of that id yields the same row with status 1; other ids are unaffected |
| AppointmentService.FindAfterRemove | app/src/main/java/com/project/back_end/services/AppointmentService.java:164 | after the delete, findById of that id finds nothing; other ids are unaffected |
| AppointmentService.AppendAppointmentPreserves | app/src/main/java/com/project/back_end/models/Appointment.java:27-57 | inserting a row with a fresh id, a status in [0, 1] and existing doctor and patient keeps the integrity constraints |
| AppointmentService.ReplaceAppointmentPreserves | app/src/main/java/com/project/back_end/services/AppointmentService.java:107-123 | replacing a row by one of the same patient, for an existing doctor and with an admissible status, keeps the integrity constraints |
| AppointmentService.MarkCompletedPreserves | app/src/main/java/com/project/back_end/services/AppointmentService.java:230-233 | completing an appointment keeps the integrity constraints |
| AppointmentService.RemoveAppointmentPreserves | app/src/main/java/com/project/back_end/services/AppointmentService.java:164 | deleting an appointment keeps the integrity constraints |
| AppointmentService.BookAppointment | app/src/main/java/com/project/back_end/services/AppointmentService.java:81-89 | 1 iff the save succeeds (store up, status in range, start after now, doctor and patient exist), and the appointment is appended under a new id, which findById then resolves to exactly that row; otherwise 0 and no change |
| AppointmentService.UpdateVerdict | app/src/main/java/com/project/back_end/services/AppointmentService.java:96-138 | NotFound iff the id is unknown, PatientMismatch iff the stored patient differs, InvalidDoctor iff the doctor is unknown; never Forbidden |
| AppointmentService.UpdateVerdictForKnownDoctor | app/src/main/java/com/project/back_end/services/AppointmentService.java:118-138 | past those checks, Ok iff the slot is free, the bean constraints hold and the store is up; Conflict iff the slot is not free |
| AppointmentService.UpdateOkPreserves | app/src/main/java/com/project/back_end/services/AppointmentService.java:107-121 | a replacement that passed the id, patient and slot checks and the bean constraints keeps the integrity constraints |
| AppointmentService.UpdateAppointment | app/src/main/java/com/project/back_end/services/AppointmentService.java:91-139 | answers the verdict; on Ok the row with that id is replaced by the appointment, on every other outcome nothing changes |
| AppointmentService.UnchangedSlotUpdateConflicts | app/src/main/java/com/project/back_end/services/AppointmentService.java:118 | an update keeping the stored doctor and start time never succeeds |
| AppointmentService.CancelVerdict | app/src/main/java/com/project/back_end/services/AppointmentService.java:146-171 | NotFound iff the id is unknown; Forbidden iff the requester is a different patient; Ok iff it is the owner and the store is up; Error otherwise |
| AppointmentService.CancelAppointment | app/src/main/java/com/project/back_end/services/AppointmentService.java:141-172 | answers the verdict; on Ok exactly the rows with that id are removed, on every other outcome nothing changes |
| AppointmentService.ChangeStatus | app/src/main/java/com/project/back_end/services/AppointmentService.java:230-233 | the appointment with that id gets status 1; nothing else changes |
| AppointmentService.DayAppointments | app/src/main/java/com/project/back_end/services/AppointmentService.java:184-204 | exactly the doctor's rows on that date whose patient name contains the filter ignoring case (all of them for "null"), in table order |
| AppointmentService.ToDto | app/src/main/java/com/project/back_end/services/AppointmentService.java:208-222 | the DTO carries the row's id, doctor, patient, time and status and the doctor's and patient's names, the patient's email, phone and address, and an end time one hour after the start |
| AppointmentService.DayDtosSound | app/src/main/java/com/project/back_end/services/AppointmentService.java:184-223 | every listed DTO is the DTO of a stored appointment of that doctor on that date whose patient matches the filter, so it carries the doctor, the date and a matching name |
| AppointmentService.DayDtosComplete | app/src/main/java/com/project/back_end/services/AppointmentService.java:184-223 | every appointment of that doctor on that date whose patient matches the filter has a listed DTO with its id, time, patient and status |
| AppointmentService.GetAppointment | app/src/main/java/com/project/back_end/services/AppointmentService.java:176-227 | None iff the token's email is no doctor's; otherwise one DTO per selected appointment, each built from a stored appointment of that doctor on that date matching the name filter, and every such appointment has its DTO |
| PrescriptionService.PrescriptionsFor | app/src/main/java/com/project/back_end/services/PrescriptionService.java:60 | findByAppointmentId returns exactly the prescriptions with that appointment id |
| PrescriptionService.AtMostOnePrescription | app/src/main/java/com/project/back_end/services/PrescriptionService.java:86 | under the one-per-appointment constraint a look-up finds at most one prescription |
| PrescriptionService.AppendPrescriptionPreserves | app/src/main/java/com/project/back_end/services/PrescriptionService.java:60-65 | inserting only when none exists keeps at most one prescription per appointment |
| PrescriptionService.SavePrescription | app/src/main/java/com/project/back_end/services/PrescriptionService.java:53-79 | 500 and no change iff the store fails; 400 and no change iff one exists; 201 and the prescription appended iff none exists |
| PrescriptionService.SavedPrescriptionBlocksAnother | app/src/main/java/com/project/back_end/services/PrescriptionService.java:60-68 | once saved, a second prescription for the same appointment finds one and is refused |
| PrescriptionService.GetPrescription | app/src/main/java/com/project/back_end/services/PrescriptionService.java:82-95 | 200 with exactly the appointment's prescriptions (at most one), or 500 with none on a store failure; nothing changes |
| AppointmentController.BookAppointment | app/src/main/java/com/project/back_end/controllers/AppointmentController.java:92-110 | the request body is an Appointment entity and the stored row is its `Record()`; 401 and no change for a bad token; 400 for an unknown doctor; 409 when the slot does not validate; 201 iff it validates and the booking stores it, 500 otherwise; only 201 changes the store, by appending that row under the next id and advancing the id counter by one, after which the slot validates to 0 |
| PrescriptionController.SavePrescription | app/src/main/java/com/project/back_end/controllers/PrescriptionController.java:58-68 | 401 and no change for a bad token; otherwise the appointment is marked Completed whatever follows, and the answer is savePrescription's: 500 iff the store fails, 400 iff a prescription exists, 201 iff none does and it is appended |
| AsWritten.AvailabilityAsWrittenIgnoresBookings | app/src/main/java/com/project/back_end/services/DoctorService.java:136-141 | with String slots and LocalTime bookings, the filter removes nothing |
| AsWritten.ValidateAsWrittenNeverAccepts | app/src/main/java/com/project/back_end/services/Service.java:159-160 | looking a LocalTime up in the String slot list never yields 1 |
| AsWritten.FreeSlotRejectedAsWritten | app/src/main/java/com/project/back_end/services/Service.java:159-160 | a free 09:00 slot is rejected as written and accepted by the intended check |
| AsWritten.BookedSlotListedAsWritten | app/src/main/java/com/project/back_end/services/DoctorService.java:136-141 | a booked 09:00 slot is still listed as written and not listed by the intended availability |
| AsWritten.ParseSlot | app/src/main/java/com/project/back_end/services/DoctorService.java:223 | LocalTime.parse on "HH:MM": refuses other shapes, hours from 24 and minutes from 60; otherwise the time has that hour and minute |
| AsWritten.ParseFormatSlot | app/src/main/java/com/project/back_end/services/DoctorService.java:223 | parsing the "HH:MM" form of a time of day gives that time back |
| AsWritten.FormatParsedSlot | app/src/main/java/com/project/back_end/services/DoctorService.java:223 | a string that parses is the "HH:MM" form of its time, so each slot has one spelling |
| AsWritten.StringBeforeFive | app/src/main/java/com/project/back_end/services/DoctorService.java:142 | String.compareTo on two five-character strings decides at the first differing character |
| AsWritten.FormatSlotPreservesOrder | app/src/main/java/com/project/back_end/services/DoctorService.java:142 | the String order that sorted() applies to "HH:MM" slots is the order of their times of day, in both directions |

## Left out

- Token handling is not modelled: validateToken, extractEmail, extractEmailFromToken and the credential checks. TokenService is not part of this model. "The token is valid" is a boolean input. The email a token carries is an input: `Option` where the model lets extraction fail, a plain string where it assumes extraction succeeds. If extraction throws in cancelAppointment or getAppointment, the source answers 500 rather than the modelled result.
- The JavaScript front end, DoctorController, PatientController, AdminController, and the other handlers of AppointmentController and PrescriptionController are not modelled. AppointmentController.java:87, :122 and :138 call AppointmentService methods that do not exist.
- Transactions and concurrency are not modelled. The race between validating a slot and saving the booking is out of scope: operations run one at a time.
- Times are whole minutes. Seconds are not modelled, so an appointment at 23:59:30 would fall outside the source's 23:59 window but cannot be written here. The java.sql.Date time-zone conversion in getDoctorAvailability is not modelled; a date is a day number.
- findByNameLike and the ContainingIgnoreCase queries are modelled as ASCII case-insensitive substring matches. The first depends on the database collation. `%` and `_` inside the name are not interpreted as wildcards.
- Case folding covers ASCII letters only.
- A doctor's availableTimes hold times of day, so template strings that LocalTime.parse rejects (such as "09:00-10:00") cannot be written. The exception filterDoctorsByTime would throw for them is not modelled.
- DoctorService.GetDoctorAvailability: returns times of day rather than Strings. The String-against-LocalTime comparison of the source is modelled separately, in AsWritten.
- AppointmentService.BookAppointment: the id in the request body is ignored and a fresh id is generated. JPA's save of an entity whose id already exists would merge into that row instead.
- AppointmentService.UpdateAppointment and AppointmentService.BookAppointment take the appointment's row rather than the entity object. Only the booking handler receives the `Appointment` object, and it passes on `Record()`.
- DoctorService.SortTimes: sorts times of day, where the source sorts the slot Strings. The two orders agree for zero-padded "HH:MM" slots (`AsWritten.FormatSlotPreservesOrder`), not for other spellings such as "9:00".
- AsWritten.ParseSlot: only the "HH:MM" form is modelled. LocalTime.parse also accepts seconds and fractions such as "09:00:30".
- DoctorService.SaveDoctor: the id in the request body is ignored and a fresh id is generated. JPA's save of an entity whose id already exists would merge into that row instead.
- AppointmentService.UpdateAppointment: the source calls a one-argument validateAppointment that Service.java does not define. It is modelled as the three-argument check on the appointment's own doctor, date and time.
- AppointmentService.CancelAppointment: an email that belongs to no patient makes the source dereference null. The model answers Error and changes nothing.
- AppointmentService.GetAppointment: an email that belongs to no doctor makes the source throw. The model answers None.
- PrescriptionController.SavePrescription: the source calls changeAppointmentStatus(id, 1), which AppointmentService.java does not define. It is modelled as changeStatus(id). A failure of that status update is not modelled; `storeFails` covers only the prescription store.
- DoctorService.UpdateDoctor: the source does not catch a failing save, so the model has no store-failure input for it.
- Spring Data's findByEmail and findByEmailOrPhone throw when several rows match. The model returns the first match.
- The Doctor, Patient and Prescription entities and the AppointmentRepository are not among the sources. Their fields and queries follow the services' use of them. A prescription's medical content is a single string, and its own bean constraints are not modelled.
- Getters of AppointmentDTO and Appointment are the datatype's and the class's fields, read directly.
- AppointmentModel.Appointment: appointmentTime is never null here, so getEndTime's null dereference is not modelled. The DTO keeps the null case (`None`).
- The status range 0..1, the @Future start and the non-null doctor and patient are checked when an appointment is saved, as bean validation does. The entity's setters accept any value.
- PatientService is not part of this model. Its queries are the function `run` given to `Service.FilterPatient`.

## Findings

| source | as written | input that shows it | evidently intended | confidence | as-written member | corrected member |
|---|---|---|---|---|---|---|
| app/src/main/java/com/project/back_end/services/DoctorService.java:136-141 | `bookedSlots` holds LocalTime values and the slots are Strings, so `!bookedSlots.contains(slot)` is always true | doctor 1 offers "09:00" and has an appointment at 09:00 on day 0; "09:00" is still listed for day 0 | booked times of day are removed from the template | high; not executed | AsWritten.BookedSlotListedAsWritten | DoctorService.GetDoctorAvailability |
| app/src/main/java/com/project/back_end/services/Service.java:159-160 | `availableSlots.contains(time)` looks a LocalTime up in a List of Strings, so it is always false | doctor 1 offers "09:00", nothing is booked, 09:00 is requested; the answer is 0 and bookAppointment answers 409 | 1 when the requested time is a free slot | high; not executed | AsWritten.FreeSlotRejectedAsWritten | Service.ValidateAppointment |
