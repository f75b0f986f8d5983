/** AppointmentService: booking, rescheduling, cancelling and completing
    appointments, and a doctor's appointments on one day. The store and its
    failures are explicit: `storeFails` stands for a repository call that
    throws, `now` for the clock the @Future constraint reads. */
module AppointmentService {
  import opened Times
  import opened Text
  import opened Seqs
  import opened Entities
  import opened Store
  import opened AppointmentDtos
  import opened DoctorService
  import opened Service

  /** The response of updateAppointment and cancelAppointment:
      200 Ok, 404 NotFound, 400 PatientMismatch and InvalidDoctor,
      409 Conflict, 403 Forbidden, 500 Error. */
  datatype Outcome = Ok | NotFound | PatientMismatch | InvalidDoctor | Conflict | Forbidden | Error

  // ---------------------------------------------------------------------
  // Table updates

  /** save() of an appointment whose id exists: the row with that id is
      replaced, every other row stays where it is. */
  function ReplaceAppointment(s: seq<AppointmentRecord>, appt: AppointmentRecord): (r: seq<AppointmentRecord>)
    ensures |r| == |s|
  {
    if s == [] then []
    else [if s[0].id == appt.id then appt else s[0]] + ReplaceAppointment(s[1..], appt)
  }

  /** Row i after a replacement: the new appointment where the id matches,
      the old row elsewhere; either way the id at i is unchanged. */
  lemma {:induction false} ReplaceAppointmentAt(s: seq<AppointmentRecord>, appt: AppointmentRecord, i: int)
    requires 0 <= i < |s|
    ensures ReplaceAppointment(s, appt)[i] == if s[i].id == appt.id then appt else s[i]
    ensures ReplaceAppointment(s, appt)[i].id == s[i].id
  {
    if i > 0 {
      ReplaceAppointmentAt(s[1..], appt, i - 1);
    }
  }

  /** appointmentRepository.updateStatus(1, id) */
  function MarkCompleted(s: seq<AppointmentRecord>, id: int): (r: seq<AppointmentRecord>)
    ensures |r| == |s|
    ensures forall i :: 0 <= i < |s| && s[i].id == id ==> r[i] == s[i].(status := Completed)
    ensures forall i :: 0 <= i < |s| && s[i].id != id ==> r[i] == s[i]
  {
    if s == [] then []
    else [if s[0].id == id then s[0].(status := Completed) else s[0]] + MarkCompleted(s[1..], id)
  }

  /** appointmentRepository.delete of the row with id `id` */
  function RemoveAppointment(s: seq<AppointmentRecord>, id: int): seq<AppointmentRecord> {
    Filter(s, (a: AppointmentRecord) => a.id != id)
  }

  /** After an insert under a fresh id, findById finds the new row and
      every other id finds what it found before. */
  lemma {:induction false} FindAfterAppend(s: seq<AppointmentRecord>, a: AppointmentRecord, x: int)
    requires forall b :: b in s ==> b.id != a.id
    ensures FindAppointment(s + [a], x) == if x == a.id then Some(a) else FindAppointment(s, x)
  {
    if s == [] {
      assert s + [a] == [a];
    } else {
      assert (s + [a])[1..] == s[1..] + [a];
      FindAfterAppend(s[1..], a, x);
    }
  }

  /** After a replacement, findById of the replaced id yields the new row,
      and of every other id what it yielded before. */
  lemma {:induction false} FindAfterReplace(s: seq<AppointmentRecord>, appt: AppointmentRecord, x: int)
    ensures FindAppointment(ReplaceAppointment(s, appt), x)
         == if x == appt.id && FindAppointment(s, x).Some? then Some(appt) else FindAppointment(s, x)
  {
    if s != [] {
      FindAfterReplace(s[1..], appt, x);
    }
  }

  /** After changeStatus, findById of that id yields the same row with
      status Completed; other ids are unaffected. */
  lemma {:induction false} FindAfterMarkCompleted(s: seq<AppointmentRecord>, id: int, x: int)
    ensures FindAppointment(MarkCompleted(s, id), x)
         == if x == id && FindAppointment(s, x).Some? then Some(FindAppointment(s, x).value.(status := Completed))
            else FindAppointment(s, x)
  {
    if s != [] {
      FindAfterMarkCompleted(s[1..], id, x);
    }
  }

  /** After a removal, findById of that id finds nothing; other ids are
      unaffected. */
  lemma {:induction false} FindAfterRemove(s: seq<AppointmentRecord>, id: int, x: int)
    ensures FindAppointment(RemoveAppointment(s, id), x) == if x == id then None else FindAppointment(s, x)
  {
    if s != [] {
      FindAfterRemove(s[1..], id, x);
    }
  }

  // ---------------------------------------------------------------------
  // The store invariant across each update

  lemma AppendAppointmentPreserves(
    doctors: seq<Doctor>, patients: seq<Patient>, appointments: seq<AppointmentRecord>,
    prescriptions: seq<Prescription>, nextDoctorId: int, nextAppointmentId: int, row: AppointmentRecord)
    requires Consistent(doctors, patients, appointments, prescriptions, nextDoctorId, nextAppointmentId)
    requires row.id == nextAppointmentId && Scheduled <= row.status <= Completed
    requires FindDoctor(doctors, row.doctorId).Some? && FindPatient(patients, row.patientId).Some?
    ensures Consistent(doctors, patients, appointments + [row], prescriptions, nextDoctorId, nextAppointmentId + 1)
  {
    var after := appointments + [row];
    forall i, j | 0 <= i < j < |after| ensures AppointmentKey(after[i]) != AppointmentKey(after[j]) {
      if j == |appointments| {
        assert after[i] in appointments;
      } else {
        assert after[i] == appointments[i] && after[j] == appointments[j];
      }
    }
  }

  lemma ReplaceAppointmentPreserves(
    doctors: seq<Doctor>, patients: seq<Patient>, appointments: seq<AppointmentRecord>,
    prescriptions: seq<Prescription>, nextDoctorId: int, nextAppointmentId: int, appt: AppointmentRecord)
    requires Consistent(doctors, patients, appointments, prescriptions, nextDoctorId, nextAppointmentId)
    requires FindAppointment(appointments, appt.id).Some?
    requires FindAppointment(appointments, appt.id).value.patientId == appt.patientId
    requires FindDoctor(doctors, appt.doctorId).Some? && Scheduled <= appt.status <= Completed
    ensures Consistent(doctors, patients, ReplaceAppointment(appointments, appt), prescriptions, nextDoctorId, nextAppointmentId)
  {
    var after := ReplaceAppointment(appointments, appt);
    assert FindPatient(patients, appt.patientId).Some? by {
      assert FindAppointment(appointments, appt.id).value in appointments;
    }
    assert DistinctAppointmentIds(after) by {
      forall i, j | 0 <= i < j < |after| ensures AppointmentKey(after[i]) != AppointmentKey(after[j]) {
        ReplaceAppointmentAt(appointments, appt, i);
        ReplaceAppointmentAt(appointments, appt, j);
        assert AppointmentKey(appointments[i]) != AppointmentKey(appointments[j]);
      }
    }
    assert RowsAdmissible(after, nextAppointmentId) && ReferencesResolve(doctors, patients, after) by {
      forall a | a in after
        ensures a.id < nextAppointmentId && Scheduled <= a.status <= Completed
        ensures FindDoctor(doctors, a.doctorId).Some? && FindPatient(patients, a.patientId).Some?
      {
        var i :| 0 <= i < |after| && after[i] == a;
        ReplaceAppointmentAt(appointments, appt, i);
        assert appointments[i] in appointments;
      }
    }
  }

  lemma MarkCompletedPreserves(
    doctors: seq<Doctor>, patients: seq<Patient>, appointments: seq<AppointmentRecord>,
    prescriptions: seq<Prescription>, nextDoctorId: int, nextAppointmentId: int, id: int)
    requires Consistent(doctors, patients, appointments, prescriptions, nextDoctorId, nextAppointmentId)
    ensures Consistent(doctors, patients, MarkCompleted(appointments, id), prescriptions, nextDoctorId, nextAppointmentId)
  {
    var after := MarkCompleted(appointments, id);
    assert DistinctAppointmentIds(after) by {
      forall i, j | 0 <= i < j < |after| ensures AppointmentKey(after[i]) != AppointmentKey(after[j]) {
        assert AppointmentKey(appointments[i]) != AppointmentKey(appointments[j]);
      }
    }
    assert RowsAdmissible(after, nextAppointmentId) && ReferencesResolve(doctors, patients, after) by {
      forall a | a in after
        ensures a.id < nextAppointmentId && Scheduled <= a.status <= Completed
        ensures FindDoctor(doctors, a.doctorId).Some? && FindPatient(patients, a.patientId).Some?
      {
        var i :| 0 <= i < |after| && after[i] == a;
        assert appointments[i] in appointments;
      }
    }
  }

  lemma RemoveAppointmentPreserves(
    doctors: seq<Doctor>, patients: seq<Patient>, appointments: seq<AppointmentRecord>,
    prescriptions: seq<Prescription>, nextDoctorId: int, nextAppointmentId: int, id: int)
    requires Consistent(doctors, patients, appointments, prescriptions, nextDoctorId, nextAppointmentId)
    ensures Consistent(doctors, patients, RemoveAppointment(appointments, id), prescriptions, nextDoctorId, nextAppointmentId)
  {
    FilterKeepsDistinct(appointments, (a: AppointmentRecord) => a.id != id, AppointmentKey);
  }

  // ---------------------------------------------------------------------
  // Operations

  /** bookAppointment: the appointment is stored under a new id and the
      result is 1, unless the save throws (a store failure, a violated
      bean constraint or a dangling doctor or patient), in which case
      nothing changes and the result is 0. */
  method BookAppointment(repo: Repositories, appt: AppointmentRecord, now: DateTime, storeFails: bool) returns (code: int)
    requires repo.Valid()
    modifies repo
    ensures repo.Valid()
    ensures code == 1 <==>
      && !storeFails && Admissible(appt, now)
      && FindDoctor(old(repo.doctors), appt.doctorId).Some?
      && FindPatient(old(repo.patients), appt.patientId).Some?
    ensures code == 0 || code == 1
    ensures code == 1 ==> repo.appointments == old(repo.appointments) + [appt.(id := old(repo.nextAppointmentId))]
    ensures code == 1 ==> repo.nextAppointmentId == old(repo.nextAppointmentId) + 1
    ensures code == 1 ==>
      FindAppointment(repo.appointments, old(repo.nextAppointmentId)) == Some(appt.(id := old(repo.nextAppointmentId)))
    ensures code == 0 ==> repo.appointments == old(repo.appointments) && repo.nextAppointmentId == old(repo.nextAppointmentId)
    ensures repo.doctors == old(repo.doctors) && repo.patients == old(repo.patients)
    ensures repo.prescriptions == old(repo.prescriptions) && repo.nextDoctorId == old(repo.nextDoctorId)
  {
    if storeFails || !Admissible(appt, now)
      || FindDoctor(repo.doctors, appt.doctorId).None? || FindPatient(repo.patients, appt.patientId).None?
    {
      return 0;
    }
    var row := appt.(id := repo.nextAppointmentId);
    AppendAppointmentPreserves(repo.doctors, repo.patients, repo.appointments, repo.prescriptions,
      repo.nextDoctorId, repo.nextAppointmentId, row);
    // the new row is the one findById returns for the generated id
    FoundAppointmentIsUnique(repo.appointments + [row], row);
    repo.appointments := repo.appointments + [row];
    repo.nextAppointmentId := repo.nextAppointmentId + 1;
    code := 1;
  }

  /** The checks of updateAppointment, in the source's order. */
  function UpdateVerdict(
    doctors: seq<Doctor>, appointments: seq<AppointmentRecord>, appt: AppointmentRecord,
    now: DateTime, storeFails: bool): (r: Outcome)
    ensures r == NotFound <==> FindAppointment(appointments, appt.id).None?
    ensures r == PatientMismatch <==>
      FindAppointment(appointments, appt.id).Some? && FindAppointment(appointments, appt.id).value.patientId != appt.patientId
    ensures r == InvalidDoctor <==>
      && FindAppointment(appointments, appt.id).Some? && FindAppointment(appointments, appt.id).value.patientId == appt.patientId
      && FindDoctor(doctors, appt.doctorId).None?
    ensures r != Forbidden
  {
    match FindAppointment(appointments, appt.id)
    case None => NotFound
    case Some(existing) =>
      if existing.patientId != appt.patientId then PatientMismatch
      else
        var v := ValidateAppointment(doctors, appointments, appt.doctorId, appt.appointmentTime.date, appt.appointmentTime.time);
        if v == 1 then (if storeFails || !Admissible(appt, now) then Error else Ok)
        else if v == -1 then InvalidDoctor
        else Conflict
  }

  /** Past the look-up and the patient check, an update for a known doctor
      succeeds exactly when the slot is one of the doctor's free slots, the
      appointment satisfies its bean constraints and the store does not
      fail; it conflicts exactly when the slot is not free. */
  lemma UpdateVerdictForKnownDoctor(
    doctors: seq<Doctor>, appointments: seq<AppointmentRecord>, appt: AppointmentRecord, now: DateTime, storeFails: bool)
    requires FindAppointment(appointments, appt.id).Some?
    requires FindAppointment(appointments, appt.id).value.patientId == appt.patientId
    requires FindDoctor(doctors, appt.doctorId).Some?
    ensures UpdateVerdict(doctors, appointments, appt, now, storeFails) == Ok <==>
      && appt.appointmentTime.time in FindDoctor(doctors, appt.doctorId).value.availableTimes
      && !IsBooked(appointments, appt.doctorId, appt.appointmentTime.date, appt.appointmentTime.time)
      && Admissible(appt, now) && !storeFails
    ensures UpdateVerdict(doctors, appointments, appt, now, storeFails) == Conflict <==>
      || appt.appointmentTime.time !in FindDoctor(doctors, appt.doctorId).value.availableTimes
      || IsBooked(appointments, appt.doctorId, appt.appointmentTime.date, appt.appointmentTime.time)
  {
  }

  lemma UpdateOkPreserves(
    doctors: seq<Doctor>, patients: seq<Patient>, appointments: seq<AppointmentRecord>,
    prescriptions: seq<Prescription>, nextDoctorId: int, nextAppointmentId: int,
    appt: AppointmentRecord, now: DateTime, storeFails: bool)
    requires Consistent(doctors, patients, appointments, prescriptions, nextDoctorId, nextAppointmentId)
    requires UpdateVerdict(doctors, appointments, appt, now, storeFails) == Ok
    ensures Consistent(doctors, patients, ReplaceAppointment(appointments, appt), prescriptions, nextDoctorId, nextAppointmentId)
  {
    ReplaceAppointmentPreserves(doctors, patients, appointments, prescriptions, nextDoctorId, nextAppointmentId, appt);
  }

  /** updateAppointment: on Ok the stored row with the appointment's id is
      replaced by the appointment; every other outcome changes nothing. */
  method UpdateAppointment(repo: Repositories, appt: AppointmentRecord, now: DateTime, storeFails: bool) returns (outcome: Outcome)
    requires repo.Valid()
    modifies repo
    ensures repo.Valid()
    ensures outcome == UpdateVerdict(old(repo.doctors), old(repo.appointments), appt, now, storeFails)
    ensures outcome == Ok ==> repo.appointments == ReplaceAppointment(old(repo.appointments), appt)
    ensures outcome != Ok ==> repo.appointments == old(repo.appointments)
    ensures repo.doctors == old(repo.doctors) && repo.patients == old(repo.patients)
    ensures repo.prescriptions == old(repo.prescriptions)
    ensures repo.nextDoctorId == old(repo.nextDoctorId) && repo.nextAppointmentId == old(repo.nextAppointmentId)
  {
    outcome := UpdateVerdict(repo.doctors, repo.appointments, appt, now, storeFails);
    if outcome == Ok {
      UpdateOkPreserves(repo.doctors, repo.patients, repo.appointments, repo.prescriptions,
        repo.nextDoctorId, repo.nextAppointmentId, appt, now, storeFails);
      repo.appointments := ReplaceAppointment(repo.appointments, appt);
    }
  }

  /** Submitting an update that keeps the stored doctor and start time never
      succeeds: validation counts the appointment's own row as a booking. */
  lemma UnchangedSlotUpdateConflicts(
    doctors: seq<Doctor>, appointments: seq<AppointmentRecord>, appt: AppointmentRecord, now: DateTime, storeFails: bool)
    requires FindAppointment(appointments, appt.id).Some?
    requires FindAppointment(appointments, appt.id).value.doctorId == appt.doctorId
    requires FindAppointment(appointments, appt.id).value.appointmentTime == appt.appointmentTime
    ensures UpdateVerdict(doctors, appointments, appt, now, storeFails) != Ok
  {
    var existing := FindAppointment(appointments, appt.id).value;
    assert IsBooked(appointments, appt.doctorId, appt.appointmentTime.date, appt.appointmentTime.time) by {
      assert existing in appointments && existing.appointmentTime == DateTime(appt.appointmentTime.date, appt.appointmentTime.time);
    }
  }

  /** The checks of cancelAppointment, in the source's order. The requester
      is the patient whose email the token carries; an email no patient has
      makes the source dereference null, which surfaces as an Error. */
  function CancelVerdict(
    patients: seq<Patient>, appointments: seq<AppointmentRecord>, id: int, requesterEmail: string, storeFails: bool): (r: Outcome)
    ensures r == NotFound <==> FindAppointment(appointments, id).None?
    ensures r == Forbidden <==>
      && FindAppointment(appointments, id).Some?
      && FindPatientByEmail(patients, requesterEmail).Some?
      && FindPatientByEmail(patients, requesterEmail).value.id != FindAppointment(appointments, id).value.patientId
    ensures r == Ok <==>
      && FindAppointment(appointments, id).Some?
      && FindPatientByEmail(patients, requesterEmail).Some?
      && FindPatientByEmail(patients, requesterEmail).value.id == FindAppointment(appointments, id).value.patientId
      && !storeFails
    ensures r in {Ok, NotFound, Forbidden, Error}
  {
    match FindAppointment(appointments, id)
    case None => NotFound
    case Some(existing) =>
      match FindPatientByEmail(patients, requesterEmail)
      case None => Error
      case Some(patient) =>
        if patient.id != existing.patientId then Forbidden
        else if storeFails then Error
        else Ok
  }

  /** cancelAppointment: on Ok the appointment is deleted; every other
      outcome changes nothing. */
  method CancelAppointment(repo: Repositories, id: int, requesterEmail: string, storeFails: bool) returns (outcome: Outcome)
    requires repo.Valid()
    modifies repo
    ensures repo.Valid()
    ensures outcome == CancelVerdict(old(repo.patients), old(repo.appointments), id, requesterEmail, storeFails)
    ensures outcome == Ok ==> repo.appointments == RemoveAppointment(old(repo.appointments), id)
    ensures outcome != Ok ==> repo.appointments == old(repo.appointments)
    ensures repo.doctors == old(repo.doctors) && repo.patients == old(repo.patients)
    ensures repo.prescriptions == old(repo.prescriptions)
    ensures repo.nextDoctorId == old(repo.nextDoctorId) && repo.nextAppointmentId == old(repo.nextAppointmentId)
  {
    outcome := CancelVerdict(repo.patients, repo.appointments, id, requesterEmail, storeFails);
    if outcome == Ok {
      RemoveAppointmentPreserves(repo.doctors, repo.patients, repo.appointments, repo.prescriptions,
        repo.nextDoctorId, repo.nextAppointmentId, id);
      repo.appointments := RemoveAppointment(repo.appointments, id);
    }
  }

  /** changeStatus: the appointment with that id, if any, gets status
      Completed; nothing else changes. */
  method ChangeStatus(repo: Repositories, id: int)
    requires repo.Valid()
    modifies repo
    ensures repo.Valid()
    ensures repo.appointments == MarkCompleted(old(repo.appointments), id)
    ensures repo.doctors == old(repo.doctors) && repo.patients == old(repo.patients)
    ensures repo.prescriptions == old(repo.prescriptions)
    ensures repo.nextDoctorId == old(repo.nextDoctorId) && repo.nextAppointmentId == old(repo.nextAppointmentId)
  {
    MarkCompletedPreserves(repo.doctors, repo.patients, repo.appointments, repo.prescriptions,
      repo.nextDoctorId, repo.nextAppointmentId, id);
    repo.appointments := MarkCompleted(repo.appointments, id);
  }

  // ---------------------------------------------------------------------
  // getAppointment

  /** The patient-name filter of getAppointment: the literal "null" means
      no filter, any other text must occur in the patient's name, ignoring
      case. */
  predicate PatientNameMatches(patients: seq<Patient>, a: AppointmentRecord, patientName: string) {
    patientName == "null" ||
    (FindPatient(patients, a.patientId).Some? && ContainsIgnoreCase(FindPatient(patients, a.patientId).value.name, patientName))
  }

  /** The rows getAppointment reads: the doctor's appointments inside the
      day window, filtered by patient name unless the name is "null". */
  function DayAppointments(
    patients: seq<Patient>, appointments: seq<AppointmentRecord>, doctorId: int, date: int, patientName: string): (r: seq<AppointmentRecord>)
    ensures SubsequenceOf(r, appointments)
    ensures forall a :: a in r <==>
      a in appointments && a.doctorId == doctorId && a.appointmentTime.date == date && PatientNameMatches(patients, a, patientName)
  {
    var inWindow := (a: AppointmentRecord) =>
      a.doctorId == doctorId && Between(a.appointmentTime, AtTime(date, Midnight), AtTime(date, LastMinute))
      && PatientNameMatches(patients, a, patientName);
    FilterIsSubsequence(appointments, inWindow);
    assert forall a :: inWindow(a) <==> a.doctorId == doctorId && a.appointmentTime.date == date && PatientNameMatches(patients, a, patientName) by {
      forall a: AppointmentRecord {
        WithinDayIffSameDate(a.appointmentTime, date);
      }
    }
    Filter(appointments, inWindow)
  }

  /** The AppointmentDTO built from a row and its doctor and patient. */
  function ToDto(doctors: seq<Doctor>, patients: seq<Patient>, a: AppointmentRecord): (r: AppointmentDto)
    requires FindDoctor(doctors, a.doctorId).Some? && FindPatient(patients, a.patientId).Some?
    ensures r.id == a.id && r.doctorId == a.doctorId && r.patientId == a.patientId
    ensures r.doctorName == FindDoctor(doctors, a.doctorId).value.name
    ensures r.patientName == FindPatient(patients, a.patientId).value.name
    ensures r.appointmentTime == Some(a.appointmentTime) && r.status == a.status
    ensures r.appointmentDate == Some(a.appointmentTime.date) && r.appointmentTimeOnly == Some(a.appointmentTime.time)
    ensures r.patientEmail == FindPatient(patients, a.patientId).value.email
    ensures r.patientPhone == FindPatient(patients, a.patientId).value.phone
    ensures r.patientAddress == FindPatient(patients, a.patientId).value.address
    ensures r.endTime.Some? && AbsoluteMinutes(r.endTime.value) == AbsoluteMinutes(a.appointmentTime) + 60
  {
    var d := FindDoctor(doctors, a.doctorId).value;
    var p := FindPatient(patients, a.patientId).value;
    NewAppointmentDto(a.id, d.id, d.name, p.id, p.name, p.email, p.phone, p.address, Some(a.appointmentTime), a.status)
  }

  /** The DTOs of a list of rows, in the same order. */
  function ToDtos(doctors: seq<Doctor>, patients: seq<Patient>, rows: seq<AppointmentRecord>): (r: seq<AppointmentDto>)
    requires forall a :: a in rows ==> FindDoctor(doctors, a.doctorId).Some? && FindPatient(patients, a.patientId).Some?
    ensures |r| == |rows|
    ensures forall i :: 0 <= i < |rows| ==> r[i] == ToDto(doctors, patients, rows[i])
  {
    if rows == [] then [] else [ToDto(doctors, patients, rows[0])] + ToDtos(doctors, patients, rows[1..])
  }

  /** Every DTO getAppointment returns is the DTO of a stored appointment
      of that doctor on that date whose patient matches the name filter,
      so it carries the doctor, the date and a matching patient name. */
  lemma {:induction false} DayDtosSound(
    doctors: seq<Doctor>, patients: seq<Patient>, appointments: seq<AppointmentRecord>,
    doctorId: int, date: int, patientName: string)
    requires ReferencesResolve(doctors, patients, appointments)
    ensures forall dto :: dto in ToDtos(doctors, patients, DayAppointments(patients, appointments, doctorId, date, patientName)) ==>
      exists a ::
        && a in appointments && a.doctorId == doctorId && a.appointmentTime.date == date
        && PatientNameMatches(patients, a, patientName) && dto == ToDto(doctors, patients, a)
    ensures forall dto :: dto in ToDtos(doctors, patients, DayAppointments(patients, appointments, doctorId, date, patientName)) ==>
      && dto.doctorId == doctorId && dto.appointmentDate == Some(date)
      && (patientName != "null" ==> ContainsIgnoreCase(dto.patientName, patientName))
  {
    var rows := DayAppointments(patients, appointments, doctorId, date, patientName);
    var dtos := ToDtos(doctors, patients, rows);
    forall dto | dto in dtos
      ensures exists a ::
        && a in appointments && a.doctorId == doctorId && a.appointmentTime.date == date
        && PatientNameMatches(patients, a, patientName) && dto == ToDto(doctors, patients, a)
      ensures dto.doctorId == doctorId && dto.appointmentDate == Some(date)
      ensures patientName != "null" ==> ContainsIgnoreCase(dto.patientName, patientName)
    {
      var i :| 0 <= i < |dtos| && dtos[i] == dto;
      assert rows[i] in rows;
    }
  }

  /** Every appointment of the doctor on that date with a matching patient
      name has its DTO in what getAppointment returns. */
  lemma {:induction false} DayDtosComplete(
    doctors: seq<Doctor>, patients: seq<Patient>, appointments: seq<AppointmentRecord>,
    doctorId: int, date: int, patientName: string)
    requires ReferencesResolve(doctors, patients, appointments)
    ensures forall a :: a in appointments ==>
      ((exists dto :: dto in ToDtos(doctors, patients, DayAppointments(patients, appointments, doctorId, date, patientName))
          && dto.id == a.id && dto.appointmentTime == Some(a.appointmentTime)
          && dto.patientId == a.patientId && dto.status == a.status)
       <== (a.doctorId == doctorId && a.appointmentTime.date == date && PatientNameMatches(patients, a, patientName)))
  {
    var rows := DayAppointments(patients, appointments, doctorId, date, patientName);
    var dtos := ToDtos(doctors, patients, rows);
    forall a | a in appointments && a.doctorId == doctorId && a.appointmentTime.date == date && PatientNameMatches(patients, a, patientName)
      ensures exists dto ::
        dto in dtos && dto.id == a.id && dto.appointmentTime == Some(a.appointmentTime)
        && dto.patientId == a.patientId && dto.status == a.status
    {
      var i :| 0 <= i < |rows| && rows[i] == a;
      assert dtos[i] in dtos;
    }
  }

  /** getAppointment. The doctor is the one whose email the token carries;
      None stands for the exception an unknown email raises. The result
      lists, in table order, one DTO per appointment of that doctor on
      `date` whose patient's name contains `patientName` (or every one when
      the name is "null"). */
  function GetAppointment(
    doctors: seq<Doctor>, patients: seq<Patient>, appointments: seq<AppointmentRecord>,
    patientName: string, date: int, doctorEmail: string): (r: Option<seq<AppointmentDto>>)
    requires ReferencesResolve(doctors, patients, appointments)
    ensures r.None? <==> FindDoctorByEmail(doctors, doctorEmail).None?
    ensures r.Some? ==>
      |r.value| == |DayAppointments(patients, appointments, FindDoctorByEmail(doctors, doctorEmail).value.id, date, patientName)|
    ensures r.Some? ==> forall dto :: dto in r.value ==>
      exists a ::
        && a in appointments && a.doctorId == FindDoctorByEmail(doctors, doctorEmail).value.id
        && a.appointmentTime.date == date && PatientNameMatches(patients, a, patientName)
        && dto == ToDto(doctors, patients, a)
    ensures r.Some? ==> forall dto :: dto in r.value ==>
      && dto.doctorId == FindDoctorByEmail(doctors, doctorEmail).value.id
      && dto.appointmentDate == Some(date)
      && (patientName != "null" ==> ContainsIgnoreCase(dto.patientName, patientName))
    ensures r.Some? ==> forall a :: a in appointments ==>
      ((exists dto :: dto in r.value && dto.id == a.id && dto.appointmentTime == Some(a.appointmentTime)
          && dto.patientId == a.patientId && dto.status == a.status)
       <== (a.doctorId == FindDoctorByEmail(doctors, doctorEmail).value.id && a.appointmentTime.date == date
            && PatientNameMatches(patients, a, patientName)))
  {
    match FindDoctorByEmail(doctors, doctorEmail)
    case None => None
    case Some(doctor) =>
      DayDtosSound(doctors, patients, appointments, doctor.id, date, patientName);
      DayDtosComplete(doctors, patients, appointments, doctor.id, date, patientName);
      Some(ToDtos(doctors, patients, DayAppointments(patients, appointments, doctor.id, date, patientName)))
  }
}
