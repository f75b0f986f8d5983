/** Service: the shared facade the controllers call. It routes a doctor
    search to the DoctorService query matching the criteria given, checks a
    requested appointment slot, checks a registering patient for
    uniqueness, and routes a patient's history search. */
module Service {
  import opened Times
  import opened Seqs
  import opened Entities
  import opened AppointmentDtos
  import opened DoctorService

  // ---------------------------------------------------------------------
  // filterDoctor

  /** The DoctorService query filterDoctor calls. */
  datatype DoctorQuery =
    | ByNameSpecialtyAndTime
    | ByNameAndSpecialty
    | ByNameAndTime
    | ByTimeAndSpecialty
    | ByName
    | BySpecialty
    | ByTime
    | AllDoctors

  /** filterDoctor's if-chain: which query each combination of given (Some)
      and null (None) criteria reaches. Each of the eight combinations has
      its own query. */
  function DoctorRoute(name: Option<string>, specialty: Option<string>, time: Option<string>): (q: DoctorQuery)
    ensures q == ByNameSpecialtyAndTime <==> name.Some? && specialty.Some? && time.Some?
    ensures q == ByNameAndSpecialty <==> name.Some? && specialty.Some? && time.None?
    ensures q == ByNameAndTime <==> name.Some? && specialty.None? && time.Some?
    ensures q == ByTimeAndSpecialty <==> name.None? && specialty.Some? && time.Some?
    ensures q == ByName <==> name.Some? && specialty.None? && time.None?
    ensures q == BySpecialty <==> name.None? && specialty.Some? && time.None?
    ensures q == ByTime <==> name.None? && specialty.None? && time.Some?
    ensures q == AllDoctors <==> name.None? && specialty.None? && time.None?
  {
    if name.Some? && specialty.Some? && time.Some? then ByNameSpecialtyAndTime
    else if name.Some? && specialty.Some? then ByNameAndSpecialty
    else if name.Some? && time.Some? then ByNameAndTime
    else if specialty.Some? && time.Some? then ByTimeAndSpecialty
    else if name.Some? then ByName
    else if specialty.Some? then BySpecialty
    else if time.Some? then ByTime
    else AllDoctors
  }

  /** A doctor meets every criterion that is given; a null criterion is no
      restriction. */
  predicate MeetsCriteria(d: Doctor, name: Option<string>, specialty: Option<string>, time: Option<string>) {
    && (name.None? || NameMatches(d, name.value))
    && (specialty.None? || SpecialtyMatches(d, specialty.value))
    && (time.None? || AvailableInPeriod(d, time.value))
  }

  /** The doctors meeting the criteria, in table order. */
  function MatchingDoctors(doctors: seq<Doctor>, name: Option<string>, specialty: Option<string>, time: Option<string>): (r: seq<Doctor>)
    ensures SubsequenceOf(r, doctors)
    ensures forall d :: d in r <==> d in doctors && MeetsCriteria(d, name, specialty, time)
  {
    FilterIsSubsequence(doctors, (d: Doctor) => MeetsCriteria(d, name, specialty, time));
    Filter(doctors, (d: Doctor) => MeetsCriteria(d, name, specialty, time))
  }

  /** filterDoctor: whichever query the criteria route to, the result is
      exactly the doctors meeting all given criteria, in table order. */
  function FilterDoctor(doctors: seq<Doctor>, name: Option<string>, specialty: Option<string>, time: Option<string>): (r: seq<Doctor>)
    ensures r == MatchingDoctors(doctors, name, specialty, time)
  {
    var mc := (d: Doctor) => MeetsCriteria(d, name, specialty, time);
    match DoctorRoute(name, specialty, time)
    case ByNameSpecialtyAndTime =>
      FilterFusion(doctors, (d: Doctor) => NameMatches(d, name.value) && SpecialtyMatches(d, specialty.value),
        (d: Doctor) => AvailableInPeriod(d, time.value), mc);
      FilterDoctorsByNameSpecialtyAndTime(doctors, name.value, specialty.value, time.value)
    case ByNameAndSpecialty =>
      FilterExtensional(doctors, (d: Doctor) => NameMatches(d, name.value) && SpecialtyMatches(d, specialty.value), mc);
      FilterDoctorByNameAndSpecialty(doctors, name.value, specialty.value)
    case ByNameAndTime =>
      FilterFusion(doctors, (d: Doctor) => NameMatches(d, name.value), (d: Doctor) => AvailableInPeriod(d, time.value), mc);
      FilterDoctorByNameAndTime(doctors, name.value, time.value)
    case ByTimeAndSpecialty =>
      FilterFusion(doctors, (d: Doctor) => SpecialtyMatches(d, specialty.value), (d: Doctor) => AvailableInPeriod(d, time.value), mc);
      FilterDoctorByTimeAndSpecialty(doctors, specialty.value, time.value)
    case ByName =>
      FilterExtensional(doctors, (d: Doctor) => NameMatches(d, name.value), mc);
      FindDoctorByName(doctors, name.value)
    case BySpecialty =>
      FilterExtensional(doctors, (d: Doctor) => SpecialtyMatches(d, specialty.value), mc);
      FilterDoctorBySpecialty(doctors, specialty.value)
    case ByTime =>
      FilterExtensional(doctors, (d: Doctor) => AvailableInPeriod(d, time.value), mc);
      FilterDoctorsByTime(doctors, time.value)
    case AllDoctors =>
      FilterAll(doctors, mc);
      doctors
  }

  /** With no criterion at all, filterDoctor returns every doctor. */
  lemma NoCriteriaReturnsAll(doctors: seq<Doctor>)
    ensures FilterDoctor(doctors, None, None, None) == doctors
  {
    FilterAll(doctors, (d: Doctor) => MeetsCriteria(d, None, None, None));
  }

  // ---------------------------------------------------------------------
  // validateAppointment

  /** validateAppointment: -1 for an unknown doctor, 1 when the time is one
      of the doctor's free slots on that date, 0 otherwise. */
  function ValidateAppointment(doctors: seq<Doctor>, appointments: seq<AppointmentRecord>, doctorId: int, date: int, time: TimeOfDay): (r: int)
    ensures r == -1 <==> FindDoctor(doctors, doctorId).None?
    ensures r == 1 <==>
      && FindDoctor(doctors, doctorId).Some?
      && time in FindDoctor(doctors, doctorId).value.availableTimes
      && !IsBooked(appointments, doctorId, date, time)
    ensures r == 0 <==>
      && FindDoctor(doctors, doctorId).Some?
      && (time !in FindDoctor(doctors, doctorId).value.availableTimes || IsBooked(appointments, doctorId, date, time))
    ensures FindDoctor(doctors, doctorId).Some? ==> (r == 1 <==> time in GetDoctorAvailability(doctors, appointments, doctorId, date))
  {
    if FindDoctor(doctors, doctorId).None? then -1
    else if time in GetDoctorAvailability(doctors, appointments, doctorId, date) then 1
    else 0
  }

  /** Once an appointment is stored, its own slot no longer validates. */
  lemma BookedSlotConflicts(doctors: seq<Doctor>, appointments: seq<AppointmentRecord>, a: AppointmentRecord)
    requires FindDoctor(doctors, a.doctorId).Some?
    ensures ValidateAppointment(doctors, appointments + [a], a.doctorId, a.appointmentTime.date, a.appointmentTime.time) == 0
  {
    assert a in appointments + [a];
  }

  /** Storing an appointment changes the verdict for no other doctor, date
      or time. */
  lemma BookingLeavesOtherSlots(
    doctors: seq<Doctor>, appointments: seq<AppointmentRecord>, a: AppointmentRecord,
    doctorId: int, date: int, time: TimeOfDay)
    requires doctorId != a.doctorId || DateTime(date, time) != a.appointmentTime
    ensures ValidateAppointment(doctors, appointments + [a], doctorId, date, time)
         == ValidateAppointment(doctors, appointments, doctorId, date, time)
  {
    assert IsBooked(appointments + [a], doctorId, date, time) <==> IsBooked(appointments, doctorId, date, time) by {
      if IsBooked(appointments + [a], doctorId, date, time) {
        var b :| b in appointments + [a] && b.doctorId == doctorId && b.appointmentTime == DateTime(date, time);
        assert b in appointments;
      }
    }
  }

  // ---------------------------------------------------------------------
  // validatePatient

  /** validatePatient: a new patient is acceptable exactly when no stored
      patient has the same email or the same phone. */
  function ValidatePatient(patients: seq<Patient>, patient: Patient): (r: bool)
    ensures r <==> forall p :: p in patients ==> p.email != patient.email && p.phone != patient.phone
  {
    FindPatientByEmailOrPhone(patients, patient.email, patient.phone).None?
  }

  // ---------------------------------------------------------------------
  // filterPatient

  /** The PatientService query filterPatient calls, with its arguments. */
  datatype PatientQuery =
    | ByDoctorAndCondition(doctorName: string, patientId: int, condition: string)
    | ByDoctor(doctorName: string, patientId: int)
    | ByCondition(patientId: int, condition: string)
    | PatientAppointments(patientId: int)

  /** filterPatient's if-chain: one query per combination of given criteria,
      always for the patient resolved from the caller's token. */
  function PatientRoute(condition: Option<string>, doctorName: Option<string>, patientId: int): (q: PatientQuery)
    ensures q.patientId == patientId
    ensures q.ByDoctorAndCondition? <==> condition.Some? && doctorName.Some?
    ensures q.ByDoctor? <==> condition.None? && doctorName.Some?
    ensures q.ByCondition? <==> condition.Some? && doctorName.None?
    ensures q.PatientAppointments? <==> condition.None? && doctorName.None?
    ensures (q.ByDoctorAndCondition? || q.ByDoctor?) ==> q.doctorName == doctorName.value
    ensures (q.ByDoctorAndCondition? || q.ByCondition?) ==> q.condition == condition.value
  {
    if condition.Some? && doctorName.Some? then ByDoctorAndCondition(doctorName.value, patientId, condition.value)
    else if doctorName.Some? then ByDoctor(doctorName.value, patientId)
    else if condition.Some? then ByCondition(patientId, condition.value)
    else PatientAppointments(patientId)
  }

  /** filterPatient. `email` is the email the token yields (None when
      extracting it fails); `run` stands for the PatientService queries,
      None when one fails. Every failure, and an unknown patient, gives the
      empty list. */
  function FilterPatient(
    patients: seq<Patient>, email: Option<string>, condition: Option<string>, doctorName: Option<string>,
    run: PatientQuery -> Option<seq<AppointmentDto>>): (r: seq<AppointmentDto>)
    ensures email.None? ==> r == []
    ensures email.Some? && FindPatientByEmail(patients, email.value).None? ==> r == []
    ensures email.Some? && FindPatientByEmail(patients, email.value).Some? ==>
      var q := PatientRoute(condition, doctorName, FindPatientByEmail(patients, email.value).value.id);
      r == if run(q).Some? then run(q).value else []
  {
    if email.None? then []
    else
      match FindPatientByEmail(patients, email.value)
      case None => []
      case Some(patient) =>
        match run(PatientRoute(condition, doctorName, patient.id))
        case None => []
        case Some(result) => result
  }
}
