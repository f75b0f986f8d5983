/** The records the scheduling core stores: doctors, patients, appointments
    and prescriptions, with the look-ups the repositories offer on them. A
    table is a sequence of rows in insertion order. */
module Entities {
  import opened Times
  import opened Seqs

  datatype Option<T> = None | Some(value: T)

  /** The HTTP statuses the core's endpoints answer with. */
  datatype Response = Ok200 | Created201 | BadRequest400 | Unauthorized401 | Conflict409 | InternalError500

  /** Doctor. `availableTimes` is the recurring daily offering, independent
      of any date. In the Java source this list holds Strings while the
      booked times it is compared with are LocalTime values (see the
      AsWritten module); here both are TimeOfDay. */
  datatype Doctor = Doctor(
    id: int,
    name: string,
    email: string,
    password: string,
    phone: string,
    specialty: string,
    availableTimes: seq<TimeOfDay>)

  datatype Patient = Patient(
    id: int,
    name: string,
    email: string,
    password: string,
    phone: string,
    address: string)

  /** Appointment status values */
  const Scheduled := 0
  const Completed := 1

  /** One appointment row. The @ManyToOne doctor and patient references are
      held as their foreign keys. */
  datatype AppointmentRecord = AppointmentRecord(
    id: int,
    doctorId: int,
    patientId: int,
    appointmentTime: DateTime,
    status: int)

  /** A prescription, keyed by the appointment it was issued for; its
      medical content is one opaque text. */
  datatype Prescription = Prescription(appointmentId: int, content: string)

  /** The bean-validation constraints of the Appointment entity: status in
      [0, 1] (@Min(0), @Max(1)) and a start strictly after `now` (@Future). */
  predicate Admissible(a: AppointmentRecord, now: DateTime) {
    Scheduled <= a.status <= Completed && Before(now, a.appointmentTime)
  }

  /** doctorRepository.findById */
  function FindDoctor(doctors: seq<Doctor>, id: int): (r: Option<Doctor>)
    ensures r.Some? ==> r.value in doctors && r.value.id == id
    ensures r.None? <==> forall d :: d in doctors ==> d.id != id
  {
    if doctors == [] then None
    else if doctors[0].id == id then Some(doctors[0])
    else FindDoctor(doctors[1..], id)
  }

  /** doctorRepository.findByEmail */
  function FindDoctorByEmail(doctors: seq<Doctor>, email: string): (r: Option<Doctor>)
    ensures r.Some? ==> r.value in doctors && r.value.email == email
    ensures r.None? <==> forall d :: d in doctors ==> d.email != email
  {
    if doctors == [] then None
    else if doctors[0].email == email then Some(doctors[0])
    else FindDoctorByEmail(doctors[1..], email)
  }

  /** patientRepository.findById */
  function FindPatient(patients: seq<Patient>, id: int): (r: Option<Patient>)
    ensures r.Some? ==> r.value in patients && r.value.id == id
    ensures r.None? <==> forall p :: p in patients ==> p.id != id
  {
    if patients == [] then None
    else if patients[0].id == id then Some(patients[0])
    else FindPatient(patients[1..], id)
  }

  /** patientRepository.findByEmail */
  function FindPatientByEmail(patients: seq<Patient>, email: string): (r: Option<Patient>)
    ensures r.Some? ==> r.value in patients && r.value.email == email
    ensures r.None? <==> forall p :: p in patients ==> p.email != email
  {
    if patients == [] then None
    else if patients[0].email == email then Some(patients[0])
    else FindPatientByEmail(patients[1..], email)
  }

  /** patientRepository.findByEmailOrPhone */
  function FindPatientByEmailOrPhone(patients: seq<Patient>, email: string, phone: string): (r: Option<Patient>)
    ensures r.Some? ==> r.value in patients && (r.value.email == email || r.value.phone == phone)
    ensures r.None? <==> forall p :: p in patients ==> p.email != email && p.phone != phone
  {
    if patients == [] then None
    else if patients[0].email == email || patients[0].phone == phone then Some(patients[0])
    else FindPatientByEmailOrPhone(patients[1..], email, phone)
  }

  /** appointmentRepository.findById */
  function FindAppointment(appointments: seq<AppointmentRecord>, id: int): (r: Option<AppointmentRecord>)
    ensures r.Some? ==> r.value in appointments && r.value.id == id
    ensures r.None? <==> forall a :: a in appointments ==> a.id != id
  {
    if appointments == [] then None
    else if appointments[0].id == id then Some(appointments[0])
    else FindAppointment(appointments[1..], id)
  }

  function DoctorKey(d: Doctor): int { d.id }

  function AppointmentKey(a: AppointmentRecord): int { a.id }

  /** Primary keys: no two rows share an id. */
  predicate DistinctDoctorIds(doctors: seq<Doctor>) {
    DistinctBy(doctors, DoctorKey)
  }

  predicate DistinctAppointmentIds(appointments: seq<AppointmentRecord>) {
    DistinctBy(appointments, AppointmentKey)
  }

  /** At most one prescription per appointment id. */
  predicate OnePrescriptionPerAppointment(prescriptions: seq<Prescription>) {
    forall i, j :: 0 <= i < j < |prescriptions| ==> prescriptions[i].appointmentId != prescriptions[j].appointmentId
  }

  /** With distinct ids, the row findById returns is the only one with that id. */
  lemma FoundAppointmentIsUnique(appointments: seq<AppointmentRecord>, a: AppointmentRecord)
    requires DistinctAppointmentIds(appointments)
    requires a in appointments
    ensures FindAppointment(appointments, a.id) == Some(a)
  {
    var i :| 0 <= i < |appointments| && appointments[i] == a;
    var b := FindAppointment(appointments, a.id).value;
    var j :| 0 <= j < |appointments| && appointments[j] == b;
    assert AppointmentKey(appointments[i]) == AppointmentKey(appointments[j]);
  }

  /** Referential integrity: every appointment's doctor and patient exist. */
  predicate ReferencesResolve(doctors: seq<Doctor>, patients: seq<Patient>, appointments: seq<AppointmentRecord>) {
    forall a :: a in appointments ==> FindDoctor(doctors, a.doctorId).Some? && FindPatient(patients, a.patientId).Some?
  }
}
