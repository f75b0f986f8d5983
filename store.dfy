/** The persistent store the services work on: one table per repository
    (DoctorRepository, PatientRepository, AppointmentRepository,
    PrescriptionRepository), with the id generators of the tables that
    assign ids on insert. */
module Store {
  import opened Times
  import opened Entities

  /** Every appointment id is below the next generated id and every status
      is Scheduled or Completed. */
  predicate RowsAdmissible(appointments: seq<AppointmentRecord>, nextAppointmentId: int) {
    forall a :: a in appointments ==> a.id < nextAppointmentId && Scheduled <= a.status <= Completed
  }

  /** The store's integrity constraints: doctor and appointment ids are distinct and
      below the next generated id, every appointment's status is 0 or 1,
      every appointment's doctor and patient exist, and no appointment has
      two prescriptions. */
  ghost predicate Consistent(
    doctors: seq<Doctor>, patients: seq<Patient>, appointments: seq<AppointmentRecord>,
    prescriptions: seq<Prescription>, nextDoctorId: int, nextAppointmentId: int)
  {
    && DistinctDoctorIds(doctors)
    && (forall d :: d in doctors ==> d.id < nextDoctorId)
    && DistinctAppointmentIds(appointments)
    && RowsAdmissible(appointments, nextAppointmentId)
    && ReferencesResolve(doctors, patients, appointments)
    && OnePrescriptionPerAppointment(prescriptions)
  }

  class Repositories {
    var doctors: seq<Doctor>
    var patients: seq<Patient>
    var appointments: seq<AppointmentRecord>
    var prescriptions: seq<Prescription>
    var nextDoctorId: int
    var nextAppointmentId: int

    ghost predicate Valid()
      reads this
    {
      Consistent(doctors, patients, appointments, prescriptions, nextDoctorId, nextAppointmentId)
    }

    /** A store with the given registered patients and nothing else. */
    constructor (registered: seq<Patient>)
      ensures Valid()
      ensures patients == registered
      ensures doctors == [] && appointments == [] && prescriptions == []
    {
      doctors := [];
      patients := registered;
      appointments := [];
      prescriptions := [];
      nextDoctorId := 1;
      nextAppointmentId := 1;
    }
  }
}
