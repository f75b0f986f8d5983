/** AppointmentController.bookAppointment: the token gate, then the slot
    check, then the booking. `tokenValid` is the verdict of the token check
    for the patient role. The request body is an Appointment entity; what
    the booking stores is its row. */
module AppointmentController {
  import opened Times
  import opened Entities
  import opened Store
  import opened Service
  import AppointmentService
  import opened AppointmentModel

  /** bookAppointment: 401 for a bad token, 400 for an unknown doctor, 409
      when the slot is not one of the doctor's free slots, otherwise the
      booking's result: 201 when it stored the appointment, 500 when it did
      not. Only 201 changes the store, and after it the slot no longer
      validates, so the same slot cannot be booked twice. */
  method BookAppointment(repo: Repositories, tokenValid: bool, appointment: Appointment, now: DateTime, storeFails: bool)
    returns (status: Response)
    requires repo.Valid()
    modifies repo
    ensures repo.Valid()
    ensures status == Unauthorized401 <==> !tokenValid
    ensures status == BadRequest400 <==> tokenValid && FindDoctor(old(repo.doctors), appointment.doctorId).None?
    ensures status == Conflict409 <==>
      && tokenValid
      && ValidateAppointment(old(repo.doctors), old(repo.appointments), appointment.doctorId,
           appointment.appointmentTime.date, appointment.appointmentTime.time) == 0
    ensures status == Created201 <==>
      && tokenValid
      && ValidateAppointment(old(repo.doctors), old(repo.appointments), appointment.doctorId,
           appointment.appointmentTime.date, appointment.appointmentTime.time) == 1
      && !storeFails && Admissible(appointment.Record(), now) && FindPatient(old(repo.patients), appointment.patientId).Some?
    ensures status in {Unauthorized401, BadRequest400, Conflict409, Created201, InternalError500}
    ensures status == Created201 ==> repo.appointments == old(repo.appointments) + [appointment.Record().(id := old(repo.nextAppointmentId))]
    ensures status == Created201 ==> repo.nextAppointmentId == old(repo.nextAppointmentId) + 1
    ensures status == Created201 ==>
      ValidateAppointment(repo.doctors, repo.appointments, appointment.doctorId,
        appointment.appointmentTime.date, appointment.appointmentTime.time) == 0
    ensures status != Created201 ==> repo.appointments == old(repo.appointments) && repo.nextAppointmentId == old(repo.nextAppointmentId)
    ensures repo.doctors == old(repo.doctors) && repo.patients == old(repo.patients)
    ensures repo.prescriptions == old(repo.prescriptions) && repo.nextDoctorId == old(repo.nextDoctorId)
  {
    if !tokenValid {
      return Unauthorized401;
    }
    var appt := appointment.Record();
    var validationCode := ValidateAppointment(repo.doctors, repo.appointments, appt.doctorId,
      appt.appointmentTime.date, appt.appointmentTime.time);
    if validationCode == -1 {
      return BadRequest400;
    } else if validationCode == 0 {
      return Conflict409;
    }
    ghost var before := repo.appointments;
    var result := AppointmentService.BookAppointment(repo, appt, now, storeFails);
    if result == 1 {
      BookedSlotConflicts(repo.doctors, before, appt.(id := repo.nextAppointmentId - 1));
      status := Created201;
    } else {
      status := InternalError500;
    }
  }
}
