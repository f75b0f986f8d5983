/** PrescriptionController.savePrescription: the token gate, then the
    appointment is marked Completed, then the prescription is saved. The
    status change is its own transaction and is kept whatever the save
    answers. `tokenValid` is the verdict of the token check for the doctor
    role. */
module PrescriptionController {
  import opened Entities
  import opened Store
  import AppointmentService
  import PrescriptionService

  method SavePrescription(repo: Repositories, tokenValid: bool, p: Prescription, storeFails: bool)
    returns (status: Response)
    requires repo.Valid()
    modifies repo
    ensures repo.Valid()
    ensures !tokenValid ==> status == Unauthorized401
    ensures !tokenValid ==> repo.appointments == old(repo.appointments) && repo.prescriptions == old(repo.prescriptions)
    ensures tokenValid ==> repo.appointments == AppointmentService.MarkCompleted(old(repo.appointments), p.appointmentId)
    ensures tokenValid ==> status != Unauthorized401
    ensures tokenValid ==> (status == InternalError500 <==> storeFails)
    ensures tokenValid ==> (status == BadRequest400 <==>
      !storeFails && PrescriptionService.PrescriptionsFor(old(repo.prescriptions), p.appointmentId) != [])
    ensures tokenValid ==> (status == Created201 <==>
      !storeFails && PrescriptionService.PrescriptionsFor(old(repo.prescriptions), p.appointmentId) == [])
    ensures tokenValid && status == Created201 ==> repo.prescriptions == old(repo.prescriptions) + [p]
    ensures status != Created201 ==> repo.prescriptions == old(repo.prescriptions)
    ensures repo.doctors == old(repo.doctors) && repo.patients == old(repo.patients)
    ensures repo.nextDoctorId == old(repo.nextDoctorId) && repo.nextAppointmentId == old(repo.nextAppointmentId)
  {
    if !tokenValid {
      return Unauthorized401;
    }
    AppointmentService.ChangeStatus(repo, p.appointmentId);
    status := PrescriptionService.SavePrescription(repo, p, storeFails);
  }
}
