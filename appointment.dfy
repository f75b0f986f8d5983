/** The Appointment entity as an object: its setters change one field each,
    and its transient getters derive the end time, the date and the time
    of day from the start. The doctor and patient references are held as
    their ids. */
module AppointmentModel {
  import opened Times
  import opened Entities

  class Appointment {
    var id: int
    var doctorId: int
    var patientId: int
    var appointmentTime: DateTime
    var status: int

    /** The appointment a request body describes. */
    constructor (id: int, doctorId: int, patientId: int, appointmentTime: DateTime, status: int)
      ensures this.id == id && this.doctorId == doctorId && this.patientId == patientId
      ensures this.appointmentTime == appointmentTime && this.status == status
    {
      this.id := id;
      this.doctorId := doctorId;
      this.patientId := patientId;
      this.appointmentTime := appointmentTime;
      this.status := status;
    }

    /** The row this object is saved as. */
    function Record(): (r: AppointmentRecord)
      reads this
      ensures r.id == id && r.doctorId == doctorId && r.patientId == patientId
      ensures r.appointmentTime == appointmentTime && r.status == status
    {
      AppointmentRecord(id, doctorId, patientId, appointmentTime, status)
    }

    /** getEndTime: one hour after the start, on the next date for a start
        from 23:00 on. */
    function EndTime(): (r: DateTime)
      reads this
      ensures AbsoluteMinutes(r) == AbsoluteMinutes(appointmentTime) + 60
      ensures r.date == if appointmentTime.time < 23 * 60 then appointmentTime.date else appointmentTime.date + 1
    {
      PlusOneHourRollsOver(appointmentTime);
      PlusHours(appointmentTime, 1)
    }

    /** getAppointmentDate */
    function AppointmentDate(): (r: int)
      reads this
    {
      DatePart(appointmentTime)
    }

    /** getAppointmentTimeOnly */
    function AppointmentTimeOnly(): (r: TimeOfDay)
      reads this
    {
      TimePart(appointmentTime)
    }

    method SetId(v: int)
      modifies this
      ensures id == v
      ensures doctorId == old(doctorId) && patientId == old(patientId)
      ensures appointmentTime == old(appointmentTime) && status == old(status)
    {
      id := v;
    }

    method SetDoctor(v: int)
      modifies this
      ensures doctorId == v
      ensures id == old(id) && patientId == old(patientId)
      ensures appointmentTime == old(appointmentTime) && status == old(status)
    {
      doctorId := v;
    }

    method SetPatient(v: int)
      modifies this
      ensures patientId == v
      ensures id == old(id) && doctorId == old(doctorId)
      ensures appointmentTime == old(appointmentTime) && status == old(status)
    {
      patientId := v;
    }

    method SetAppointmentTime(v: DateTime)
      modifies this
      ensures appointmentTime == v
      ensures id == old(id) && doctorId == old(doctorId) && patientId == old(patientId)
      ensures status == old(status)
    {
      appointmentTime := v;
    }

    /** setStatus accepts any value; the [0, 1] range is only enforced when
        the appointment is saved (Entities.Admissible). */
    method SetStatus(v: int)
      modifies this
      ensures status == v
      ensures id == old(id) && doctorId == old(doctorId) && patientId == old(patientId)
      ensures appointmentTime == old(appointmentTime)
    {
      status := v;
    }
  }

  /** The date and the time of day the getters return put back together
      give the start time. */
  lemma DateAndTimeRecompose(a: Appointment)
    ensures AtTime(a.AppointmentDate(), a.AppointmentTimeOnly()) == a.appointmentTime
  {
    SplitJoin(a.appointmentTime);
  }
}
