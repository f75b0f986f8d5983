/** AppointmentDTO: the display record of an appointment. Its constructor
    copies the given fields and, when a start time is given, derives the
    date part, the time-of-day part and the end time (one hour later).
    The getters are the datatype's field selectors. */
module AppointmentDtos {
  import opened Times
  import opened Entities

  datatype AppointmentDto = AppointmentDto(
    id: int,
    doctorId: int,
    doctorName: string,
    patientId: int,
    patientName: string,
    patientEmail: string,
    patientPhone: string,
    patientAddress: string,
    appointmentTime: Option<DateTime>,
    status: int,
    appointmentDate: Option<int>,
    appointmentTimeOnly: Option<TimeOfDay>,
    endTime: Option<DateTime>)

  /** The AppointmentDTO constructor; `None` stands for a null appointmentTime. */
  function NewAppointmentDto(
    id: int, doctorId: int, doctorName: string,
    patientId: int, patientName: string, patientEmail: string,
    patientPhone: string, patientAddress: string,
    appointmentTime: Option<DateTime>, status: int): (r: AppointmentDto)
    ensures r.id == id && r.doctorId == doctorId && r.doctorName == doctorName
    ensures r.patientId == patientId && r.patientName == patientName && r.patientEmail == patientEmail
    ensures r.patientPhone == patientPhone && r.patientAddress == patientAddress
    ensures r.appointmentTime == appointmentTime && r.status == status
    ensures appointmentTime.None? ==> r.appointmentDate.None? && r.appointmentTimeOnly.None? && r.endTime.None?
    ensures appointmentTime.Some? ==>
      && r.appointmentDate.Some? && r.appointmentTimeOnly.Some? && r.endTime.Some?
      && AtTime(r.appointmentDate.value, r.appointmentTimeOnly.value) == appointmentTime.value
      && AbsoluteMinutes(r.endTime.value) == AbsoluteMinutes(appointmentTime.value) + 60
  {
    match appointmentTime
    case None =>
      AppointmentDto(id, doctorId, doctorName, patientId, patientName, patientEmail,
        patientPhone, patientAddress, appointmentTime, status, None, None, None)
    case Some(start) =>
      AppointmentDto(id, doctorId, doctorName, patientId, patientName, patientEmail,
        patientPhone, patientAddress, appointmentTime, status,
        Some(DatePart(start)), Some(TimePart(start)), Some(PlusHours(start, 1)))
  }

  /** The derived end time is on the start's date up to a 22:59 start and on
      the next date from a 23:00 start. */
  lemma {:induction false} DtoEndTimeDate(dto: AppointmentDto, start: DateTime)
    requires dto.appointmentTime == Some(start) && dto.endTime.Some?
    requires AbsoluteMinutes(dto.endTime.value) == AbsoluteMinutes(start) + 60
    ensures dto.endTime.value.date == if start.time < 23 * 60 then start.date else start.date + 1
  {
    PlusOneHourRollsOver(start);
    AbsoluteMinutesInjective(dto.endTime.value, PlusHours(start, 1));
  }
}
