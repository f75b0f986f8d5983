/** PrescriptionService: storing a prescription, at most one per
    appointment, and reading the prescriptions of an appointment. The HTTP
    status a call answers with is part of its result. */
module PrescriptionService {
  import opened Seqs
  import opened Entities
  import opened Store

  /** prescriptionRepository.findByAppointmentId */
  function PrescriptionsFor(prescriptions: seq<Prescription>, appointmentId: int): (r: seq<Prescription>)
    ensures forall p :: p in r <==> p in prescriptions && p.appointmentId == appointmentId
  {
    Filter(prescriptions, (p: Prescription) => p.appointmentId == appointmentId)
  }

  /** Under the one-prescription-per-appointment constraint a look-up finds
      at most one prescription. */
  lemma {:induction false} AtMostOnePrescription(prescriptions: seq<Prescription>, appointmentId: int)
    requires OnePrescriptionPerAppointment(prescriptions)
    ensures |PrescriptionsFor(prescriptions, appointmentId)| <= 1
  {
    if prescriptions != [] {
      var rest := prescriptions[1..];
      assert OnePrescriptionPerAppointment(rest) by {
        forall i, j | 0 <= i < j < |rest| ensures rest[i].appointmentId != rest[j].appointmentId {
          assert rest[i] == prescriptions[i + 1] && rest[j] == prescriptions[j + 1];
        }
      }
      AtMostOnePrescription(rest, appointmentId);
      if prescriptions[0].appointmentId == appointmentId {
        forall q | q in rest ensures q.appointmentId != appointmentId {
          var k :| 0 <= k < |rest| && rest[k] == q;
          assert prescriptions[k + 1] == q;
        }
        FilterNone(rest, (p: Prescription) => p.appointmentId == appointmentId);
      }
    }
  }

  /** Appending a prescription for an appointment that has none keeps the
      constraint. */
  lemma AppendPrescriptionPreserves(prescriptions: seq<Prescription>, p: Prescription)
    requires OnePrescriptionPerAppointment(prescriptions)
    requires PrescriptionsFor(prescriptions, p.appointmentId) == []
    ensures OnePrescriptionPerAppointment(prescriptions + [p])
  {
    var after := prescriptions + [p];
    forall i, j | 0 <= i < j < |after| ensures after[i].appointmentId != after[j].appointmentId {
      if j == |prescriptions| {
        assert after[i] in prescriptions;
        assert after[i] !in PrescriptionsFor(prescriptions, p.appointmentId);
      } else {
        assert after[i] == prescriptions[i] && after[j] == prescriptions[j];
      }
    }
  }

  /** savePrescription: 201 and the prescription stored when the appointment
      has none yet; 400 and no change when it has one; 500 and no change
      when the store fails. */
  method SavePrescription(repo: Repositories, p: Prescription, storeFails: bool) returns (status: Response)
    requires repo.Valid()
    modifies repo
    ensures repo.Valid()
    ensures status == InternalError500 <==> storeFails
    ensures status == BadRequest400 <==> !storeFails && PrescriptionsFor(old(repo.prescriptions), p.appointmentId) != []
    ensures status == Created201 <==> !storeFails && PrescriptionsFor(old(repo.prescriptions), p.appointmentId) == []
    ensures status == Created201 ==> repo.prescriptions == old(repo.prescriptions) + [p]
    ensures status != Created201 ==> repo.prescriptions == old(repo.prescriptions)
    ensures repo.doctors == old(repo.doctors) && repo.patients == old(repo.patients)
    ensures repo.appointments == old(repo.appointments)
    ensures repo.nextDoctorId == old(repo.nextDoctorId) && repo.nextAppointmentId == old(repo.nextAppointmentId)
  {
    if storeFails {
      return InternalError500;
    }
    if PrescriptionsFor(repo.prescriptions, p.appointmentId) != [] {
      return BadRequest400;
    }
    AppendPrescriptionPreserves(repo.prescriptions, p);
    repo.prescriptions := repo.prescriptions + [p];
    status := Created201;
  }

  /** A second savePrescription for the same appointment is refused. */
  lemma SavedPrescriptionBlocksAnother(prescriptions: seq<Prescription>, p: Prescription, q: Prescription)
    requires q.appointmentId == p.appointmentId
    ensures PrescriptionsFor(prescriptions + [p], q.appointmentId) != []
  {
    assert p in PrescriptionsFor(prescriptions + [p], q.appointmentId);
  }

  /** getPrescription: 200 with the appointment's prescriptions (at most
      one), or 500 with nothing when the store fails. Nothing changes. */
  method GetPrescription(repo: Repositories, appointmentId: int, storeFails: bool) returns (status: Response, found: seq<Prescription>)
    requires repo.Valid()
    ensures status == (if storeFails then InternalError500 else Ok200)
    ensures storeFails ==> found == []
    ensures !storeFails ==> forall x :: x in found <==> x in repo.prescriptions && x.appointmentId == appointmentId
    ensures |found| <= 1
  {
    if storeFails {
      return InternalError500, [];
    }
    AtMostOnePrescription(repo.prescriptions, appointmentId);
    found := PrescriptionsFor(repo.prescriptions, appointmentId);
    status := Ok200;
  }
}
