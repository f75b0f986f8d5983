/** DoctorService: a doctor's free slots on a date, the doctor queries that
    the filter endpoint combines, and the admin operations that save,
    update and delete doctors. */
module DoctorService {
  import opened Times
  import opened Text
  import opened Seqs
  import opened Entities
  import opened Store

  // ---------------------------------------------------------------------
  // Availability

  /** appointmentRepository.findByDoctorIdAndAppointmentTimeBetween */
  function AppointmentsBetween(appointments: seq<AppointmentRecord>, doctorId: int, lo: DateTime, hi: DateTime): seq<AppointmentRecord> {
    Filter(appointments, (a: AppointmentRecord) => a.doctorId == doctorId && Between(a.appointmentTime, lo, hi))
  }

  /** The doctor has an appointment starting at `time` on `date`. */
  predicate IsBooked(appointments: seq<AppointmentRecord>, doctorId: int, date: int, time: TimeOfDay) {
    exists a :: a in appointments && a.doctorId == doctorId && a.appointmentTime == DateTime(date, time)
  }

  /** The times of day of the doctor's appointments inside the window
      [date 00:00, date 23:59], as getDoctorAvailability collects them. */
  function BookedTimes(appointments: seq<AppointmentRecord>, doctorId: int, date: int): (r: set<TimeOfDay>)
    ensures forall t: TimeOfDay :: t in r <==> IsBooked(appointments, doctorId, date, t)
  {
    var booked := AppointmentsBetween(appointments, doctorId, AtTime(date, Midnight), AtTime(date, LastMinute));
    var r := set a | a in booked :: a.appointmentTime.time;
    assert forall t: TimeOfDay :: t in r <==> IsBooked(appointments, doctorId, date, t) by {
      forall a | a in appointments {
        WithinDayIffSameDate(a.appointmentTime, date);
      }
    }
    r
  }

  predicate SortedTimes(s: seq<TimeOfDay>) {
    forall i, j :: 0 <= i < j < |s| ==> s[i] <= s[j]
  }

  /** Every element of `s` is at least `x`. */
  predicate AllAtLeast(x: TimeOfDay, s: seq<TimeOfDay>) {
    forall y :: y in s ==> x <= y
  }

  lemma ConsSorted(x: TimeOfDay, s: seq<TimeOfDay>)
    requires SortedTimes(s) && AllAtLeast(x, s)
    ensures SortedTimes([x] + s)
  {
    var r := [x] + s;
    forall i, j | 0 <= i < j < |r| ensures r[i] <= r[j] {
      assert r[j] == s[j - 1] && s[j - 1] in s;
      if i > 0 {
        assert r[i] == s[i - 1];
      }
    }
  }

  lemma HeadIsLeast(s: seq<TimeOfDay>)
    requires SortedTimes(s) && s != []
    ensures AllAtLeast(s[0], s)
  {
    forall y | y in s ensures s[0] <= y {
      var k :| 0 <= k < |s| && s[k] == y;
      if k > 0 {
        assert s[0] <= s[k];
      }
    }
  }

  lemma BoundSurvivesInsert(x: TimeOfDay, t: TimeOfDay, s: seq<TimeOfDay>, r: seq<TimeOfDay>)
    requires AllAtLeast(x, s) && x <= t
    requires multiset(r) == multiset(s) + multiset{t}
    ensures AllAtLeast(x, r)
  {
    forall y | y in r ensures x <= y {
      assert multiset(r)[y] > 0;
      if y != t {
        assert multiset(s)[y] == multiset(r)[y];
        assert y in s;
      }
    }
  }

  /** One step of insertion sort: `t` placed before the first larger slot. */
  function InsertTime(t: TimeOfDay, s: seq<TimeOfDay>): (r: seq<TimeOfDay>)
    requires SortedTimes(s)
    ensures SortedTimes(r)
    ensures multiset(r) == multiset(s) + multiset{t}
  {
    if s == [] then [t]
    else if t <= s[0] then
      HeadIsLeast(s);
      ConsSorted(t, s);
      [t] + s
    else
      assert s == [s[0]] + s[1..];
      var rest := InsertTime(t, s[1..]);
      HeadIsLeast(s);
      assert AllAtLeast(s[0], s[1..]);
      BoundSurvivesInsert(s[0], t, s[1..], rest);
      ConsSorted(s[0], rest);
      assert multiset([s[0]] + rest) == multiset{s[0]} + multiset(rest);
      assert multiset(s) == multiset{s[0]} + multiset(s[1..]);
      [s[0]] + rest
  }

  /** Stream.sorted on times of day: ascending, same elements. */
  function SortTimes(s: seq<TimeOfDay>): (r: seq<TimeOfDay>)
    ensures SortedTimes(r)
    ensures multiset(r) == multiset(s)
  {
    if s == [] then []
    else
      assert s == [s[0]] + s[1..];
      InsertTime(s[0], SortTimes(s[1..]))
  }

  /** The template slots that `booked` does not contain, in template order. */
  function UnbookedSlots(template: seq<TimeOfDay>, booked: set<TimeOfDay>): seq<TimeOfDay> {
    Filter(template, (slot: TimeOfDay) => slot !in booked)
  }

  /** Sorting the unbooked slots keeps each slot's multiplicity when it is
      not booked and drops it when it is. */
  lemma SortedUnbookedCount(template: seq<TimeOfDay>, booked: set<TimeOfDay>, t: TimeOfDay)
    ensures multiset(SortTimes(UnbookedSlots(template, booked)))[t] == if t in booked then 0 else multiset(template)[t]
    ensures t in SortTimes(UnbookedSlots(template, booked)) <==> t in template && t !in booked
  {
    var r := SortTimes(UnbookedSlots(template, booked));
    FilterCount(template, (slot: TimeOfDay) => slot !in booked, t);
    assert t in r <==> t in multiset(r);
    assert t in template <==> t in multiset(template);
  }

  /** getDoctorAvailability: the doctor's template minus the times of day
      already booked for that doctor on `date`, sorted ascending; empty for
      an unknown doctor. A template slot listed twice is returned twice. */
  function GetDoctorAvailability(doctors: seq<Doctor>, appointments: seq<AppointmentRecord>, doctorId: int, date: int): (r: seq<TimeOfDay>)
    ensures FindDoctor(doctors, doctorId).None? ==> r == []
    ensures SortedTimes(r)
    ensures forall t: TimeOfDay :: t in r <==>
      && FindDoctor(doctors, doctorId).Some?
      && t in FindDoctor(doctors, doctorId).value.availableTimes
      && !IsBooked(appointments, doctorId, date, t)
    ensures FindDoctor(doctors, doctorId).Some? ==>
      forall t: TimeOfDay :: multiset(r)[t] ==
        if IsBooked(appointments, doctorId, date, t) then 0
        else multiset(FindDoctor(doctors, doctorId).value.availableTimes)[t]
  {
    match FindDoctor(doctors, doctorId)
    case None => []
    case Some(doctor) =>
      var booked := BookedTimes(appointments, doctorId, date);
      var r := SortTimes(UnbookedSlots(doctor.availableTimes, booked));
      assert forall t: TimeOfDay ::
        && (multiset(r)[t] == if t in booked then 0 else multiset(doctor.availableTimes)[t])
        && (t in r <==> t in doctor.availableTimes && t !in booked)
      by {
        forall t: TimeOfDay {
          SortedUnbookedCount(doctor.availableTimes, booked, t);
        }
      }
      r
  }

  // ---------------------------------------------------------------------
  // Doctor queries

  /** findByNameLike("%" + name + "%") and findByNameContainingIgnoreCase:
      the name contains the fragment, ignoring case. */
  predicate NameMatches(d: Doctor, name: string) {
    ContainsIgnoreCase(d.name, name)
  }

  /** findBySpecialtyIgnoreCase */
  predicate SpecialtyMatches(d: Doctor, specialty: string) {
    EqualsIgnoreCase(d.specialty, specialty)
  }

  /** The period "AM" (any case) asks for times before noon; every other
      value asks for times after noon. */
  predicate IsMorning(timePeriod: string) {
    EqualsIgnoreCase(timePeriod, "AM")
  }

  predicate InPeriod(t: TimeOfDay, timePeriod: string) {
    if IsMorning(timePeriod) then t < Noon else t > Noon
  }

  /** Some slot of the doctor's template lies in the period. */
  predicate AvailableInPeriod(d: Doctor, timePeriod: string) {
    exists t :: t in d.availableTimes && InPeriod(t, timePeriod)
  }

  /** filterDoctorsByTime(List<Doctor>, String) */
  function FilterDoctorsByTime(doctors: seq<Doctor>, timePeriod: string): (r: seq<Doctor>)
    ensures SubsequenceOf(r, doctors)
    ensures forall d :: d in r <==> d in doctors && AvailableInPeriod(d, timePeriod)
  {
    FilterIsSubsequence(doctors, (d: Doctor) => AvailableInPeriod(d, timePeriod));
    Filter(doctors, (d: Doctor) => AvailableInPeriod(d, timePeriod))
  }

  /** A doctor whose only slot is 12:00 is neither a morning nor an
      afternoon doctor, whatever the period asked for. */
  lemma NoonOnlyMatchesNoPeriod(d: Doctor, timePeriod: string)
    requires forall t :: t in d.availableTimes ==> t == Noon
    ensures !AvailableInPeriod(d, timePeriod)
  {
  }

  /** findDoctorByName */
  function FindDoctorByName(doctors: seq<Doctor>, name: string): (r: seq<Doctor>)
    ensures SubsequenceOf(r, doctors)
    ensures forall d :: d in r <==> d in doctors && NameMatches(d, name)
  {
    FilterIsSubsequence(doctors, (d: Doctor) => NameMatches(d, name));
    Filter(doctors, (d: Doctor) => NameMatches(d, name))
  }

  /** findByNameContainingIgnoreCaseAndSpecialtyIgnoreCase, also
      filterDoctorByNameAndSpecialty */
  function FilterDoctorByNameAndSpecialty(doctors: seq<Doctor>, name: string, specialty: string): (r: seq<Doctor>)
    ensures SubsequenceOf(r, doctors)
    ensures forall d :: d in r <==> d in doctors && NameMatches(d, name) && SpecialtyMatches(d, specialty)
  {
    FilterIsSubsequence(doctors, (d: Doctor) => NameMatches(d, name) && SpecialtyMatches(d, specialty));
    Filter(doctors, (d: Doctor) => NameMatches(d, name) && SpecialtyMatches(d, specialty))
  }

  /** filterDoctorBySpecialty */
  function FilterDoctorBySpecialty(doctors: seq<Doctor>, specialty: string): (r: seq<Doctor>)
    ensures SubsequenceOf(r, doctors)
    ensures forall d :: d in r <==> d in doctors && SpecialtyMatches(d, specialty)
  {
    FilterIsSubsequence(doctors, (d: Doctor) => SpecialtyMatches(d, specialty));
    Filter(doctors, (d: Doctor) => SpecialtyMatches(d, specialty))
  }

  /** filterDoctorsByNameSpecialtyAndTime */
  function FilterDoctorsByNameSpecialtyAndTime(doctors: seq<Doctor>, name: string, specialty: string, timePeriod: string): (r: seq<Doctor>)
    ensures SubsequenceOf(r, doctors)
    ensures forall d :: d in r <==>
      d in doctors && NameMatches(d, name) && SpecialtyMatches(d, specialty) && AvailableInPeriod(d, timePeriod)
  {
    FilterFusion(doctors, (d: Doctor) => NameMatches(d, name) && SpecialtyMatches(d, specialty),
      (d: Doctor) => AvailableInPeriod(d, timePeriod),
      (d: Doctor) => NameMatches(d, name) && SpecialtyMatches(d, specialty) && AvailableInPeriod(d, timePeriod));
    FilterIsSubsequence(doctors,
      (d: Doctor) => NameMatches(d, name) && SpecialtyMatches(d, specialty) && AvailableInPeriod(d, timePeriod));
    FilterDoctorsByTime(FilterDoctorByNameAndSpecialty(doctors, name, specialty), timePeriod)
  }

  /** filterDoctorByNameAndTime */
  function FilterDoctorByNameAndTime(doctors: seq<Doctor>, name: string, timePeriod: string): (r: seq<Doctor>)
    ensures SubsequenceOf(r, doctors)
    ensures forall d :: d in r <==> d in doctors && NameMatches(d, name) && AvailableInPeriod(d, timePeriod)
  {
    FilterFusion(doctors, (d: Doctor) => NameMatches(d, name), (d: Doctor) => AvailableInPeriod(d, timePeriod),
      (d: Doctor) => NameMatches(d, name) && AvailableInPeriod(d, timePeriod));
    FilterIsSubsequence(doctors, (d: Doctor) => NameMatches(d, name) && AvailableInPeriod(d, timePeriod));
    FilterDoctorsByTime(FindDoctorByName(doctors, name), timePeriod)
  }

  /** filterDoctorByTimeAndSpecialty */
  function FilterDoctorByTimeAndSpecialty(doctors: seq<Doctor>, specialty: string, timePeriod: string): (r: seq<Doctor>)
    ensures SubsequenceOf(r, doctors)
    ensures forall d :: d in r <==> d in doctors && SpecialtyMatches(d, specialty) && AvailableInPeriod(d, timePeriod)
  {
    FilterFusion(doctors, (d: Doctor) => SpecialtyMatches(d, specialty), (d: Doctor) => AvailableInPeriod(d, timePeriod),
      (d: Doctor) => SpecialtyMatches(d, specialty) && AvailableInPeriod(d, timePeriod));
    FilterIsSubsequence(doctors, (d: Doctor) => SpecialtyMatches(d, specialty) && AvailableInPeriod(d, timePeriod));
    FilterDoctorsByTime(FilterDoctorBySpecialty(doctors, specialty), timePeriod)
  }

  // ---------------------------------------------------------------------
  // Admin operations

  /** The setters updateDoctor applies to the stored doctor: every profile
      field from `updated`, except the id and the password. */
  function WithProfileOf(d: Doctor, updated: Doctor): (r: Doctor)
    ensures r.id == d.id && r.password == d.password
    ensures r.name == updated.name && r.email == updated.email && r.phone == updated.phone
    ensures r.specialty == updated.specialty && r.availableTimes == updated.availableTimes
  {
    d.(name := updated.name, email := updated.email, phone := updated.phone,
       specialty := updated.specialty, availableTimes := updated.availableTimes)
  }

  /** The doctors table after updating the row with id `id`. */
  function UpdateDoctorRow(doctors: seq<Doctor>, id: int, updated: Doctor): (r: seq<Doctor>)
    ensures |r| == |doctors|
    ensures forall i :: 0 <= i < |r| ==> r[i].id == doctors[i].id
  {
    seq(|doctors|, i requires 0 <= i < |doctors| =>
      if doctors[i].id == id then WithProfileOf(doctors[i], updated) else doctors[i])
  }

  /** After updateDoctor, findById of the updated id yields the stored
      doctor with the new profile, and of every other id what it yielded
      before. */
  lemma {:induction false} FindAfterUpdateDoctor(doctors: seq<Doctor>, id: int, updated: Doctor, x: int)
    ensures FindDoctor(UpdateDoctorRow(doctors, id, updated), x)
         == if x == id && FindDoctor(doctors, x).Some? then Some(WithProfileOf(FindDoctor(doctors, x).value, updated))
            else FindDoctor(doctors, x)
  {
    if doctors != [] {
      assert UpdateDoctorRow(doctors, id, updated)[1..] == UpdateDoctorRow(doctors[1..], id, updated);
      FindAfterUpdateDoctor(doctors[1..], id, updated, x);
    }
  }

  /** The doctors table without the doctor `id`. */
  function WithoutDoctor(doctors: seq<Doctor>, id: int): seq<Doctor> {
    Filter(doctors, (d: Doctor) => d.id != id)
  }

  /** The appointments table without the appointments of doctor `id`
      (appointmentRepository.deleteAllByDoctorId). */
  function WithoutDoctorAppointments(appointments: seq<AppointmentRecord>, id: int): seq<AppointmentRecord> {
    Filter(appointments, (a: AppointmentRecord) => a.doctorId != id)
  }

  lemma UpdateDoctorRowPreserves(
    doctors: seq<Doctor>, patients: seq<Patient>, appointments: seq<AppointmentRecord>,
    prescriptions: seq<Prescription>, nextDoctorId: int, nextAppointmentId: int, id: int, updated: Doctor)
    requires Consistent(doctors, patients, appointments, prescriptions, nextDoctorId, nextAppointmentId)
    ensures Consistent(UpdateDoctorRow(doctors, id, updated), patients, appointments, prescriptions, nextDoctorId, nextAppointmentId)
  {
    var after := UpdateDoctorRow(doctors, id, updated);
    assert DistinctDoctorIds(after) by {
      forall i, j | 0 <= i < j < |after| ensures DoctorKey(after[i]) != DoctorKey(after[j]) {
        assert DoctorKey(doctors[i]) != DoctorKey(doctors[j]);
      }
    }
    forall d | d in after ensures d.id < nextDoctorId {
      var i :| 0 <= i < |after| && after[i] == d;
      assert doctors[i] in doctors;
    }
    forall x | FindDoctor(doctors, x).Some? ensures FindDoctor(after, x).Some? {
      var d := FindDoctor(doctors, x).value;
      var i :| 0 <= i < |doctors| && doctors[i] == d;
      assert after[i] in after;
    }
  }

  lemma DeleteDoctorPreserves(
    doctors: seq<Doctor>, patients: seq<Patient>, appointments: seq<AppointmentRecord>,
    prescriptions: seq<Prescription>, nextDoctorId: int, nextAppointmentId: int, id: int)
    requires Consistent(doctors, patients, appointments, prescriptions, nextDoctorId, nextAppointmentId)
    ensures Consistent(WithoutDoctor(doctors, id), patients, WithoutDoctorAppointments(appointments, id),
      prescriptions, nextDoctorId, nextAppointmentId)
  {
    var ds := WithoutDoctor(doctors, id);
    FilterKeepsDistinct(doctors, (d: Doctor) => d.id != id, DoctorKey);
    FilterKeepsDistinct(appointments, (a: AppointmentRecord) => a.doctorId != id, AppointmentKey);
    forall x | x != id && FindDoctor(doctors, x).Some? ensures FindDoctor(ds, x).Some? {
      assert FindDoctor(doctors, x).value in ds;
    }
  }

  /** saveDoctor: -1 when a doctor with the same email exists, 0 when the
      store fails, otherwise the doctor is inserted under a new id and the
      result is 1. */
  method SaveDoctor(repo: Repositories, doctor: Doctor, storeFails: bool) returns (code: int)
    requires repo.Valid()
    modifies repo
    ensures repo.Valid()
    ensures code == -1 <==> FindDoctorByEmail(old(repo.doctors), doctor.email).Some?
    ensures code == 0 <==> FindDoctorByEmail(old(repo.doctors), doctor.email).None? && storeFails
    ensures code == 1 <==> FindDoctorByEmail(old(repo.doctors), doctor.email).None? && !storeFails
    ensures code == 1 ==> repo.doctors == old(repo.doctors) + [doctor.(id := old(repo.nextDoctorId))]
    ensures code == 1 ==> repo.nextDoctorId == old(repo.nextDoctorId) + 1
    ensures code != 1 ==> repo.doctors == old(repo.doctors) && repo.nextDoctorId == old(repo.nextDoctorId)
    ensures repo.patients == old(repo.patients) && repo.appointments == old(repo.appointments)
    ensures repo.prescriptions == old(repo.prescriptions) && repo.nextAppointmentId == old(repo.nextAppointmentId)
  {
    if FindDoctorByEmail(repo.doctors, doctor.email).Some? {
      return -1;
    }
    if storeFails {
      return 0;
    }
    var row := doctor.(id := repo.nextDoctorId);
    ghost var before := repo.doctors;
    repo.doctors := repo.doctors + [row];
    repo.nextDoctorId := repo.nextDoctorId + 1;
    assert DistinctDoctorIds(repo.doctors) by {
      forall i, j | 0 <= i < j < |repo.doctors| ensures DoctorKey(repo.doctors[i]) != DoctorKey(repo.doctors[j]) {
        if j == |before| {
          assert repo.doctors[i] in before;
        } else {
          assert repo.doctors[i] == before[i] && repo.doctors[j] == before[j];
        }
      }
    }
    assert forall x :: FindDoctor(before, x).Some? ==> FindDoctor(repo.doctors, x).Some?;
    code := 1;
  }

  /** updateDoctor: -1 and no change for an unknown id; otherwise the stored
      doctor takes name, email, phone, specialty and availableTimes from
      `updated`, keeps its id and password, and the result is 1. */
  method UpdateDoctor(repo: Repositories, id: int, updated: Doctor) returns (code: int)
    requires repo.Valid()
    modifies repo
    ensures repo.Valid()
    ensures code == -1 <==> FindDoctor(old(repo.doctors), id).None?
    ensures code == 1 <==> FindDoctor(old(repo.doctors), id).Some?
    ensures code == -1 ==> repo.doctors == old(repo.doctors)
    ensures code == 1 ==> repo.doctors == UpdateDoctorRow(old(repo.doctors), id, updated)
    ensures repo.patients == old(repo.patients) && repo.appointments == old(repo.appointments)
    ensures repo.prescriptions == old(repo.prescriptions)
    ensures repo.nextDoctorId == old(repo.nextDoctorId) && repo.nextAppointmentId == old(repo.nextAppointmentId)
  {
    if FindDoctor(repo.doctors, id).None? {
      return -1;
    }
    UpdateDoctorRowPreserves(repo.doctors, repo.patients, repo.appointments, repo.prescriptions,
      repo.nextDoctorId, repo.nextAppointmentId, id, updated);
    repo.doctors := UpdateDoctorRow(repo.doctors, id, updated);
    code := 1;
  }

  /** deleteDoctor: -1 and no change for an unknown id; 0 and no change when
      the store fails (the transaction is rolled back); otherwise the doctor
      and every appointment with that doctor are removed, everything else is
      kept in order, and the result is 1. */
  method DeleteDoctor(repo: Repositories, id: int, storeFails: bool) returns (code: int)
    requires repo.Valid()
    modifies repo
    ensures repo.Valid()
    ensures code == -1 <==> FindDoctor(old(repo.doctors), id).None?
    ensures code == 0 <==> FindDoctor(old(repo.doctors), id).Some? && storeFails
    ensures code == 1 <==> FindDoctor(old(repo.doctors), id).Some? && !storeFails
    ensures code != 1 ==> repo.doctors == old(repo.doctors) && repo.appointments == old(repo.appointments)
    ensures code == 1 ==> repo.doctors == WithoutDoctor(old(repo.doctors), id)
    ensures code == 1 ==> repo.appointments == WithoutDoctorAppointments(old(repo.appointments), id)
    ensures repo.patients == old(repo.patients) && repo.prescriptions == old(repo.prescriptions)
    ensures repo.nextDoctorId == old(repo.nextDoctorId) && repo.nextAppointmentId == old(repo.nextAppointmentId)
  {
    if FindDoctor(repo.doctors, id).None? {
      return -1;
    }
    if storeFails {
      return 0;
    }
    DeleteDoctorPreserves(repo.doctors, repo.patients, repo.appointments, repo.prescriptions,
      repo.nextDoctorId, repo.nextAppointmentId, id);
    repo.appointments := WithoutDoctorAppointments(repo.appointments, id);
    repo.doctors := WithoutDoctor(repo.doctors, id);
    code := 1;
  }

  /** deleteDoctor leaves exactly the other doctors' appointments, in order. */
  lemma DeleteDoctorKeepsOthers(appointments: seq<AppointmentRecord>, id: int)
    ensures SubsequenceOf(WithoutDoctorAppointments(appointments, id), appointments)
    ensures forall a :: a in WithoutDoctorAppointments(appointments, id) <==> a in appointments && a.doctorId != id
  {
    FilterIsSubsequence(appointments, (a: AppointmentRecord) => a.doctorId != id);
  }
}
