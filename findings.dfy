/** The slot comparisons of getDoctorAvailability and validateAppointment
    as the Java source writes them. A doctor's availableTimes are Strings
    ("09:00"), while the booked times and the requested time are LocalTime
    values; Set.contains and List.contains compare with equals, which is
    false between a String and a LocalTime. The rest of the model compares
    times of day, which is what both methods are meant to do. */
module AsWritten {
  import opened Times
  import opened Seqs
  import opened Entities
  import opened DoctorService
  import opened Service

  /** A value held in a Java collection, with the class equals looks at. */
  datatype JavaValue = JString(s: string) | JTime(t: TimeOfDay)

  predicate IsDigit(c: char) {
    '0' <= c <= '9'
  }

  function DigitValue(c: char): int
    requires IsDigit(c)
  {
    c as int - '0' as int
  }

  function DigitChar(d: int): char
    requires 0 <= d <= 9
  {
    ('0' as int + d) as char
  }

  /** Two digits, a colon, two digits. */
  predicate SlotShaped(s: string) {
    |s| == 5 && IsDigit(s[0]) && IsDigit(s[1]) && s[2] == ':' && IsDigit(s[3]) && IsDigit(s[4])
  }

  function SlotHour(s: string): int
    requires SlotShaped(s)
  {
    DigitValue(s[0]) * 10 + DigitValue(s[1])
  }

  function SlotMinute(s: string): int
    requires SlotShaped(s)
  {
    DigitValue(s[3]) * 10 + DigitValue(s[4])
  }

  /** LocalTime.parse on the "HH:MM" form a slot string takes: a string of
      another shape, an hour from 24 or a minute from 60 is refused;
      otherwise the time of day has that hour and minute. */
  function ParseSlot(s: string): (r: Option<TimeOfDay>)
    ensures !SlotShaped(s) ==> r.None?
    ensures SlotShaped(s) ==> (r.Some? <==> SlotHour(s) < 24 && SlotMinute(s) < 60)
    ensures r.Some? ==> r.value / 60 == SlotHour(s) && r.value % 60 == SlotMinute(s)
  {
    if SlotShaped(s) && SlotHour(s) < 24 && SlotMinute(s) < 60 then
      Some(SlotHour(s) * 60 + SlotMinute(s))
    else None
  }

  /** LocalTime.toString for a time of day with zero seconds: "HH:MM". */
  function FormatSlot(t: TimeOfDay): (s: string)
    ensures SlotShaped(s)
  {
    var h := t / 60;
    var m := t % 60;
    [DigitChar(h / 10), DigitChar(h % 10), ':', DigitChar(m / 10), DigitChar(m % 10)]
  }

  /** Parsing a formatted slot gives the time back. */
  lemma ParseFormatSlot(t: TimeOfDay)
    ensures ParseSlot(FormatSlot(t)) == Some(t)
  {
    var s := FormatSlot(t);
    var h := t / 60;
    var m := t % 60;
    assert DigitValue(s[0]) == h / 10 && DigitValue(s[1]) == h % 10;
    assert DigitValue(s[3]) == m / 10 && DigitValue(s[4]) == m % 10;
    assert SlotHour(s) == h && SlotMinute(s) == m;
  }

  /** A string that parses is the formatted form of its time: the "HH:MM"
      spelling of a slot is unique. */
  lemma FormatParsedSlot(s: string, t: TimeOfDay)
    requires ParseSlot(s) == Some(t)
    ensures FormatSlot(t) == s
  {
    var f := FormatSlot(t);
    assert t / 60 == SlotHour(s) && t % 60 == SlotMinute(s);
    assert SlotHour(s) / 10 == DigitValue(s[0]) && SlotHour(s) % 10 == DigitValue(s[1]);
    assert SlotMinute(s) / 10 == DigitValue(s[3]) && SlotMinute(s) % 10 == DigitValue(s[4]);
    assert f[0] == s[0] && f[1] == s[1] && f[2] == s[2] && f[3] == s[3] && f[4] == s[4];
  }

  /** String.compareTo's order: the first differing character decides,
      and a proper prefix comes first. */
  predicate StringBefore(a: string, b: string)
    decreases |a|
  {
    if a == [] then b != []
    else if b == [] then false
    else if a[0] != b[0] then a[0] < b[0]
    else StringBefore(a[1..], b[1..])
  }

  /** On two five-character strings, StringBefore compares character by
      character. */
  lemma StringBeforeFive(a: string, b: string)
    requires |a| == 5 && |b| == 5
    ensures StringBefore(a, b) <==>
      || a[0] < b[0]
      || (a[0] == b[0] && a[1] < b[1])
      || (a[0] == b[0] && a[1] == b[1] && a[2] < b[2])
      || (a[0] == b[0] && a[1] == b[1] && a[2] == b[2] && a[3] < b[3])
      || (a[0] == b[0] && a[1] == b[1] && a[2] == b[2] && a[3] == b[3] && a[4] < b[4])
  {
    var a1, b1 := a[1..], b[1..];
    var a2, b2 := a1[1..], b1[1..];
    var a3, b3 := a2[1..], b2[1..];
    var a4, b4 := a3[1..], b3[1..];
    assert !StringBefore(a4[1..], b4[1..]) by {
      assert a4[1..] == [] && b4[1..] == [];
    }
    assert StringBefore(a4, b4) <==> a[4] < b[4];
    assert StringBefore(a3, b3) <==> a[3] < b[3] || (a[3] == b[3] && StringBefore(a4, b4));
    assert StringBefore(a2, b2) <==> a[2] < b[2] || (a[2] == b[2] && StringBefore(a3, b3));
    assert StringBefore(a1, b1) <==> a[1] < b[1] || (a[1] == b[1] && StringBefore(a2, b2));
  }

  /** Sorting the "HH:MM" spellings of slots orders them as their times of
      day: the String sort the source applies to available times agrees
      with the order on TimeOfDay that SortTimes uses. */
  lemma FormatSlotPreservesOrder(t: TimeOfDay, u: TimeOfDay)
    ensures t < u <==> StringBefore(FormatSlot(t), FormatSlot(u))
  {
    StringBeforeFive(FormatSlot(t), FormatSlot(u));
    TwoDigitOrder(t / 60, u / 60);
    TwoDigitOrder(t % 60, u % 60);
    assert t < u <==> t / 60 < u / 60 || (t / 60 == u / 60 && t % 60 < u % 60);
  }

  /** Two-digit numbers compare as their tens digit, then their units digit. */
  lemma TwoDigitOrder(x: int, y: int)
    requires 0 <= x < 100 && 0 <= y < 100
    ensures x < y <==> x / 10 < y / 10 || (x / 10 == y / 10 && x % 10 < y % 10)
    ensures x == y <==> x / 10 == y / 10 && x % 10 == y % 10
  {
  }

  /** The booked set as the source builds it: LocalTime values. */
  function BoxedTimes(booked: set<TimeOfDay>): set<JavaValue> {
    set t | t in booked :: JTime(t)
  }

  /** The filter step of getDoctorAvailability as written (the sort that
      follows does not change which slots are kept). */
  function AvailabilityAsWritten(slots: seq<string>, booked: set<TimeOfDay>): seq<string> {
    Filter(slots, (slot: string) => JString(slot) !in BoxedTimes(booked))
  }

  /** As written, a booking never removes a slot: the whole template is
      returned whatever is booked. */
  lemma AvailabilityAsWrittenIgnoresBookings(slots: seq<string>, booked: set<TimeOfDay>)
    ensures AvailabilityAsWritten(slots, booked) == slots
  {
    FilterAll(slots, (slot: string) => JString(slot) !in BoxedTimes(booked));
  }

  /** validateAppointment as written, for a doctor that exists: the
      requested LocalTime looked up in a list of Strings. */
  function ValidateAsWritten(slots: seq<string>, booked: set<TimeOfDay>, time: TimeOfDay): int {
    var available := AvailabilityAsWritten(slots, booked);
    if JTime(time) in seq(|available|, i requires 0 <= i < |available| => JString(available[i])) then 1 else 0
  }

  /** As written, no requested time is ever accepted for an existing
      doctor, so bookAppointment always answers 409. */
  lemma ValidateAsWrittenNeverAccepts(slots: seq<string>, booked: set<TimeOfDay>, time: TimeOfDay)
    ensures ValidateAsWritten(slots, booked, time) == 0
  {
  }

  /** A doctor offering only 09:00, nothing booked, 09:00 requested: the
      source answers 0, the intended check answers 1. */
  lemma FreeSlotRejectedAsWritten()
    ensures ParseSlot("09:00") == Some(540)
    ensures ValidateAsWritten(["09:00"], {}, 540) == 0
    ensures ValidateAppointment([Doctor(1, "Ann", "ann@clinic", "pw", "5550100", "Cardiology", [540])], [], 1, 0, 540) == 1
  {
    ValidateAsWrittenNeverAccepts(["09:00"], {}, 540);
    var d := Doctor(1, "Ann", "ann@clinic", "pw", "5550100", "Cardiology", [540]);
    assert !IsBooked([], 1, 0, 540);
    assert FindDoctor([d], 1) == Some(d);
  }

  /** The same doctor with 09:00 booked on date 0: the source still lists
      "09:00" as available, the intended availability does not list it. */
  lemma BookedSlotListedAsWritten()
    ensures AvailabilityAsWritten(["09:00"], {540}) == ["09:00"]
    ensures 540 !in GetDoctorAvailability(
      [Doctor(1, "Ann", "ann@clinic", "pw", "5550100", "Cardiology", [540])],
      [AppointmentRecord(7, 1, 3, DateTime(0, 540), Scheduled)], 1, 0)
  {
    AvailabilityAsWrittenIgnoresBookings(["09:00"], {540});
    var a := AppointmentRecord(7, 1, 3, DateTime(0, 540), Scheduled);
    assert a in [a];
    assert IsBooked([a], 1, 0, 540);
  }
}
