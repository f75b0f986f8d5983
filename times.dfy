/** Calendar values used throughout the scheduling core.
    A time of day is a minute since midnight; a date is a day number; a
    date-time pairs the two, like java.time.LocalDateTime split into its
    LocalDate and LocalTime parts. All values are zone-naive local times. */
module Times {

  const MinutesPerDay := 1440

  /** LocalTime at minute precision: 0 is 00:00, 1439 is 23:59. */
  type TimeOfDay = m: int | 0 <= m < 1440

  /** LocalTime.NOON */
  const Noon: TimeOfDay := 720

  /** LocalTime.MIDNIGHT, the start of a day (LocalDate.atStartOfDay) */
  const Midnight: TimeOfDay := 0

  /** The last minute of a day, 23:59 */
  const LastMinute: TimeOfDay := 1439

  /** LocalDateTime: a day number and the time of day on it. */
  datatype DateTime = DateTime(date: int, time: TimeOfDay)

  /** Position of a date-time on a single minute-by-minute time line. */
  function AbsoluteMinutes(dt: DateTime): int {
    dt.date * MinutesPerDay + dt.time
  }

  /** LocalDateTime.isBefore */
  predicate Before(a: DateTime, b: DateTime) {
    AbsoluteMinutes(a) < AbsoluteMinutes(b)
  }

  /** Before is the lexicographic order on (date, time). */
  lemma BeforeIsLexicographic(a: DateTime, b: DateTime)
    ensures Before(a, b) <==> a.date < b.date || (a.date == b.date && a.time < b.time)
  {
    if a.date < b.date {
      assert AbsoluteMinutes(a) < (a.date + 1) * MinutesPerDay <= AbsoluteMinutes(b);
    } else if a.date > b.date {
      assert AbsoluteMinutes(b) < (b.date + 1) * MinutesPerDay <= AbsoluteMinutes(a);
    }
  }

  /** Two date-times at the same point of the time line are the same value. */
  lemma AbsoluteMinutesInjective(a: DateTime, b: DateTime)
    requires AbsoluteMinutes(a) == AbsoluteMinutes(b)
    ensures a == b
  {
    BeforeIsLexicographic(a, b);
    BeforeIsLexicographic(b, a);
  }

  /** LocalDateTime.toLocalDate */
  function DatePart(dt: DateTime): int {
    dt.date
  }

  /** LocalDateTime.toLocalTime */
  function TimePart(dt: DateTime): TimeOfDay {
    dt.time
  }

  /** LocalDate.atTime */
  function AtTime(date: int, time: TimeOfDay): (r: DateTime)
    ensures DatePart(r) == date && TimePart(r) == time
  {
    DateTime(date, time)
  }

  /** Splitting a date-time into its parts and joining them again gives it back. */
  lemma SplitJoin(dt: DateTime)
    ensures AtTime(DatePart(dt), TimePart(dt)) == dt
  {
  }

  /** LocalDateTime.plusHours: the date-time `hours` hours later, rolling
      over into later days as needed. */
  function PlusHours(dt: DateTime, hours: nat): (r: DateTime)
    ensures AbsoluteMinutes(r) == AbsoluteMinutes(dt) + 60 * hours
  {
    var total := dt.time + 60 * hours;
    DateTime(dt.date + total / MinutesPerDay, total % MinutesPerDay)
  }

  /** One hour later is the same day up to 22:59 and the next day from 23:00 on. */
  lemma PlusOneHourRollsOver(dt: DateTime)
    ensures dt.time < 23 * 60 ==> PlusHours(dt, 1) == DateTime(dt.date, dt.time + 60)
    ensures dt.time >= 23 * 60 ==> PlusHours(dt, 1) == DateTime(dt.date + 1, dt.time + 60 - MinutesPerDay)
  {
    var r := PlusHours(dt, 1);
    if dt.time < 23 * 60 {
      var expected := DateTime(dt.date, dt.time + 60);
      assert AbsoluteMinutes(expected) == AbsoluteMinutes(r);
      AbsoluteMinutesInjective(r, expected);
    } else {
      var expected := DateTime(dt.date + 1, dt.time + 60 - MinutesPerDay);
      assert AbsoluteMinutes(expected) == AbsoluteMinutes(r);
      AbsoluteMinutesInjective(r, expected);
    }
  }

  /** Spring Data's `Between`: both ends inclusive. */
  predicate Between(dt: DateTime, lo: DateTime, hi: DateTime) {
    !Before(dt, lo) && !Before(hi, dt)
  }

  /** The window [date 00:00, date 23:59] holds exactly the date-times on that
      date. At minute precision, LocalTime.MAX (23:59:59.999999999) as the
      upper end selects the same date-times as 23:59. */
  lemma WithinDayIffSameDate(dt: DateTime, date: int)
    ensures Between(dt, AtTime(date, Midnight), AtTime(date, LastMinute)) <==> dt.date == date
  {
    BeforeIsLexicographic(dt, AtTime(date, Midnight));
    BeforeIsLexicographic(AtTime(date, LastMinute), dt);
  }
}
