/**
 * Naive timestamps, calendar dates, the `seconds` field of a time difference,
 * and the validity range of a schedule.
 *
 * A timestamp is a naive datetime counted in microseconds from midnight of
 * day 0; a date is the number of that day. Python's datetime has microsecond
 * resolution, so differences between timestamps are exact integers.
 */
module Times {

  /** Microseconds since midnight of day 0 (no time zone). */
  type Timestamp = int

  /** A calendar day, numbered from day 0. */
  type Date = int

  const MicrosPerSecond: int := 1_000_000
  const SecondsPerDay: int := 86_400
  const MicrosPerDay: int := 86_400_000_000

  /** `datetime.date()`: the calendar day that a timestamp falls on. */
  function DateOf(t: Timestamp): (d: Date)
    ensures d * MicrosPerDay <= t < d * MicrosPerDay + MicrosPerDay
  {
    t / MicrosPerDay
  }

  /**
   * The `seconds` field of `timedelta(microseconds := delta)`. Python
   * normalises a timedelta to days (any sign), seconds in [0, 86400) and
   * microseconds in [0, 1000000); this is the middle part.
   */
  function SecondsField(delta: int): (s: int)
    ensures 0 <= s < SecondsPerDay
  {
    (delta % MicrosPerDay) / MicrosPerSecond
  }

  /**
   * The `seconds` field is the number of whole elapsed seconds (rounded
   * towards minus infinity) reduced modulo one day.
   */
  lemma SecondsFieldIsWholeSecondsModDay(delta: int)
    ensures SecondsField(delta) == (delta / MicrosPerSecond) % SecondsPerDay
  {
  }

  /** Within one day of a non-negative difference, no wrap-around happens. */
  lemma SecondsFieldWithinDay(delta: int)
    requires 0 <= delta < MicrosPerDay
    ensures SecondsField(delta) == delta / MicrosPerSecond
  {
  }

  /** Whole days added to or removed from a difference never show in the `seconds` field. */
  lemma SecondsFieldIgnoresWholeDays(delta: int, days: int)
    ensures SecondsField(delta + days * MicrosPerDay) == SecondsField(delta)
  {
  }

  /** A negative difference wraps: one second before is 86399 seconds. */
  lemma SecondsFieldOfMinusOneSecond()
    ensures SecondsField(-MicrosPerSecond) == SecondsPerDay - 1
  {
  }

  /**
   * Two timestamps on the same calendar day are less than one day apart, so
   * a non-negative difference between them is reported exactly.
   */
  lemma SameDateNoWrap(departure: Timestamp, arrival: Timestamp)
    requires DateOf(departure) == DateOf(arrival) && departure <= arrival
    ensures SecondsField(arrival - departure) == (arrival - departure) / MicrosPerSecond
  {
  }

  /**
   * A journey that leaves at 23:50 and arrives at 00:10 the next day spans
   * two dates and lasts 1200 seconds.
   */
  lemma MidnightCrossing(day: Date)
    ensures var departure := day * MicrosPerDay + (23 * 3600 + 50 * 60) * MicrosPerSecond;
            var arrival := (day + 1) * MicrosPerDay + 10 * 60 * MicrosPerSecond;
            DateOf(departure) != DateOf(arrival) && SecondsField(arrival - departure) == 1200
  {
  }

  /** The first and last day on which a schedule is valid. */
  datatype ScheduleValidity = ScheduleValidity(startDate: Date, endDate: Date)

  /** `is_date_valid`: the inclusive range test. */
  predicate IsDateValid(v: ScheduleValidity, reference: Date)
    ensures IsDateValid(v, reference) ==> v.startDate <= v.endDate
    ensures reference == v.startDate || reference == v.endDate ==>
              (IsDateValid(v, reference) <==> v.startDate <= v.endDate)
  {
    v.startDate <= reference <= v.endDate
  }

  /** A range whose start lies after its end admits no date; otherwise both ends are admitted. */
  lemma IsDateValidRange(v: ScheduleValidity)
    ensures v.startDate > v.endDate ==> forall d :: !IsDateValid(v, d)
    ensures v.startDate <= v.endDate ==> IsDateValid(v, v.startDate) && IsDateValid(v, v.endDate)
  {
  }
}
