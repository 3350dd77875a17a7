/**
 * Stand-ins for the date and time helpers that the rule engine calls.
 * Calendar dates are day numbers: the number of days since 1970-01-01,
 * a Thursday. Times of day are minutes after midnight.
 */
module DateTimeUtils {

  /** The seven weekday names a weekday rule can name. */
  datatype WeekdayName = Sunday | Monday | Tuesday | Wednesday | Thursday | Friday | Saturday

  /** The weekday names indexed by UTC day of week, Sunday being 0. */
  const Weekdays: seq<WeekdayName> := [Sunday, Monday, Tuesday, Wednesday, Thursday, Friday, Saturday]

  /** The UTC day of week of a day number, 0 being Sunday (day 0 is a Thursday). */
  function UtcDay(date: int): int
  {
    (date + 4) % 7
  }

  /** The weekday a day number falls on. */
  function WeekdayOf(date: int): WeekdayName
  {
    Weekdays[UtcDay(date)]
  }

  /** A time window within one day. */
  datatype Interval = Interval(start: int, end: int)

  /**
   * The time-conflict test between two intervals. Its boundary semantics
   * belong to the utility library, so the model leaves it a parameter.
   */
  type ConflictTest = (Interval, Interval) -> bool

  /** The property of the conflict test that some results depend on. */
  ghost predicate Symmetric(conflicting: ConflictTest)
  {
    forall x, y :: conflicting(x, y) == conflicting(y, x)
  }
}
