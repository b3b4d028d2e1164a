/**
 * Day-of-week arithmetic on UTC instants given in whole seconds since the
 * Unix epoch. The numbering is Python's `date.weekday()`: Monday is 0 and
 * Sunday is 6. 1970-01-01 was a Thursday.
 */
module Calendar {

  const MONDAY := 0
  const TUESDAY := 1
  const WEDNESDAY := 2
  const THURSDAY := 3
  const FRIDAY := 4
  const SATURDAY := 5
  const SUNDAY := 6

  const SECONDS_PER_DAY := 86400

  /** The weekday of the epoch day 1970-01-01. */
  const EPOCH_WEEKDAY := THURSDAY

  /** Number of the UTC day that contains instant `t` (days since the epoch, rounded down). */
  function DayNumber(t: int): (day: int)
  {
    t / SECONDS_PER_DAY
  }

  /** The weekday of the UTC instant `t`. */
  function Weekday(t: int): (d: int)
    ensures MONDAY <= d <= SUNDAY
  {
    (DayNumber(t) + EPOCH_WEEKDAY) % 7
  }

  predicate IsWeekend(d: int)
  {
    d == SATURDAY || d == SUNDAY
  }

  /** The first second of the day that contains `t`. */
  function StartOfDay(t: int): (m: int)
    ensures m <= t < m + SECONDS_PER_DAY
    ensures m % SECONDS_PER_DAY == 0
  {
    DayNumber(t) * SECONDS_PER_DAY
  }

  /** The weekday depends only on the day: every instant of one UTC day shares it. */
  lemma WeekdayOfDay(t: int)
    ensures Weekday(t) == Weekday(StartOfDay(t))
  {
    assert DayNumber(StartOfDay(t)) == DayNumber(t);
  }

  /** One day later is the next weekday, Sunday wrapping round to Monday. */
  lemma NextDay(t: int)
    ensures Weekday(t + SECONDS_PER_DAY) == (Weekday(t) + 1) % 7
  {
    assert DayNumber(t + SECONDS_PER_DAY) == DayNumber(t) + 1;
  }

  /** The weekday repeats with a period of seven days, forwards and backwards. */
  lemma WeekPeriodic(t: int, weeks: int)
    ensures Weekday(t + weeks * 7 * SECONDS_PER_DAY) == Weekday(t)
  {
  }
}
