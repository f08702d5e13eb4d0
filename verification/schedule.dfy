/** The firing conditions of the once-a-minute reset task
    (karuta/karuta.py:94-104).

    An instant is given as the calendar facts the task reads from
    `datetime.datetime.now(tz=utc)`: the date as a proleptic Gregorian
    ordinal (`date.toordinal()`, day 1 being Monday 0001-01-01), the time of
    day in microseconds, and the ISO week number `isocalendar().week`. The
    weekday follows from the ordinal. */
module Schedule {

  const MicrosPerMinute: nat := 60_000_000

  /** `datetime.time(hour=6, minute=30)`, in microseconds after midnight. */
  const ResetTimeOfDay: nat := (6 * 60 + 30) * MicrosPerMinute

  datatype Instant = Instant(day: int, micros: nat, isoWeek: nat)

  /** `date.weekday()`: Monday is 0, Sunday is 6. */
  function Weekday(t: Instant): (w: nat)
    ensures w < 7
  {
    (t.day + 6) % 7
  }

  /** The ordinal of the Monday that starts `t`'s ISO week. Ordering instants
      by this value orders them by ISO (year, week). */
  function WeekStart(t: Instant): int {
    t.day - Weekday(t)
  }

  /** `now.time() > 06:30 and now.date() > last_daily_reset.date()`. */
  predicate DailyDue(now: Instant, lastDaily: Instant) {
    now.micros > ResetTimeOfDay && now.day > lastDaily.day
  }

  /** The weekly condition as the source writes it: a Monday whose ISO week
      number exceeds the week number of the last weekly reset. The ISO year
      is not compared. */
  predicate WeeklyDueAsWritten(now: Instant, lastWeekly: Instant) {
    Weekday(now) == 0 && now.isoWeek > lastWeekly.isoWeek
  }

  /** The weekly condition as intended: a Monday in a later ISO week than the
      last weekly reset. */
  predicate WeeklyDue(now: Instant, lastWeekly: Instant) {
    Weekday(now) == 0 && WeekStart(now) > WeekStart(lastWeekly)
  }

  /** The weekly condition a run of the reset task applies: the week-number
      comparison the source writes, or the corrected week comparison. */
  datatype WeeklyRule = AsWritten | Corrected

  predicate WeeklyFires(rule: WeeklyRule, now: Instant, lastWeekly: Instant) {
    match rule
    case AsWritten => WeeklyDueAsWritten(now, lastWeekly)
    case Corrected => WeeklyDue(now, lastWeekly)
  }

  /** `WeekStart` is the Monday on or before the date, at most six days back. */
  lemma WeekStartIsMonday(t: Instant)
    ensures WeekStart(t) <= t.day < WeekStart(t) + 7
    ensures (WeekStart(t) + 6) % 7 == 0
  {
  }

  /** On a Monday, the corrected weekly condition holds exactly when the last
      weekly reset was on an earlier date. */
  lemma WeeklyDueOnMonday(now: Instant, lastWeekly: Instant)
    requires Weekday(now) == 0
    ensures WeeklyDue(now, lastWeekly) <==> now.day > lastWeekly.day
  {
  }

  /** Once the weekly watermark is in an ISO week, no instant in that week
      fires the corrected weekly reset again. */
  lemma WeeklyDueOncePerWeek(later: Instant, lastWeekly: Instant)
    requires WeekStart(later) <= WeekStart(lastWeekly)
    ensures !WeeklyDue(later, lastWeekly)
  {
  }

  /** The last weekly reset of 2023, on Monday 2023-12-25 (ISO week 52). */
  const Christmas2023: Instant := Instant(738879, ResetTimeOfDay + MicrosPerMinute, 52)

  /** Monday 2024-01-01, 06:31 UTC: ISO week 1 of 2024. */
  const NewYear2024: Instant := Instant(738886, ResetTimeOfDay + MicrosPerMinute, 1)

  /** The week-number comparison misses the new year: on the first Monday of
      2024 the daily reset fires, the corrected weekly rule fires, and the
      rule as written does not. */
  lemma WeeklyAsWrittenMissesNewYear()
    ensures DailyDue(NewYear2024, Christmas2023)
    ensures Weekday(NewYear2024) == 0 && Weekday(Christmas2023) == 0
    ensures WeeklyDue(NewYear2024, Christmas2023)
    ensures !WeeklyDueAsWritten(NewYear2024, Christmas2023)
  {
  }

  /** On a Monday, the rule as written misses a reset that the corrected
      rule makes exactly when the last weekly reset was on an earlier date
      whose week number is not lower. Such a watermark is in an earlier ISO
      year: one in week 52 makes the rule as written miss every Monday of a
      52-week year, and one in week 53, the highest week number, makes it
      miss every later Monday. */
  lemma WeeklyAsWrittenMisses(now: Instant, lastWeekly: Instant)
    requires Weekday(now) == 0
    ensures WeeklyDue(now, lastWeekly) && !WeeklyDueAsWritten(now, lastWeekly)
        <==> now.day > lastWeekly.day && now.isoWeek <= lastWeekly.isoWeek
  {
  }

}
