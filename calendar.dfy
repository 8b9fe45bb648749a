/**
 * Time as integer milliseconds since the epoch, and the local calendar
 * for a time zone with a fixed offset from UTC.
 */
module Calendar {

  const SecondMs: int := 1000
  const HourMs: int := 60 * 60 * SecondMs
  const DayMs: int := 24 * HourMs

  /** Number of the local day holding instant `t` (day 0 is 1 January 1970). */
  function LocalDay(t: int, offset: int): int {
    (t + offset) / DayMs
  }

  /** `getDay()` of local day `day`: 0 is Sunday; 1 January 1970 was a Thursday. */
  function Weekday(day: int): (w: int)
    ensures 0 <= w < 7
  {
    (day + 4) % 7
  }

  /** The instant at which local day `day` begins. */
  function LocalMidnight(day: int, offset: int): int {
    day * DayMs - offset
  }

  lemma MidnightBounds(t: int, offset: int)
    ensures LocalMidnight(LocalDay(t, offset), offset) <= t < LocalMidnight(LocalDay(t, offset), offset) + DayMs
  {
  }

  /** Consecutive days have consecutive weekdays. */
  lemma WeekdayNext(day: int)
    ensures Weekday(day + 1) == if Weekday(day) == 6 then 0 else Weekday(day) + 1
  {
  }
}
