/**
 * Calendar arithmetic standing in for date-fns on a machine whose local time
 * is UTC. An instant is an integer number of seconds since 1970-01-01T00:00Z,
 * a day is an integer number of days since that date.
 */
module Dates {

  const SecondsPerHour := 3600
  const SecondsPerDay := 86400
  /** The fixed offset summarize.ts and htmlConverter.ts add to reach Japan Standard Time. */
  const JstOffsetHours := 9

  /** DateFns.addHours */
  function AddHours(instant: int, hours: int): int
  {
    instant + hours * SecondsPerHour
  }

  /** The calendar day an instant falls on (days since 1970-01-01; floor for earlier instants). */
  function DayOf(instant: int): int
  {
    instant / SecondsPerDay
  }

  /** Date.getHours(): the hour of the day, 0 to 23, that the instant falls in. */
  function HourOf(instant: int): (h: int)
    ensures 0 <= h < 24
    ensures DayOf(instant) * SecondsPerDay + h * SecondsPerHour <= instant
    ensures instant < DayOf(instant) * SecondsPerDay + (h + 1) * SecondsPerHour
  {
    (instant % SecondsPerDay) / SecondsPerHour
  }

  /** Date.getDay(): Sunday is 0 and Saturday 6; 1970-01-01 was a Thursday. */
  function WeekdayOf(instant: int): (w: int)
    ensures 0 <= w < 7
  {
    (DayOf(instant) + 4) % 7
  }

  /**
   * 1970-01-04 was a Sunday, each day moves the weekday on by one, Saturday
   * wrapping to Sunday, and every instant has the weekday of its day's midnight.
   */
  lemma WeekdaySteps(instant: int)
    ensures WeekdayOf(3 * SecondsPerDay) == 0
    ensures WeekdayOf(instant + SecondsPerDay) == (WeekdayOf(instant) + 1) % 7
    ensures WeekdayOf(instant) == WeekdayOf(DayOf(instant) * SecondsPerDay)
  {
    assert DayOf(instant + SecondsPerDay) == DayOf(instant) + 1;
    assert DayOf(DayOf(instant) * SecondsPerDay) == DayOf(instant);
  }

  /** The "YYYY-MM-DD" date of an instant once shifted by +9 hours, as a day number. */
  function JstDayOf(instant: int): int
  {
    DayOf(AddHours(instant, JstOffsetHours))
  }

  /**
   * The day of the month of a day number (the "DD" of "YYYY-MM-DD"), by the
   * proleptic Gregorian civil-from-days conversion.
   */
  function DayOfMonth(day: int): (dom: int)
    ensures 1 <= dom <= 31
  {
    var z := day + 719468;
    var era := z / 146097;
    var doe := z - era * 146097;
    var yoe := (doe - doe / 1460 + doe / 36524 - doe / 146096) / 365;
    var doy := doe - (365 * yoe + yoe / 4 - yoe / 100);
    var mp := (5 * doy + 2) / 153;
    DayInMonth(doy, mp)
  }

  /** The day within month `mp` (March-based) of day `doy` of the March-based year. */
  function DayInMonth(doy: int, mp: int): (dom: int)
    requires mp == (5 * doy + 2) / 153
    ensures 1 <= dom <= 31
  {
    var q := 153 * mp + 2;
    assert 153 * mp <= 5 * doy + 2 < 153 * mp + 153;
    doy - q / 5 + 1
  }

  /** Two decimal digits, zero-padded: the last two characters of "YYYY-MM-DD". */
  function TwoDigits(n: int): (s: string)
    requires 0 <= n < 100
    ensures |s| == 2 && '0' <= s[0] <= '9' && '0' <= s[1] <= '9'
    ensures (s[0] as int - '0' as int) * 10 + (s[1] as int - '0' as int) == n
  {
    [(n / 10 + '0' as int) as char, (n % 10 + '0' as int) as char]
  }

  /** The label htmlConverter.ts gives a day: `date.substr(-2)`. */
  function DayLabel(day: int): (text: string)
    ensures |text| == 2 && '0' <= text[0] <= '9' && '0' <= text[1] <= '9'
    ensures (text[0] as int - '0' as int) * 10 + (text[1] as int - '0' as int) == DayOfMonth(day)
  {
    TwoDigits(DayOfMonth(day))
  }
}
