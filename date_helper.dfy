/**
 * The day arithmetic of `DateHelper`. The system clock and the system time zone are
 * parameters: `now` is the current instant in epoch seconds, and the zone is a fixed
 * offset from UTC (a zone without daylight-saving transitions).
 */
module DateHelper {
  import opened Wrappers
  import Settings

  const SecondsPerDay: int := 86400
  const MillisPerSecond: int := 1000
  const DaysPerWeek: int := 7

  /** A time zone with a constant offset from UTC, in seconds. */
  datatype Zone = FixedOffset(offsetSeconds: int)

  const UTC: Zone := FixedOffset(0)

  datatype DateError = IllegalArgumentException(message: string)

  /** The local date, as a day number counted from 1970-01-01, of an instant given in epoch seconds. */
  function LocalDay(zone: Zone, epochSecond: int): (d: int)
    ensures d * SecondsPerDay <= epochSecond + zone.offsetSeconds < (d + 1) * SecondsPerDay
  {
    (epochSecond + zone.offsetSeconds) / SecondsPerDay
  }

  /** `atStartOfDay(zone)`: the first second, in epoch seconds, of local day `day`. */
  function StartOfDay(zone: Zone, day: int): (t: int)
    ensures LocalDay(zone, t) == day
    ensures LocalDay(zone, t - 1) == day - 1
  {
    day * SecondsPerDay - zone.offsetSeconds
  }

  /** An instant lies on local day `day` exactly when it falls in the 24 hours from that day's start. */
  lemma LocalDayRange(zone: Zone, epochSecond: int, day: int)
    ensures LocalDay(zone, epochSecond) == day
        <==> StartOfDay(zone, day) <= epochSecond < StartOfDay(zone, day) + SecondsPerDay
  {
    var x := epochSecond + zone.offsetSeconds;
    assert x == SecondsPerDay * (x / SecondsPerDay) + x % SecondsPerDay;
  }

  /** ISO day of week (`dayOfWeek.value`, Monday = 1 .. Sunday = 7) of a local day number; day 0 was a Thursday. */
  function IsoDayOfWeek(day: int): (v: int)
    ensures 1 <= v <= 7
  {
    (day + 3) % DaysPerWeek + 1
  }

  /** The weekday of the next day is the following weekday, Sunday wrapping to Monday. */
  lemma IsoDayOfWeekNext(day: int)
    ensures IsoDayOfWeek(day + 1) == if IsoDayOfWeek(day) == 7 then 1 else IsoDayOfWeek(day) + 1
  {
  }

  /** The weekday as a constant of the settings enum, whose numbering is the same 1..7 convention. */
  function Weekday(day: int): (d: Settings.DayOfWeek)
    ensures Settings.Number(d) == IsoDayOfWeek(day)
  {
    Settings.WithNumber(IsoDayOfWeek(day)).value
  }

  /** `getStartOfToday`: the start of the local day that contains `now`. */
  function StartOfToday(zone: Zone, now: int): (t: int)
    ensures t <= now < t + SecondsPerDay
    ensures LocalDay(zone, t) == LocalDay(zone, now)
  {
    LocalDayRange(zone, now, LocalDay(zone, now));
    StartOfDay(zone, LocalDay(zone, now))
  }

  /** `getStartOfPastDay(days)`: the start of the local day `days` days before today. */
  function StartOfPastDay(zone: Zone, now: int, days: int): (t: int)
    ensures LocalDay(zone, t) == LocalDay(zone, now) - days
    ensures LocalDay(zone, t - 1) == LocalDay(zone, now) - days - 1
  {
    StartOfDay(zone, LocalDay(zone, now) - days)
  }

  /** Going back zero days gives the start of today, and each further day back starts exactly 24 hours earlier. */
  lemma StartOfPastDayMonotonic(zone: Zone, now: int, days: int, more: int)
    requires days < more
    ensures StartOfPastDay(zone, now, 0) == StartOfToday(zone, now)
    ensures StartOfPastDay(zone, now, more) == StartOfPastDay(zone, now, days) - (more - days) * SecondsPerDay
  {
  }

  /**
   * `isSameDay` on two instants in epoch MILLISECONDS: both fall on the same local date.
   * `Date(ms).toInstant()` rounds toward negative infinity, which is Dafny's `/` here.
   */
  function IsSameDay(zone: Zone, thisMillis: int, otherMillis: int): (same: bool)
    ensures thisMillis / MillisPerSecond == otherMillis / MillisPerSecond ==> same
    ensures same ==> -SecondsPerDay < thisMillis / MillisPerSecond - otherMillis / MillisPerSecond < SecondsPerDay
  {
    LocalDay(zone, thisMillis / MillisPerSecond) == LocalDay(zone, otherMillis / MillisPerSecond)
  }

  /** Two instants are on the same local date exactly when their local days start at the same second. */
  lemma IsSameDayMeansSameStart(zone: Zone, thisMillis: int, otherMillis: int)
    ensures IsSameDay(zone, thisMillis, otherMillis) <==>
      StartOfToday(zone, thisMillis / MillisPerSecond) == StartOfToday(zone, otherMillis / MillisPerSecond)
  {
  }

  /** `isSameDay` is an equivalence relation on instants. */
  lemma IsSameDayEquivalence(zone: Zone, a: int, b: int, c: int)
    ensures IsSameDay(zone, a, a)
    ensures IsSameDay(zone, a, b) == IsSameDay(zone, b, a)
    ensures IsSameDay(zone, a, b) && IsSameDay(zone, b, c) ==> IsSameDay(zone, a, c)
  {
  }

  /** The two cases of the unit tests, in UTC: 15 March 2022 19:17:08 and 05:09:08, and 16 March 05:09:08. */
  lemma IsSameDayExamples()
    ensures IsSameDay(UTC, 1647371828000, 1647320948000)
    ensures !IsSameDay(UTC, 1647371828000, 1647407348000)
    ensures Weekday(LocalDay(UTC, 1647371828)) == Settings.Tuesday
  {
  }

  /**
   * The number of days to go back from weekday `today` to reach the most recent weekday `day`
   * (both Monday = 1 .. Sunday = 7): the unique value in 0..6 congruent to `today - day`.
   */
  function Offset(today: int, day: int): (offset: int)
    requires 1 <= today <= 7 && 1 <= day <= 7
    ensures 0 <= offset < DaysPerWeek
    ensures offset == 0 <==> today == day
    ensures (today - offset - day) % DaysPerWeek == 0
  {
    if today < day then 7 - (day - today) else today - day
  }

  /**
   * `getStartOfSpecifiedDay(day)`: the start of the most recent local day (today included)
   * whose weekday is `day`; an `IllegalArgumentException` when `day` is outside 1..7.
   * The source reads the clock twice: `weekdayNow` is the instant whose weekday is taken as
   * "today", and `startNow` the later instant from which `getStartOfPastDay` counts back.
   */
  function StartOfSpecifiedDay(zone: Zone, weekdayNow: int, startNow: int, day: int): (r: Result<int, DateError>)
    ensures r.Failure? <==> day < 1 || day > 7
  {
    if day < 1 || day > 7 then
      Failure(IllegalArgumentException("Specified Day is not in Range"))
    else
      var today := IsoDayOfWeek(LocalDay(zone, weekdayNow));
      Success(StartOfPastDay(zone, startNow, Offset(today, day)))
  }

  /**
   * When both clock reads fall on the same local day, the instant returned for a weekday in 1..7
   * starts a day with that weekday, is not after either read, lies at most six days back from today,
   * and no later day up to today has that weekday: it is the most recent occurrence.
   */
  lemma {:induction false} SpecifiedDayIsMostRecent(zone: Zone, weekdayNow: int, startNow: int, day: int)
    requires 1 <= day <= 7
    requires LocalDay(zone, weekdayNow) == LocalDay(zone, startNow)
    ensures StartOfSpecifiedDay(zone, weekdayNow, startNow, day).Success?
    ensures var t := StartOfSpecifiedDay(zone, weekdayNow, startNow, day).value;
      && IsoDayOfWeek(LocalDay(zone, t)) == day
      && LocalDay(zone, t - 1) == LocalDay(zone, t) - 1
      && t <= weekdayNow && t <= startNow
      && LocalDay(zone, startNow) - DaysPerWeek < LocalDay(zone, t)
      && (forall e :: LocalDay(zone, t) < e <= LocalDay(zone, startNow) ==> IsoDayOfWeek(e) != day)
  {
    var today := LocalDay(zone, startNow);
    var offset := Offset(IsoDayOfWeek(today), day);
    var t := StartOfPastDay(zone, startNow, offset);
    WeekdayBack(today, offset);
    assert IsoDayOfWeek(LocalDay(zone, t)) == day;
    LocalDayRange(zone, startNow, today);
    LocalDayRange(zone, weekdayNow, today);
    LocalDayRange(zone, t, today - offset);
    forall e | today - offset < e <= today ensures IsoDayOfWeek(e) != day {
      WeekdayBack(today, today - e);
    }
  }

  /**
   * For any two clock reads, the weekday of the returned day is `day` moved forward by the number of
   * local midnights between the reads: reads on either side of midnight give the day after `day`.
   */
  lemma {:induction false} SpecifiedDayDrift(zone: Zone, weekdayNow: int, startNow: int, day: int)
    requires 1 <= day <= 7
    ensures StartOfSpecifiedDay(zone, weekdayNow, startNow, day).Success?
    ensures var t := StartOfSpecifiedDay(zone, weekdayNow, startNow, day).value;
      var drift := LocalDay(zone, startNow) - LocalDay(zone, weekdayNow);
      (IsoDayOfWeek(LocalDay(zone, t)) - day - drift) % DaysPerWeek == 0
  {
    var first := LocalDay(zone, weekdayNow);
    var second := LocalDay(zone, startNow);
    var offset := Offset(IsoDayOfWeek(first), day);
    WeekdayBack(second, offset);
    WeekdayBack(second, second - first);
    var a := IsoDayOfWeek(second) - offset - IsoDayOfWeek(second - offset);
    var b := IsoDayOfWeek(second) - (second - first) - IsoDayOfWeek(first);
    var c := IsoDayOfWeek(first) - offset - day;
    assert a == DaysPerWeek * (a / DaysPerWeek);
    assert b == DaysPerWeek * (b / DaysPerWeek);
    assert c == DaysPerWeek * (c / DaysPerWeek);
    var x := IsoDayOfWeek(second - offset) - day - (second - first);
    assert x == DaysPerWeek * (b / DaysPerWeek - a / DaysPerWeek + c / DaysPerWeek);
  }

  /**
   * Asking for Thursday (4) with the weekday read at 23:59:59 UTC on Thursday 1 January 1970 and the
   * start read one second later, at midnight, returns the start of Friday 2 January.
   */
  lemma SpecifiedDayAcrossMidnight()
    ensures IsoDayOfWeek(LocalDay(UTC, 86399)) == 4
    ensures StartOfSpecifiedDay(UTC, 86399, 86400, 4) == Success(86400)
    ensures IsoDayOfWeek(LocalDay(UTC, 86400)) == 5
  {
  }

  /** Going back `k` days moves the weekday back by `k` modulo seven. */
  lemma WeekdayBack(day: int, k: int)
    ensures (IsoDayOfWeek(day) - k - IsoDayOfWeek(day - k)) % DaysPerWeek == 0
  {
    var a := day + 3;
    var b := day - k + 3;
    assert a == DaysPerWeek * (a / DaysPerWeek) + a % DaysPerWeek;
    assert b == DaysPerWeek * (b / DaysPerWeek) + b % DaysPerWeek;
    assert IsoDayOfWeek(day) - k - IsoDayOfWeek(day - k) == DaysPerWeek * (b / DaysPerWeek - a / DaysPerWeek);
  }
}
