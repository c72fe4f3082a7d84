/** The weekly time window of a zone (`isWithinSchedule`). */
module Schedule {

  /** A zone's schedule: an inclusive daily window on the listed weekdays (0 = Sunday). */
  datatype TimeSchedule = TimeSchedule(
    enabled: bool,
    startHour: int,
    startMinute: int,
    endHour: int,
    endMinute: int,
    days: seq<int>)

  /** The local wall clock, read by the caller: weekday (0 = Sunday), hour and minute. */
  datatype Clock = Clock(weekday: int, hour: int, minute: int)

  function MinutesOfDay(hour: int, minute: int): int {
    hour * 60 + minute
  }

  function StartOfWindow(s: TimeSchedule): int {
    MinutesOfDay(s.startHour, s.startMinute)
  }

  function EndOfWindow(s: TimeSchedule): int {
    MinutesOfDay(s.endHour, s.endMinute)
  }

  /** `isWithinSchedule(schedule)` evaluated at `clock`. */
  predicate IsWithinSchedule(s: TimeSchedule, clock: Clock) {
    if !s.enabled then true
    else if clock.weekday !in s.days then false
    else
      var now := MinutesOfDay(clock.hour, clock.minute);
      StartOfWindow(s) <= now && now <= EndOfWindow(s)
  }

  /** A disabled schedule holds at every instant. */
  lemma DisabledAlwaysHolds(s: TimeSchedule, clock: Clock)
    requires !s.enabled
    ensures IsWithinSchedule(s, clock)
  {
  }

  /** An enabled schedule holds exactly on a listed day inside the closed window. */
  lemma EnabledHoldsIff(s: TimeSchedule, clock: Clock)
    requires s.enabled
    ensures IsWithinSchedule(s, clock) <==>
      (clock.weekday in s.days &&
       s.startHour * 60 + s.startMinute <= clock.hour * 60 + clock.minute <= s.endHour * 60 + s.endMinute)
  {
  }

  /** Both ends of the window are inside it, on a listed day. */
  lemma WindowIsInclusive(s: TimeSchedule, day: int)
    requires s.enabled && day in s.days
    requires StartOfWindow(s) <= EndOfWindow(s)
    ensures IsWithinSchedule(s, Clock(day, s.startHour, s.startMinute))
    ensures IsWithinSchedule(s, Clock(day, s.endHour, s.endMinute))
  {
  }

  /** No wrap-around at midnight: a window that ends before it starts never holds. */
  lemma InvertedWindowNeverHolds(s: TimeSchedule, clock: Clock)
    requires s.enabled
    requires StartOfWindow(s) > EndOfWindow(s)
    ensures !IsWithinSchedule(s, clock)
  {
  }

  /** An enabled schedule with no days never holds. */
  lemma NoDaysNeverHolds(s: TimeSchedule, clock: Clock)
    requires s.enabled && s.days == []
    ensures !IsWithinSchedule(s, clock)
  {
  }
}
