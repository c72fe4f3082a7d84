/**
 * The settings record the blocking decision reads, with the snooze and
 * disable deadlines (`isMonitoringActive`, `getMonitoringStatus`) and the
 * clearing of expired deadlines done when settings are read.
 */
module Settings {
  import opened Wrappers
  import opened Zones
  import opened Timer

  datatype ExtensionSettings = ExtensionSettings(
    zones: seq<Zone>,
    monitoring: bool,
    currentPosition: Option<GeoLocation>,
    pomodoroTimer: PomodoroTimer,
    snoozeUntil: Option<int>,
    disabledUntil: Option<int>)

  /** A deadline is in force when it is set, non-zero and strictly in the future. */
  predicate InForce(deadline: Option<int>, now: int) {
    TruthyInt(deadline) && deadline.value > now
  }

  /** `isMonitoringActive(settings)`: monitoring is on and neither disabled nor snoozed. */
  predicate IsMonitoringActive(s: ExtensionSettings, now: int) {
    s.monitoring && !InForce(s.disabledUntil, now) && !InForce(s.snoozeUntil, now)
  }

  datatype MonitoringState = MonitoringIdle | MonitoringDisabled | MonitoringSnoozed | MonitoringActive

  datatype MonitoringStatus = MonitoringStatus(state: MonitoringState, expiresAt: Option<int>)

  /**
   * `getMonitoringStatus(settings)`: the same tests as `isMonitoringActive`,
   * in the same order, naming which one failed and until when.
   */
  function GetMonitoringStatus(s: ExtensionSettings, now: int): (r: MonitoringStatus)
    ensures r.state == MonitoringActive <==> IsMonitoringActive(s, now)
    ensures r.state == MonitoringIdle <==> !s.monitoring
    ensures r.state == MonitoringDisabled <==> (s.monitoring && InForce(s.disabledUntil, now))
    ensures r.state == MonitoringSnoozed <==>
      (s.monitoring && !InForce(s.disabledUntil, now) && InForce(s.snoozeUntil, now))
    ensures r.state == MonitoringDisabled ==> r.expiresAt == s.disabledUntil
    ensures r.state == MonitoringSnoozed ==> r.expiresAt == s.snoozeUntil
    ensures r.expiresAt.Some? <==> (r.state == MonitoringDisabled || r.state == MonitoringSnoozed)
    ensures r.expiresAt.Some? ==> r.expiresAt.value > now
  {
    if !s.monitoring then MonitoringStatus(MonitoringIdle, None)
    else if InForce(s.disabledUntil, now) then MonitoringStatus(MonitoringDisabled, s.disabledUntil)
    else if InForce(s.snoozeUntil, now) then MonitoringStatus(MonitoringSnoozed, s.snoozeUntil)
    else MonitoringStatus(MonitoringActive, None)
  }

  /**
   * A stored deadline as `getSettings` returns it: cleared once strictly in
   * the past, and a falsy value (absent or 0) read as `null`.
   */
  function ReadDeadline(stored: Option<int>, now: int): (r: Option<int>)
    ensures r.Some? ==> (r == stored && r.value >= now && r.value != 0)
    ensures TruthyInt(stored) && stored.value >= now ==> r == stored
  {
    if TruthyInt(stored) && !(stored.value < now) then stored else None
  }

  /** Clearing expired deadlines never changes whether a deadline is in force. */
  lemma ReadDeadlineKeepsInForce(stored: Option<int>, now: int)
    ensures InForce(ReadDeadline(stored, now), now) == InForce(stored, now)
  {
  }

  /** A deadline read back at the same instant reads the same. */
  lemma ReadDeadlineIsIdempotent(stored: Option<int>, now: int)
    ensures ReadDeadline(ReadDeadline(stored, now), now) == ReadDeadline(stored, now)
  {
  }

  /** Snoozing or disabling expire on their own: from the deadline on, monitoring is active again. */
  lemma DeadlinesExpire(s: ExtensionSettings, now: int)
    requires s.monitoring
    requires s.disabledUntil.None? || s.disabledUntil.value <= now
    requires s.snoozeUntil.None? || s.snoozeUntil.value <= now
    ensures IsMonitoringActive(s, now)
    ensures GetMonitoringStatus(s, now) == MonitoringStatus(MonitoringActive, None)
  {
  }
}
