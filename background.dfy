/**
 * The background script's two listeners: `tabs.onUpdated`, which decides
 * whether a navigation is blocked and records the block, and
 * `alarms.onAlarm`, which completes a timer session once its time is up.
 * The URL's host (or `None` where the URL does not parse), the wall clock,
 * the distance function and the calendar-day function are parameters.
 */
module Background {
  import opened Wrappers
  import opened Text
  import opened HostMatch
  import opened Schedule
  import opened Stats
  import opened Zones
  import opened Timer
  import opened Settings
  import opened Decision
  import opened Search
  import opened Storage

  const TimerAlarmName: string := "nodi-timer-tick"

  /** A tab update is evaluated only while loading a non-empty URL that is not internal to the browser. */
  predicate ShouldEvaluate(status: string, url: string) {
    status == "loading" && url != "" &&
    !StartsWith(url, "about:") && !StartsWith(url, "moz-extension:") &&
    !StartsWith(url, "data:") && !StartsWith(url, "chrome:")
  }

  /**
   * The `tabs.onUpdated` listener: the timer rules, the monitoring gate, the
   * position, then the enabled zones in order; a block records one statistic
   * and ends the evaluation. The verdict stands for the redirect to the
   * blocked page.
   */
  method OnTabUpdated(store: Store, status: string, url: string, host: Option<string>, now: int, clock: Clock,
                      dist: (GeoLocation, GeoLocation) -> real, dayOf: int -> int) returns (v: Verdict)
    modifies store`statistics
    ensures !ShouldEvaluate(status, url) ==> v == Allow
    ensures ShouldEvaluate(status, url) ==> v == Decide(host, old(store.Settings(now)), old(store.Timer()), now, clock, dist)
    ensures v == Allow ==> store.statistics == old(store.statistics)
    ensures v == BlockTimer ==> (store.statistics ==
      Some(RecordBlocked(ReadStatistics(old(store.statistics), now, dayOf), ExtractDomain(host), None, true, now)))
    ensures v.BlockZone? ==> (store.statistics ==
      Some(RecordBlocked(ReadStatistics(old(store.statistics), now, dayOf), ExtractDomain(host), Some(v.zoneId), false, now)))
    ensures old(store.Valid()) ==> store.Valid()
  {
    if !ShouldEvaluate(status, url) {
      return Allow;
    }
    var settings := store.Settings(now);
    var timer := store.Timer();
    if IsTimerAllowingAll(timer) {
      return Allow;
    }
    if DomainAllowed(host, timer.timerAllowlist) {
      return Allow;
    }
    if ShouldBlockByTimer(timer, host) {
      store.RecordBlockedSite(ExtractDomain(host), None, true, now, dayOf);
      return BlockTimer;
    }
    if !IsMonitoringActive(settings, now) {
      return Allow;
    }
    if settings.currentPosition.None? {
      return Allow;
    }
    var enabled := EnabledZones(settings.zones);
    if |enabled| == 0 {
      return Allow;
    }
    var k := FindBlockingZone(enabled, host, settings.currentPosition.value, clock, dist);
    if k.None? {
      return Allow;
    }
    var zone := enabled[k.value];
    store.RecordBlockedSite(ExtractDomain(host), Some(zone.id), false, now, dayOf);
    return BlockZone(zone.id);
  }

  /**
   * The zone loop: an allowlist hit, a blocklist miss or a schedule outside
   * its window moves on to the next zone; the first zone whose radius holds
   * the position is the one that blocks, and the loop ends there.
   */
  method FindBlockingZone(enabled: seq<Zone>, host: Option<string>, position: GeoLocation, clock: Clock,
                          dist: (GeoLocation, GeoLocation) -> real) returns (k: Option<nat>)
    ensures k == FirstIndex(enabled, Qualifier(host, position, clock, dist))
  {
    var i := 0;
    while i < |enabled|
      invariant 0 <= i <= |enabled|
      invariant forall j {:trigger ZoneQualifies(enabled[j], host, position, clock, dist)} ::
        0 <= j < i ==> !ZoneQualifies(enabled[j], host, position, clock, dist)
    {
      var zone := enabled[i];
      if !DomainAllowed(host, zone.allowlist) && DomainMatches(host, zone.blocklist) &&
         IsWithinSchedule(zone.timeSchedule, clock) && dist(position, zone.location) <= zone.radius
      {
        FirstQualifyingIsFound(enabled, host, position, clock, dist, i);
        return Some(i);
      }
      ZoneSkipped(enabled, host, position, clock, dist, i);
      i := i + 1;
    }
    NoneQualifyingIsFound(enabled, host, position, clock, dist);
    return None;
  }

  /**
   * The `alarms.onAlarm` listener: only the timer alarm, only while a
   * session runs, and only once no time remains, completes the session.
   */
  method OnAlarm(store: Store, name: string, now: int, dayOf: int -> int) returns (completed: bool)
    modifies store`pomodoroTimer, store`statistics
    ensures completed <==> (name == TimerAlarmName && SessionDue(old(store.Timer()), now))
    ensures completed ==> (store.Timer() ==
      Complete(old(store.Timer()), ReadStatistics(old(store.statistics), now, dayOf).timerStats, now).0)
    ensures completed ==> (store.statistics ==
      var read := ReadStatistics(old(store.statistics), now, dayOf);
      if old(store.Timer()).state == Focus
      then Some(WithTimerStats(read, Complete(old(store.Timer()), read.timerStats, now).1))
      else StoredAfterRead(old(store.statistics), now, dayOf))
    ensures !completed ==> store.pomodoroTimer == old(store.pomodoroTimer) && store.statistics == old(store.statistics)
    ensures old(store.Valid()) ==> store.Valid()
    ensures (completed && old(store.Timer()).focusDuration > 0 && old(store.Timer()).shortBreakDuration > 0 &&
      old(store.Timer()).longBreakDuration > 0) ==> !SessionDue(store.Timer(), now)
  {
    if name != TimerAlarmName {
      return false;
    }
    var timer := store.Timer();
    if timer.state == Idle || timer.state == Paused {
      return false;
    }
    var remaining := RemainingTime(timer, now);
    if remaining <= 0 {
      var st := ReadStatistics(store.statistics, now, dayOf);
      if timer.focusDuration > 0 && timer.shortBreakDuration > 0 && timer.longBreakDuration > 0 {
        CompleteIsNotDueAgain(timer, st.timerStats, now);
      }
      store.CompleteTimerSession(now, dayOf);
      return true;
    }
    return false;
  }
}
