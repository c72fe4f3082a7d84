/**
 * The blocking decision made for a navigation: the timer rules first (break
 * override, timer allowlist, timer blocklist), which do not depend on
 * monitoring; then the monitoring gate, the current position, and the
 * enabled zones in array order, the first one that qualifies blocking.
 * The distance between two points is a parameter standing for `haversine`.
 */
module Decision {
  import opened Wrappers
  import opened HostMatch
  import opened Schedule
  import opened Zones
  import opened Timer
  import opened Settings
  import opened Search

  datatype Verdict = Allow | BlockTimer | BlockZone(zoneId: string)

  /** A zone blocks the host when it is not allowlisted there, is on the blocklist, the schedule holds and the position is inside. */
  predicate ZoneQualifies(z: Zone, host: Option<string>, position: GeoLocation, clock: Clock,
                          dist: (GeoLocation, GeoLocation) -> real) {
    !DomainAllowed(host, z.allowlist) && DomainMatches(host, z.blocklist) &&
    IsWithinSchedule(z.timeSchedule, clock) && dist(position, z.location) <= z.radius
  }

  /** `zones.filter(z => z.enabled)`. */
  function EnabledZones(zones: seq<Zone>): (r: seq<Zone>)
    ensures |r| <= |zones|
    ensures forall j :: 0 <= j < |r| ==> r[j].enabled
    ensures forall z :: z in r <==> z in zones && z.enabled
  {
    if |zones| == 0 then []
    else if zones[0].enabled then [zones[0]] + EnabledZones(zones[1..])
    else EnabledZones(zones[1..])
  }

  /** The zone test for one navigation, as a predicate on zones. */
  function Qualifier(host: Option<string>, position: GeoLocation, clock: Clock,
                     dist: (GeoLocation, GeoLocation) -> real): Zone -> bool {
    z => ZoneQualifies(z, host, position, clock, dist)
  }

  /** A zone that fails one of the four tests, taken in the listener's order, does not qualify. */
  lemma ZoneSkipped(zones: seq<Zone>, host: Option<string>, position: GeoLocation, clock: Clock,
                    dist: (GeoLocation, GeoLocation) -> real, i: nat)
    requires i < |zones|
    requires forall j {:trigger ZoneQualifies(zones[j], host, position, clock, dist)} ::
      0 <= j < i ==> !ZoneQualifies(zones[j], host, position, clock, dist)
    requires !(!DomainAllowed(host, zones[i].allowlist) && DomainMatches(host, zones[i].blocklist) &&
      IsWithinSchedule(zones[i].timeSchedule, clock) && dist(position, zones[i].location) <= zones[i].radius)
    ensures forall j {:trigger ZoneQualifies(zones[j], host, position, clock, dist)} ::
      0 <= j < i + 1 ==> !ZoneQualifies(zones[j], host, position, clock, dist)
  {
  }

  /** The first zone that qualifies is the one the search finds. */
  lemma FirstQualifyingIsFound(zones: seq<Zone>, host: Option<string>, position: GeoLocation, clock: Clock,
                               dist: (GeoLocation, GeoLocation) -> real, k: nat)
    requires k < |zones|
    requires !DomainAllowed(host, zones[k].allowlist) && DomainMatches(host, zones[k].blocklist) &&
      IsWithinSchedule(zones[k].timeSchedule, clock) && dist(position, zones[k].location) <= zones[k].radius
    requires forall j {:trigger ZoneQualifies(zones[j], host, position, clock, dist)} ::
      0 <= j < k ==> !ZoneQualifies(zones[j], host, position, clock, dist)
    ensures FirstIndex(zones, Qualifier(host, position, clock, dist)) == Some(k)
  {
    var q := Qualifier(host, position, clock, dist);
    forall j | 0 <= j < k ensures !q(zones[j]) {
      assert !ZoneQualifies(zones[j], host, position, clock, dist);
    }
    FirstIndexIsFirst(zones, q, k);
  }

  /** When no zone qualifies, the search finds none. */
  lemma NoneQualifyingIsFound(zones: seq<Zone>, host: Option<string>, position: GeoLocation, clock: Clock,
                              dist: (GeoLocation, GeoLocation) -> real)
    requires forall j {:trigger ZoneQualifies(zones[j], host, position, clock, dist)} ::
      0 <= j < |zones| ==> !ZoneQualifies(zones[j], host, position, clock, dist)
    ensures FirstIndex(zones, Qualifier(host, position, clock, dist)).None?
  {
    var q := Qualifier(host, position, clock, dist);
    forall j | 0 <= j < |zones| ensures !q(zones[j]) {
      assert !ZoneQualifies(zones[j], host, position, clock, dist);
    }
  }

  /** The verdict of the zone search over the enabled zones. */
  function ZoneVerdict(zones: seq<Zone>, host: Option<string>, position: GeoLocation, clock: Clock,
                       dist: (GeoLocation, GeoLocation) -> real): (r: Verdict)
    ensures r != BlockTimer
  {
    var enabled := EnabledZones(zones);
    match FirstIndex(enabled, Qualifier(host, position, clock, dist))
    case None => Allow
    case Some(i) => BlockZone(enabled[i].id)
  }

  /** The zone search blocks exactly when some enabled zone qualifies. */
  lemma ZoneVerdictBlocksIff(zones: seq<Zone>, host: Option<string>, position: GeoLocation, clock: Clock,
                             dist: (GeoLocation, GeoLocation) -> real)
    ensures ZoneVerdict(zones, host, position, clock, dist).BlockZone? <==>
      exists j :: (0 <= j < |EnabledZones(zones)| &&
        ZoneQualifies(EnabledZones(zones)[j], host, position, clock, dist))
  {
    var enabled := EnabledZones(zones);
    if j :| 0 <= j < |enabled| && ZoneQualifies(enabled[j], host, position, clock, dist) {
      var q := Qualifier(host, position, clock, dist);
      assert q(enabled[j]);
      // the None case of `FirstIndex` rules out a qualifying zone, so the search finds one
      assert FirstIndex(enabled, q).Some?;
    } else {
      NoneQualifyingIsFound(enabled, host, position, clock, dist);
    }
  }

  /** The decision for one navigation to `host`, with the settings and timer as read. */
  function Decide(host: Option<string>, s: ExtensionSettings, t: PomodoroTimer, now: int, clock: Clock,
                  dist: (GeoLocation, GeoLocation) -> real): Verdict {
    if IsTimerAllowingAll(t) then Allow
    else if DomainAllowed(host, t.timerAllowlist) then Allow
    else if ShouldBlockByTimer(t, host) then BlockTimer
    else if !IsMonitoringActive(s, now) then Allow
    else if s.currentPosition.None? then Allow
    else ZoneVerdict(s.zones, host, s.currentPosition.value, clock, dist)
  }

  /** During a break that allows all sites nothing is blocked, whatever the lists, monitoring or zones say. */
  lemma BreakOverride(host: Option<string>, s: ExtensionSettings, t: PomodoroTimer, now: int, clock: Clock,
                      dist: (GeoLocation, GeoLocation) -> real)
    requires IsTimerAllowingAll(t)
    ensures Decide(host, s, t, now, clock, dist) == Allow
  {
  }

  /** A host on the timer allowlist is allowed in every timer state, without consulting any zone. */
  lemma TimerAllowlistBypass(host: Option<string>, s: ExtensionSettings, t: PomodoroTimer, now: int, clock: Clock,
                             dist: (GeoLocation, GeoLocation) -> real)
    requires DomainAllowed(host, t.timerAllowlist)
    ensures Decide(host, s, t, now, clock, dist) == Allow
  {
  }

  /**
   * A timer block happens exactly in focus with focus blocking on, for a
   * host on the timer blocklist and off the timer allowlist; the break
   * override cannot apply then.
   */
  lemma TimerBlockIff(host: Option<string>, s: ExtensionSettings, t: PomodoroTimer, now: int, clock: Clock,
                      dist: (GeoLocation, GeoLocation) -> real)
    ensures Decide(host, s, t, now, clock, dist) == BlockTimer <==>
      (t.state == Focus && t.blockDuringFocus && DomainMatches(host, t.timerBlocklist) &&
       !DomainAllowed(host, t.timerAllowlist))
  {
  }

  /** Whether the timer blocks does not depend on monitoring, snooze, disable, position or zones. */
  lemma TimerBlockIgnoresMonitoring(host: Option<string>, s: ExtensionSettings, s': ExtensionSettings,
                                    t: PomodoroTimer, now: int, clock: Clock,
                                    dist: (GeoLocation, GeoLocation) -> real)
    ensures Decide(host, s, t, now, clock, dist) == BlockTimer <==> Decide(host, s', t, now, clock, dist) == BlockTimer
  {
    TimerBlockIff(host, s, t, now, clock, dist);
    TimerBlockIff(host, s', t, now, clock, dist);
  }

  /**
   * A zone block needs the timer rules to have passed, monitoring to be on
   * and neither disabled nor snoozed, a known position, and an enabled zone
   * with that id that qualifies.
   */
  lemma ZoneBlockPreconditions(host: Option<string>, s: ExtensionSettings, t: PomodoroTimer, now: int,
                               clock: Clock, dist: (GeoLocation, GeoLocation) -> real)
    requires Decide(host, s, t, now, clock, dist).BlockZone?
    ensures !IsTimerAllowingAll(t) && !DomainAllowed(host, t.timerAllowlist) && !ShouldBlockByTimer(t, host)
    ensures s.monitoring && !InForce(s.disabledUntil, now) && !InForce(s.snoozeUntil, now)
    ensures s.currentPosition.Some?
    ensures exists z :: (z in s.zones && z.enabled && z.id == Decide(host, s, t, now, clock, dist).zoneId &&
      ZoneQualifies(z, host, s.currentPosition.value, clock, dist))
  {
    var enabled := EnabledZones(s.zones);
    var i := FirstIndex(enabled, Qualifier(host, s.currentPosition.value, clock, dist)).value;
    assert enabled[i] in enabled;
  }

  /**
   * With the timer rules and the gates passed, the first enabled zone in
   * array order that qualifies decides.
   */
  lemma FirstMatchWins(host: Option<string>, s: ExtensionSettings, t: PomodoroTimer, now: int, clock: Clock,
                       dist: (GeoLocation, GeoLocation) -> real, k: nat)
    requires !IsTimerAllowingAll(t) && !DomainAllowed(host, t.timerAllowlist) && !ShouldBlockByTimer(t, host)
    requires IsMonitoringActive(s, now) && s.currentPosition.Some?
    requires var enabled := EnabledZones(s.zones);
      k < |enabled| && ZoneQualifies(enabled[k], host, s.currentPosition.value, clock, dist) &&
      forall j :: 0 <= j < k ==> !ZoneQualifies(enabled[j], host, s.currentPosition.value, clock, dist)
    ensures Decide(host, s, t, now, clock, dist) == BlockZone(EnabledZones(s.zones)[k].id)
  {
    var enabled := EnabledZones(s.zones);
    var q := Qualifier(host, s.currentPosition.value, clock, dist);
    forall j | 0 <= j < k ensures !q(enabled[j]) {
      assert !ZoneQualifies(enabled[j], host, s.currentPosition.value, clock, dist);
    }
    FirstIndexIsFirst(enabled, q, k);
  }

  /**
   * Zones that do not qualify (for instance because the host is on their
   * allowlist) are only skipped: the search carries on with the zones after them.
   */
  lemma {:induction false} SkippedZonesDoNotStopSearch(a: seq<Zone>, b: seq<Zone>, q: Zone -> bool)
    requires forall j {:trigger q(a[j])} :: 0 <= j < |a| ==> !q(a[j])
    ensures FirstIndex(a + b, q) ==
      match FirstIndex(b, q)
      case None => None
      case Some(i) => Some(|a| + i)
  {
    if |a| == 0 {
      assert a + b == b;
    } else {
      assert (a + b)[0] == a[0];
      assert (a + b)[1..] == a[1..] + b;
      SkippedZonesDoNotStopSearch(a[1..], b, q);
    }
  }

  /** The filter works piece by piece, so the enabled zones keep their array order. */
  lemma {:induction false} EnabledZonesDistributes(a: seq<Zone>, b: seq<Zone>)
    ensures EnabledZones(a + b) == EnabledZones(a) + EnabledZones(b)
  {
    if |a| == 0 {
      assert a + b == b;
    } else {
      assert (a + b)[1..] == a[1..] + b;
      EnabledZonesDistributes(a[1..], b);
    }
  }

  /** Without monitoring, or snoozed, or disabled, or without a position, only the timer can block. */
  lemma InactiveMonitoringOnlyTimerBlocks(host: Option<string>, s: ExtensionSettings, t: PomodoroTimer, now: int,
                                          clock: Clock, dist: (GeoLocation, GeoLocation) -> real)
    requires !IsMonitoringActive(s, now) || s.currentPosition.None?
    ensures Decide(host, s, t, now, clock, dist) != Allow ==> Decide(host, s, t, now, clock, dist) == BlockTimer
  {
  }

  /** A host that does not parse is never blocked. */
  lemma UnparsedHostIsAllowed(s: ExtensionSettings, t: PomodoroTimer, now: int, clock: Clock,
                              dist: (GeoLocation, GeoLocation) -> real)
    ensures Decide(None, s, t, now, clock, dist) == Allow
  {
  }
}
