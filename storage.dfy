/**
 * `browser.storage.local` as an object whose fields are the storage keys the
 * core reads and writes, and the asynchronous helpers of the utilities file
 * as its methods: each reads the keys it needs, computes, and writes back.
 * The clock `now` and the calendar-day function `dayOf` are parameters.
 */
module Storage {
  import opened Wrappers
  import opened Stats
  import opened Timer
  import opened Zones
  import opened Settings

  /** What `getStatistics` leaves stored: a stale record is replaced by a fresh one, anything else is kept. */
  function StoredAfterRead(stored: Option<Statistics>, now: int, dayOf: int -> int): (r: Option<Statistics>)
    ensures stored.Some? && IsStale(stored.value, now, dayOf) ==> r == Some(FreshStatistics(now))
    ensures !(stored.Some? && IsStale(stored.value, now, dayOf)) ==> r == stored
  {
    if stored.Some? && IsStale(stored.value, now, dayOf) then Some(FreshStatistics(now)) else stored
  }

  /** Reading the statistics again at the same instant gives the same record: the reset happens once a day. */
  lemma ReadAfterReadIsSame(stored: Option<Statistics>, now: int, dayOf: int -> int)
    ensures ReadStatistics(StoredAfterRead(stored, now, dayOf), now, dayOf) == ReadStatistics(stored, now, dayOf)
  {
  }

  /** The statistics `completeTimerSession` writes after a focus session: only the timer counters change. */
  function WithTimerStats(s: Statistics, ts: TimerStatistics): (r: Statistics)
    ensures r.timerStats == ts
    ensures r.totalBlocked == s.totalBlocked && r.blockedSites == s.blockedSites && r.zoneStats == s.zoneStats
    ensures r.sessionStart == s.sessionStart && r.lastUpdated == s.lastUpdated
  {
    s.(timerStats := ts)
  }

  class Store {
    var zones: seq<Zone>
    var monitoring: bool
    var currentPosition: Option<GeoLocation>
    /** `None` while nothing is stored under `pomodoroTimer`: reads then see the default timer. */
    var pomodoroTimer: Option<PomodoroTimer>
    var snoozeUntil: Option<int>
    var disabledUntil: Option<int>
    var statistics: Option<Statistics>

    /** What is stored is well formed: a valid timer and short, sorted site lists. */
    predicate Valid()
      reads this
    {
      (pomodoroTimer.Some? ==> ValidTimer(pomodoroTimer.value)) &&
      (statistics.Some? ==> WellFormed(statistics.value))
    }

    /** A fresh profile: nothing stored. */
    constructor ()
      ensures zones == [] && !monitoring && currentPosition.None? && pomodoroTimer.None?
      ensures snoozeUntil.None? && disabledUntil.None? && statistics.None?
      ensures Valid()
    {
      zones := [];
      monitoring := false;
      currentPosition := None;
      pomodoroTimer := None;
      snoozeUntil := None;
      disabledUntil := None;
      statistics := None;
    }

    /** `getTimerState()`: the stored timer, or the default one. */
    function Timer(): (r: PomodoroTimer)
      reads this
      ensures pomodoroTimer.None? ==> r == DefaultTimer()
      ensures pomodoroTimer.Some? ==> r == pomodoroTimer.value
    {
      pomodoroTimer.GetOr(DefaultTimer())
    }

    /** `getSettings()` (after migration): expired deadlines read as `null`. */
    function Settings(now: int): (r: ExtensionSettings)
      reads this
      ensures r.zones == zones && r.monitoring == monitoring && r.currentPosition == currentPosition
      ensures r.pomodoroTimer == Timer()
      ensures IsMonitoringActive(r, now) <==>
        (monitoring && !InForce(disabledUntil, now) && !InForce(snoozeUntil, now))
    {
      ReadDeadlineKeepsInForce(snoozeUntil, now);
      ReadDeadlineKeepsInForce(disabledUntil, now);
      ExtensionSettings(zones, monitoring, currentPosition, Timer(),
                        ReadDeadline(snoozeUntil, now), ReadDeadline(disabledUntil, now))
    }

    lemma ValidTimerRead()
      requires Valid()
      ensures ValidTimer(Timer())
    {
      DefaultIsValid();
    }

    /** `saveTimerState(patch)`: the stored (or default) timer with the patch merged in. */
    method SaveTimerState(p: TimerPatch)
      modifies this`pomodoroTimer
      ensures pomodoroTimer == Some(MergeTimer(old(Timer()), p))
      ensures old(Valid()) && ValidTimer(MergeTimer(old(Timer()), p)) ==> Valid()
    {
      pomodoroTimer := Some(MergeTimer(Timer(), p));
    }

    /** `startTimer(state)`. */
    method StartTimer(s: TimerState, now: int)
      modifies this`pomodoroTimer
      ensures pomodoroTimer == Some(Start(old(Timer()), s, now))
      ensures old(Valid()) ==> Valid()
    {
      if Valid() {
        ValidTimerRead();
        OperationsKeepValid(Timer(), s, now);
      }
      var timer := Timer();
      SaveTimerState(TimerPatch(Some(s), None, Some(0), Some(Duration(timer, s)), Some(Some(now)), Some(None)));
    }

    /** `pauseTimer()`. */
    method PauseTimer(now: int)
      modifies this`pomodoroTimer
      ensures pomodoroTimer == Some(Pause(old(Timer()), now))
      ensures old(Valid()) ==> Valid()
    {
      if Valid() {
        ValidTimerRead();
        OperationsKeepValid(Timer(), Focus, now);
      }
      var timer := Timer();
      var remaining := RemainingTime(timer, now);
      SaveTimerState(TimerPatch(Some(Paused), None, None, Some(remaining), None, Some(Some(now))));
    }

    /** `resumeTimer()`. */
    method ResumeTimer(now: int)
      modifies this`pomodoroTimer
      ensures pomodoroTimer == Some(Resume(old(Timer()), now))
      ensures old(Valid()) ==> Valid()
    {
      if Valid() {
        ValidTimerRead();
        OperationsKeepValid(Timer(), Focus, now);
      }
      var timer := Timer();
      var state := if timer.state == Paused then Focus else timer.state;
      SaveTimerState(TimerPatch(Some(state), None, None, None, Some(Some(now)), Some(None)));
    }

    /** `resetTimer()`. */
    method ResetTimer()
      modifies this`pomodoroTimer
      ensures pomodoroTimer == Some(Reset(old(Timer())))
      ensures old(Valid()) ==> Valid()
    {
      if Valid() {
        ValidTimerRead();
        OperationsKeepValid(Timer(), Focus, 0);
      }
      var timer := Timer();
      SaveTimerState(TimerPatch(Some(Idle), Some(0), Some(0), Some(timer.focusDuration), Some(None), Some(None)));
    }

    /** `getStatistics()`: returns today's record, writing a fresh one back when the stored one is stale. */
    method GetStatistics(now: int, dayOf: int -> int) returns (s: Statistics)
      modifies this`statistics
      ensures s == ReadStatistics(old(statistics), now, dayOf)
      ensures statistics == StoredAfterRead(old(statistics), now, dayOf)
      ensures old(Valid()) ==> Valid()
    {
      FreshIsWellFormed(now);
      match statistics
      case None =>
        s := FreshStatistics(now);
      case Some(existing) =>
        if IsStale(existing, now, dayOf) {
          s := FreshStatistics(now);
          statistics := Some(s);
        } else {
          s := existing;
        }
    }

    /** `recordBlockedSite(domain, zoneId, fromTimer)`. */
    method RecordBlockedSite(domain: string, zoneId: Option<string>, fromTimer: bool, now: int, dayOf: int -> int)
      modifies this`statistics
      ensures statistics == Some(RecordBlocked(ReadStatistics(old(statistics), now, dayOf), domain, zoneId, fromTimer, now))
      ensures old(Valid()) ==> Valid()
    {
      FreshIsWellFormed(now);
      var stats := GetStatistics(now, dayOf);
      if old(Valid()) {
        RecordBlockedKeepsWellFormed(stats, domain, zoneId, fromTimer, now);
      }
      statistics := Some(RecordBlocked(stats, domain, zoneId, fromTimer, now));
    }

    /**
     * `completeTimerSession()`: the statistics are read (and reset on a new
     * day); after focus the timer counters are written, then the session
     * counter, then the next state, each write merging into what the
     * previous one stored.
     */
    method CompleteTimerSession(now: int, dayOf: int -> int)
      modifies this`pomodoroTimer, this`statistics
      ensures var read := ReadStatistics(old(statistics), now, dayOf);
        Timer() == Complete(old(Timer()), read.timerStats, now).0 &&
        statistics == (if old(Timer()).state == Focus
                       then Some(WithTimerStats(read, Complete(old(Timer()), read.timerStats, now).1))
                       else StoredAfterRead(old(statistics), now, dayOf))
      ensures old(Valid()) ==> Valid()
    {
      var timer := Timer();
      var wasValid := Valid();
      if wasValid {
        ValidTimerRead();
      }
      FreshIsWellFormed(now);
      var stats := GetStatistics(now, dayOf);
      if wasValid {
        CompleteKeepsValid(timer, stats.timerStats, now);
      }
      if timer.state == Focus {
        statistics := Some(WithTimerStats(stats, CountFocus(stats.timerStats, timer)));
        SaveAfterFocus(timer, now);
      } else if timer.state == ShortBreak || timer.state == LongBreak {
        SaveAfterBreak(timer, now);
      }
    }

    /** The timer writes after a focus session: the incremented counter, then the next state. */
    method SaveAfterFocus(timer: PomodoroTimer, now: int)
      requires Timer() == timer
      modifies this`pomodoroTimer
      ensures Timer() == AfterFocus(timer, now)
      ensures old(Valid()) ==> Valid()
    {
      if Valid() {
        ValidTimerRead();
        AfterFocusKeepsValid(timer, now);
      }
      SaveTimerState(NoChange.(currentSession := Some(timer.currentSession + 1)));
      var next := NextBreak(timer);
      if timer.autoStartBreaks {
        StartTimer(next, now);
      } else {
        SaveTimerState(NoChange.(state := Some(Idle), remainingSeconds := Some(Duration(timer, next))));
      }
    }

    /** The timer write after a break. */
    method SaveAfterBreak(timer: PomodoroTimer, now: int)
      requires Timer() == timer
      modifies this`pomodoroTimer
      ensures Timer() == AfterBreak(timer, now)
      ensures old(Valid()) ==> Valid()
    {
      if Valid() {
        ValidTimerRead();
        AfterBreakKeepsValid(timer, now);
      }
      if timer.autoStartFocus {
        StartTimer(Focus, now);
      } else {
        SaveTimerState(NoChange.(state := Some(Idle), remainingSeconds := Some(timer.focusDuration)));
      }
    }

    /** `createZone(draft)` with `freshId` standing for `generateId()`. */
    method CreateZone(d: ZoneDraft, freshId: string) returns (z: Zone)
      modifies this`zones
      ensures z == NewZone(d, freshId)
      ensures zones == AddZone(old(zones), d, freshId)
      ensures old(Valid()) ==> Valid()
    {
      z := NewZone(d, freshId);
      zones := zones + [z];
    }

    /** `updateZone(id, updates)`: `found` is false where the source throws; nothing is written then. */
    method UpdateZone(id: string, p: ZonePatch) returns (found: bool)
      modifies this`zones
      ensures found <==> FindZoneIndex(old(zones), id).Some?
      ensures found ==> zones == UpdateZones(old(zones), id, p).value
      ensures !found ==> zones == old(zones)
      ensures old(Valid()) ==> Valid()
    {
      match FindZoneIndex(zones, id)
      case None =>
        found := false;
      case Some(i) =>
        zones := zones[i := MergeZone(zones[i], p)];
        found := true;
    }

    /** `deleteZone(id)`. */
    method DeleteZone(id: string)
      modifies this`zones
      ensures zones == DeleteZones(old(zones), id)
      ensures old(Valid()) ==> Valid()
    {
      zones := DeleteZones(zones, id);
    }

    /** `toggleZone(id)`. */
    method ToggleZone(id: string)
      modifies this`zones
      ensures zones == ToggleZones(old(zones), id)
      ensures old(Valid()) ==> Valid()
    {
      match FindZoneIndex(zones, id)
      case None =>
      case Some(i) =>
        zones := zones[i := zones[i].(enabled := !zones[i].enabled)];
    }
  }
}
