/**
 * The Pomodoro timer record and its transitions. Every timer operation of the
 * extension reads the stored record, overwrites some runtime fields and keeps
 * the rest (`saveTimerState` spreads a partial record over the current one);
 * here each operation is that merge applied to a patch, with the clock `now`
 * (milliseconds) passed in.
 */
module Timer {
  import opened Wrappers
  import opened Stats
  import opened HostMatch

  datatype TimerState = Idle | Focus | ShortBreak | LongBreak | Paused

  datatype PomodoroTimer = PomodoroTimer(
    // configuration, in seconds
    focusDuration: int,
    shortBreakDuration: int,
    longBreakDuration: int,
    longBreakInterval: int,
    // runtime state
    state: TimerState,
    currentSession: int,
    elapsedSeconds: int,
    remainingSeconds: int,
    startedAt: Option<int>,
    pausedAt: Option<int>,
    // settings
    autoStartBreaks: bool,
    autoStartFocus: bool,
    notifications: bool,
    soundEnabled: bool,
    // block behaviour
    blockDuringFocus: bool,
    allowedDuringBreak: bool,
    timerBlocklist: seq<string>,
    timerAllowlist: seq<string>)

  /**
   * A partial timer record: the runtime fields an operation may write.
   * `None` leaves a field as it is; for the nullable timestamps
   * `Some(None)` writes `null`.
   */
  datatype TimerPatch = TimerPatch(
    state: Option<TimerState>,
    currentSession: Option<int>,
    elapsedSeconds: Option<int>,
    remainingSeconds: Option<int>,
    startedAt: Option<Option<int>>,
    pausedAt: Option<Option<int>>)

  const NoChange: TimerPatch := TimerPatch(None, None, None, None, None, None)

  /** Everything but the six runtime fields is equal. */
  predicate SameConfig(a: PomodoroTimer, b: PomodoroTimer) {
    a.focusDuration == b.focusDuration && a.shortBreakDuration == b.shortBreakDuration &&
    a.longBreakDuration == b.longBreakDuration && a.longBreakInterval == b.longBreakInterval &&
    a.autoStartBreaks == b.autoStartBreaks && a.autoStartFocus == b.autoStartFocus &&
    a.notifications == b.notifications && a.soundEnabled == b.soundEnabled &&
    a.blockDuringFocus == b.blockDuringFocus && a.allowedDuringBreak == b.allowedDuringBreak &&
    a.timerBlocklist == b.timerBlocklist && a.timerAllowlist == b.timerAllowlist
  }

  /** `{ ...current, ...patch }`: the fields the patch names are overwritten, all others kept. */
  function MergeTimer(t: PomodoroTimer, p: TimerPatch): (r: PomodoroTimer)
    ensures SameConfig(t, r)
    ensures r.state == p.state.GetOr(t.state)
    ensures r.currentSession == p.currentSession.GetOr(t.currentSession)
    ensures r.elapsedSeconds == p.elapsedSeconds.GetOr(t.elapsedSeconds)
    ensures r.remainingSeconds == p.remainingSeconds.GetOr(t.remainingSeconds)
    ensures r.startedAt == p.startedAt.GetOr(t.startedAt)
    ensures r.pausedAt == p.pausedAt.GetOr(t.pausedAt)
  {
    t.(state := p.state.GetOr(t.state),
       currentSession := p.currentSession.GetOr(t.currentSession),
       elapsedSeconds := p.elapsedSeconds.GetOr(t.elapsedSeconds),
       remainingSeconds := p.remainingSeconds.GetOr(t.remainingSeconds),
       startedAt := p.startedAt.GetOr(t.startedAt),
       pausedAt := p.pausedAt.GetOr(t.pausedAt))
  }

  /** The later of two patches wins field by field. */
  function Then(p: TimerPatch, q: TimerPatch): TimerPatch {
    TimerPatch(
      if q.state.Some? then q.state else p.state,
      if q.currentSession.Some? then q.currentSession else p.currentSession,
      if q.elapsedSeconds.Some? then q.elapsedSeconds else p.elapsedSeconds,
      if q.remainingSeconds.Some? then q.remainingSeconds else p.remainingSeconds,
      if q.startedAt.Some? then q.startedAt else p.startedAt,
      if q.pausedAt.Some? then q.pausedAt else p.pausedAt)
  }

  /** An empty patch is the identity, and two saves in a row are one save of the combined patch. */
  lemma MergeLaws(t: PomodoroTimer, p: TimerPatch, q: TimerPatch)
    ensures MergeTimer(t, NoChange) == t
    ensures MergeTimer(MergeTimer(t, p), q) == MergeTimer(t, Then(p, q))
  {
  }

  /** `getDefaultTimer()`. */
  function DefaultTimer(): (r: PomodoroTimer)
    ensures r.focusDuration == 1500 && r.shortBreakDuration == 300 && r.longBreakDuration == 900
    ensures r.longBreakInterval == 4
    ensures r.state == Idle && r.currentSession == 0
    ensures !r.autoStartBreaks && !r.autoStartFocus && r.blockDuringFocus && r.allowedDuringBreak
    ensures r.timerBlocklist == ["youtube.com", "reddit.com", "twitter.com", "facebook.com", "instagram.com"]
    ensures r.timerAllowlist == []
  {
    PomodoroTimer(1500, 300, 900, 4, Idle, 0, 0, 1500, None, None,
                  false, false, true, true, true, true,
                  ["youtube.com", "reddit.com", "twitter.com", "facebook.com", "instagram.com"], [])
  }

  /** The length of a session in the given state; any other state counts as focus. */
  function Duration(t: PomodoroTimer, s: TimerState): (r: int)
    ensures s == ShortBreak ==> r == t.shortBreakDuration
    ensures s == LongBreak ==> r == t.longBreakDuration
    ensures s != ShortBreak && s != LongBreak ==> r == t.focusDuration
  {
    match s
    case Focus => t.focusDuration
    case ShortBreak => t.shortBreakDuration
    case LongBreak => t.longBreakDuration
    case _ => t.focusDuration
  }

  /** The timer counts down: `startedAt` is set (non-zero) and the state is neither idle nor paused. */
  predicate IsRunning(t: PomodoroTimer) {
    TruthyInt(t.startedAt) && t.state != Idle && t.state != Paused
  }

  function Max0(x: int): int {
    if x < 0 then 0 else x
  }

  /**
   * `calculateRemainingTime(timer)` at time `now`: the stored value when the
   * timer is not running, otherwise the session length minus the whole
   * seconds elapsed since `startedAt`, never below zero.
   */
  function RemainingTime(t: PomodoroTimer, now: int): (r: int)
    ensures !IsRunning(t) ==> r == t.remainingSeconds
    ensures IsRunning(t) ==> r >= 0
  {
    if !IsRunning(t) then t.remainingSeconds
    else Max0(Duration(t, t.state) - (now - t.startedAt.value) / 1000)
  }

  /** The elapsed whole seconds only grow with the clock. */
  lemma ElapsedIsMonotone(start: int, a: int, b: int)
    requires a <= b
    ensures (a - start) / 1000 <= (b - start) / 1000
  {
    var qa, qb := (a - start) / 1000, (b - start) / 1000;
    assert a - start == qa * 1000 + (a - start) % 1000;
    assert b - start == qb * 1000 + (b - start) % 1000;
  }

  /** While the timer runs, remaining time never increases as the clock advances. */
  lemma RemainingIsNonIncreasing(t: PomodoroTimer, a: int, b: int)
    requires a <= b
    ensures RemainingTime(t, b) <= RemainingTime(t, a)
  {
    if IsRunning(t) {
      ElapsedIsMonotone(t.startedAt.value, a, b);
    }
  }

  /** At the instant the session started, all of it remains; before a whole second passes, too. */
  lemma RemainingAtStart(t: PomodoroTimer, now: int)
    requires IsRunning(t)
    requires t.startedAt.value <= now < t.startedAt.value + 1000
    ensures RemainingTime(t, now) == Max0(Duration(t, t.state))
  {
  }

  /** Remaining time once the session length has fully elapsed is zero. */
  lemma RemainingAfterDuration(t: PomodoroTimer, now: int)
    requires IsRunning(t)
    requires now >= t.startedAt.value + 1000 * Duration(t, t.state)
    ensures RemainingTime(t, now) == 0
  {
    var d := Duration(t, t.state);
    var e := now - t.startedAt.value;
    assert e == (e / 1000) * 1000 + e % 1000;
  }

  /** During the (k+1)-th second of a run, the duration less k seconds remains, never below zero. */
  lemma RemainingDuringSecond(t: PomodoroTimer, now: int, k: nat)
    requires IsRunning(t)
    requires t.startedAt.value + 1000 * k <= now < t.startedAt.value + 1000 * (k + 1)
    ensures RemainingTime(t, now) == Max0(Duration(t, t.state) - k)
  {
    var e := now - t.startedAt.value;
    assert e == (e / 1000) * 1000 + e % 1000;
    assert e / 1000 == k;
  }

  /** `startTimer(state)`: runs a fresh session of that state from `now`. */
  function Start(t: PomodoroTimer, s: TimerState, now: int): (r: PomodoroTimer)
    ensures SameConfig(t, r)
    ensures r.state == s && r.startedAt == Some(now) && r.pausedAt == None
    ensures r.elapsedSeconds == 0 && r.remainingSeconds == Duration(t, s)
    ensures r.currentSession == t.currentSession
  {
    MergeTimer(t, TimerPatch(Some(s), None, Some(0), Some(Duration(t, s)), Some(Some(now)), Some(None)))
  }

  /** `pauseTimer()`: freezes the remaining time computed at `now`. `startedAt` is left as it was. */
  function Pause(t: PomodoroTimer, now: int): (r: PomodoroTimer)
    ensures SameConfig(t, r)
    ensures r.state == Paused && r.pausedAt == Some(now) && r.remainingSeconds == RemainingTime(t, now)
    ensures r.currentSession == t.currentSession && r.elapsedSeconds == t.elapsedSeconds
    ensures r.startedAt == t.startedAt
  {
    MergeTimer(t, TimerPatch(Some(Paused), None, None, Some(RemainingTime(t, now)), None, Some(Some(now))))
  }

  /** `resumeTimer()`: a paused timer always resumes into focus; any other state is kept. */
  function Resume(t: PomodoroTimer, now: int): (r: PomodoroTimer)
    ensures SameConfig(t, r)
    ensures r.state == (if t.state == Paused then Focus else t.state)
    ensures r.startedAt == Some(now) && r.pausedAt == None
    ensures r.currentSession == t.currentSession && r.elapsedSeconds == t.elapsedSeconds
    ensures r.remainingSeconds == t.remainingSeconds
  {
    MergeTimer(t, TimerPatch(Some(if t.state == Paused then Focus else t.state), None, None, None,
                             Some(Some(now)), Some(None)))
  }

  /** `resetTimer()`: back to idle, session 0, a full focus session remaining, no timestamps. */
  function Reset(t: PomodoroTimer): (r: PomodoroTimer)
    ensures SameConfig(t, r)
    ensures r.state == Idle && r.currentSession == 0 && r.elapsedSeconds == 0
    ensures r.remainingSeconds == t.focusDuration
    ensures r.startedAt == None && r.pausedAt == None
  {
    MergeTimer(t, TimerPatch(Some(Idle), Some(0), Some(0), Some(t.focusDuration), Some(None), Some(None)))
  }

  /** Once paused, the remaining time reads the same at every later instant. */
  lemma PauseFreezesRemaining(t: PomodoroTimer, now: int, later: int)
    ensures RemainingTime(Pause(t, now), later) == RemainingTime(t, now)
  {
  }

  /**
   * Resuming a paused timer restarts a whole focus session: the time left
   * when it was paused is not carried over, and a paused break resumes as focus.
   */
  lemma ResumeRestartsFocus(t: PomodoroTimer, pausedAt: int, now: int)
    requires now != 0
    ensures var r := Resume(Pause(t, pausedAt), now);
      r.state == Focus && RemainingTime(r, now) == Max0(t.focusDuration)
  {
  }

  /** Right after a start, the remaining time is the whole session of the state started. */
  lemma RemainingAfterStart(t: PomodoroTimer, s: TimerState, now: int)
    requires Duration(t, s) >= 0
    ensures RemainingTime(Start(t, s, now), now) == Duration(t, s)
  {
  }

  lemma ResetIsIdempotent(t: PomodoroTimer)
    ensures Reset(Reset(t)) == Reset(t)
  {
  }

  /** The default timer is already in its reset state. */
  lemma DefaultIsReset()
    ensures Reset(DefaultTimer()) == DefaultTimer()
  {
  }

  /**
   * Whether a completed focus session is followed by a long break: the
   * session counter before the increment is a multiple of the interval
   * (with an interval of 0 the JavaScript remainder is NaN, so never).
   */
  predicate LongBreakDue(t: PomodoroTimer) {
    t.longBreakInterval != 0 && t.currentSession % t.longBreakInterval == 0
  }

  function NextBreak(t: PomodoroTimer): TimerState {
    if LongBreakDue(t) then LongBreak else ShortBreak
  }

  /**
   * `completeTimerSession()` on the timer and the timer statistics: the
   * statistics are written first, then the incremented session counter,
   * then the next state.
   */
  function Complete(t: PomodoroTimer, st: TimerStatistics, now: int): (PomodoroTimer, TimerStatistics) {
    match t.state
    case Focus => (AfterFocus(t, now), CountFocus(st, t))
    case ShortBreak | LongBreak => (AfterBreak(t, now), st)
    case _ => (t, st)
  }

  /** The statistics after a completed focus session: one more session, its length added to the focus time. */
  function CountFocus(st: TimerStatistics, t: PomodoroTimer): TimerStatistics {
    st.(sessionsCompleted := st.sessionsCompleted + 1, totalFocusTime := st.totalFocusTime + t.focusDuration)
  }

  /** The timer after a completed focus session: the counter is saved first, then the next state. */
  function AfterFocus(t: PomodoroTimer, now: int): PomodoroTimer {
    var counted := MergeTimer(t, NoChange.(currentSession := Some(t.currentSession + 1)));
    var next := NextBreak(t);
    if t.autoStartBreaks then Start(counted, next, now)
    else MergeTimer(counted, NoChange.(state := Some(Idle), remainingSeconds := Some(Duration(t, next))))
  }

  /** The timer after a completed break. */
  function AfterBreak(t: PomodoroTimer, now: int): PomodoroTimer {
    if t.autoStartFocus then Start(t, Focus, now)
    else MergeTimer(t, NoChange.(state := Some(Idle), remainingSeconds := Some(t.focusDuration)))
  }

  /**
   * Completing focus counts the session and its focus time, increments the
   * session counter, and either runs the next break or goes idle with that
   * break's length remaining; the break is long exactly when the counter
   * before the increment is a multiple of the interval.
   */
  lemma CompleteFocus(t: PomodoroTimer, st: TimerStatistics, now: int)
    requires t.state == Focus
    ensures var (r, st') := Complete(t, st, now);
      st'.sessionsCompleted == st.sessionsCompleted + 1 &&
      st'.totalFocusTime == st.totalFocusTime + t.focusDuration &&
      st'.blockedDuringFocus == st.blockedDuringFocus &&
      r.currentSession == t.currentSession + 1 &&
      (t.autoStartBreaks ==>
        r.state == NextBreak(t) && r.startedAt == Some(now) && r.pausedAt == None &&
        r.elapsedSeconds == 0 && r.remainingSeconds == Duration(t, NextBreak(t))) &&
      (!t.autoStartBreaks ==>
        r.state == Idle && r.remainingSeconds == Duration(t, NextBreak(t)) &&
        r.startedAt == t.startedAt && r.pausedAt == t.pausedAt && r.elapsedSeconds == t.elapsedSeconds) &&
      (NextBreak(t) == LongBreak <==> (t.longBreakInterval != 0 && t.currentSession % t.longBreakInterval == 0))
  {
  }

  /** Completing a break leaves the statistics and the session counter alone and returns to focus or idle. */
  lemma CompleteBreak(t: PomodoroTimer, st: TimerStatistics, now: int)
    requires t.state == ShortBreak || t.state == LongBreak
    ensures var (r, st') := Complete(t, st, now);
      st' == st && r.currentSession == t.currentSession &&
      (t.autoStartFocus ==> r == Start(t, Focus, now)) &&
      (!t.autoStartFocus ==> (r.state == Idle && r.remainingSeconds == t.focusDuration &&
        r.startedAt == t.startedAt && r.pausedAt == t.pausedAt))
  {
  }

  /** Completing an idle or paused timer changes nothing. */
  lemma CompleteIdleOrPaused(t: PomodoroTimer, st: TimerStatistics, now: int)
    requires t.state == Idle || t.state == Paused
    ensures Complete(t, st, now) == (t, st)
  {
  }

  /**
   * Because the counter is tested before it is incremented, the first focus
   * session after a reset is followed by a long break (for any non-zero interval).
   */
  lemma FirstFocusAfterResetIsLong(t: PomodoroTimer, st: TimerStatistics, startAt: int, now: int)
    requires t.longBreakInterval != 0
    ensures var r := Complete(Start(Reset(t), Focus, startAt), st, now).0;
      (t.autoStartBreaks ==> r.state == LongBreak) &&
      (!t.autoStartBreaks ==> r.state == Idle && r.remainingSeconds == t.longBreakDuration)
  {
  }

  // ---------------------------------------------------------------------
  // Well-formed timers
  // ---------------------------------------------------------------------

  /** Non-negative lengths, counter and stored remaining time. */
  predicate ValidTimer(t: PomodoroTimer) {
    t.focusDuration >= 0 && t.shortBreakDuration >= 0 && t.longBreakDuration >= 0 &&
    t.currentSession >= 0 && t.elapsedSeconds >= 0 && t.remainingSeconds >= 0
  }

  lemma DefaultIsValid()
    ensures ValidTimer(DefaultTimer())
  {
  }

  /** A valid timer never reports negative remaining time. */
  lemma ValidRemainingIsNonNegative(t: PomodoroTimer, now: int)
    requires ValidTimer(t)
    ensures RemainingTime(t, now) >= 0
  {
  }

  /** Every operation keeps a timer valid. */
  lemma OperationsKeepValid(t: PomodoroTimer, s: TimerState, now: int)
    requires ValidTimer(t)
    ensures ValidTimer(Start(t, s, now))
    ensures ValidTimer(Pause(t, now))
    ensures ValidTimer(Resume(t, now))
    ensures ValidTimer(Reset(t))
  {
  }

  /** Completing a session keeps a timer valid and its configuration unchanged. */
  lemma CompleteKeepsValid(t: PomodoroTimer, st: TimerStatistics, now: int)
    requires ValidTimer(t)
    ensures ValidTimer(Complete(t, st, now).0)
    ensures SameConfig(t, Complete(t, st, now).0)
  {
    if t.state == Focus {
      AfterFocusKeepsValid(t, now);
      AfterFocusKeepsConfig(t, now);
    } else if t.state == ShortBreak || t.state == LongBreak {
      AfterBreakKeepsValid(t, now);
    }
  }

  lemma AfterFocusKeepsValid(t: PomodoroTimer, now: int)
    requires ValidTimer(t)
    ensures ValidTimer(AfterFocus(t, now))
  {
    var counted := MergeTimer(t, NoChange.(currentSession := Some(t.currentSession + 1)));
    assert ValidTimer(counted);
  }

  lemma AfterFocusKeepsConfig(t: PomodoroTimer, now: int)
    ensures SameConfig(t, AfterFocus(t, now))
  {
    var counted := MergeTimer(t, NoChange.(currentSession := Some(t.currentSession + 1)));
    assert SameConfig(t, counted);
  }

  lemma AfterBreakKeepsValid(t: PomodoroTimer, now: int)
    requires ValidTimer(t)
    ensures ValidTimer(AfterBreak(t, now)) && SameConfig(t, AfterBreak(t, now))
  {
  }

  // ---------------------------------------------------------------------
  // The alarm guard
  // ---------------------------------------------------------------------

  /** The alarm handler completes a session only when one runs (not idle, not paused) and no time remains. */
  predicate SessionDue(t: PomodoroTimer, now: int) {
    t.state != Idle && t.state != Paused && RemainingTime(t, now) <= 0
  }

  /**
   * With positive session lengths a completion is never due again at the
   * same instant: the alarm cannot complete two sessions in one tick.
   */
  lemma CompleteIsNotDueAgain(t: PomodoroTimer, st: TimerStatistics, now: int)
    requires t.focusDuration > 0 && t.shortBreakDuration > 0 && t.longBreakDuration > 0
    requires SessionDue(t, now)
    ensures !SessionDue(Complete(t, st, now).0, now)
  {
    if t.state == Focus {
      AfterFocusIsNotDue(t, now);
    } else {
      AfterBreakIsNotDue(t, now);
    }
  }

  lemma AfterFocusIsNotDue(t: PomodoroTimer, now: int)
    requires t.shortBreakDuration > 0 && t.longBreakDuration > 0
    ensures !SessionDue(AfterFocus(t, now), now)
  {
    if t.autoStartBreaks {
      var counted := MergeTimer(t, NoChange.(currentSession := Some(t.currentSession + 1)));
      RemainingAfterStart(counted, NextBreak(t), now);
    }
  }

  lemma AfterBreakIsNotDue(t: PomodoroTimer, now: int)
    requires t.focusDuration > 0
    ensures !SessionDue(AfterBreak(t, now), now)
  {
    if t.autoStartFocus {
      RemainingAfterStart(t, Focus, now);
    }
  }

  // ---------------------------------------------------------------------
  // Timer blocking rules
  // ---------------------------------------------------------------------

  /**
   * `shouldBlockByTimer(timer, url)`: only in focus with focus blocking on,
   * the allowlist first, then the blocklist.
   */
  predicate ShouldBlockByTimer(t: PomodoroTimer, host: Option<string>) {
    t.state == Focus && t.blockDuringFocus &&
    !DomainAllowed(host, t.timerAllowlist) && DomainMatches(host, t.timerBlocklist)
  }

  /** `isTimerAllowingAll(timer)`: a break with `allowedDuringBreak` on. */
  predicate IsTimerAllowingAll(t: PomodoroTimer) {
    (t.state == ShortBreak || t.state == LongBreak) && t.allowedDuringBreak
  }

  /** A timer block needs focus, focus blocking, a parsed host on the blocklist and off the allowlist. */
  lemma TimerBlockIff(t: PomodoroTimer, host: Option<string>)
    ensures ShouldBlockByTimer(t, host) <==>
      (t.state == Focus && t.blockDuringFocus && host.Some? &&
       (exists i :: 0 <= i < |t.timerBlocklist| &&
          HostMatchesPattern(NormalizeHost(host.value), t.timerBlocklist[i])) &&
       !(exists j :: 0 <= j < |t.timerAllowlist| &&
          HostMatchesPattern(NormalizeHost(host.value), t.timerAllowlist[j])))
  {
  }

  /** A timer that allows everything never blocks. */
  lemma AllowingAllNeverBlocks(t: PomodoroTimer, host: Option<string>)
    requires IsTimerAllowingAll(t)
    ensures !ShouldBlockByTimer(t, host)
  {
  }
}
