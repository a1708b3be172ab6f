/**
 * The single timer: a five-state machine over an explicit wall clock `now`
 * (milliseconds). The 10 ms interval of the running timer is the explicit
 * step `Tick(now)`, which does nothing unless the timer is running.
 */
module Timers {
  import opened Wrappers

  datatype TimerMode = Countdown | Countup | Stopwatch
  datatype TimerStatus = Idle | Running | Paused | Stopped | Completed
  datatype TimerKind = GameTimer | PeriodTimer | ShotClockTimer | PossessionTimer | TimeoutTimer | IntervalTimer

  /** Timer identities; the match manager's ids are structured rather than formatted strings. */
  datatype TimerId =
    | Named(name: string)
    | GameId(matchId: string)
    | PeriodId(matchId: string, period: int)
    | OvertimeId(matchId: string, period: int)
    | ShotClockId(matchId: string)

  datatype TimerConfig = TimerConfig(
    id: TimerId,
    matchId: string,
    kind: TimerKind,
    mode: TimerMode,
    initialTime: int,
    autoStart: bool,
    autoReset: bool)

  datatype LogKind = StartLog | PauseLog | StopLog | ResetLog | CompleteLog

  /** One entry of the timer's event log: what happened and when. */
  datatype LogEntry = LogEntry(kind: LogKind, at: int)

  /** The timer state. The initial time is the configuration's. */
  datatype Timer = Timer(
    config: TimerConfig,
    status: TimerStatus,
    currentTime: int,
    elapsedTime: int,
    remainingTime: int,
    lastUpdated: int,
    startedAt: Option<int>,
    pausedAt: Option<int>,
    stoppedAt: Option<int>,
    log: seq<LogEntry>)

  /** The timer fields every operation keeps consistent: a running timer has a start and no pause mark. */
  predicate Valid(t: Timer) {
    t.status == Running ==> t.startedAt.Some? && t.pausedAt.None?
  }

  /** `start`: no-op when running; otherwise running from `now`, shifted forward by the pause length when resuming. */
  function Start(t: Timer, now: int): (r: Timer)
    ensures Valid(t) || t.status != Running ==> Valid(r)
    ensures r.status == Running
    ensures t.status == Running ==> r == t
    ensures t.status != Running ==>
      && r.startedAt == Some(if t.pausedAt.Some? then now + (now - t.pausedAt.value) else now)
      && r.log == t.log + [LogEntry(StartLog, now)]
      && r == t.(status := Running, startedAt := r.startedAt, pausedAt := None, log := r.log)
  {
    if t.status == Running then t
    else
      var started := if t.pausedAt.Some? then now + (now - t.pausedAt.value) else now;
      t.(status := Running, startedAt := Some(started), pausedAt := None, log := t.log + [LogEntry(StartLog, now)])
  }

  /** `pause`: acts only on a running timer, which becomes paused at `now` with its times untouched. */
  function Pause(t: Timer, now: int): (r: Timer)
    ensures Valid(t) ==> Valid(r)
    ensures t.status != Running ==> r == t
    ensures t.status == Running ==>
      && r.status == Paused && r.pausedAt == Some(now)
      && r.log == t.log + [LogEntry(PauseLog, now)]
      && r == t.(status := Paused, pausedAt := Some(now), log := r.log)
  {
    if t.status != Running then t
    else t.(status := Paused, pausedAt := Some(now), log := t.log + [LogEntry(PauseLog, now)])
  }

  /** `stop`: acts unless idle or stopped; the timer becomes stopped at `now`. */
  function Stop(t: Timer, now: int): (r: Timer)
    ensures Valid(r)
    ensures r.status != Running
    ensures t.status == Idle || t.status == Stopped ==> r == t
    ensures t.status != Idle && t.status != Stopped ==>
      && r.status == Stopped && r.stoppedAt == Some(now)
      && r.log == t.log + [LogEntry(StopLog, now)]
      && r == t.(status := Stopped, stoppedAt := Some(now), log := r.log)
  {
    if t.status == Idle || t.status == Stopped then t
    else t.(status := Stopped, stoppedAt := Some(now), log := t.log + [LogEntry(StopLog, now)])
  }

  /**
   * `reset`: stop, then back to the initial time with every timestamp cleared
   * and a reset entry logged; restarted only if it was running and `autoReset` is set.
   */
  function Reset(t: Timer, now: int): (r: Timer)
    ensures Valid(r)
    ensures r.currentTime == t.config.initialTime && r.remainingTime == t.config.initialTime
    ensures r.elapsedTime == 0 && r.config == t.config && r.stoppedAt.None? && r.pausedAt.None?
    ensures t.status == Running && t.config.autoReset ==>
      r.status == Running && r.startedAt == Some(now)
      && r.log == Stop(t, now).log + [LogEntry(ResetLog, now), LogEntry(StartLog, now)]
    ensures !(t.status == Running && t.config.autoReset) ==>
      r.status == Idle && r.startedAt.None? && r.log == Stop(t, now).log + [LogEntry(ResetLog, now)]
  {
    var stopped := Stop(t, now);
    var cleared := stopped.(status := Idle, currentTime := t.config.initialTime, elapsedTime := 0,
                            remainingTime := t.config.initialTime, startedAt := None, pausedAt := None,
                            stoppedAt := None, lastUpdated := now, log := stopped.log + [LogEntry(ResetLog, now)]);
    if t.status == Running && t.config.autoReset then Start(cleared, now) else cleared
  }

  /** `updateTimeFields`: derives elapsed and remaining time from the current time. */
  function UpdateTimeFields(t: Timer): (r: Timer)
    ensures r.currentTime == t.currentTime
    ensures t.config.mode == Countdown ==>
      r.remainingTime == t.currentTime && r.elapsedTime == t.config.initialTime - t.currentTime
    ensures t.config.mode != Countdown ==> r.remainingTime == t.currentTime && r.elapsedTime == t.currentTime
    ensures r == t.(elapsedTime := r.elapsedTime, remainingTime := r.remainingTime)
  {
    if t.config.mode == Countdown then
      t.(remainingTime := t.currentTime, elapsedTime := t.config.initialTime - t.currentTime)
    else t.(elapsedTime := t.currentTime, remainingTime := t.currentTime)
  }

  /** Pause a running timer, change its current time, recompute the derived times, resume it. */
  function Adjust(t: Timer, newTime: int, now: int): (r: Timer)
    ensures Valid(r) && r.config == t.config && r.currentTime == newTime
    ensures r.status == t.status
    ensures t.config.mode == Countdown ==>
      r.remainingTime == newTime && r.elapsedTime == t.config.initialTime - newTime
    ensures t.config.mode != Countdown ==> r.remainingTime == newTime && r.elapsedTime == newTime
    ensures t.status != Running ==> r.log == t.log && r.startedAt == t.startedAt && r.pausedAt == t.pausedAt
    ensures t.status == Running ==>
      r.startedAt == Some(now) && r.log == t.log + [LogEntry(PauseLog, now), LogEntry(StartLog, now)]
  {
    var wasRunning := t.status == Running;
    var paused := if wasRunning then Pause(t, now) else t;
    var set_ := UpdateTimeFields(paused.(currentTime := newTime, lastUpdated := now));
    if wasRunning then Start(set_, now) else set_
  }

  /** `setTime`: the current time becomes `time` clamped at zero. */
  function SetTime(t: Timer, time: int, now: int): (r: Timer)
    ensures Valid(r) && r.status == t.status && r.config == t.config
    ensures r.currentTime == if time < 0 then 0 else time
    ensures r.currentTime >= 0
  {
    Adjust(t, if time < 0 then 0 else time, now)
  }

  /** `addTime`: the current time moves by `amount`, with no clamping. */
  function AddTime(t: Timer, amount: int, now: int): (r: Timer)
    ensures Valid(r) && r.status == t.status && r.config == t.config
    ensures r.currentTime == t.currentTime + amount
  {
    Adjust(t, t.currentTime + amount, now)
  }

  /** `subtractTime`: `addTime` of the negated amount, so the time can go negative. */
  function SubtractTime(t: Timer, amount: int, now: int): (r: Timer)
    ensures Valid(r) && r.status == t.status && r.config == t.config
    ensures r.currentTime == t.currentTime - amount
  {
    AddTime(t, -amount, now)
  }

  /** Subtracting what was added restores the current and derived times (not the log). */
  lemma AddThenSubtract(t: Timer, amount: int, now: int)
    ensures SubtractTime(AddTime(t, amount, now), amount, now).currentTime == t.currentTime
    ensures SubtractTime(AddTime(t, amount, now), amount, now).remainingTime
         == UpdateTimeFields(t).remainingTime
    ensures SubtractTime(AddTime(t, amount, now), amount, now).elapsedTime
         == UpdateTimeFields(t).elapsedTime
  {
  }

  /** `complete`: the countdown reached zero; current and remaining times are zeroed and logged. */
  function Complete(t: Timer, now: int): (r: Timer)
    ensures Valid(r)
    ensures r.status == Completed && r.currentTime == 0 && r.remainingTime == 0
    ensures r.log == t.log + [LogEntry(CompleteLog, now)]
    ensures r == t.(status := Completed, currentTime := 0, remainingTime := 0, log := r.log)
  {
    t.(status := Completed, currentTime := 0, remainingTime := 0, log := t.log + [LogEntry(CompleteLog, now)])
  }

  /**
   * `tick`: only a running timer has an interval to fire. Elapsed time is
   * measured from `startedAt`; a countdown completes once nothing remains.
   */
  function Tick(t: Timer, now: int): (r: Timer)
    ensures Valid(t) ==> Valid(r)
    ensures r.config == t.config
    ensures t.status != Running ==> r == t
    ensures t.status == Running && t.startedAt.Some? ==>
      var elapsed := now - t.startedAt.value;
      && r.elapsedTime == elapsed
      && (t.config.mode == Countdown && t.config.initialTime - elapsed <= 0 ==>
            r.status == Completed && r.currentTime == 0 && r.remainingTime == 0
            && r.log == t.log + [LogEntry(CompleteLog, now)])
      && (t.config.mode == Countdown && t.config.initialTime - elapsed > 0 ==>
            r.status == Running && r.currentTime == t.config.initialTime - elapsed
            && r.remainingTime == r.currentTime && r.log == t.log)
      && (t.config.mode != Countdown ==>
            r.status == Running && r.currentTime == elapsed && r.remainingTime == elapsed && r.log == t.log)
  {
    if t.status != Running || t.startedAt.None? then t
    else
      var elapsed := now - t.startedAt.value;
      var t1 := t.(elapsedTime := elapsed, lastUpdated := now);
      if t.config.mode == Countdown then
        var current := t.config.initialTime - elapsed;
        var t2 := t1.(currentTime := current, remainingTime := if current > 0 then current else 0);
        if t2.remainingTime <= 0 then Complete(t2, now) else t2
      else t1.(currentTime := elapsed, remainingTime := elapsed)
  }

  /** After a tick a countdown never shows a negative remaining time. */
  lemma TickRemainingNonNegative(t: Timer, now: int)
    requires Valid(t) && t.status == Running && t.config.mode == Countdown
    ensures Tick(t, now).remainingTime >= 0
  {
  }

  /** `destroy`: stop, then drop the event log. */
  function Destroy(t: Timer, now: int): (r: Timer)
    ensures Valid(r) && r.status != Running && r.log == [] && r.config == t.config
    ensures t.status == Idle || t.status == Stopped ==> r == t.(log := [])
    ensures t.status != Idle && t.status != Stopped ==> r.status == Stopped && r.stoppedAt == Some(now)
  {
    Stop(t, now).(log := [])
  }

  /** Destroying twice is destroying once. */
  lemma DestroyIdempotent(t: Timer, now: int, later: int)
    ensures Destroy(Destroy(t, now), later) == Destroy(t, now)
  {
  }

  /** `start`, `pause` and `stop` are idempotent: a repeated call is a no-op and logs nothing. */
  lemma TransitionsIdempotent(t: Timer, now: int, later: int)
    ensures Start(Start(t, now), later) == Start(t, now)
    ensures Pause(Pause(t, now), later) == Pause(t, now)
    ensures Stop(Stop(t, now), later) == Stop(t, now)
  {
  }

  /** The constructor: idle at the initial time, started at once with `autoStart`. */
  function NewTimer(config: TimerConfig, now: int): (t: Timer)
    ensures Valid(t) && t.config == config
    ensures t.currentTime == config.initialTime && t.remainingTime == config.initialTime && t.elapsedTime == 0
    ensures !config.autoStart ==> t.status == Idle && t.log == [] && t.startedAt.None?
    ensures config.autoStart ==> t.status == Running && t.startedAt == Some(now) && t.log == [LogEntry(StartLog, now)]
  {
    var idle := Timer(config, Idle, config.initialTime, 0, config.initialTime, now, None, None, None, []);
    if config.autoStart then Start(idle, now) else idle
  }

  /**
   * Resuming does not keep the time run before the pause: a countdown run for
   * `ran` ms, paused for `gap` ms and ticked right on resuming shows the
   * initial time plus the gap, not the initial time minus `ran`.
   */
  lemma ResumeForgetsElapsed(config: TimerConfig, t0: int, ran: int, gap: int)
    requires config.mode == Countdown && !config.autoStart && config.initialTime > 0
    requires 0 <= ran && 0 <= gap
    ensures var t := Start(Pause(Tick(Start(NewTimer(config, t0), t0), t0 + ran), t0 + ran), t0 + ran + gap);
      ran < config.initialTime ==>
        Tick(t, t0 + ran + gap).currentTime == config.initialTime + gap
  {
  }

  /**
   * On a running timer a `setTime` lasts only until the next tick, which
   * recomputes the countdown from the initial time and the adjustment instant.
   */
  lemma SetTimeDiscardedByTick(t: Timer, time: int, now: int, later: int)
    requires Valid(t) && t.status == Running && t.config.mode == Countdown
    requires later - now < t.config.initialTime
    ensures Tick(SetTime(t, time, now), later).currentTime == t.config.initialTime - (later - now)
  {
  }

  /** The log grows by one entry per effective transition and never shrinks, except on destroy. */
  lemma LogOnlyGrows(t: Timer, now: int)
    requires Valid(t)
    ensures t.log <= Start(t, now).log && t.log <= Pause(t, now).log && t.log <= Stop(t, now).log
    ensures t.log <= Tick(t, now).log && t.log <= Reset(t, now).log
  {
  }
}
