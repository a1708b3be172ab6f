/**
 * The per-match timer manager: a game countdown, one countdown per period
 * (plus at most one overtime period), and a 24-second shot clock for
 * basketball. Operations on a period the manager holds no timer for fail
 * the way the source's dereference of a missing map entry does.
 */
module MatchTimers {
  import opened Wrappers
  import opened Timers

  datatype MatchSport = BasketballMatch | FootballMatch | IceHockeyMatch | EsportsMatch

  const Minute: int := 60 * 1000
  const ShotClockTime: int := 24 * 1000
  const ReboundShotClockTime: int := 14 * 1000
  const DefaultPeriodCount: int := 4

  /**
   * The usual number of regulation periods of each sport, which `getGameDuration`
   * adds up. The manager does not use these counts: its `periodCount` defaults
   * to 4 for every sport.
   */
  function StandardPeriods(s: MatchSport): (n: int)
    ensures 2 <= n <= 4
  {
    match s
    case BasketballMatch => 4
    case FootballMatch => 2
    case IceHockeyMatch => 3
    case EsportsMatch => 4
  }

  /** `getPeriodDuration`: 12, 45, 20 and 15 minutes. */
  function PeriodDuration(s: MatchSport): (ms: int)
    ensures ms > 0 && ms % Minute == 0
  {
    match s
    case BasketballMatch => 12 * Minute
    case FootballMatch => 45 * Minute
    case IceHockeyMatch => 20 * Minute
    case EsportsMatch => 15 * Minute
  }

  /** `getGameDuration`: 48, 90, 60 and 60 minutes, which is each sport's standard periods back to back. */
  function GameDuration(s: MatchSport): (ms: int)
    ensures ms == StandardPeriods(s) * PeriodDuration(s)
  {
    match s
    case BasketballMatch => 48 * Minute
    case FootballMatch => 90 * Minute
    case IceHockeyMatch => 60 * Minute
    case EsportsMatch => 60 * Minute
  }

  /** `getOvertimeDuration`: 5, 15, 20 and 5 minutes, never longer than a regulation period. */
  function OvertimeDuration(s: MatchSport): (ms: int)
    ensures 0 < ms <= PeriodDuration(s) && ms % Minute == 0
    ensures ms == PeriodDuration(s) <==> s == IceHockeyMatch
  {
    match s
    case BasketballMatch => 5 * Minute
    case FootballMatch => 15 * Minute
    case IceHockeyMatch => 20 * Minute
    case EsportsMatch => 5 * Minute
  }

  /** A countdown the manager creates: never auto-started, never auto-reset. */
  function ManagedConfig(id: TimerId, matchId: string, kind: TimerKind, initialTime: int): (c: TimerConfig)
    ensures c.mode == Countdown && !c.autoStart && !c.autoReset
    ensures c.id == id && c.initialTime == initialTime && c.kind == kind && c.matchId == matchId
  {
    TimerConfig(id, matchId, kind, Countdown, initialTime, false, false)
  }

  datatype Manager = Manager(
    matchId: string,
    sport: MatchSport,
    periodCount: int,
    game: Timer,
    periods: map<int, Timer>,
    shotClock: Option<Timer>,
    currentPeriod: int,
    isOvertime: bool)

  datatype ManagerError = NoPeriodTimer(period: int)

  /** The result of a manager operation: the state it leaves, and the failure it raised, if any. */
  datatype Outcome = Outcome(manager: Manager, error: Option<ManagerError>)

  /** The last period number the manager holds a timer for. */
  function LastPeriod(m: Manager): (n: int)
    ensures n >= m.periodCount && (n == m.periodCount <==> !m.isOvertime)
  {
    if m.isOvertime then m.periodCount + 1 else m.periodCount
  }

  /** The shape every manager operation keeps. */
  ghost predicate Inv(m: Manager) {
    && m.periodCount >= 1
    && (forall k :: k in m.periods <==> 1 <= k <= LastPeriod(m))
    && (!m.isOvertime ==> 1 <= m.currentPeriod <= m.periodCount)
    && (m.isOvertime ==> m.currentPeriod >= m.periodCount + 1)
    && Valid(m.game)
    && (forall k :: k in m.periods ==> Valid(m.periods[k]))
    && (m.shotClock.Some? ==> Valid(m.shotClock.value))
    && (m.shotClock.Some? <==> m.sport == BasketballMatch)
    && m.game.config.mode == Countdown && m.game.config.initialTime == GameDuration(m.sport)
    && (m.shotClock.Some? ==>
          m.shotClock.value.config == ManagedConfig(ShotClockId(m.matchId), m.matchId, ShotClockTimer, ShotClockTime))
  }

  function RegulationTimers(matchId: string, sport: MatchSport, periodCount: int, now: int): (ps: map<int, Timer>)
    ensures forall k :: k in ps <==> 1 <= k <= periodCount
    ensures forall k :: k in ps ==>
      ps[k] == NewTimer(ManagedConfig(PeriodId(matchId, k), matchId, PeriodTimer, PeriodDuration(sport)), now)
  {
    map k | 1 <= k <= periodCount :: NewTimer(ManagedConfig(PeriodId(matchId, k), matchId, PeriodTimer, PeriodDuration(sport)), now)
  }

  /**
   * The constructor. With fewer than one period there is no first period
   * timer to listen on, and construction fails.
   */
  function NewManager(matchId: string, sport: MatchSport, periodCount: int, now: int): (r: Result<Manager, ManagerError>)
    ensures periodCount < 1 <==> r.Err?
    ensures r.Ok? ==>
      && Inv(r.value) && r.value.currentPeriod == 1 && !r.value.isOvertime
      && r.value.periodCount == periodCount && r.value.sport == sport
      && r.value.game.status == Idle && r.value.game.currentTime == GameDuration(sport)
      && (forall k :: k in r.value.periods ==>
            r.value.periods[k].status == Idle && r.value.periods[k].currentTime == PeriodDuration(sport))
      && (sport == BasketballMatch ==>
            r.value.shotClock.Some? && r.value.shotClock.value.currentTime == ShotClockTime
            && r.value.shotClock.value.status == Idle)
  {
    if periodCount < 1 then Err(NoPeriodTimer(1))
    else
      var game := NewTimer(ManagedConfig(GameId(matchId), matchId, GameTimer, GameDuration(sport)), now);
      var shot := if sport == BasketballMatch
        then Some(NewTimer(ManagedConfig(ShotClockId(matchId), matchId, ShotClockTimer, ShotClockTime), now))
        else None;
      Ok(Manager(matchId, sport, periodCount, game, RegulationTimers(matchId, sport, periodCount, now), shot, 1, false))
  }

  /** `getCurrentPeriodTimer`: the timer of the current period, absent past the last one. */
  function CurrentTimer(m: Manager): (r: Option<Timer>)
    ensures r.Some? <==> m.currentPeriod in m.periods
    ensures r.Some? ==> r.value == m.periods[m.currentPeriod]
    ensures Inv(m) && !m.isOvertime ==> r.Some?
  {
    if m.currentPeriod in m.periods then Some(m.periods[m.currentPeriod]) else None
  }

  /** Apply one timer transition to the current period and another to the game timer. */
  function OnCurrent(m: Manager, period: Timer -> Timer, game: Timer -> Timer): (r: Outcome)
    ensures m.currentPeriod !in m.periods ==> r == Outcome(m, Some(NoPeriodTimer(m.currentPeriod)))
    ensures m.currentPeriod in m.periods ==>
      && r.error.None?
      && r.manager == m.(periods := m.periods[m.currentPeriod := period(m.periods[m.currentPeriod])],
                         game := game(m.game))
  {
    if m.currentPeriod !in m.periods then Outcome(m, Some(NoPeriodTimer(m.currentPeriod)))
    else Outcome(m.(periods := m.periods[m.currentPeriod := period(m.periods[m.currentPeriod])], game := game(m.game)), None)
  }

  /** `startCurrentPeriod`: the current period and the game clock both run. */
  function StartCurrentPeriod(m: Manager, now: int): (r: Outcome)
    ensures Inv(m) ==> Inv(r.manager)
    ensures r.error.None? <==> m.currentPeriod in m.periods
    ensures r.error.Some? ==> r.manager == m
    ensures r.error.None? ==>
      r.manager.periods.Keys == m.periods.Keys && r.manager.periods[m.currentPeriod].status == Running && r.manager.game.status == Running
      && r.manager.currentPeriod == m.currentPeriod
    ensures r.error.None? ==>
      && r.manager.periods[m.currentPeriod] == Start(m.periods[m.currentPeriod], now)
      && r.manager.game == Start(m.game, now)
      && r.manager.shotClock == m.shotClock
      && forall p :: p in m.periods && p != m.currentPeriod ==> r.manager.periods[p] == m.periods[p]
  {
    OnCurrent(m, (t: Timer) => Start(t, now), (t: Timer) => Start(t, now))
  }

  /** `pauseCurrentPeriod`: a running period and game clock are paused. */
  function PauseCurrentPeriod(m: Manager, now: int): (r: Outcome)
    ensures Inv(m) ==> Inv(r.manager)
    ensures r.error.None? <==> m.currentPeriod in m.periods
    ensures r.error.Some? ==> r.manager == m
    ensures r.error.None? ==>
      r.manager.periods.Keys == m.periods.Keys && r.manager.periods[m.currentPeriod].status != Running && r.manager.game.status != Running
      && r.manager.currentPeriod == m.currentPeriod
    ensures r.error.None? ==>
      && r.manager.periods[m.currentPeriod] == Pause(m.periods[m.currentPeriod], now)
      && r.manager.game == Pause(m.game, now)
      && r.manager.shotClock == m.shotClock
      && forall p :: p in m.periods && p != m.currentPeriod ==> r.manager.periods[p] == m.periods[p]
  {
    OnCurrent(m, (t: Timer) => Pause(t, now), (t: Timer) => Pause(t, now))
  }

  /** `endCurrentPeriod`: the current period stops; the game clock only pauses. */
  function EndCurrentPeriod(m: Manager, now: int): (r: Outcome)
    ensures Inv(m) ==> Inv(r.manager)
    ensures r.error.None? <==> m.currentPeriod in m.periods
    ensures r.error.Some? ==> r.manager == m
    ensures r.error.None? ==>
      r.manager.periods.Keys == m.periods.Keys && r.manager.periods[m.currentPeriod].status != Running && r.manager.game.status != Running
      && r.manager.currentPeriod == m.currentPeriod
      && (m.game.status == Running ==> r.manager.game.status == Paused)
    ensures r.error.None? ==>
      && r.manager.periods[m.currentPeriod] == Stop(m.periods[m.currentPeriod], now)
      && r.manager.game == Pause(m.game, now)
      && r.manager.shotClock == m.shotClock
      && forall p :: p in m.periods && p != m.currentPeriod ==> r.manager.periods[p] == m.periods[p]
  {
    OnCurrent(m, (t: Timer) => Stop(t, now), (t: Timer) => Pause(t, now))
  }

  /**
   * `nextPeriod`: end the current period, advance, create the one overtime
   * period when regulation runs out, then start the new period. Past that
   * overtime there is no timer to start: the advance has happened and the
   * start fails.
   */
  function NextPeriod(m: Manager, now: int): (r: Outcome)
    ensures m.currentPeriod !in m.periods ==> r == Outcome(m, Some(NoPeriodTimer(m.currentPeriod)))
    ensures m.currentPeriod in m.periods ==>
      && r.manager.currentPeriod == m.currentPeriod + 1
      && r.manager.periodCount == m.periodCount && r.manager.shotClock == m.shotClock
      && (r.manager.isOvertime <==> m.isOvertime || m.currentPeriod + 1 > m.periodCount)
      && (r.error.None? <==> m.currentPeriod + 1 in m.periods || (m.currentPeriod + 1 > m.periodCount && !m.isOvertime))
      && m.currentPeriod in r.manager.periods && r.manager.periods[m.currentPeriod].status != Running
    ensures r.error.None? ==>
      && r.manager.currentPeriod in r.manager.periods
      && r.manager.periods[r.manager.currentPeriod].status == Running && r.manager.game.status == Running
  {
    var ended := EndCurrentPeriod(m, now);
    if ended.error.Some? then ended
    else
      var advanced := ended.manager.(currentPeriod := m.currentPeriod + 1);
      var withOvertime :=
        if advanced.currentPeriod > m.periodCount && !m.isOvertime then
          var ot := NewTimer(ManagedConfig(OvertimeId(m.matchId, advanced.currentPeriod), m.matchId, PeriodTimer,
                                           OvertimeDuration(m.sport)), now);
          advanced.(isOvertime := true, periods := advanced.periods[advanced.currentPeriod := ot])
        else advanced;
      StartCurrentPeriod(withOvertime, now)
  }

  /** `nextPeriod` keeps the manager's shape. */
  lemma NextPeriodKeepsInv(m: Manager, now: int)
    requires Inv(m)
    ensures Inv(NextPeriod(m, now).manager)
  {
    var ended := EndCurrentPeriod(m, now);
    if ended.error.None? {
      var advanced := ended.manager.(currentPeriod := m.currentPeriod + 1);
      if advanced.currentPeriod > m.periodCount && !m.isOvertime {
        var ot := NewTimer(ManagedConfig(OvertimeId(m.matchId, advanced.currentPeriod), m.matchId, PeriodTimer,
                                         OvertimeDuration(m.sport)), now);
        var w := advanced.(isOvertime := true, periods := advanced.periods[advanced.currentPeriod := ot]);
        assert forall k :: k in w.periods <==> 1 <= k <= LastPeriod(w);
        assert Inv(w);
      } else {
        assert Inv(advanced);
      }
    }
  }

  /** Within regulation, `nextPeriod` moves on one period and runs it. */
  lemma NextPeriodInRegulation(m: Manager, now: int)
    requires Inv(m) && !m.isOvertime && m.currentPeriod < m.periodCount
    ensures var r := NextPeriod(m, now);
      && r.error.None? && r.manager.currentPeriod == m.currentPeriod + 1 && !r.manager.isOvertime
      && m.currentPeriod in r.manager.periods && r.manager.periods[m.currentPeriod].status != Running
      && r.manager.periods[m.currentPeriod + 1].status == Running
      && r.manager.game.status == Running
  {
  }

  /** After the last regulation period, `nextPeriod` creates and runs the overtime period. */
  lemma NextPeriodIntoOvertime(m: Manager, now: int)
    requires Inv(m) && !m.isOvertime && m.currentPeriod == m.periodCount
    ensures var r := NextPeriod(m, now);
      && r.error.None? && r.manager.isOvertime && r.manager.currentPeriod == m.periodCount + 1
      && r.manager.periods.Keys == m.periods.Keys + {m.periodCount + 1}
      && r.manager.periods[m.periodCount + 1].config.initialTime == OvertimeDuration(m.sport)
      && r.manager.periods[m.periodCount + 1].status == Running
  {
    var ended := EndCurrentPeriod(m, now);
    assert ended.error.None?;
  }

  /**
   * There is only ever one overtime period: `nextPeriod` during it advances
   * the period number past the last timer and fails, and from then on
   * starting, pausing and ending the period fail and change nothing.
   */
  lemma NoSecondOvertime(m: Manager, now: int, later: int)
    requires Inv(m) && m.isOvertime && m.currentPeriod == m.periodCount + 1
    ensures var r := NextPeriod(m, now);
      && r.error == Some(NoPeriodTimer(m.periodCount + 2))
      && r.manager.currentPeriod == m.periodCount + 2
      && r.manager.periods.Keys == m.periods.Keys
      && StartCurrentPeriod(r.manager, later) == Outcome(r.manager, r.error)
      && PauseCurrentPeriod(r.manager, later) == Outcome(r.manager, r.error)
      && NextPeriod(r.manager, later) == Outcome(r.manager, r.error)
  {
    var ended := EndCurrentPeriod(m, now);
    assert ended.error.None?;
    var advanced := ended.manager.(currentPeriod := m.currentPeriod + 1);
    assert advanced.currentPeriod !in advanced.periods;
  }

  /**
   * The game countdown is paused and restarted at each `nextPeriod`, and a
   * restart measures from the resume instant: the next tick shows the full
   * game duration less only the time since the period change.
   */
  lemma GameClockRestartsEachPeriod(m: Manager, now: int, later: int)
    requires Inv(m) && !m.isOvertime && m.currentPeriod < m.periodCount
    requires m.game.status == Running && now <= later < now + GameDuration(m.sport)
    ensures var r := NextPeriod(m, now);
      Tick(r.manager.game, later).currentTime == GameDuration(m.sport) - (later - now)
  {
    var r := NextPeriod(m, now);
    assert r.manager.game == Start(Pause(m.game, now), now);
  }

  datatype ShotClockReset = Full | OffensiveRebound

  /**
   * `resetShotClock`: a full reset returns the clock to 24 seconds and leaves
   * it idle; an offensive rebound sets it to 14 seconds. Without a shot clock
   * nothing happens.
   */
  function ResetShotClock(m: Manager, kind: ShotClockReset, now: int): (r: Manager)
    ensures Inv(m) ==> Inv(r)
    ensures m.shotClock.None? ==> r == m
    ensures r == m.(shotClock := r.shotClock) && (r.shotClock.Some? <==> m.shotClock.Some?)
    ensures m.shotClock.Some? && kind == Full && !m.shotClock.value.config.autoReset ==>
      r.shotClock.value.status == Idle && r.shotClock.value.currentTime == m.shotClock.value.config.initialTime
    ensures m.shotClock.Some? && kind == OffensiveRebound ==>
      r.shotClock.value.status == m.shotClock.value.status && r.shotClock.value.currentTime == ReboundShotClockTime
  {
    if m.shotClock.None? then m
    else
      var sc := m.shotClock.value;
      m.(shotClock := Some(if kind == Full then Reset(sc, now) else SetTime(sc, ReboundShotClockTime, now)))
  }

  /**
   * On a running shot clock the 14-second rebound reset lasts only until the
   * next tick, which counts down from the full 24 seconds since the reset.
   */
  lemma ReboundResetLostOnTick(m: Manager, now: int, later: int)
    requires Inv(m) && m.sport == BasketballMatch && m.shotClock.value.status == Running
    requires m.shotClock.value.config.initialTime == ShotClockTime
    requires now <= later < now + ShotClockTime
    ensures Tick(ResetShotClock(m, OffensiveRebound, now).shotClock.value, later).currentTime
         == ShotClockTime - (later - now)
  {
    SetTimeDiscardedByTick(m.shotClock.value, ReboundShotClockTime, now, later);
  }

  /** Every timer of the manager steps to `now`. */
  function TickAll(m: Manager, now: int): (r: Manager)
    ensures Inv(m) ==> Inv(r)
    ensures r.periods.Keys == m.periods.Keys && r.currentPeriod == m.currentPeriod && r.isOvertime == m.isOvertime
    ensures r.game == Tick(m.game, now)
    ensures forall k :: k in m.periods && m.periods[k].status != Running ==> r.periods[k] == m.periods[k]
  {
    m.(game := Tick(m.game, now),
       periods := TickEach(m.periods, now),
       shotClock := if m.shotClock.Some? then Some(Tick(m.shotClock.value, now)) else None)
  }

  /** Every period timer ticked. */
  function TickEach(ps: map<int, Timer>, now: int): (r: map<int, Timer>)
    ensures r.Keys == ps.Keys
    ensures forall k :: k in r ==> r[k] == Tick(ps[k], now)
  {
    map k | k in ps :: Tick(ps[k], now)
  }

  datatype PeriodType = Quarter | Half | Overtime

  /** One entry of `getAllStates().periodTimers`; the score is always zero there. */
  datatype PeriodView = PeriodView(number: int, kind: PeriodType, duration: int, state: Timer,
                                   isCompleted: bool, home: int, away: int)

  function ViewOf(m: Manager, n: int): (v: PeriodView)
    requires n in m.periods
  {
    PeriodView(n, if n > m.periodCount then Overtime else if m.sport == BasketballMatch then Quarter else Half,
               m.periods[n].config.initialTime, m.periods[n], n < m.currentPeriod, 0, 0)
  }

  /** The views of the periods `k..last` the manager holds, in ascending order. */
  function Views(m: Manager, k: int, last: int): (r: seq<PeriodView>)
    decreases last - k
    ensures forall i :: 0 <= i < |r| ==> r[i].number in m.periods && r[i] == ViewOf(m, r[i].number)
    ensures forall i :: 0 <= i < |r| ==> k <= r[i].number <= last
    ensures (forall j :: k <= j <= last ==> j in m.periods) ==>
      |r| == (if last < k then 0 else last - k + 1) && forall i :: 0 <= i < |r| ==> r[i].number == k + i
  {
    if last < k then []
    else if k in m.periods then [ViewOf(m, k)] + Views(m, k + 1, last)
    else Views(m, k + 1, last)
  }

  datatype MatchTimersView = MatchTimersView(matchId: string, game: Timer, periods: seq<PeriodView>,
                                             shotClock: Option<Timer>, currentPeriod: int, isOvertime: bool)

  /** `getAllStates`: every period timer in period order, tagged with its kind and whether it is over. */
  function AllStates(m: Manager): (r: MatchTimersView)
    ensures r.game == m.game && r.shotClock == m.shotClock && r.currentPeriod == m.currentPeriod
    ensures forall i :: 0 <= i < |r.periods| ==> r.periods[i].home == 0 && r.periods[i].away == 0
    ensures forall i :: 0 <= i < |r.periods| ==>
      r.periods[i].number in m.periods && r.periods[i].state == m.periods[r.periods[i].number]
    ensures Inv(m) ==> |r.periods| == LastPeriod(m) && forall i :: 0 <= i < |r.periods| ==> r.periods[i].number == i + 1
  {
    MatchTimersView(m.matchId, m.game, Views(m, 1, LastPeriod(m)), m.shotClock, m.currentPeriod, m.isOvertime)
  }

  /**
   * In the views, exactly the periods before the current one are completed,
   * and exactly the one past the regulation count is overtime.
   */
  lemma AllStatesFlags(m: Manager)
    requires Inv(m)
    ensures var ps := AllStates(m).periods;
      && (forall i :: 0 <= i < |ps| ==> (ps[i].isCompleted <==> i + 1 < m.currentPeriod))
      && (forall i :: 0 <= i < |ps| ==> (ps[i].kind == Overtime <==> i + 1 == m.periodCount + 1))
      && (m.isOvertime ==> ps[|ps| - 1].kind == Overtime)
  {
  }

  /** `destroy`: every timer is stopped and its log dropped. */
  function Destroy(m: Manager, now: int): (r: Manager)
    ensures Inv(m) ==> Inv(r)
    ensures r.game.status != Running && r.game.log == []
    ensures r.periods.Keys == m.periods.Keys
    ensures forall k :: k in r.periods ==> r.periods[k].status != Running && r.periods[k].log == []
    ensures r.shotClock.Some? ==> r.shotClock.value.status != Running && r.shotClock.value.log == []
  {
    m.(game := Timers.Destroy(m.game, now),
       periods := DestroyEach(m.periods, now),
       shotClock := if m.shotClock.Some? then Some(Timers.Destroy(m.shotClock.value, now)) else None)
  }

  /** Every period timer destroyed. */
  function DestroyEach(ps: map<int, Timer>, now: int): (r: map<int, Timer>)
    ensures r.Keys == ps.Keys
    ensures forall k :: k in r ==> r[k] == Timers.Destroy(ps[k], now)
  {
    map k | k in ps :: Timers.Destroy(ps[k], now)
  }

  /** Nothing runs after `destroy`, so ticking a destroyed manager changes nothing. */
  lemma DestroyedIsFrozen(m: Manager, now: int, later: int)
    ensures TickAll(Destroy(m, now), later) == Destroy(m, now)
    ensures Destroy(Destroy(m, now), later) == Destroy(m, now)
  {
    var d := Destroy(m, now);
    assert TickEach(d.periods, later) == d.periods;
    forall k | k in d.periods
      ensures Timers.Destroy(d.periods[k], later) == d.periods[k]
    {
      DestroyIdempotent(m.periods[k], now, later);
    }
    assert DestroyEach(d.periods, later) == d.periods;
  }
}
