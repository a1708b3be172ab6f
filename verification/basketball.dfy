/**
 * The basketball engine's own operations: bonus state, shot-clock resets,
 * foul and timeout counters (kept apart from the event history), player
 * foul-outs and shooting percentages.
 */
module Basketball {
  import opened Wrappers
  import opened ScoreTypes
  import Percent

  /** A basketball engine: the variant the operations below are defined for. */
  predicate IsBasketball(e: Engine) {
    e.variant.BasketballEngine?
  }

  /** Free-throw bonus: the team's foul counter has reached `freeThrowFoulLimit`. */
  function IsInBonus(e: Engine, t: Team): (b: bool)
    requires IsBasketball(e)
    ensures b <==> e.ctx.Fouls(t) >= e.variant.basketball.freeThrowFoulLimit
  {
    e.ctx.Fouls(t) >= e.variant.basketball.freeThrowFoulLimit
  }

  /** Double bonus: the team's foul counter has reached `doubleBonusFoulThreshold`. */
  function IsInDoubleBonus(e: Engine, t: Team): (b: bool)
    requires IsBasketball(e)
    ensures b <==> e.ctx.Fouls(t) >= e.variant.basketball.doubleBonusFoulThreshold
  {
    e.ctx.Fouls(t) >= e.variant.basketball.doubleBonusFoulThreshold
  }

  /** Whenever the double-bonus threshold is not below the bonus limit, double bonus implies bonus. */
  lemma DoubleBonusImpliesBonus(e: Engine, t: Team)
    requires IsBasketball(e)
    requires e.variant.basketball.freeThrowFoulLimit <= e.variant.basketball.doubleBonusFoulThreshold
    ensures IsInDoubleBonus(e, t) ==> IsInBonus(e, t)
  {
  }

  /** `resetShotClock`: the clock becomes the full duration; the team argument is ignored. */
  function ResetShotClock(e: Engine, t: Option<Team>): (r: Engine)
    requires IsBasketball(e)
    ensures r.ctx.shotClock == Some(e.variant.basketball.shotClockDuration)
    ensures r == e.(ctx := e.ctx.(shotClock := r.ctx.shotClock))
  {
    e.(ctx := e.ctx.(shotClock := Some(e.variant.basketball.shotClockDuration)))
  }

  /** `resetShotClockOnOffensiveRebound`: the clock becomes the rebound duration. */
  function ResetShotClockOnOffensiveRebound(e: Engine): (r: Engine)
    requires IsBasketball(e)
    ensures r.ctx.shotClock == Some(e.variant.basketball.shotClockResetOnOffensiveRebound)
    ensures r == e.(ctx := e.ctx.(shotClock := r.ctx.shotClock))
  {
    e.(ctx := e.ctx.(shotClock := Some(e.variant.basketball.shotClockResetOnOffensiveRebound)))
  }

  /** `recordFoul`: the team's counter goes up by one; the player argument is ignored. */
  function RecordFoul(e: Engine, t: Team, player: Option<string>): (r: Engine)
    requires IsBasketball(e)
    ensures r.ctx.Fouls(t) == e.ctx.Fouls(t) + 1
    ensures r.ctx.Fouls(t.Opposite()) == e.ctx.Fouls(t.Opposite())
    ensures r == e.(ctx := e.ctx.(homeFouls := r.ctx.homeFouls, awayFouls := r.ctx.awayFouls))
  {
    if t == Home then e.(ctx := e.ctx.(homeFouls := e.ctx.homeFouls + 1))
    else e.(ctx := e.ctx.(awayFouls := e.ctx.awayFouls + 1))
  }

  /** `recordTimeout`: the team's counter goes down by one, with no lower bound. */
  function RecordTimeout(e: Engine, t: Team): (r: Engine)
    requires IsBasketball(e)
    ensures r.ctx.Timeouts(t) == e.ctx.Timeouts(t) - 1
    ensures r.ctx.Timeouts(t.Opposite()) == e.ctx.Timeouts(t.Opposite())
    ensures r == e.(ctx := e.ctx.(homeTimeouts := r.ctx.homeTimeouts, awayTimeouts := r.ctx.awayTimeouts))
  {
    if t == Home then e.(ctx := e.ctx.(homeTimeouts := e.ctx.homeTimeouts - 1))
    else e.(ctx := e.ctx.(awayTimeouts := e.ctx.awayTimeouts - 1))
  }

  /** Enough fouls pushes a team into the bonus: `freeThrowFoulLimit` recorded fouls from zero. */
  lemma {:induction false} FoulsReachBonus(e: Engine, t: Team, n: nat)
    requires IsBasketball(e) && e.ctx.Fouls(t) == 0
    requires n >= e.variant.basketball.freeThrowFoulLimit
    ensures IsInBonus(RecordFouls(e, t, n), t)
    ensures RecordFouls(e, t, n).ctx.Fouls(t) == n
  {
    RecordFoulsCount(e, t, n);
  }

  /**
   * One more foul keeps a team in the bonus, brings it in exactly when the
   * new count reaches the limit, and leaves the opponent's bonus alone.
   */
  lemma FoulBonusStep(e: Engine, t: Team, player: Option<string>)
    requires IsBasketball(e)
    ensures IsInBonus(e, t) ==> IsInBonus(RecordFoul(e, t, player), t)
    ensures IsInBonus(RecordFoul(e, t, player), t)
        <==> IsInBonus(e, t) || e.ctx.Fouls(t) + 1 == e.variant.basketball.freeThrowFoulLimit
    ensures IsInBonus(RecordFoul(e, t, player), t.Opposite()) == IsInBonus(e, t.Opposite())
  {
  }

  /** The same for the double bonus and its threshold. */
  lemma FoulDoubleBonusStep(e: Engine, t: Team, player: Option<string>)
    requires IsBasketball(e)
    ensures IsInDoubleBonus(e, t) ==> IsInDoubleBonus(RecordFoul(e, t, player), t)
    ensures IsInDoubleBonus(RecordFoul(e, t, player), t)
        <==> IsInDoubleBonus(e, t) || e.ctx.Fouls(t) + 1 == e.variant.basketball.doubleBonusFoulThreshold
    ensures IsInDoubleBonus(RecordFoul(e, t, player), t.Opposite()) == IsInDoubleBonus(e, t.Opposite())
  {
  }

  /** `n` successive calls of `recordFoul` for one team. */
  function RecordFouls(e: Engine, t: Team, n: nat): (r: Engine)
    requires IsBasketball(e)
    ensures r.variant == e.variant
  {
    if n == 0 then e else RecordFoul(RecordFouls(e, t, n - 1), t, None)
  }

  lemma {:induction false} RecordFoulsCount(e: Engine, t: Team, n: nat)
    requires IsBasketball(e)
    ensures RecordFouls(e, t, n).ctx.Fouls(t) == e.ctx.Fouls(t) + n
    ensures RecordFouls(e, t, n).history == e.history
  {
    if n > 0 {
      RecordFoulsCount(e, t, n - 1);
    }
  }

  /** The event types `isPlayerFouledOut` counts. */
  predicate IsPersonalFoul(t: EventType) {
    t == Foul || t == TechnicalFoul
  }

  /** The fouls charged to `player` in the history: FOUL and TECHNICAL_FOUL entries. */
  function PlayerFouls(h: seq<ScoreEvent>, player: string): (n: nat)
    ensures n <= |h|
    ensures n == CountWhere(h, (ev: ScoreEvent) => ev.playerId == Some(player) && IsPersonalFoul(ev.eventType))
  {
    CountWhereBound(h, (ev: ScoreEvent) => ev.playerId == Some(player) && IsPersonalFoul(ev.eventType));
    CountWhere(h, (ev: ScoreEvent) => ev.playerId == Some(player) && IsPersonalFoul(ev.eventType))
  }

  lemma {:induction false} CountWhereBound(h: seq<ScoreEvent>, f: ScoreEvent -> bool)
    ensures CountWhere(h, f) <= |h|
  {
    if |h| > 0 {
      CountWhereBound(h[..|h| - 1], f);
    }
  }

  /** A stored event adds one to a player's fouls exactly when it is that player's FOUL or TECHNICAL_FOUL. */
  lemma PlayerFoulsAppend(h: seq<ScoreEvent>, ev: ScoreEvent, player: string)
    ensures PlayerFouls(h + [ev], player)
         == PlayerFouls(h, player) + (if ev.playerId == Some(player) && IsPersonalFoul(ev.eventType) then 1 else 0)
  {
    CountWhereAppend(h, ev, (x: ScoreEvent) => x.playerId == Some(player) && IsPersonalFoul(x.eventType));
  }

  /** `isPlayerFouledOut`: the player's recorded fouls reach `maxFoulsPerPlayer`. */
  function IsPlayerFouledOut(e: Engine, player: string): (b: bool)
    requires IsBasketball(e)
    ensures b <==> PlayerFouls(e.history, player) >= e.variant.basketball.maxFoulsPerPlayer
  {
    PlayerFouls(e.history, player) >= e.variant.basketball.maxFoulsPerPlayer
  }

  /** Appending events never reduces a player's foul count, so a fouled-out player stays out. */
  lemma {:induction false} FouledOutStays(e: Engine, ev: ScoreEvent, player: string)
    requires IsBasketball(e) && IsPlayerFouledOut(e, player)
    ensures IsPlayerFouledOut(e.(history := e.history + [ev]), player)
  {
    CountWhereAppend(e.history, ev, (x: ScoreEvent) => x.playerId == Some(player) && IsPersonalFoul(x.eventType));
  }

  /**
   * After one more stored event a player is out exactly when already out, or
   * when the event is their personal foul and it brings them to the limit.
   */
  lemma FouledOutStep(e: Engine, ev: ScoreEvent, player: string)
    requires IsBasketball(e)
    ensures IsPlayerFouledOut(e.(history := e.history + [ev]), player)
        <==> IsPlayerFouledOut(e, player)
             || (ev.playerId == Some(player) && IsPersonalFoul(ev.eventType)
                 && PlayerFouls(e.history, player) + 1 >= e.variant.basketball.maxFoulsPerPlayer)
  {
    PlayerFoulsAppend(e.history, ev, player);
  }

  predicate IsFieldGoalMake(t: EventType) { t == TwoPointMake || t == ThreePointMake }
  predicate IsFieldGoalAttempt(t: EventType) { IsFieldGoalMake(t) || t == TwoPointMiss || t == ThreePointMiss }
  predicate IsThreeAttempt(t: EventType) { t == ThreePointMake || t == ThreePointMiss }
  predicate IsFreeThrowAttempt(t: EventType) { t == FreeThrowMake || t == FreeThrowMiss }

  /** Number of the team's stored events whose type satisfies `p`. */
  function TeamCount(h: seq<ScoreEvent>, team: Team, p: EventType -> bool): nat {
    CountWhere(h, (ev: ScoreEvent) => ev.team == team && p(ev.eventType))
  }

  lemma TeamCountMono(h: seq<ScoreEvent>, team: Team, p: EventType -> bool, q: EventType -> bool)
    requires forall t :: p(t) ==> q(t)
    ensures TeamCount(h, team, p) <= TeamCount(h, team, q)
  {
    var f := (ev: ScoreEvent) => ev.team == team && p(ev.eventType);
    var g := (ev: ScoreEvent) => ev.team == team && q(ev.eventType);
    forall ev | f(ev) ensures g(ev) {
      assert p(ev.eventType);
    }
    CountWhereMono(h, f, g);
  }

  /** Made shots are a subset of attempted ones for every percentage the engine reports. */
  lemma MadeWithinAttempted(h: seq<ScoreEvent>, team: Team)
    ensures TeamCount(h, team, IsFieldGoalMake) <= TeamCount(h, team, IsFieldGoalAttempt)
    ensures TeamCount(h, team, t => t == ThreePointMake) <= TeamCount(h, team, IsThreeAttempt)
    ensures TeamCount(h, team, t => t == FreeThrowMake) <= TeamCount(h, team, IsFreeThrowAttempt)
  {
    TeamCountMono(h, team, IsFieldGoalMake, IsFieldGoalAttempt);
    TeamCountMono(h, team, t => t == ThreePointMake, IsThreeAttempt);
    TeamCountMono(h, team, t => t == FreeThrowMake, IsFreeThrowAttempt);
  }

  /**
   * `getTeamFieldGoalPercentage`, in hundredths of a percent: two- and
   * three-point makes over all two- and three-point attempts; 0 without attempts.
   */
  function FieldGoalPercentage(e: Engine, team: Team): (r: int)
    requires IsBasketball(e)
    ensures 0 <= r <= 10000
    ensures TeamCount(e.history, team, IsFieldGoalAttempt) == 0 ==> r == 0
    ensures r == Percent.RoundedPercent(TeamCount(e.history, team, IsFieldGoalMake), TeamCount(e.history, team, IsFieldGoalAttempt))
  {
    MadeWithinAttempted(e.history, team);
    Percent.RoundedPercent(TeamCount(e.history, team, IsFieldGoalMake), TeamCount(e.history, team, IsFieldGoalAttempt))
  }

  /** `getTeamThreePointPercentage`, in hundredths of a percent. */
  function ThreePointPercentage(e: Engine, team: Team): (r: int)
    requires IsBasketball(e)
    ensures 0 <= r <= 10000
    ensures TeamCount(e.history, team, IsThreeAttempt) == 0 ==> r == 0
    ensures r == Percent.RoundedPercent(TeamCount(e.history, team, t => t == ThreePointMake), TeamCount(e.history, team, IsThreeAttempt))
  {
    MadeWithinAttempted(e.history, team);
    Percent.RoundedPercent(TeamCount(e.history, team, t => t == ThreePointMake), TeamCount(e.history, team, IsThreeAttempt))
  }

  /** `getTeamFreeThrowPercentage`, in hundredths of a percent. */
  function FreeThrowPercentage(e: Engine, team: Team): (r: int)
    requires IsBasketball(e)
    ensures 0 <= r <= 10000
    ensures TeamCount(e.history, team, IsFreeThrowAttempt) == 0 ==> r == 0
    ensures r == Percent.RoundedPercent(TeamCount(e.history, team, t => t == FreeThrowMake), TeamCount(e.history, team, IsFreeThrowAttempt))
  {
    MadeWithinAttempted(e.history, team);
    Percent.RoundedPercent(TeamCount(e.history, team, t => t == FreeThrowMake), TeamCount(e.history, team, IsFreeThrowAttempt))
  }

  datatype BasketballStats = BasketballStats(
    fieldGoalPercentage: int,
    threePointPercentage: int,
    freeThrowPercentage: int,
    isInBonus: bool,
    isInDoubleBonus: bool,
    fouls: int,
    timeouts: int,
    shotClock: Option<int>)

  /** `getBasketballStats`: the team's figures gathered from the accessors and the context. */
  function Stats(e: Engine, team: Team): (s: BasketballStats)
    requires IsBasketball(e)
    ensures 0 <= s.fieldGoalPercentage <= 10000 && 0 <= s.threePointPercentage <= 10000
    ensures 0 <= s.freeThrowPercentage <= 10000
    ensures s.fieldGoalPercentage == FieldGoalPercentage(e, team)
    ensures s.threePointPercentage == ThreePointPercentage(e, team)
    ensures s.freeThrowPercentage == FreeThrowPercentage(e, team)
    ensures s.isInBonus <==> e.ctx.Fouls(team) >= e.variant.basketball.freeThrowFoulLimit
    ensures s.isInDoubleBonus <==> e.ctx.Fouls(team) >= e.variant.basketball.doubleBonusFoulThreshold
    ensures s.fouls == e.ctx.Fouls(team) && s.timeouts == e.ctx.Timeouts(team)
    ensures s.shotClock == e.ctx.shotClock
  {
    BasketballStats(FieldGoalPercentage(e, team), ThreePointPercentage(e, team), FreeThrowPercentage(e, team),
                    IsInBonus(e, team), IsInDoubleBonus(e, team), e.ctx.Fouls(team), e.ctx.Timeouts(team),
                    e.ctx.shotClock)
  }

  /** A stored event adds one to a team's count exactly when it is that team's and its type matches. */
  lemma {:induction false} TeamCountAppend(h: seq<ScoreEvent>, ev: ScoreEvent, team: Team, p: EventType -> bool)
    ensures TeamCount(h + [ev], team, p) == TeamCount(h, team, p) + (if ev.team == team && p(ev.eventType) then 1 else 0)
  {
    CountWhereAppend(h, ev, (x: ScoreEvent) => x.team == team && p(x.eventType));
  }

  /**
   * A recorded foul shows in the team's statistics: one more foul, the bonus
   * flags never lost, and shooting, timeouts and shot clock unchanged.
   */
  lemma RecordFoulStats(e: Engine, t: Team, player: Option<string>)
    requires IsBasketball(e)
    ensures var before, after := Stats(e, t), Stats(RecordFoul(e, t, player), t);
      && after.fouls == before.fouls + 1
      && (before.isInBonus ==> after.isInBonus) && (before.isInDoubleBonus ==> after.isInDoubleBonus)
      && after.fieldGoalPercentage == before.fieldGoalPercentage
      && after.threePointPercentage == before.threePointPercentage
      && after.freeThrowPercentage == before.freeThrowPercentage
      && after.timeouts == before.timeouts && after.shotClock == before.shotClock
  {
    var e2 := RecordFoul(e, t, player);
    assert e2.history == e.history && e2.variant == e.variant;
    assert FieldGoalPercentage(e2, t) == FieldGoalPercentage(e, t);
    assert ThreePointPercentage(e2, t) == ThreePointPercentage(e, t);
    assert FreeThrowPercentage(e2, t) == FreeThrowPercentage(e, t);
  }

  /** An event stored for the opponent leaves a team's shooting percentages as they were. */
  lemma OpponentEventKeepsShooting(e: Engine, ev: ScoreEvent, team: Team)
    requires IsBasketball(e) && ev.team != team
    ensures var e2 := e.(history := e.history + [ev]);
      && Stats(e2, team).fieldGoalPercentage == Stats(e, team).fieldGoalPercentage
      && Stats(e2, team).threePointPercentage == Stats(e, team).threePointPercentage
      && Stats(e2, team).freeThrowPercentage == Stats(e, team).freeThrowPercentage
  {
    TeamCountAppend(e.history, ev, team, IsFieldGoalMake);
    TeamCountAppend(e.history, ev, team, IsFieldGoalAttempt);
    TeamCountAppend(e.history, ev, team, t => t == ThreePointMake);
    TeamCountAppend(e.history, ev, team, IsThreeAttempt);
    TeamCountAppend(e.history, ev, team, t => t == FreeThrowMake);
    TeamCountAppend(e.history, ev, team, IsFreeThrowAttempt);
  }
}
