/**
 * Engine construction (default rule sets merged with caller overrides) and
 * the per-sport dispatch of `addScoreEvent`.
 */
module Engines {
  import opened Wrappers
  import opened ScoreTypes
  import opened ScoreEngine
  import Football

  /**
   * A partial rule set: each `Some` field replaces the default of that name.
   * The fields of both sports live side by side, since a caller-supplied
   * rule object is spread over either default.
   */
  datatype RuleOverrides = RuleOverrides(
    maxFoulsPerPeriod: Option<int>,
    maxFoulsPerPlayer: Option<int>,
    freeThrowFoulLimit: Option<int>,
    shotClockDuration: Option<int>,
    shotClockResetOnOffensiveRebound: Option<int>,
    bonusFoulThreshold: Option<int>,
    doubleBonusFoulThreshold: Option<int>,
    maxYellowCardsBeforeRed: Option<int>,
    directRedCardEjection: Option<bool>,
    offsideRule: Option<bool>,
    extraTimePenaltyFormat: Option<ExtraTimeFormat>)

  const NoOverrides := RuleOverrides(None, None, None, None, None, None, None, None, None, None, None)

  datatype FactoryError = UnsupportedSport(sport: string)

  /** `getDefaultBasketballRules`. */
  function DefaultBasketballRules(): (r: BasketballRules)
    ensures r.freeThrowFoulLimit <= r.maxFoulsPerPeriod <= r.doubleBonusFoulThreshold
    ensures r.shotClockResetOnOffensiveRebound < r.shotClockDuration
  {
    BasketballRules(5, 6, 4, 24, 14, 5, 8)
  }

  /** `getDefaultFootballRules`. */
  function DefaultFootballRules(): (r: FootballRules)
    ensures r.maxYellowCardsBeforeRed == 2 && r.offsideRule
  {
    FootballRules(2, true, true, FullTime)
  }

  /** `{...defaults, ...overrides}` over the basketball fields. */
  function MergeBasketball(b: BasketballRules, o: RuleOverrides): (r: BasketballRules)
    ensures Overridden(o.maxFoulsPerPeriod, b.maxFoulsPerPeriod, r.maxFoulsPerPeriod)
    ensures Overridden(o.maxFoulsPerPlayer, b.maxFoulsPerPlayer, r.maxFoulsPerPlayer)
    ensures Overridden(o.freeThrowFoulLimit, b.freeThrowFoulLimit, r.freeThrowFoulLimit)
    ensures Overridden(o.shotClockDuration, b.shotClockDuration, r.shotClockDuration)
    ensures Overridden(o.shotClockResetOnOffensiveRebound, b.shotClockResetOnOffensiveRebound, r.shotClockResetOnOffensiveRebound)
    ensures Overridden(o.bonusFoulThreshold, b.bonusFoulThreshold, r.bonusFoulThreshold)
    ensures Overridden(o.doubleBonusFoulThreshold, b.doubleBonusFoulThreshold, r.doubleBonusFoulThreshold)
    ensures o == NoOverrides ==> r == b
  {
    BasketballRules(
      o.maxFoulsPerPeriod.GetOr(b.maxFoulsPerPeriod),
      o.maxFoulsPerPlayer.GetOr(b.maxFoulsPerPlayer),
      o.freeThrowFoulLimit.GetOr(b.freeThrowFoulLimit),
      o.shotClockDuration.GetOr(b.shotClockDuration),
      o.shotClockResetOnOffensiveRebound.GetOr(b.shotClockResetOnOffensiveRebound),
      o.bonusFoulThreshold.GetOr(b.bonusFoulThreshold),
      o.doubleBonusFoulThreshold.GetOr(b.doubleBonusFoulThreshold))
  }

  /** `{...defaults, ...overrides}` over the football fields. */
  function MergeFootball(f: FootballRules, o: RuleOverrides): (r: FootballRules)
    ensures Overridden(o.maxYellowCardsBeforeRed, f.maxYellowCardsBeforeRed, r.maxYellowCardsBeforeRed)
    ensures Overridden(o.directRedCardEjection, f.directRedCardEjection, r.directRedCardEjection)
    ensures Overridden(o.offsideRule, f.offsideRule, r.offsideRule)
    ensures Overridden(o.extraTimePenaltyFormat, f.extraTimePenaltyFormat, r.extraTimePenaltyFormat)
    ensures o == NoOverrides ==> r == f
  {
    FootballRules(
      o.maxYellowCardsBeforeRed.GetOr(f.maxYellowCardsBeforeRed),
      o.directRedCardEjection.GetOr(f.directRedCardEjection),
      o.offsideRule.GetOr(f.offsideRule),
      o.extraTimePenaltyFormat.GetOr(f.extraTimePenaltyFormat))
  }

  /** `createBasketballEngine`: a fresh engine on the merged basketball rules. */
  function CreateBasketballEngine(ctx: MatchContext, o: RuleOverrides): (e: Engine)
    ensures e.variant == BasketballEngine(MergeBasketball(DefaultBasketballRules(), o))
    ensures e.ctx == ctx && e.history == [] && e.violations == []
  {
    NewEngine(BasketballEngine(MergeBasketball(DefaultBasketballRules(), o)), ctx)
  }

  /** `createFootballEngine`: a fresh engine on the merged football rules, no cards yet. */
  function CreateFootballEngine(ctx: MatchContext, o: RuleOverrides): (e: Engine)
    ensures e.variant == FootballEngine(MergeFootball(DefaultFootballRules(), o), [])
    ensures e.ctx == ctx && e.history == [] && e.violations == []
  {
    NewEngine(FootballEngine(MergeFootball(DefaultFootballRules(), o), []), ctx)
  }

  /** `createEngine`: "basketball" and "football" are accepted; any other sport name fails. */
  function CreateEngine(sport: string, ctx: MatchContext, o: RuleOverrides): (r: Result<Engine, FactoryError>)
    ensures sport != "basketball" && sport != "football" ==> r == Err(UnsupportedSport(sport))
    ensures r.Ok? ==> r.value.ctx == ctx && r.value.history == [] && r.value.violations == []
    ensures r.Ok? ==> (r.value.variant.BasketballEngine? <==> sport == "basketball")
  {
    if sport == "basketball" then Ok(CreateBasketballEngine(ctx, o))
    else if sport == "football" then Ok(CreateFootballEngine(ctx, o))
    else Err(UnsupportedSport(sport))
  }

  /** The generic factory and the two convenience factories build the same engine. */
  lemma FactoriesAgree(ctx: MatchContext, o: RuleOverrides)
    ensures CreateEngine("basketball", ctx, o) == Ok(CreateBasketballEngine(ctx, o))
    ensures CreateEngine("football", ctx, o) == Ok(CreateFootballEngine(ctx, o))
    ensures CreateBasketballEngine(ctx, NoOverrides).variant.basketball == DefaultBasketballRules()
    ensures CreateFootballEngine(ctx, NoOverrides).variant.football == DefaultFootballRules()
  {
  }

  /** `engine.addScoreEvent` on whichever engine the factory built. */
  function AddScoreEvent(e: Engine, d: Draft): (r: Added)
    ensures r.event.id == e.nextId && r.engine.nextId > e.nextId
    ensures r.engine.variant.BasketballEngine? == e.variant.BasketballEngine?
    ensures r.engine.violations == e.violations
    ensures forall t :: r.engine.ctx.Fouls(t) == e.ctx.Fouls(t) && r.engine.ctx.Timeouts(t) == e.ctx.Timeouts(t)
    ensures r.engine.ctx.shotClock == e.ctx.shotClock && r.engine.ctx.currentPeriod == e.ctx.currentPeriod
    ensures e.variant.BasketballEngine? ==> r == ScoreEngine.AddEvent(e, d)
    ensures e.variant.FootballEngine? ==> r == Football.AddEvent(e, d)
  {
    if e.variant.FootballEngine? then Football.AddEvent(e, d) else ScoreEngine.AddEvent(e, d)
  }
}
