/**
 * Records shared by the scoring engines: teams, event types, score events,
 * the live match context, rule-table entries and the per-sport rule parameters.
 */
module ScoreTypes {
  import opened Wrappers

  datatype Team = Home | Away {
    function Opposite(): (t: Team)
      ensures t != this
    {
      if this == Home then Away else Home
    }
  }

  datatype SportEngine = BasketballSport | FootballSport

  datatype EventType =
    | FreeThrowMake | FreeThrowMiss
    | TwoPointMake | TwoPointMiss
    | ThreePointMake | ThreePointMiss
    | Goal | PenaltyGoal | OwnGoal | MissedPenalty
    | Timeout | Substitution
    | Foul | TechnicalFoul | FlagrantFoul
    | YellowCard | RedCard

  /** Generated event identity: a fresh value from the engine's counter. */
  type EventId = nat

  /**
   * The free-form metadata of an event, reduced to the keys the engines read or
   * write. `isOffside` is the truthiness of the caller-supplied value.
   */
  datatype Metadata = Metadata(
    isOffside: bool,
    isOwnGoal: bool,
    secondYellowCard: bool,
    originalYellowCardId: Option<EventId>)

  const NoMetadata := Metadata(false, false, false, None)

  /** What a caller submits: an event without identity, validity or error. */
  datatype Draft = Draft(
    matchId: string,
    team: Team,
    eventType: EventType,
    points: int,
    playerId: Option<string>,
    period: int,
    gameClock: int,
    shotClock: Option<int>,
    metadata: Metadata)

  datatype ValidationError =
    | UnsupportedEventType(eventType: EventType)
    | PeriodNotAllowed
    | PlayerRequired
    | FreeThrowWithoutShotClock
    | ShotClockRequired
    | NegativeShotClock
    | NoTimeoutsRemaining(team: Team)
    | Offside
    | YellowCardWithoutPlayer

  /** Non-blocking notes a rule predicate may attach; the engines discard them. */
  datatype Warning =
    | TeamFoulLimitReached
    | TeamInBonus(limit: int)
    | SecondYellowCard

  datatype ValidationResult = Valid(warning: Option<Warning>) | Invalid(error: ValidationError)

  datatype ScoreEvent = ScoreEvent(
    id: EventId,
    matchId: string,
    team: Team,
    eventType: EventType,
    points: int,
    playerId: Option<string>,
    period: int,
    gameClock: int,
    shotClock: Option<int>,
    isValid: bool,
    validationError: Option<ValidationError>,
    metadata: Metadata)

  datatype PeriodScore = PeriodScore(period: int, home: int, away: int)

  datatype MatchContext = MatchContext(
    sport: SportEngine,
    currentPeriod: int,
    periodDuration: int,
    gameClock: int,
    shotClock: Option<int>,
    isOvertime: bool,
    homeScore: int,
    awayScore: int,
    homeFouls: int,
    awayFouls: int,
    homeTimeouts: int,
    awayTimeouts: int,
    periodScores: seq<PeriodScore>)
  {
    function Score(t: Team): int {
      if t == Home then homeScore else awayScore
    }

    function Fouls(t: Team): int {
      if t == Home then homeFouls else awayFouls
    }

    function Timeouts(t: Team): int {
      if t == Home then homeTimeouts else awayTimeouts
    }
  }

  /** The rule predicate attached to a rule-table entry, named instead of closed over. */
  datatype Check =
    | AlwaysValid
    | FreeThrowShotClock
    | ShotMadeClock
    | ShotMissedClock
    | TimeoutsLeft
    | TeamFoulWarning
    | OffsideGoal
    | YellowCardCount

  datatype Rule = Rule(
    eventType: EventType,
    points: int,
    requiresPlayer: bool,
    requiresShotClock: bool,
    allowedPeriods: seq<int>,
    check: Check)

  datatype BasketballRules = BasketballRules(
    maxFoulsPerPeriod: int,
    maxFoulsPerPlayer: int,
    freeThrowFoulLimit: int,
    shotClockDuration: int,
    shotClockResetOnOffensiveRebound: int,
    bonusFoulThreshold: int,
    doubleBonusFoulThreshold: int)

  datatype ExtraTimeFormat = GoldenGoal | SilverGoal | FullTime

  datatype FootballRules = FootballRules(
    maxYellowCardsBeforeRed: int,
    directRedCardEjection: bool,
    offsideRule: bool,
    extraTimePenaltyFormat: ExtraTimeFormat)

  /** One entry of the football engine's yellow-card map, keyed by (team, player). */
  datatype YellowCardInfo = YellowCardInfo(team: Team, playerId: string, count: int)

  /** The per-sport part of an engine: its rule parameters and its own state. */
  datatype Variant =
    | BasketballEngine(basketball: BasketballRules)
    | FootballEngine(football: FootballRules, yellowCards: seq<YellowCardInfo>)

  datatype ViolationKind = FoulViolation | RuleBreach | TechnicalViolation
  datatype Severity = WarningSeverity | PersonalSeverity | TechnicalSeverity | FlagrantSeverity

  datatype RuleViolation = RuleViolation(
    kind: ViolationKind,
    severity: Severity,
    team: Team,
    playerId: Option<string>,
    description: string,
    period: int,
    gameClock: int)

  /** One engine instance: variant, live context, valid-event history, id counter. */
  datatype Engine = Engine(
    variant: Variant,
    ctx: MatchContext,
    history: seq<ScoreEvent>,
    violations: seq<RuleViolation>,
    nextId: nat)

  /** The source's `!event.playerId`: absent and empty ids both count as missing. */
  predicate HasPlayer(p: Option<string>) {
    p.Some? && p.value != ""
  }

  /** Number of events in `h` satisfying `f`. */
  function CountWhere(h: seq<ScoreEvent>, f: ScoreEvent -> bool): nat {
    if |h| == 0 then 0
    else CountWhere(h[..|h| - 1], f) + (if f(h[|h| - 1]) then 1 else 0)
  }

  /** Sum of the points of the entries of `h` stored for team `t`. */
  function TeamPoints(h: seq<ScoreEvent>, t: Team): int {
    if |h| == 0 then 0
    else TeamPoints(h[..|h| - 1], t) + (if h[|h| - 1].team == t then h[|h| - 1].points else 0)
  }

  lemma {:induction false} TeamPointsAppend(h: seq<ScoreEvent>, e: ScoreEvent, t: Team)
    ensures TeamPoints(h + [e], t) == TeamPoints(h, t) + (if e.team == t then e.points else 0)
  {
    assert (h + [e])[..|h|] == h;
  }

  lemma {:induction false} CountWhereAppend(h: seq<ScoreEvent>, e: ScoreEvent, f: ScoreEvent -> bool)
    ensures CountWhere(h + [e], f) == CountWhere(h, f) + (if f(e) then 1 else 0)
  {
    assert (h + [e])[..|h|] == h;
  }

  /** Removing entry `i` takes exactly its contribution out of the team sums. */
  lemma {:induction false} TeamPointsRemove(h: seq<ScoreEvent>, i: nat, t: Team)
    requires i < |h|
    ensures TeamPoints(h[..i] + h[i + 1..], t)
         == TeamPoints(h, t) - (if h[i].team == t then h[i].points else 0)
    decreases |h|
  {
    if i == |h| - 1 {
      assert h[..i] + h[i + 1..] == h[..|h| - 1];
    } else {
      var init := h[..|h| - 1];
      var last := h[|h| - 1];
      TeamPointsRemove(init, i, t);
      assert init[..i] == h[..i];
      assert init[i + 1..] + [last] == h[i + 1..];
      assert h[..i] + h[i + 1..] == (init[..i] + init[i + 1..]) + [last];
      TeamPointsAppend(init[..i] + init[i + 1..], last, t);
    }
  }

  /** Removing entry `i` removes exactly its contribution from any count. */
  lemma {:induction false} CountWhereRemove(h: seq<ScoreEvent>, i: nat, f: ScoreEvent -> bool)
    requires i < |h|
    ensures CountWhere(h[..i] + h[i + 1..], f) == CountWhere(h, f) - (if f(h[i]) then 1 else 0)
    decreases |h|
  {
    if i == |h| - 1 {
      assert h[..i] + h[i + 1..] == h[..|h| - 1];
    } else {
      var init := h[..|h| - 1];
      var last := h[|h| - 1];
      CountWhereRemove(init, i, f);
      assert init[..i] == h[..i];
      assert init[i + 1..] + [last] == h[i + 1..];
      assert h[..i] + h[i + 1..] == (init[..i] + init[i + 1..]) + [last];
      CountWhereAppend(init[..i] + init[i + 1..], last, f);
    }
  }

  /** A count never exceeds the count of a weaker condition. */
  lemma {:induction false} CountWhereMono(h: seq<ScoreEvent>, f: ScoreEvent -> bool, g: ScoreEvent -> bool)
    requires forall e :: f(e) ==> g(e)
    ensures CountWhere(h, f) <= CountWhere(h, g)
    decreases |h|
  {
    if |h| > 0 {
      CountWhereMono(h[..|h| - 1], f, g);
    }
  }
}
