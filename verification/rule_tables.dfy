/**
 * The two per-sport rule tables and the rule predicates they name.
 * A rule's `points` field is declarative only: no engine reads it, the
 * points of a stored event always come from the caller's draft.
 */
module RuleTables {
  import opened Wrappers
  import opened ScoreTypes

  const AllPeriods: seq<int> := [1, 2, 3, 4, 5, 6, 7, 8]
  const RegulationPeriods: seq<int> := [1, 2, 3, 4]

  function BasketballTable(): seq<Rule> {
    [ Rule(FreeThrowMake, 1, true, false, AllPeriods, FreeThrowShotClock),
      Rule(FreeThrowMiss, 0, true, false, AllPeriods, FreeThrowShotClock),
      Rule(TwoPointMake, 2, true, true, AllPeriods, ShotMadeClock),
      Rule(TwoPointMiss, 0, true, true, AllPeriods, ShotMissedClock),
      Rule(ThreePointMake, 3, true, true, AllPeriods, ShotMadeClock),
      Rule(ThreePointMiss, 0, true, true, AllPeriods, ShotMissedClock),
      Rule(Timeout, 0, false, false, RegulationPeriods, TimeoutsLeft),
      Rule(Foul, 0, true, false, AllPeriods, TeamFoulWarning),
      Rule(TechnicalFoul, 0, false, false, AllPeriods, AlwaysValid),
      Rule(FlagrantFoul, 0, true, false, AllPeriods, AlwaysValid),
      Rule(Substitution, 0, true, false, AllPeriods, AlwaysValid) ]
  }

  function FootballTable(): seq<Rule> {
    [ Rule(Goal, 1, true, false, RegulationPeriods, OffsideGoal),
      Rule(PenaltyGoal, 1, true, false, RegulationPeriods, AlwaysValid),
      Rule(OwnGoal, 1, true, false, RegulationPeriods, AlwaysValid),
      Rule(MissedPenalty, 0, true, false, RegulationPeriods, AlwaysValid),
      Rule(YellowCard, 0, true, false, RegulationPeriods, YellowCardCount),
      Rule(RedCard, 0, true, false, RegulationPeriods, AlwaysValid),
      Rule(Substitution, 0, true, false, RegulationPeriods, AlwaysValid) ]
  }

  function TableOf(v: Variant): seq<Rule> {
    if v.BasketballEngine? then BasketballTable() else FootballTable()
  }

  /** `rules.find(r => r.eventType === t)`: the first entry for `t`, if any. */
  function FindRule(table: seq<Rule>, t: EventType): (r: Option<Rule>)
    ensures r.Some? ==> r.value in table && r.value.eventType == t
    ensures r.None? <==> forall i :: 0 <= i < |table| ==> table[i].eventType != t
  {
    if |table| == 0 then None
    else if table[0].eventType == t then Some(table[0])
    else FindRule(table[1..], t)
  }

  /** The counter of the yellow-card map entry for (team, player), if any. */
  function YellowCount(cards: seq<YellowCardInfo>, team: Team, player: string): (r: Option<int>)
    ensures r.Some? <==> exists i :: 0 <= i < |cards| && cards[i].team == team && cards[i].playerId == player
    ensures r.Some? ==>
      exists i :: 0 <= i < |cards| && cards[i].team == team && cards[i].playerId == player && cards[i].count == r.value
  {
    if |cards| == 0 then None
    else if cards[0].team == team && cards[0].playerId == player then Some(cards[0].count)
    else
      var r := YellowCount(cards[1..], team, player);
      assert forall i :: 1 <= i < |cards| ==> cards[i] == cards[1..][i - 1];
      r
  }

  /** Runs the predicate `c` of a rule against the candidate event and the live context. */
  function RunCheck(c: Check, ev: ScoreEvent, ctx: MatchContext, v: Variant): (r: ValidationResult)
    ensures c == AlwaysValid ==> r.Valid?
    ensures c == TeamFoulWarning ==> r.Valid?
    ensures c == FreeThrowShotClock ==> (r.Valid? <==> ev.shotClock.Some?)
    ensures c == ShotMissedClock ==> (r.Valid? <==> ev.shotClock.Some?)
    ensures c == ShotMadeClock ==> (r.Valid? <==> ev.shotClock.Some? && ev.shotClock.value >= 0)
    ensures c == TimeoutsLeft ==> (r.Valid? <==> ctx.Timeouts(ev.team) > 0)
    ensures c == OffsideGoal ==>
      (r.Invalid? <==> v.FootballEngine? && v.football.offsideRule && ev.metadata.isOffside)
    ensures c == YellowCardCount ==> (r.Valid? <==> HasPlayer(ev.playerId))
  {
    match c
    case AlwaysValid => Valid(None)
    case FreeThrowShotClock =>
      if ev.shotClock.None? then Invalid(FreeThrowWithoutShotClock) else Valid(None)
    case ShotMadeClock =>
      if ev.shotClock.None? then Invalid(ShotClockRequired)
      else if ev.shotClock.value < 0 then Invalid(NegativeShotClock)
      else Valid(None)
    case ShotMissedClock =>
      if ev.shotClock.None? then Invalid(ShotClockRequired) else Valid(None)
    case TimeoutsLeft =>
      if ctx.Timeouts(ev.team) <= 0 then Invalid(NoTimeoutsRemaining(ev.team)) else Valid(None)
    case TeamFoulWarning =>
      if v.BasketballEngine? && ctx.Fouls(ev.team) >= v.basketball.maxFoulsPerPeriod then
        Valid(Some(TeamFoulLimitReached))
      else if v.BasketballEngine? && ctx.Fouls(ev.team) >= v.basketball.freeThrowFoulLimit then
        Valid(Some(TeamInBonus(v.basketball.freeThrowFoulLimit)))
      else Valid(None)
    case OffsideGoal =>
      if v.FootballEngine? && v.football.offsideRule && ev.metadata.isOffside then Invalid(Offside)
      else Valid(None)
    case YellowCardCount =>
      if !HasPlayer(ev.playerId) then Invalid(YellowCardWithoutPlayer)
      else if v.FootballEngine? then
        var n := YellowCount(v.yellowCards, ev.team, ev.playerId.value);
        if n.Some? && n.value >= 1 then Valid(Some(SecondYellowCard)) else Valid(None)
      else Valid(None)
  }

  /** The basketball table has a rule for exactly the event types it lists. */
  lemma BasketballHasRule(t: EventType)
    requires !(t.Goal? || t.PenaltyGoal? || t.OwnGoal? || t.MissedPenalty? || t.YellowCard? || t.RedCard?)
    ensures FindRule(BasketballTable(), t).Some?
  {
    var table := BasketballTable();
    match t
    case FreeThrowMake => assert table[0].eventType == t;
    case FreeThrowMiss => assert table[1].eventType == t;
    case TwoPointMake => assert table[2].eventType == t;
    case TwoPointMiss => assert table[3].eventType == t;
    case ThreePointMake => assert table[4].eventType == t;
    case ThreePointMiss => assert table[5].eventType == t;
    case Timeout => assert table[6].eventType == t;
    case Foul => assert table[7].eventType == t;
    case TechnicalFoul => assert table[8].eventType == t;
    case FlagrantFoul => assert table[9].eventType == t;
    case Substitution => assert table[10].eventType == t;
  }

  /** Event types of the other sport have no rule in the basketball table. */
  lemma BasketballLacksRule(t: EventType)
    requires t.Goal? || t.PenaltyGoal? || t.OwnGoal? || t.MissedPenalty? || t.YellowCard? || t.RedCard?
    ensures FindRule(BasketballTable(), t).None?
  {
    var table := BasketballTable();
    assert forall i :: 0 <= i < |table| ==> table[i].eventType != t;
  }

  /** The football table has a rule for exactly the event types it lists. */
  lemma FootballHasRule(t: EventType)
    requires !(t.FreeThrowMake? || t.FreeThrowMiss? || t.TwoPointMake? || t.TwoPointMiss? || t.ThreePointMake? || t.ThreePointMiss? || t.Timeout? || t.Foul? || t.TechnicalFoul? || t.FlagrantFoul?)
    ensures FindRule(FootballTable(), t).Some?
  {
    var table := FootballTable();
    match t
    case Goal => assert table[0].eventType == t;
    case PenaltyGoal => assert table[1].eventType == t;
    case OwnGoal => assert table[2].eventType == t;
    case MissedPenalty => assert table[3].eventType == t;
    case YellowCard => assert table[4].eventType == t;
    case RedCard => assert table[5].eventType == t;
    case Substitution => assert table[6].eventType == t;
  }

  /** Event types of the other sport have no rule in the football table. */
  lemma FootballLacksRule(t: EventType)
    requires t.FreeThrowMake? || t.FreeThrowMiss? || t.TwoPointMake? || t.TwoPointMiss? || t.ThreePointMake? || t.ThreePointMiss? || t.Timeout? || t.Foul? || t.TechnicalFoul? || t.FlagrantFoul?
    ensures FindRule(FootballTable(), t).None?
  {
    var table := FootballTable();
    assert forall i :: 0 <= i < |table| ==> table[i].eventType != t;
  }

  /**
   * The football goal rule checks offside: a goal fails it exactly when the
   * offside rule is on and the goal is flagged offside.
   */
  lemma FootballGoalCheck(ev: ScoreEvent, ctx: MatchContext, v: Variant)
    requires v.FootballEngine?
    ensures FindRule(FootballTable(), Goal) == Some(Rule(Goal, 1, true, false, RegulationPeriods, OffsideGoal))
    ensures RunCheck(OffsideGoal, ev, ctx, v).Invalid? <==> v.football.offsideRule && ev.metadata.isOffside
  {
    assert FootballTable()[0].eventType == Goal;
  }
}
