/**
 * The football engine: its own event application (own goals credited to
 * the opponent, yellow cards counted per player and turned into a red card
 * at the threshold, nothing stored for a yellow card itself), and the
 * card, substitution and goal queries.
 */
module Football {
  import opened Wrappers
  import opened ScoreTypes
  import opened RuleTables
  import opened ScoreEngine
  import opened Sequences
  import Percent

  /** A football engine: the variant the operations below are defined for. */
  predicate IsFootball(e: Engine) {
    e.variant.FootballEngine?
  }

  /** Sets the counter of the first entry for (team, player), which must exist. */
  function SetYellowCount(cards: seq<YellowCardInfo>, team: Team, player: string, n: int): (r: seq<YellowCardInfo>)
    requires YellowCount(cards, team, player).Some?
    ensures |r| == |cards|
    ensures YellowCount(r, team, player) == Some(n)
    ensures forall t, p :: (t, p) != (team, player) ==> YellowCount(r, t, p) == YellowCount(cards, t, p)
    ensures SumYellow(r, team) == SumYellow(cards, team) - YellowCount(cards, team, player).value + n
    ensures SumYellow(r, team.Opposite()) == SumYellow(cards, team.Opposite())
  {
    if cards[0].team == team && cards[0].playerId == player then
      [cards[0].(count := n)] + cards[1..]
    else
      var rest := SetYellowCount(cards[1..], team, player, n);
      assert ([cards[0]] + rest)[1..] == rest;
      [cards[0]] + rest
  }

  /** `getTeamYellowCards`: the sum of the counters of the team's entries. */
  function SumYellow(cards: seq<YellowCardInfo>, team: Team): int {
    if |cards| == 0 then 0
    else (if cards[0].team == team then cards[0].count else 0) + SumYellow(cards[1..], team)
  }

  lemma {:induction false} SumYellowAppend(cards: seq<YellowCardInfo>, c: YellowCardInfo, team: Team)
    ensures SumYellow(cards + [c], team) == SumYellow(cards, team) + (if c.team == team then c.count else 0)
    decreases |cards|
  {
    if |cards| > 0 {
      assert (cards + [c])[1..] == cards[1..] + [c];
      SumYellowAppend(cards[1..], c, team);
    }
  }

  lemma {:induction false} YellowCountAppend(cards: seq<YellowCardInfo>, c: YellowCardInfo, team: Team, player: string)
    requires YellowCount(cards, c.team, c.playerId).None?
    ensures YellowCount(cards + [c], team, player)
         == if (team, player) == (c.team, c.playerId) then Some(c.count) else YellowCount(cards, team, player)
    decreases |cards|
  {
    if |cards| > 0 {
      assert (cards + [c])[1..] == cards[1..] + [c];
      YellowCountAppend(cards[1..], c, team, player);
    }
  }

  /** The red card generated by a yellow card that reaches the threshold. */
  function SecondYellowRedCard(ev: ScoreEvent, id: EventId): (red: ScoreEvent)
    ensures red.eventType == RedCard && red.points == 0 && red.isValid && red.validationError.None?
    ensures red.id == id && red.team == ev.team && red.playerId == ev.playerId && red.period == ev.period
    ensures red.metadata.secondYellowCard && red.metadata.originalYellowCardId == Some(ev.id)
  {
    ev.(id := id, eventType := RedCard, points := 0, isValid := true, validationError := None,
        metadata := ev.metadata.(secondYellowCard := true, originalYellowCardId := Some(ev.id)))
  }

  /**
   * `handleYellowCard`: a known (team, player) entry is incremented and, at
   * `maxYellowCardsBeforeRed`, a red card is appended to the history; an
   * unknown entry is created with count 1 and no threshold check.
   */
  function HandleYellowCard(e: Engine, ev: ScoreEvent): (r: Engine)
    requires IsFootball(e)
    ensures IsFootball(r) && r.ctx == e.ctx && r.violations == e.violations
    ensures r.variant.football == e.variant.football
    ensures !HasPlayer(ev.playerId) ==> r == e
    ensures HasPlayer(ev.playerId) ==>
      var before := YellowCount(e.variant.yellowCards, ev.team, ev.playerId.value);
      var after := YellowCount(r.variant.yellowCards, ev.team, ev.playerId.value);
      && after == Some(if before.Some? then before.value + 1 else 1)
      && SumYellow(r.variant.yellowCards, ev.team) == SumYellow(e.variant.yellowCards, ev.team) + 1
      && SumYellow(r.variant.yellowCards, ev.team.Opposite()) == SumYellow(e.variant.yellowCards, ev.team.Opposite())
      && (before.Some? && before.value + 1 >= e.variant.football.maxYellowCardsBeforeRed ==>
            r.history == e.history + [SecondYellowRedCard(ev, e.nextId)] && r.nextId == e.nextId + 1)
      && (!(before.Some? && before.value + 1 >= e.variant.football.maxYellowCardsBeforeRed) ==>
            r.history == e.history && r.nextId == e.nextId)
  {
    if !HasPlayer(ev.playerId) then e
    else
      var player := ev.playerId.value;
      var cards := e.variant.yellowCards;
      match YellowCount(cards, ev.team, player)
      case Some(n) =>
        var e1 := e.(variant := e.variant.(yellowCards := SetYellowCount(cards, ev.team, player, n + 1)));
        if n + 1 >= e.variant.football.maxYellowCardsBeforeRed then
          e1.(history := e.history + [SecondYellowRedCard(ev, e.nextId)], nextId := e.nextId + 1)
        else e1
      case None =>
        var c := YellowCardInfo(ev.team, player, 1);
        SumYellowAppend(cards, c, ev.team);
        SumYellowAppend(cards, c, ev.team.Opposite());
        YellowCountAppend(cards, c, ev.team, player);
        e.(variant := e.variant.(yellowCards := cards + [c]))
  }

  /**
   * The football `addScoreEvent`. A valid yellow card with a player goes to
   * the card counters only; a valid own goal is credited to the opposing
   * team and stored under that team with `isOwnGoal`; any other valid event
   * is stored and, with positive points, scored.
   */
  function AddEvent(e: Engine, d: Draft): (r: Added)
    requires IsFootball(e)
    ensures IsFootball(r.engine) && r.engine.variant.football == e.variant.football
    ensures r.engine.violations == e.violations
    ensures r.event.id == e.nextId && r.engine.nextId >= e.nextId + 1
    ensures r.event.isValid <==> Validated(e, d).isValid
    ensures !r.event.isValid ==> r.engine == e.(nextId := e.nextId + 1) && r.event == Validated(e, d)
    ensures r.event.isValid && d.eventType == YellowCard && HasPlayer(d.playerId) ==>
      r.event == Validated(e, d) && r.engine == HandleYellowCard(e.(nextId := e.nextId + 1), r.event)
    ensures r.event.isValid && d.eventType == OwnGoal ==>
      && r.event == Validated(e, d).(team := d.team.Opposite())
      && r.event.team == d.team.Opposite() && r.event.points == d.points && r.event.playerId == d.playerId
      && r.engine.ctx == UpdateScore(e.ctx, r.event)
      && r.engine.history == e.history + [r.event.(metadata := r.event.metadata.(isOwnGoal := true))]
      && r.engine.variant == e.variant
    ensures r.event.isValid && d.eventType != YellowCard && d.eventType != OwnGoal ==>
      && r.event == Validated(e, d)
      && r.engine.history == e.history + [r.event]
      && r.engine.ctx == (if d.points > 0 then UpdateScore(e.ctx, r.event) else e.ctx)
      && r.engine.variant == e.variant
  {
    var ev := Validated(e, d);
    var e1 := e.(nextId := e.nextId + 1);
    if !ev.isValid then Added(e1, ev)
    else if ev.eventType == YellowCard && HasPlayer(ev.playerId) then Added(HandleYellowCard(e1, ev), ev)
    else if ev.eventType == OwnGoal then
      var credited := ev.(team := ev.team.Opposite());
      Added(e1.(ctx := UpdateScore(e.ctx, credited),
                history := e.history + [credited.(metadata := credited.metadata.(isOwnGoal := true))]),
            credited)
    else if ev.points > 0 then Added(e1.(ctx := UpdateScore(e.ctx, ev), history := e.history + [ev]), ev)
    else Added(e1.(history := e.history + [ev]), ev)
  }

  /** The football table's yellow-card rule: periods 1 to 4, player required, card-count predicate. */
  lemma YellowCardRule()
    ensures FindRule(FootballTable(), YellowCard) == Some(Rule(YellowCard, 0, true, false, RegulationPeriods, YellowCardCount))
  {
    var table := FootballTable();
    assert table[0].eventType != YellowCard && table[1].eventType != YellowCard;
    assert table[2].eventType != YellowCard && table[3].eventType != YellowCard;
    assert FindRule(table, YellowCard) == FindRule(table[4..], YellowCard);
  }

  lemma RegulationPeriod(p: int)
    ensures p in RegulationPeriods <==> 1 <= p <= 4
  {
    if 1 <= p <= 4 {
      assert RegulationPeriods[p - 1] == p;
    }
  }

  /** A yellow card is accepted exactly in periods 1 to 4 and with a named player. */
  lemma YellowCardValidity(e: Engine, d: Draft)
    requires IsFootball(e) && d.eventType == YellowCard
    ensures Validated(e, d).isValid <==> 1 <= d.period <= 4 && HasPlayer(d.playerId)
  {
    YellowCardRule();
    RegulationPeriod(d.period);
  }

  /**
   * With the default threshold of two, a player's second yellow card
   * appends a red card for that player, with the next id, and leaves the
   * player sent off.
   */
  lemma SecondYellowSendsOff(e: Engine, ev: ScoreEvent)
    requires IsFootball(e) && e.variant.football.maxYellowCardsBeforeRed == 2 && HasPlayer(ev.playerId)
    requires YellowCount(e.variant.yellowCards, ev.team, ev.playerId.value) == Some(1)
    ensures var r := HandleYellowCard(e, ev);
      && r.history == e.history + [SecondYellowRedCard(ev, e.nextId)]
      && IsPlayerSentOff(r, ev.playerId.value)
      && TeamRedCards(r, ev.team) == TeamRedCards(e, ev.team) + 1
  {
    RedCardAppended(e, HandleYellowCard(e, ev), SecondYellowRedCard(ev, e.nextId), ev.team, ev.playerId.value);
  }

  /** Appending a red card for a player sends the player off and adds one to the team's red cards. */
  lemma RedCardAppended(e: Engine, e2: Engine, red: ScoreEvent, team: Team, player: string)
    requires IsFootball(e2) && e2.history == e.history + [red]
    requires red.eventType == RedCard && red.team == team && red.playerId == Some(player)
    ensures IsPlayerSentOff(e2, player)
    ensures TeamRedCards(e2, team) == TeamRedCards(e, team) + 1
  {
    assert e2.history[|e.history|] == red;
    CountWhereAppend(e.history, red, (ev: ScoreEvent) => ev.team == team && ev.eventType == RedCard);
  }

  /** A yellow card never changes the context and stores at most the red card it triggers. */
  lemma YellowCardEffect(e: Engine, d: Draft)
    requires IsFootball(e) && d.eventType == YellowCard
    ensures var r := AddEvent(e, d);
      && r.engine.ctx == e.ctx
      && ((r.engine.history == e.history && r.engine.nextId == e.nextId + 1)
          || (r.engine.history == e.history + [SecondYellowRedCard(r.event, e.nextId + 1)] && r.engine.nextId == e.nextId + 2))
  {
    YellowCardValidity(e, d);
    var ev := Validated(e, d);
    if ev.isValid {
      assert ev.playerId == d.playerId;
      YellowHandledShape(e.(nextId := e.nextId + 1), ev);
    }
  }

  /** `handleYellowCard` keeps the context and appends at most one red card, with the next id. */
  lemma YellowHandledShape(e: Engine, ev: ScoreEvent)
    requires IsFootball(e)
    ensures var r := HandleYellowCard(e, ev);
      && r.ctx == e.ctx
      && ((r.history == e.history && r.nextId == e.nextId)
          || (r.history == e.history + [SecondYellowRedCard(ev, e.nextId)] && r.nextId == e.nextId + 1))
  {
  }

  /** Whether `h` holds a red card for `player`. */
  function HasRedCard(h: seq<ScoreEvent>, player: string): (b: bool)
    ensures b <==> exists i :: 0 <= i < |h| && h[i].playerId == Some(player) && h[i].eventType == RedCard
  {
    if |h| == 0 then false
    else if h[|h| - 1].playerId == Some(player) && h[|h| - 1].eventType == RedCard then true
    else
      var b := HasRedCard(h[..|h| - 1], player);
      assert forall i :: 0 <= i < |h| - 1 ==> h[..|h| - 1][i] == h[i];
      b
  }

  /** The player's yellow count for one team has reached the red-card threshold. */
  predicate YellowsAtThreshold(e: Engine, team: Team, player: string)
    requires IsFootball(e)
  {
    var n := YellowCount(e.variant.yellowCards, team, player);
    n.Some? && n.value >= e.variant.football.maxYellowCardsBeforeRed
  }

  /** `isPlayerSentOff`: a red card in the history, or a yellow counter at the threshold under either team. */
  function IsPlayerSentOff(e: Engine, player: string): (b: bool)
    requires IsFootball(e)
    ensures b <==>
      (exists i :: 0 <= i < |e.history| && e.history[i].playerId == Some(player) && e.history[i].eventType == RedCard)
      || YellowsAtThreshold(e, Home, player) || YellowsAtThreshold(e, Away, player)
  {
    HasRedCard(e.history, player) || YellowsAtThreshold(e, Home, player) || YellowsAtThreshold(e, Away, player)
  }

  /** Every counter, whichever team it belongs to. */
  function AllYellow(cards: seq<YellowCardInfo>): int {
    if |cards| == 0 then 0 else cards[0].count + AllYellow(cards[1..])
  }

  /** The two teams' totals share out all the counters. */
  lemma {:induction false} SumYellowSplit(cards: seq<YellowCardInfo>)
    ensures SumYellow(cards, Home) + SumYellow(cards, Away) == AllYellow(cards)
  {
    if |cards| > 0 {
      SumYellowSplit(cards[1..]);
    }
  }

  /**
   * `getTeamYellowCards`: the team's share of the counters; with the
   * opponent's it makes up all of them, and it is 0 with none.
   */
  function TeamYellowCards(e: Engine, team: Team): (n: int)
    requires IsFootball(e)
    ensures e.variant.yellowCards == [] ==> n == 0
    ensures n + SumYellow(e.variant.yellowCards, team.Opposite()) == AllYellow(e.variant.yellowCards)
  {
    SumYellowSplit(e.variant.yellowCards);
    SumYellow(e.variant.yellowCards, team)
  }

  /** Every accepted yellow card with a player raises its team's yellow total by exactly one. */
  lemma YellowCardCounted(e: Engine, d: Draft)
    requires IsFootball(e) && d.eventType == YellowCard
    requires Validated(e, d).isValid
    ensures TeamYellowCards(AddEvent(e, d).engine, d.team) == TeamYellowCards(e, d.team) + 1
    ensures TeamYellowCards(AddEvent(e, d).engine, d.team.Opposite()) == TeamYellowCards(e, d.team.Opposite())
  {
  }

  /** `getTeamRedCards`: the team's red-card entries in the history. */
  function TeamRedCards(e: Engine, team: Team): (n: nat)
    ensures n == CountWhere(e.history, (ev: ScoreEvent) => ev.team == team && ev.eventType == RedCard)
  {
    CountWhere(e.history, (ev: ScoreEvent) => ev.team == team && ev.eventType == RedCard)
  }

  /** A stored event adds one to a team's red cards exactly when it is that team's red card. */
  lemma TeamRedCardsStep(e: Engine, e2: Engine, ev: ScoreEvent, team: Team)
    requires e2.history == e.history + [ev]
    ensures TeamRedCards(e2, team) == TeamRedCards(e, team) + (if ev.team == team && ev.eventType == RedCard then 1 else 0)
  {
    CountWhereAppend(e.history, ev, (x: ScoreEvent) => x.team == team && x.eventType == RedCard);
  }

  /** `getPlayersOnField`: eleven minus red cards, never below seven. */
  function PlayersOnField(e: Engine, team: Team): (n: int)
    ensures 7 <= n <= 11
    ensures TeamRedCards(e, team) <= 4 ==> n == 11 - TeamRedCards(e, team)
    ensures TeamRedCards(e, team) >= 4 ==> n == 7
  {
    if 11 - TeamRedCards(e, team) > 7 then 11 - TeamRedCards(e, team) else 7
  }

  /** The team's substitution entries, in history order. */
  function TeamSubstitutions(h: seq<ScoreEvent>, team: Team): (r: seq<ScoreEvent>)
    ensures r == Filter(h, (ev: ScoreEvent) => ev.team == team && ev.eventType == Substitution)
    ensures |r| == CountWhere(h, (ev: ScoreEvent) => ev.team == team && ev.eventType == Substitution)
    ensures forall i :: 0 <= i < |r| ==> r[i] in h && r[i].team == team && r[i].eventType == Substitution
    ensures forall ev :: ev in h && ev.team == team && ev.eventType == Substitution ==> ev in r
  {
    if |h| == 0 then []
    else
      var init := TeamSubstitutions(h[..|h| - 1], team);
      var last := h[|h| - 1];
      assert h == h[..|h| - 1] + [last];
      FilterAppend(h[..|h| - 1], [last], (ev: ScoreEvent) => ev.team == team && ev.eventType == Substitution);
      assert [last][1..] == [];
      if last.team == team && last.eventType == Substitution then init + [last] else init
  }

  /** `getSubstitutions`. */
  function Substitutions(e: Engine, team: Team): (r: seq<ScoreEvent>)
    ensures r == Filter(e.history, (ev: ScoreEvent) => ev.team == team && ev.eventType == Substitution)
    ensures forall i :: 0 <= i < |r| ==> r[i] in e.history && r[i].team == team && r[i].eventType == Substitution
    ensures forall ev :: ev in e.history && ev.team == team && ev.eventType == Substitution ==> ev in r
  {
    TeamSubstitutions(e.history, team)
  }

  /** Storing one more substitution for a team lengthens its substitution list by one. */
  lemma SubstitutionAppended(e: Engine, e2: Engine, ev: ScoreEvent)
    requires e2.history == e.history + [ev] && ev.eventType == Substitution
    ensures |Substitutions(e2, ev.team)| == |Substitutions(e, ev.team)| + 1
  {
    var h := e2.history;
    assert h[..|h| - 1] == e.history;
  }

  /** `canSubstitute`: fewer than five substitutions stored for the team. */
  function CanSubstitute(e: Engine, team: Team): (b: bool)
    ensures b <==> |Substitutions(e, team)| < 5
  {
    CountWhere(e.history, (ev: ScoreEvent) => ev.team == team && ev.eventType == Substitution) < 5
  }

  /** `isGoalValid`: accepted, and not flagged offside while the offside rule is on. */
  function IsGoalValid(e: Engine, ev: ScoreEvent): (b: bool)
    requires IsFootball(e)
    ensures b <==> ev.isValid && !(e.variant.football.offsideRule && ev.metadata.isOffside)
  {
    if !ev.isValid then false
    else if e.variant.football.offsideRule && ev.metadata.isOffside then false
    else true
  }

  /** `recordOffside`: only the offside flag of the event changes. */
  function RecordOffside(ev: ScoreEvent): (r: ScoreEvent)
    ensures r.metadata.isOffside
    ensures r == ev.(metadata := r.metadata) && r.metadata == ev.metadata.(isOffside := true)
  {
    ev.(metadata := ev.metadata.(isOffside := true))
  }

  /**
   * The offside flag matters only under the offside rule: without it a goal
   * counts exactly when it was validated, flagged or not; with it a flagged
   * goal never counts and an unflagged one counts when validated.
   */
  lemma OffsideFlagEffect(e: Engine, ev: ScoreEvent)
    requires IsFootball(e)
    ensures IsGoalValid(e, ev) ==> ev.isValid
    ensures !e.variant.football.offsideRule ==> (IsGoalValid(e, RecordOffside(ev)) <==> ev.isValid)
    ensures e.variant.football.offsideRule ==> !IsGoalValid(e, RecordOffside(ev))
    ensures !ev.metadata.isOffside ==> (IsGoalValid(e, ev) <==> ev.isValid)
  {
  }

  /** Under the offside rule, flagging a goal offside makes it invalid. */
  lemma OffsideInvalidatesGoal(e: Engine, ev: ScoreEvent)
    requires IsFootball(e) && e.variant.football.offsideRule
    ensures !IsGoalValid(e, RecordOffside(ev))
  {
  }

  datatype FootballStats = FootballStats(
    goals: nat,
    goalsConceded: int,
    ownGoalsConceded: nat,
    penaltiesScored: nat,
    penaltiesMissed: nat,
    penaltyConversionRate: int,
    yellowCards: int,
    redCards: nat,
    playersOnField: int,
    remainingSubstitutions: int)

  /**
   * `getFootballStats`. Goals count GOAL and PENALTY_GOAL entries of the
   * team; own goals conceded count the OWN_GOAL entries stored for the other
   * team; goals conceded are the opponent's score only when the context's
   * sport is football; the conversion rate is in hundredths of a percent.
   */
  function Stats(e: Engine, team: Team): (s: FootballStats)
    requires IsFootball(e)
    ensures s.goals == CountWhere(e.history, (ev: ScoreEvent) => ev.team == team && (ev.eventType == Goal || ev.eventType == PenaltyGoal))
    ensures s.ownGoalsConceded == CountWhere(e.history, (ev: ScoreEvent) => ev.team != team && ev.eventType == OwnGoal)
    ensures s.goalsConceded == (if e.ctx.sport == FootballSport then e.ctx.Score(team.Opposite()) else 0)
    ensures s.penaltiesScored == CountWhere(e.history, (ev: ScoreEvent) => ev.team == team && ev.eventType == PenaltyGoal)
    ensures s.penaltiesMissed == CountWhere(e.history, (ev: ScoreEvent) => ev.team == team && ev.eventType == MissedPenalty)
    ensures s.penaltiesScored <= s.goals
    ensures s.penaltyConversionRate == Percent.RoundedPercent(s.penaltiesScored, s.penaltiesScored + s.penaltiesMissed)
    ensures 0 <= s.penaltyConversionRate <= 10000
    ensures s.penaltiesScored + s.penaltiesMissed == 0 ==> s.penaltyConversionRate == 0
    ensures s.yellowCards == TeamYellowCards(e, team)
    ensures s.redCards == TeamRedCards(e, team) && 7 <= s.playersOnField <= 11
    ensures s.playersOnField == PlayersOnField(e, team)
    ensures s.remainingSubstitutions == 5 - |Substitutions(e, team)|
    ensures s.remainingSubstitutions > 0 <==> CanSubstitute(e, team)
  {
    var scored := CountWhere(e.history, (ev: ScoreEvent) => ev.team == team && ev.eventType == PenaltyGoal);
    var missed := CountWhere(e.history, (ev: ScoreEvent) => ev.team == team && ev.eventType == MissedPenalty);
    var goalsF := (ev: ScoreEvent) => ev.team == team && (ev.eventType == Goal || ev.eventType == PenaltyGoal);
    var penF := (ev: ScoreEvent) => ev.team == team && ev.eventType == PenaltyGoal;
    forall ev | penF(ev) ensures goalsF(ev) { }
    CountWhereMono(e.history, penF, goalsF);
    FootballStats(
      CountWhere(e.history, goalsF),
      if e.ctx.sport == FootballSport then e.ctx.Score(team.Opposite()) else 0,
      CountWhere(e.history, (ev: ScoreEvent) => ev.team != team && ev.eventType == OwnGoal),
      scored,
      missed,
      Percent.RoundedPercent(scored, scored + missed),
      TeamYellowCards(e, team),
      TeamRedCards(e, team),
      PlayersOnField(e, team),
      5 - |Substitutions(e, team)|)
  }

  /**
   * A stored penalty shows in the team's statistics: a scored one adds a goal
   * and a scored penalty, a missed one adds a miss, and the other count stays.
   */
  lemma PenaltyStoredStats(e: Engine, ev: ScoreEvent)
    requires IsFootball(e) && (ev.eventType == PenaltyGoal || ev.eventType == MissedPenalty)
    ensures var before, after := Stats(e, ev.team), Stats(e.(history := e.history + [ev]), ev.team);
      && after.penaltiesScored == before.penaltiesScored + (if ev.eventType == PenaltyGoal then 1 else 0)
      && after.penaltiesMissed == before.penaltiesMissed + (if ev.eventType == MissedPenalty then 1 else 0)
      && after.goals == before.goals + (if ev.eventType == PenaltyGoal then 1 else 0)
      && after.yellowCards == before.yellowCards && after.redCards == before.redCards
  {
    var team := ev.team;
    CountWhereAppend(e.history, ev, (x: ScoreEvent) => x.team == team && x.eventType == PenaltyGoal);
    CountWhereAppend(e.history, ev, (x: ScoreEvent) => x.team == team && x.eventType == MissedPenalty);
    CountWhereAppend(e.history, ev, (x: ScoreEvent) => x.team == team && (x.eventType == Goal || x.eventType == PenaltyGoal));
    TeamRedCardsStep(e, e.(history := e.history + [ev]), ev, team);
  }
}
