/**
 * The sport-agnostic engine: validation against a rule table, score
 * application, the valid-event history with undo, the history summary,
 * context merge and reset. Sport variants reuse every operation here;
 * football replaces only the event application (see module Football).
 */
module ScoreEngine {
  import opened Wrappers
  import opened ScoreTypes
  import opened RuleTables

  /** A fresh engine: empty history and violations, the caller's context. */
  function NewEngine(v: Variant, ctx: MatchContext): (e: Engine)
    ensures e.variant == v && e.ctx == ctx
    ensures e.history == [] && e.violations == [] && e.nextId == 0
  {
    Engine(v, ctx, [], [], 0)
  }

  /** The event a draft becomes before validation: a fresh id, not yet valid, no error. */
  function FullEvent(e: Engine, d: Draft): (ev: ScoreEvent)
    ensures ev.id == e.nextId && !ev.isValid && ev.validationError.None?
    ensures ev.team == d.team && ev.eventType == d.eventType && ev.points == d.points
    ensures ev.playerId == d.playerId && ev.period == d.period && ev.metadata == d.metadata
  {
    ScoreEvent(e.nextId, d.matchId, d.team, d.eventType, d.points, d.playerId,
               d.period, d.gameClock, d.shotClock, false, None, d.metadata)
  }

  /**
   * Validation in the source's order: missing rule, the EVENT's period, the
   * player requirement, then the rule's own predicate. `requiresShotClock`
   * is never consulted.
   */
  function ValidateWith(table: seq<Rule>, ev: ScoreEvent, ctx: MatchContext, v: Variant): (r: ValidationResult)
    ensures FindRule(table, ev.eventType).None? ==> r == Invalid(UnsupportedEventType(ev.eventType))
    ensures FindRule(table, ev.eventType).Some? ==>
      var rule := FindRule(table, ev.eventType).value;
      && (ev.period !in rule.allowedPeriods ==> r == Invalid(PeriodNotAllowed))
      && (ev.period in rule.allowedPeriods && rule.requiresPlayer && !HasPlayer(ev.playerId) ==>
            r == Invalid(PlayerRequired))
      && (r.Valid? ==> ev.period in rule.allowedPeriods && (rule.requiresPlayer ==> HasPlayer(ev.playerId)))
  {
    match FindRule(table, ev.eventType)
    case None => Invalid(UnsupportedEventType(ev.eventType))
    case Some(rule) =>
      if ev.period !in rule.allowedPeriods then Invalid(PeriodNotAllowed)
      else if rule.requiresPlayer && !HasPlayer(ev.playerId) then Invalid(PlayerRequired)
      else RunCheck(rule.check, ev, ctx, v)
  }

  function Validate(e: Engine, ev: ScoreEvent): ValidationResult {
    ValidateWith(TableOf(e.variant), ev, e.ctx, e.variant)
  }

  /** The same rule with its `requiresShotClock` flag flipped. */
  function Flip(r: Rule): (f: Rule)
    ensures f.requiresShotClock != r.requiresShotClock
    ensures f == r.(requiresShotClock := f.requiresShotClock)
  {
    r.(requiresShotClock := !r.requiresShotClock)
  }

  /** The table with every `requiresShotClock` flag flipped. */
  function FlipShotClockFlags(table: seq<Rule>): (t: seq<Rule>)
    ensures |t| == |table|
    ensures forall i :: 0 <= i < |t| ==> t[i] == Flip(table[i])
  {
    if |table| == 0 then [] else [Flip(table[0])] + FlipShotClockFlags(table[1..])
  }

  lemma {:induction false} FindRuleFlipped(table: seq<Rule>, t: EventType)
    ensures FindRule(table, t).None? ==> FindRule(FlipShotClockFlags(table), t).None?
    ensures FindRule(table, t).Some? ==> FindRule(FlipShotClockFlags(table), t) == Some(Flip(FindRule(table, t).value))
    decreases |table|
  {
    if |table| > 0 {
      var flipped := FlipShotClockFlags(table);
      assert flipped[0] == Flip(table[0]);
      assert flipped[1..] == FlipShotClockFlags(table[1..]);
      if table[0].eventType != t {
        FindRuleFlipped(table[1..], t);
      }
    }
  }

  /** The `requiresShotClock` column of a rule table has no effect on validation. */
  lemma ShotClockFlagIgnored(table: seq<Rule>, ev: ScoreEvent, ctx: MatchContext, v: Variant)
    ensures ValidateWith(FlipShotClockFlags(table), ev, ctx, v) == ValidateWith(table, ev, ctx, v)
  {
    FindRuleFlipped(table, ev.eventType);
  }

  /** Validation reads the event's own period, never the context's current period. */
  lemma ContextPeriodIgnored(table: seq<Rule>, ev: ScoreEvent, ctx: MatchContext, v: Variant, p: int)
    ensures ValidateWith(table, ev, ctx.(currentPeriod := p), v) == ValidateWith(table, ev, ctx, v)
  {
  }

  /** Index of the first period-score entry for period `p`, if any. */
  function FindPeriod(ps: seq<PeriodScore>, p: int): (r: Option<nat>)
    ensures r.Some? ==>
      r.value < |ps| && ps[r.value].period == p && forall j :: 0 <= j < r.value ==> ps[j].period != p
    ensures r.None? ==> forall j :: 0 <= j < |ps| ==> ps[j].period != p
  {
    if |ps| == 0 then None
    else if ps[0].period == p then Some(0)
    else match FindPeriod(ps[1..], p)
      case None => None
      case Some(i) => Some(i + 1)
  }

  /** Adds `points` to side `t` of the entry for `period`, creating the entry when absent. */
  function AddPeriodPoints(ps: seq<PeriodScore>, period: int, t: Team, points: int): (r: seq<PeriodScore>)
    ensures FindPeriod(ps, period).Some? ==>
      var i := FindPeriod(ps, period).value;
      && |r| == |ps|
      && r[i].period == period
      && r[i].home == ps[i].home + (if t == Home then points else 0)
      && r[i].away == ps[i].away + (if t == Away then points else 0)
      && forall j :: 0 <= j < |ps| && j != i ==> r[j] == ps[j]
    ensures FindPeriod(ps, period).None? ==>
      r == ps + [PeriodScore(period, if t == Home then points else 0, if t == Away then points else 0)]
  {
    match FindPeriod(ps, period)
    case None =>
      ps + [PeriodScore(period, if t == Home then points else 0, if t == Away then points else 0)]
    case Some(i) =>
      var old_ := ps[i];
      ps[i := if t == Home then old_.(home := old_.home + points) else old_.(away := old_.away + points)]
  }

  /** `updateScore`: the event's points go to its team's total and its period's entry. */
  function UpdateScore(ctx: MatchContext, ev: ScoreEvent): (r: MatchContext)
    ensures r.Score(ev.team) == ctx.Score(ev.team) + ev.points
    ensures r.Score(ev.team.Opposite()) == ctx.Score(ev.team.Opposite())
    ensures r.periodScores == AddPeriodPoints(ctx.periodScores, ev.period, ev.team, ev.points)
    ensures r == ctx.(homeScore := r.homeScore, awayScore := r.awayScore, periodScores := r.periodScores)
  {
    var c := if ev.team == Home then ctx.(homeScore := ctx.homeScore + ev.points)
             else ctx.(awayScore := ctx.awayScore + ev.points);
    c.(periodScores := AddPeriodPoints(ctx.periodScores, ev.period, ev.team, ev.points))
  }

  /** What `addScoreEvent` returns: the engine after the call and the event it built. */
  datatype Added = Added(engine: Engine, event: ScoreEvent)

  /** The validated event: validity and error copied from the validation result; warnings dropped. */
  function Validated(e: Engine, d: Draft): (ev: ScoreEvent)
    ensures ev == FullEvent(e, d).(isValid := ev.isValid, validationError := ev.validationError)
    ensures ev.isValid <==> Validate(e, FullEvent(e, d)).Valid?
    ensures !ev.isValid ==> ev.validationError == Some(Validate(e, FullEvent(e, d)).error)
    ensures ev.isValid ==> ev.validationError.None?
  {
    var full := FullEvent(e, d);
    match Validate(e, full)
    case Valid(_) => full.(isValid := true)
    case Invalid(err) => full.(validationError := Some(err))
  }

  /** The base `addScoreEvent`: only a valid event changes the context and enters the history. */
  function AddEvent(e: Engine, d: Draft): (r: Added)
    ensures r.event == Validated(e, d) && r.event.id == e.nextId
    ensures r.engine.nextId == e.nextId + 1
    ensures r.engine.variant == e.variant && r.engine.violations == e.violations
    ensures !r.event.isValid ==> r.engine.ctx == e.ctx && r.engine.history == e.history
    ensures r.event.isValid ==>
      && r.engine.history == e.history + [r.event]
      && r.engine.ctx == UpdateScore(e.ctx, r.event)
  {
    var ev := Validated(e, d);
    var e1 := e.(nextId := e.nextId + 1);
    if ev.isValid then Added(e1.(ctx := UpdateScore(e.ctx, ev), history := e.history + [ev]), ev)
    else Added(e1, ev)
  }

  /** Index of the first history entry with identity `id`, if any. */
  function FindEvent(h: seq<ScoreEvent>, id: EventId): (r: Option<nat>)
    ensures r.Some? ==>
      r.value < |h| && h[r.value].id == id && forall j :: 0 <= j < r.value ==> h[j].id != id
    ensures r.None? <==> forall j :: 0 <= j < |h| ==> h[j].id != id
  {
    if |h| == 0 then None
    else if h[0].id == id then Some(0)
    else match FindEvent(h[1..], id)
      case None =>
        assert forall j :: 1 <= j < |h| ==> h[j] == h[1..][j - 1];
        None
      case Some(i) => Some(i + 1)
  }

  /** What `undoEvent` returns: the engine after the call and the success flag. */
  datatype Undone = Undone(engine: Engine, ok: bool)

  /**
   * `undoEvent`: an unknown id changes nothing and fails; a known id takes the
   * entry's points off its stored team and removes exactly that entry.
   * Per-period scores are not rolled back.
   */
  function Undo(e: Engine, id: EventId): (r: Undone)
    ensures FindEvent(e.history, id).None? ==> r == Undone(e, false)
    ensures FindEvent(e.history, id).Some? ==>
      var i := FindEvent(e.history, id).value;
      var ev := e.history[i];
      && r.ok
      && r.engine.history == e.history[..i] + e.history[i + 1..]
      && r.engine.ctx.Score(ev.team) == e.ctx.Score(ev.team) - ev.points
      && r.engine.ctx.Score(ev.team.Opposite()) == e.ctx.Score(ev.team.Opposite())
      && r.engine.ctx.periodScores == e.ctx.periodScores
      && r.engine == e.(ctx := r.engine.ctx, history := r.engine.history)
      && r.engine.ctx == e.ctx.(homeScore := r.engine.ctx.homeScore, awayScore := r.engine.ctx.awayScore)
  {
    match FindEvent(e.history, id)
    case None => Undone(e, false)
    case Some(i) =>
      var ev := e.history[i];
      var ctx := if ev.team == Home then e.ctx.(homeScore := e.ctx.homeScore - ev.points)
                 else e.ctx.(awayScore := e.ctx.awayScore - ev.points);
      Undone(e.(ctx := ctx, history := e.history[..i] + e.history[i + 1..]), true)
  }

  /** One row of the per-period summary. */
  datatype PeriodCount = PeriodCount(period: int, homeEvents: nat, awayEvents: nat)

  /** One row of the per-type summary. */
  datatype TypeCount = TypeCount(eventType: EventType, count: nat)

  datatype HistorySummary = HistorySummary(
    sport: SportEngine,
    events: seq<ScoreEvent>,
    totalEvents: nat,
    byPeriod: seq<PeriodCount>,
    byType: seq<TypeCount>)

  /** Counts `ev` into the row of its period, appending a row on first sight. */
  function BumpPeriod(bp: seq<PeriodCount>, ev: ScoreEvent): seq<PeriodCount> {
    if |bp| == 0 then [PeriodCount(ev.period, if ev.team == Home then 1 else 0, if ev.team == Away then 1 else 0)]
    else if bp[0].period == ev.period then
      [if ev.team == Home then bp[0].(homeEvents := bp[0].homeEvents + 1)
       else bp[0].(awayEvents := bp[0].awayEvents + 1)] + bp[1..]
    else [bp[0]] + BumpPeriod(bp[1..], ev)
  }

  /** Counts `ev` into the row of its type, appending a row on first sight. */
  function BumpType(bt: seq<TypeCount>, t: EventType): seq<TypeCount> {
    if |bt| == 0 then [TypeCount(t, 1)]
    else if bt[0].eventType == t then [bt[0].(count := bt[0].count + 1)] + bt[1..]
    else [bt[0]] + BumpType(bt[1..], t)
  }

  /** The per-period rows after folding `h` in order. */
  function ByPeriod(h: seq<ScoreEvent>): seq<PeriodCount> {
    if |h| == 0 then [] else BumpPeriod(ByPeriod(h[..|h| - 1]), h[|h| - 1])
  }

  /** The per-type rows after folding `h` in order. */
  function ByType(h: seq<ScoreEvent>): seq<TypeCount> {
    if |h| == 0 then [] else BumpType(ByType(h[..|h| - 1]), h[|h| - 1].eventType)
  }

  function SumPeriodRows(bp: seq<PeriodCount>): nat {
    if |bp| == 0 then 0 else bp[0].homeEvents + bp[0].awayEvents + SumPeriodRows(bp[1..])
  }

  function SumTypeRows(bt: seq<TypeCount>): nat {
    if |bt| == 0 then 0 else bt[0].count + SumTypeRows(bt[1..])
  }

  /** The home/away counts of the first row for period `p`, or zeros. */
  function PeriodRow(bp: seq<PeriodCount>, p: int): (nat, nat) {
    if |bp| == 0 then (0, 0)
    else if bp[0].period == p then (bp[0].homeEvents, bp[0].awayEvents)
    else PeriodRow(bp[1..], p)
  }

  /** The count of the first row for type `t`, or zero. */
  function TypeRow(bt: seq<TypeCount>, t: EventType): nat {
    if |bt| == 0 then 0
    else if bt[0].eventType == t then bt[0].count
    else TypeRow(bt[1..], t)
  }

  /** No two rows share a period: the rows behave as a map keyed by period. */
  predicate DistinctPeriods(bp: seq<PeriodCount>) {
    |bp| == 0 || (!HasPeriodRow(bp[1..], bp[0].period) && DistinctPeriods(bp[1..]))
  }

  predicate HasPeriodRow(bp: seq<PeriodCount>, p: int) {
    |bp| > 0 && (bp[0].period == p || HasPeriodRow(bp[1..], p))
  }

  /** No two rows share an event type. */
  predicate DistinctTypes(bt: seq<TypeCount>) {
    |bt| == 0 || (!HasTypeRow(bt[1..], bt[0].eventType) && DistinctTypes(bt[1..]))
  }

  predicate HasTypeRow(bt: seq<TypeCount>, t: EventType) {
    |bt| > 0 && (bt[0].eventType == t || HasTypeRow(bt[1..], t))
  }

  lemma {:induction false} BumpPeriodRows(bp: seq<PeriodCount>, ev: ScoreEvent, p: int)
    ensures HasPeriodRow(BumpPeriod(bp, ev), p) <==> HasPeriodRow(bp, p) || p == ev.period
    ensures PeriodRow(BumpPeriod(bp, ev), p).0
         == PeriodRow(bp, p).0 + (if ev.period == p && ev.team == Home then 1 else 0)
    ensures PeriodRow(BumpPeriod(bp, ev), p).1
         == PeriodRow(bp, p).1 + (if ev.period == p && ev.team == Away then 1 else 0)
    decreases |bp|
  {
    var r := BumpPeriod(bp, ev);
    if |bp| == 0 {
    } else if bp[0].period == ev.period {
      assert r[1..] == bp[1..];
    } else {
      BumpPeriodRows(bp[1..], ev, p);
      assert r[1..] == BumpPeriod(bp[1..], ev);
    }
  }

  lemma {:induction false} BumpPeriodShape(bp: seq<PeriodCount>, ev: ScoreEvent)
    requires DistinctPeriods(bp)
    ensures DistinctPeriods(BumpPeriod(bp, ev))
    ensures SumPeriodRows(BumpPeriod(bp, ev)) == SumPeriodRows(bp) + 1
    decreases |bp|
  {
    var r := BumpPeriod(bp, ev);
    if |bp| == 0 {
    } else if bp[0].period == ev.period {
      assert r[1..] == bp[1..];
    } else {
      BumpPeriodShape(bp[1..], ev);
      BumpPeriodRows(bp[1..], ev, bp[0].period);
      assert r[1..] == BumpPeriod(bp[1..], ev);
    }
  }

  lemma {:induction false} BumpTypeHas(bt: seq<TypeCount>, t: EventType, u: EventType)
    ensures HasTypeRow(BumpType(bt, t), u) <==> HasTypeRow(bt, u) || u == t
    decreases |bt|
  {
    var r := BumpType(bt, t);
    if |bt| > 0 && bt[0].eventType != t {
      BumpTypeHas(bt[1..], t, u);
      assert r[1..] == BumpType(bt[1..], t);
    } else if |bt| > 0 {
      assert r[1..] == bt[1..];
    }
  }

  lemma {:induction false} BumpTypeRows(bt: seq<TypeCount>, t: EventType, u: EventType)
    ensures TypeRow(BumpType(bt, t), u) == TypeRow(bt, u) + (if t == u then 1 else 0)
    decreases |bt|
  {
    var r := BumpType(bt, t);
    if |bt| > 0 && bt[0].eventType != t {
      BumpTypeRows(bt[1..], t, u);
      assert r[1..] == BumpType(bt[1..], t);
    } else if |bt| > 0 {
      assert r[1..] == bt[1..];
    }
  }

  lemma {:induction false} BumpTypeShape(bt: seq<TypeCount>, t: EventType)
    requires DistinctTypes(bt)
    ensures DistinctTypes(BumpType(bt, t))
    ensures SumTypeRows(BumpType(bt, t)) == SumTypeRows(bt) + 1
    decreases |bt|
  {
    var r := BumpType(bt, t);
    if |bt| == 0 {
    } else if bt[0].eventType == t {
      assert r[1..] == bt[1..];
    } else {
      BumpTypeShape(bt[1..], t);
      BumpTypeHas(bt[1..], t, bt[0].eventType);
      assert r[1..] == BumpType(bt[1..], t);
    }
  }

  /**
   * `getScoreHistory`: the summary is a map (one row per period, one per
   * type) whose rows count every stored event exactly once, per period and
   * side and per type, and a period has a row exactly when some event has it.
   */
  lemma {:induction false} SummaryCounts(h: seq<ScoreEvent>, p: int, t: EventType)
    ensures DistinctPeriods(ByPeriod(h)) && DistinctTypes(ByType(h))
    ensures SumPeriodRows(ByPeriod(h)) == |h|
    ensures SumTypeRows(ByType(h)) == |h|
    ensures PeriodRow(ByPeriod(h), p).0 == CountWhere(h, (ev: ScoreEvent) => ev.period == p && ev.team == Home)
    ensures PeriodRow(ByPeriod(h), p).1 == CountWhere(h, (ev: ScoreEvent) => ev.period == p && ev.team == Away)
    ensures TypeRow(ByType(h), t) == CountWhere(h, (ev: ScoreEvent) => ev.eventType == t)
    ensures HasPeriodRow(ByPeriod(h), p) <==> CountWhere(h, (ev: ScoreEvent) => ev.period == p) > 0
    decreases |h|
  {
    if |h| > 0 {
      var init := h[..|h| - 1];
      var last := h[|h| - 1];
      SummaryCounts(init, p, t);
      BumpPeriodRows(ByPeriod(init), last, p);
      BumpPeriodShape(ByPeriod(init), last);
      BumpTypeRows(ByType(init), last.eventType, t);
      BumpTypeShape(ByType(init), last.eventType);
    }
  }

  function GetScoreHistory(e: Engine): (s: HistorySummary)
    ensures s.events == e.history && s.totalEvents == |e.history|
    ensures SumPeriodRows(s.byPeriod) == s.totalEvents && SumTypeRows(s.byType) == s.totalEvents
    ensures s.byPeriod == ByPeriod(e.history) && s.byType == ByType(e.history)
  {
    SummaryCounts(e.history, 0, Foul);
    HistorySummary(e.ctx.sport, e.history, |e.history|, ByPeriod(e.history), ByType(e.history))
  }

  /** A partial context: `Some` fields replace, `None` fields keep. */
  datatype ContextUpdate = ContextUpdate(
    sport: Option<SportEngine>,
    currentPeriod: Option<int>,
    periodDuration: Option<int>,
    gameClock: Option<int>,
    shotClock: Option<Option<int>>,
    isOvertime: Option<bool>,
    homeScore: Option<int>,
    awayScore: Option<int>,
    homeFouls: Option<int>,
    awayFouls: Option<int>,
    homeTimeouts: Option<int>,
    awayTimeouts: Option<int>,
    periodScores: Option<seq<PeriodScore>>)

  const NoUpdate := ContextUpdate(None, None, None, None, None, None, None, None, None, None, None, None, None)

  /** `updateMatchContext`: an unchecked shallow merge (it can overwrite scores). */
  function UpdateMatchContext(e: Engine, u: ContextUpdate): (r: Engine)
    ensures r == e.(ctx := r.ctx)
    ensures Overridden(u.sport, e.ctx.sport, r.ctx.sport)
    ensures Overridden(u.currentPeriod, e.ctx.currentPeriod, r.ctx.currentPeriod)
    ensures Overridden(u.periodDuration, e.ctx.periodDuration, r.ctx.periodDuration)
    ensures Overridden(u.gameClock, e.ctx.gameClock, r.ctx.gameClock)
    ensures Overridden(u.shotClock, e.ctx.shotClock, r.ctx.shotClock)
    ensures Overridden(u.isOvertime, e.ctx.isOvertime, r.ctx.isOvertime)
    ensures Overridden(u.homeScore, e.ctx.homeScore, r.ctx.homeScore)
    ensures Overridden(u.awayScore, e.ctx.awayScore, r.ctx.awayScore)
    ensures Overridden(u.homeFouls, e.ctx.homeFouls, r.ctx.homeFouls)
    ensures Overridden(u.awayFouls, e.ctx.awayFouls, r.ctx.awayFouls)
    ensures Overridden(u.homeTimeouts, e.ctx.homeTimeouts, r.ctx.homeTimeouts)
    ensures Overridden(u.awayTimeouts, e.ctx.awayTimeouts, r.ctx.awayTimeouts)
    ensures Overridden(u.periodScores, e.ctx.periodScores, r.ctx.periodScores)
    ensures u == NoUpdate ==> r == e
  {
    var c := e.ctx;
    e.(ctx := MatchContext(
      u.sport.GetOr(c.sport),
      u.currentPeriod.GetOr(c.currentPeriod),
      u.periodDuration.GetOr(c.periodDuration),
      u.gameClock.GetOr(c.gameClock),
      u.shotClock.GetOr(c.shotClock),
      u.isOvertime.GetOr(c.isOvertime),
      u.homeScore.GetOr(c.homeScore),
      u.awayScore.GetOr(c.awayScore),
      u.homeFouls.GetOr(c.homeFouls),
      u.awayFouls.GetOr(c.awayFouls),
      u.homeTimeouts.GetOr(c.homeTimeouts),
      u.awayTimeouts.GetOr(c.awayTimeouts),
      u.periodScores.GetOr(c.periodScores)))
  }

  /** `addViolation`: appended in call order. */
  function AddViolation(e: Engine, v: RuleViolation): (r: Engine)
    ensures r.violations == e.violations + [v]
    ensures r == e.(violations := r.violations)
  {
    e.(violations := e.violations + [v])
  }

  /**
   * `reset`: history and violations emptied, both scores and the period scores
   * zeroed; fouls, timeouts, period, the id counter and the sport variant
   * (so also football's yellow-card counters) are kept.
   */
  function Reset(e: Engine): (r: Engine)
    ensures r.history == [] && r.violations == []
    ensures r.ctx.homeScore == 0 && r.ctx.awayScore == 0 && r.ctx.periodScores == []
    ensures r.variant == e.variant && r.nextId == e.nextId
    ensures r.ctx == e.ctx.(homeScore := 0, awayScore := 0, periodScores := [])
  {
    e.(history := [], violations := [], ctx := e.ctx.(homeScore := 0, awayScore := 0, periodScores := []))
  }
}
