/**
 * Properties relating several engine operations: the scores track the
 * stored history, event ids stay fresh and distinct, undo inverts add (but
 * not on the per-period scores), and the behaviours the engines have as
 * written where their tests or comments promise otherwise.
 */
module EngineInvariants {
  import opened Wrappers
  import opened ScoreTypes
  import opened RuleTables
  import opened ScoreEngine
  import opened Engines
  import Basketball
  import Football

  /** Each team's score is its baseline plus the points of its stored entries. */
  predicate ScoresTrackHistory(e: Engine, baseHome: int, baseAway: int) {
    && e.ctx.homeScore == baseHome + TeamPoints(e.history, Home)
    && e.ctx.awayScore == baseAway + TeamPoints(e.history, Away)
  }

  /** Stored ids are below the counter and pairwise distinct. */
  predicate IdsFresh(e: Engine) {
    && (forall i :: 0 <= i < |e.history| ==> e.history[i].id < e.nextId)
    && (forall i, j :: 0 <= i < j < |e.history| ==> e.history[i].id != e.history[j].id)
  }

  /** Appending a stored entry and crediting it to the same team keeps the scores in step. */
  lemma StoreAndScore(e: Engine, e2: Engine, ev: ScoreEvent, bh: int, ba: int)
    requires ScoresTrackHistory(e, bh, ba)
    requires e2.history == e.history + [ev]
    requires e2.ctx.Score(ev.team) == e.ctx.Score(ev.team) + ev.points
    requires e2.ctx.Score(ev.team.Opposite()) == e.ctx.Score(ev.team.Opposite())
    ensures ScoresTrackHistory(e2, bh, ba)
  {
    TeamPointsAppend(e.history, ev, Home);
    TeamPointsAppend(e.history, ev, Away);
  }

  /** A valid basketball event is stored and scored for its own team. */
  lemma AddKeepsScoresBasketball(e: Engine, d: Draft, bh: int, ba: int)
    requires e.variant.BasketballEngine? && ScoresTrackHistory(e, bh, ba)
    ensures ScoresTrackHistory(ScoreEngine.AddEvent(e, d).engine, bh, ba)
  {
    var r := ScoreEngine.AddEvent(e, d);
    if r.event.isValid {
      StoreAndScore(e, r.engine, r.event, bh, ba);
    }
  }

  /** Appending nothing, or one zero-point entry, without touching the context keeps the scores in step. */
  lemma StoreZeroPoints(e: Engine, e2: Engine, ev: ScoreEvent, bh: int, ba: int)
    requires ScoresTrackHistory(e, bh, ba)
    requires e2.history == e.history || e2.history == e.history + [ev]
    requires ev.points == 0 && e2.ctx == e.ctx
    ensures ScoresTrackHistory(e2, bh, ba)
  {
    TeamPointsAppend(e.history, ev, Home);
    TeamPointsAppend(e.history, ev, Away);
  }

  /** A yellow card stores at most a zero-point red card and scores nothing. */
  lemma YellowKeepsScores(e: Engine, d: Draft, bh: int, ba: int)
    requires e.variant.FootballEngine? && ScoresTrackHistory(e, bh, ba) && d.eventType == YellowCard
    ensures ScoresTrackHistory(Football.AddEvent(e, d).engine, bh, ba)
  {
    var r := Football.AddEvent(e, d);
    Football.YellowCardEffect(e, d);
    StoreZeroPoints(e, r.engine, Football.SecondYellowRedCard(r.event, e.nextId + 1), bh, ba);
  }

  /** Any other valid football event with non-negative points is stored under the team it is scored for. */
  lemma OtherKeepsScores(e: Engine, d: Draft, bh: int, ba: int)
    requires e.variant.FootballEngine? && ScoresTrackHistory(e, bh, ba) && d.eventType != YellowCard
    requires d.points >= 0
    ensures ScoresTrackHistory(Football.AddEvent(e, d).engine, bh, ba)
  {
    var r := Football.AddEvent(e, d);
    if r.event.isValid {
      if d.eventType == OwnGoal {
        StoreAndScore(e, r.engine, r.event.(metadata := r.event.metadata.(isOwnGoal := true)), bh, ba);
      } else {
        StoreAndScore(e, r.engine, r.event, bh, ba);
      }
    }
  }

  /**
   * `addScoreEvent` keeps every score equal to its baseline plus the stored
   * points. The football engine needs non-negative draft points: it stores a
   * negative-point event without scoring it.
   */
  lemma AddKeepsScores(e: Engine, d: Draft, bh: int, ba: int)
    requires ScoresTrackHistory(e, bh, ba)
    requires e.variant.FootballEngine? ==> d.points >= 0
    ensures ScoresTrackHistory(AddScoreEvent(e, d).engine, bh, ba)
  {
    if e.variant.BasketballEngine? {
      AddKeepsScoresBasketball(e, d, bh, ba);
    } else if d.eventType == YellowCard {
      YellowKeepsScores(e, d, bh, ba);
    } else {
      OtherKeepsScores(e, d, bh, ba);
    }
  }

  /** `undoEvent` keeps every score equal to its baseline plus the stored points. */
  lemma UndoKeepsScores(e: Engine, id: EventId, bh: int, ba: int)
    requires ScoresTrackHistory(e, bh, ba)
    ensures ScoresTrackHistory(Undo(e, id).engine, bh, ba)
  {
    if FindEvent(e.history, id).Some? {
      var i := FindEvent(e.history, id).value;
      TeamPointsRemove(e.history, i, Home);
      TeamPointsRemove(e.history, i, Away);
    }
  }

  /** After `reset` the scores equal the stored points with a zero baseline. */
  lemma ResetTracksHistory(e: Engine)
    ensures ScoresTrackHistory(Reset(e), 0, 0)
  {
  }

  /** Appending entries whose ids are new, distinct and below the new counter keeps ids fresh. */
  lemma AppendKeepsIdsFresh(e: Engine, e2: Engine, tail: seq<ScoreEvent>)
    requires IdsFresh(e) && e2.nextId >= e.nextId
    requires e2.history == e.history + tail
    requires forall i :: 0 <= i < |tail| ==> e.nextId <= tail[i].id < e2.nextId
    requires forall i, j :: 0 <= i < j < |tail| ==> tail[i].id != tail[j].id
    ensures IdsFresh(e2)
  {
    var h, h2 := e.history, e2.history;
    forall a | 0 <= a < |h2| ensures h2[a].id < e2.nextId {
      if a < |h| { assert h2[a] == h[a]; } else { assert h2[a] == tail[a - |h|]; }
    }
    forall a, b | 0 <= a < b < |h2| ensures h2[a].id != h2[b].id {
      if b < |h| {
        assert h2[a] == h[a] && h2[b] == h[b];
      } else if a < |h| {
        assert h2[a] == h[a] && h2[b] == tail[b - |h|];
      } else {
        assert h2[a] == tail[a - |h|] && h2[b] == tail[b - |h|];
      }
    }
  }

  /** `addScoreEvent` keeps ids fresh: the event and any generated red card take new ids. */
  lemma AddKeepsIds(e: Engine, d: Draft)
    requires IdsFresh(e)
    ensures IdsFresh(AddScoreEvent(e, d).engine)
  {
    if e.variant.FootballEngine? {
      FootballAddKeepsIds(e, d);
    } else {
      var r := ScoreEngine.AddEvent(e, d);
      if r.event.isValid {
        AppendKeepsIdsFresh(e, r.engine, [r.event]);
      } else {
        AppendKeepsIdsFresh(e, r.engine, []);
      }
    }
  }

  lemma FootballAddKeepsIds(e: Engine, d: Draft)
    requires IdsFresh(e) && e.variant.FootballEngine?
    ensures IdsFresh(Football.AddEvent(e, d).engine)
  {
    var r := Football.AddEvent(e, d);
    if d.eventType == YellowCard {
      Football.YellowCardEffect(e, d);
    }
    StoredCasesKeepIds(e, r.engine, r.event);
  }

  /** The shapes a football `addScoreEvent` leaves the history in all keep ids fresh. */
  lemma StoredCasesKeepIds(e: Engine, e2: Engine, ev: ScoreEvent)
    requires IdsFresh(e) && ev.id == e.nextId && e2.nextId > e.nextId
    requires || e2.history == e.history
             || e2.history == e.history + [ev]
             || e2.history == e.history + [ev.(metadata := ev.metadata.(isOwnGoal := true))]
             || (e2.history == e.history + [Football.SecondYellowRedCard(ev, e.nextId + 1)] && e2.nextId == e.nextId + 2)
    ensures IdsFresh(e2)
  {
    if e2.history == e.history {
      AppendKeepsIdsFresh(e, e2, []);
    } else if e2.history == e.history + [ev] {
      AppendKeepsIdsFresh(e, e2, [ev]);
    } else if e2.history == e.history + [ev.(metadata := ev.metadata.(isOwnGoal := true))] {
      AppendKeepsIdsFresh(e, e2, [ev.(metadata := ev.metadata.(isOwnGoal := true))]);
    } else {
      AppendKeepsIdsFresh(e, e2, [Football.SecondYellowRedCard(ev, e.nextId + 1)]);
    }
  }

  /** `undoEvent` keeps ids fresh: it only removes an entry. */
  lemma UndoKeepsIds(e: Engine, id: EventId)
    requires IdsFresh(e)
    ensures IdsFresh(Undo(e, id).engine)
  {
    if FindEvent(e.history, id).Some? {
      var i := FindEvent(e.history, id).value;
      var h := e.history;
      var h2 := h[..i] + h[i + 1..];
      forall a, b | 0 <= a < b < |h2| ensures h2[a].id != h2[b].id {
        var a0 := if a < i then a else a + 1;
        var b0 := if b < i then b else b + 1;
        assert h2[a] == h[a0] && h2[b] == h[b0];
      }
      forall a | 0 <= a < |h2| ensures h2[a].id < e.nextId {
        assert h2[a] == h[if a < i then a else a + 1];
      }
    }
  }

  /** Locating an entry appended with an id no earlier entry has. */
  lemma FindAppended(h: seq<ScoreEvent>, ev: ScoreEvent)
    requires forall i :: 0 <= i < |h| ==> h[i].id != ev.id
    ensures FindEvent(h + [ev], ev.id) == Some(|h|)
  {
    var h2 := h + [ev];
    assert h2[|h|].id == ev.id;
    assert forall j :: 0 <= j < |h| ==> h2[j] == h[j];
  }

  /**
   * Undoing the event just added to a basketball engine restores the
   * history and both scores, but the per-period scores keep its points.
   */
  lemma AddThenUndo(e: Engine, d: Draft)
    requires e.variant.BasketballEngine? && IdsFresh(e)
    requires AddScoreEvent(e, d).event.isValid
    ensures var a := AddScoreEvent(e, d);
      var u := Undo(a.engine, a.event.id);
      && u.ok
      && u.engine.history == e.history
      && u.engine.ctx.homeScore == e.ctx.homeScore && u.engine.ctx.awayScore == e.ctx.awayScore
      && u.engine.ctx.periodScores == AddPeriodPoints(e.ctx.periodScores, d.period, d.team, d.points)
  {
    var a := AddScoreEvent(e, d);
    FindAppended(e.history, a.event);
    var h := e.history + [a.event];
    assert h[..|e.history|] + h[|e.history| + 1..] == e.history;
  }

  /** The per-period scores are not rolled back: any non-zero event leaves a trace after add-then-undo. */
  lemma UndoLeavesPeriodScores(e: Engine, d: Draft)
    requires e.variant.BasketballEngine? && IdsFresh(e)
    requires AddScoreEvent(e, d).event.isValid && d.points != 0
    ensures var a := AddScoreEvent(e, d);
      Undo(a.engine, a.event.id).engine.ctx.periodScores != e.ctx.periodScores
  {
    AddThenUndo(e, d);
    var ps := e.ctx.periodScores;
    var r := AddPeriodPoints(ps, d.period, d.team, d.points);
    match FindPeriod(ps, d.period)
    case Some(i) =>
      if d.team == Home {
        assert r[i].home != ps[i].home;
      } else {
        assert r[i].away != ps[i].away;
      }
    case None =>
      assert |r| == |ps| + 1;
  }

  /** A football yellow card is never stored, so its id cannot be undone. */
  lemma YellowCardNotUndoable(e: Engine, d: Draft)
    requires e.variant.FootballEngine? && IdsFresh(e) && d.eventType == YellowCard
    ensures var a := AddScoreEvent(e, d);
      !Undo(a.engine, a.event.id).ok
  {
    var a := Football.AddEvent(e, d);
    Football.YellowCardEffect(e, d);
    var h := a.engine.history;
    if h != e.history {
      var red := Football.SecondYellowRedCard(a.event, e.nextId + 1);
      forall i | 0 <= i < |h| ensures h[i].id != e.nextId {
        if i < |e.history| { assert h[i] == e.history[i]; } else { assert h[i] == red; }
      }
    }
  }

  /** A basketball free throw without a shot-clock value is rejected. */
  lemma FreeThrowNeedsShotClock(e: Engine, d: Draft)
    requires e.variant.BasketballEngine?
    requires d.eventType == FreeThrowMake || d.eventType == FreeThrowMiss
    requires d.shotClock.None?
    ensures !AddScoreEvent(e, d).event.isValid
    ensures AddScoreEvent(e, d).engine.history == e.history && AddScoreEvent(e, d).engine.ctx == e.ctx
  {
    FreeThrowRule(d.eventType);
    assert !Validated(e, d).isValid;
  }

  /** The basketball table's free-throw rules: any period, player required, shot-clock check. */
  lemma FreeThrowRule(t: EventType)
    requires t == FreeThrowMake || t == FreeThrowMiss
    ensures FindRule(BasketballTable(), t) == Some(Rule(t, if t == FreeThrowMake then 1 else 0, true, false, AllPeriods, FreeThrowShotClock))
  {
    var table := BasketballTable();
    if t == FreeThrowMiss {
      assert table[0].eventType != FreeThrowMiss;
      assert FindRule(table, FreeThrowMiss) == FindRule(table[1..], FreeThrowMiss);
    }
  }

  /** Operations a client can issue against an engine between two score reads. */
  datatype Op =
    | AddOp(draft: Draft)
    | UndoOp(id: EventId)
    | FoulOp(team: Team)
    | TimeoutOp(team: Team)
    | ShotClockOp
    | ViolationOp(violation: RuleViolation)
    | ContextOp(update: ContextUpdate)
    | ResetOp

  /** One operation; the basketball-only ones leave a football engine alone. */
  function Apply(e: Engine, op: Op): (r: Engine)
    ensures r.variant.BasketballEngine? == e.variant.BasketballEngine?
    ensures r.nextId >= e.nextId
    ensures !op.AddOp? && !op.UndoOp? && !op.ResetOp? ==> r.history == e.history && r.nextId == e.nextId
    ensures op.ResetOp? ==> r == Reset(e)
    ensures op.ContextOp? ==> r == UpdateMatchContext(e, op.update)
  {
    match op
    case AddOp(d) => AddScoreEvent(e, d).engine
    case UndoOp(id) => Undo(e, id).engine
    case FoulOp(t) => if e.variant.BasketballEngine? then Basketball.RecordFoul(e, t, None) else e
    case TimeoutOp(t) => if e.variant.BasketballEngine? then Basketball.RecordTimeout(e, t) else e
    case ShotClockOp => if e.variant.BasketballEngine? then Basketball.ResetShotClock(e, None) else e
    case ViolationOp(v) => AddViolation(e, v)
    case ContextOp(u) => UpdateMatchContext(e, u)
    case ResetOp => Reset(e)
  }

  /** A pair of score baselines, one per team. */
  datatype Baselines = Baselines(home: int, away: int)

  /**
   * The baselines after one operation: a reset zeroes them, and a context
   * update that writes a score moves that team's baseline to the written
   * score less the points stored for the team; nothing else moves them.
   */
  function Rebase(e: Engine, op: Op, b: Baselines): (r: Baselines)
    ensures !op.ResetOp? && !(op.ContextOp? && (op.update.homeScore.Some? || op.update.awayScore.Some?)) ==> r == b
  {
    match op
    case ResetOp => Baselines(0, 0)
    case ContextOp(u) =>
      Baselines(if u.homeScore.Some? then u.homeScore.value - TeamPoints(e.history, Home) else b.home,
                if u.awayScore.Some? then u.awayScore.value - TeamPoints(e.history, Away) else b.away)
    case _ => b
  }

  /** The baselines after a sequence of operations, following `Run`. */
  function RunBases(e: Engine, ops: seq<Op>, b: Baselines): Baselines
    decreases |ops|
  {
    if |ops| == 0 then b else RunBases(Apply(e, ops[0]), ops[1..], Rebase(e, ops[0], b))
  }

  /** Operations that neither reset the engine nor write a score. */
  predicate KeepsBaselines(ops: seq<Op>) {
    forall i :: 0 <= i < |ops| ==>
      !ops[i].ResetOp? && !(ops[i].ContextOp? && (ops[i].update.homeScore.Some? || ops[i].update.awayScore.Some?))
  }

  /** Without resets or score writes the baselines never move. */
  lemma {:induction false} KeptBaselines(e: Engine, ops: seq<Op>, b: Baselines)
    requires KeepsBaselines(ops)
    ensures RunBases(e, ops, b) == b
    decreases |ops|
  {
    if |ops| > 0 {
      assert forall i :: 0 <= i < |ops[1..]| ==> ops[1..][i] == ops[i + 1];
      KeptBaselines(Apply(e, ops[0]), ops[1..], b);
    }
  }

  /**
   * A context update that writes a team's score breaks the tracking from the
   * old baseline whenever the written score differs from what the history gives.
   */
  lemma ScoreWriteBreaksTracking(e: Engine, u: ContextUpdate, bh: int, ba: int)
    requires ScoresTrackHistory(e, bh, ba)
    requires u.homeScore.Some? && u.homeScore.value != e.ctx.homeScore
    ensures !ScoresTrackHistory(UpdateMatchContext(e, u), bh, ba)
    ensures ScoresTrackHistory(UpdateMatchContext(e, u), u.homeScore.value - TeamPoints(e.history, Home),
                               Rebase(e, ContextOp(u), Baselines(bh, ba)).away)
  {
  }

  function Run(e: Engine, ops: seq<Op>): (r: Engine)
    ensures r.variant.BasketballEngine? == e.variant.BasketballEngine?
    decreases |ops|
  {
    if |ops| == 0 then e else Run(Apply(e, ops[0]), ops[1..])
  }

  /** Football drafts carry non-negative points (as every caller builds them). */
  predicate NonNegativeDrafts(ops: seq<Op>) {
    forall i :: 0 <= i < |ops| && ops[i].AddOp? ==> ops[i].draft.points >= 0
  }

  /**
   * Over any sequence of operations, each score stays its baseline plus the
   * points of the entries stored for that team, where the baselines move
   * only at a reset or a score write (`Rebase`); stored ids stay fresh and
   * distinct throughout.
   */
  lemma {:induction false} RunKeepsInvariants(e: Engine, ops: seq<Op>, bh: int, ba: int)
    requires ScoresTrackHistory(e, bh, ba) && IdsFresh(e)
    requires e.variant.FootballEngine? ==> NonNegativeDrafts(ops)
    ensures var b := RunBases(e, ops, Baselines(bh, ba));
      ScoresTrackHistory(Run(e, ops), b.home, b.away)
    ensures IdsFresh(Run(e, ops))
    ensures KeepsBaselines(ops) ==> ScoresTrackHistory(Run(e, ops), bh, ba)
    decreases |ops|
  {
    if |ops| > 0 {
      var e1 := Apply(e, ops[0]);
      var b1 := Rebase(e, ops[0], Baselines(bh, ba));
      StepKeepsInvariants(e, ops[0], bh, ba);
      if e.variant.FootballEngine? {
        forall i | 0 <= i < |ops[1..]| && ops[1..][i].AddOp? ensures ops[1..][i].draft.points >= 0 {
          assert ops[1..][i] == ops[i + 1];
        }
      }
      RunKeepsInvariants(e1, ops[1..], b1.home, b1.away);
      if KeepsBaselines(ops) {
        KeptBaselines(e, ops, Baselines(bh, ba));
      }
    }
  }

  /** One operation keeps both invariants, against the baselines `Rebase` gives. */
  lemma StepKeepsInvariants(e: Engine, op: Op, bh: int, ba: int)
    requires ScoresTrackHistory(e, bh, ba) && IdsFresh(e)
    requires e.variant.FootballEngine? && op.AddOp? ==> op.draft.points >= 0
    ensures var b := Rebase(e, op, Baselines(bh, ba));
      ScoresTrackHistory(Apply(e, op), b.home, b.away)
    ensures IdsFresh(Apply(e, op))
  {
    match op {
      case AddOp(d) =>
        AddKeepsScores(e, d, bh, ba);
        AddKeepsIds(e, d);
      case UndoOp(id) =>
        UndoKeepsScores(e, id, bh, ba);
        UndoKeepsIds(e, id);
      case ResetOp =>
        ResetTracksHistory(e);
      case _ =>
    }
  }

  /**
   * A football engine stores a valid non-card, non-own-goal event with
   * negative points without scoring it, so the scores stop matching the
   * stored points.
   */
  lemma NegativePointsBreakFootball(e: Engine, d: Draft, bh: int, ba: int)
    requires e.variant.FootballEngine? && ScoresTrackHistory(e, bh, ba)
    requires d.eventType != YellowCard && d.eventType != OwnGoal && d.points < 0
    requires Football.AddEvent(e, d).event.isValid
    ensures !ScoresTrackHistory(Football.AddEvent(e, d).engine, bh, ba)
  {
    var r := Football.AddEvent(e, d);
    TeamPointsAppend(e.history, r.event, d.team);
    assert r.event.team == d.team;
  }

  /** The football table's substitution rule: periods 1 to 4, player required, always valid. */
  lemma FootballSubstitutionRule()
    ensures FindRule(FootballTable(), Substitution) == Some(Rule(Substitution, 0, true, false, RegulationPeriods, AlwaysValid))
  {
    var table := FootballTable();
    assert table[0].eventType != Substitution && table[1].eventType != Substitution;
    assert table[2].eventType != Substitution && table[3].eventType != Substitution;
    assert table[4].eventType != Substitution && table[5].eventType != Substitution;
    assert FindRule(table, Substitution) == FindRule(table[6..], Substitution);
  }

  /** Such an event exists: a substitution by a named player in period 1, with points -1. */
  lemma NegativeSubstitutionAccepted(e: Engine, player: string)
    requires e.variant.FootballEngine? && player != ""
    ensures Football.AddEvent(e, Draft("m", Home, Substitution, -1, Some(player), 1, 0, None, NoMetadata)).event.isValid
  {
    var d := Draft("m", Home, Substitution, -1, Some(player), 1, 0, None, NoMetadata);
    FootballSubstitutionRule();
    assert RegulationPeriods[0] == 1;
    assert Validated(e, d).isValid;
  }

  /**
   * A `shotClockDuration` override changes the rules but not the clock the
   * engine starts with: the statistics report the context's clock until the
   * first full reset, which then uses the override.
   */
  lemma ShotClockOverrideOnlyOnReset(ctx: MatchContext, o: RuleOverrides, team: Team)
    requires o.shotClockDuration.Some?
    ensures var e := CreateBasketballEngine(ctx, o);
      && Basketball.Stats(e, team).shotClock == ctx.shotClock
      && Basketball.Stats(Basketball.ResetShotClock(e, None), team).shotClock == Some(o.shotClockDuration.value)
  {
  }

  /**
   * The substitution limit is reported but not enforced: a team that may no
   * longer substitute still has a further substitution accepted and stored,
   * and its remaining count drops below zero.
   */
  lemma SubstitutionLimitNotEnforced(e: Engine, player: string)
    requires e.variant.FootballEngine? && player != "" && !Football.CanSubstitute(e, Home)
    ensures var r := Football.AddEvent(e, Draft("m", Home, Substitution, 0, Some(player), 1, 0, None, NoMetadata));
      && r.event.isValid
      && r.engine.history == e.history + [r.event]
      && Football.Stats(r.engine, Home).remainingSubstitutions == Football.Stats(e, Home).remainingSubstitutions - 1 < 0
  {
    var d := Draft("m", Home, Substitution, 0, Some(player), 1, 0, None, NoMetadata);
    FootballSubstitutionRule();
    assert RegulationPeriods[0] == 1;
    assert Validated(e, d).isValid;
    var r := Football.AddEvent(e, d);
    Football.SubstitutionAppended(e, r.engine, r.event);
  }
}
