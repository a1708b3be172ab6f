/**
 * Post-match analysis over a match's score events: per-team counting
 * statistics, key moments, a momentum series over sliding windows, and
 * scoring runs.
 */
module MatchAnalyzer {
  import opened Wrappers
  import opened ScoreTypes
  import opened Ordering
  import opened Sequences
  import Percent

  /** The analyser's input: the sport name, the final team scores and the events in order. */
  datatype MatchData = MatchData(sport: string, homeScore: int, awayScore: int, events: seq<ScoreEvent>)

  /** The wire name of each event type. */
  function EventTypeName(t: EventType): string {
    match t
    case FreeThrowMake => "free_throw_make"
    case FreeThrowMiss => "free_throw_miss"
    case TwoPointMake => "two_point_make"
    case TwoPointMiss => "two_point_miss"
    case ThreePointMake => "three_point_make"
    case ThreePointMiss => "three_point_miss"
    case Goal => "goal"
    case PenaltyGoal => "penalty_goal"
    case OwnGoal => "own_goal"
    case MissedPenalty => "missed_penalty"
    case Timeout => "timeout"
    case Substitution => "substitution"
    case Foul => "foul"
    case TechnicalFoul => "technical_foul"
    case FlagrantFoul => "flagrant_foul"
    case YellowCard => "yellow_card"
    case RedCard => "red_card"
  }

  /** `text.includes(pat)`: `pat` is a prefix of `text` or of one of its suffixes. */
  predicate Occurs(pat: string, text: string)
    decreases |text|
  {
    |pat| <= |text| && (pat <= text || Occurs(pat, text[1..]))
  }

  /** The event types the analyser treats as fouls: those whose name includes "foul". */
  predicate IsFoulLike(t: EventType) {
    t == Foul || t == TechnicalFoul || t == FlagrantFoul
  }

  /** A pattern found at position `i` occurs. */
  lemma {:induction false} OccursAt(pat: string, text: string, i: nat)
    requires i + |pat| <= |text| && text[i..i + |pat|] == pat
    ensures Occurs(pat, text)
    decreases i
  {
    if i > 0 {
      assert text[1..][i - 1..i - 1 + |pat|] == text[i..i + |pat|];
      OccursAt(pat, text[1..], i - 1);
    } else {
      assert pat <= text;
    }
  }

  /** A pattern whose first character does not appear does not occur. */
  lemma {:induction false} AbsentHead(pat: string, text: string)
    requires |pat| > 0 && pat[0] !in text
    ensures !Occurs(pat, text)
    decreases |text|
  {
    if |pat| <= |text| {
      assert text[0] != pat[0];
      assert pat[0] !in text[1..];
      AbsentHead(pat, text[1..]);
    }
  }

  /** The three foul types are exactly the types whose name includes "foul". */
  lemma FoulLikeByName(t: EventType)
    ensures IsFoulLike(t) <==> Occurs("foul", EventTypeName(t))
  {
    var name := EventTypeName(t);
    match t
    case Foul => OccursAt("foul", name, 0);
    case TechnicalFoul =>
      assert name[10..14] == "foul";
      OccursAt("foul", name, 10);
    case FlagrantFoul =>
      assert name[9..13] == "foul";
      OccursAt("foul", name, 9);
    case _ => NoFoulInName(t);
  }

  lemma NoFoulInName(t: EventType)
    requires !IsFoulLike(t)
    ensures !Occurs("foul", EventTypeName(t))
  {
    match t
    case FreeThrowMake => FreeThrowNames("free_throw_make");
    case FreeThrowMiss => FreeThrowNames("free_throw_miss");
    case TwoPointMake => NoFoulIn("two_point_make");
    case TwoPointMiss => NoFoulIn("two_point_miss");
    case ThreePointMake => NoFoulIn("three_point_make");
    case ThreePointMiss => NoFoulIn("three_point_miss");
    case Goal => NoFoulIn("goal");
    case PenaltyGoal => NoFoulIn("penalty_goal");
    case OwnGoal => NoFoulIn("own_goal");
    case MissedPenalty => NoFoulIn("missed_penalty");
    case Timeout => NoFoulIn("timeout");
    case Substitution => NoFoulIn("substitution");
    case YellowCard => NoFoulIn("yellow_card");
    case RedCard => NoFoulIn("red_card");
  }

  /** A name without an 'f' does not include "foul". */
  lemma NoFoulIn(name: string)
    requires 'f' !in name
    ensures !Occurs("foul", name)
  {
    AbsentHead("foul", name);
  }

  /** The free-throw names start with an 'f' that is followed by 'r', and hold no other 'f'. */
  lemma FreeThrowNames(name: string)
    requires name == "free_throw_make" || name == "free_throw_miss"
    ensures !Occurs("foul", name)
  {
    assert name[1] == 'r';
    AbsentHead("foul", name[1..]);
  }

  /** Number of events of type `t`. */
  function CountType(es: seq<ScoreEvent>, t: EventType): (n: nat)
    ensures n <= |es|
  {
    if es == [] then 0 else (if es[0].eventType == t then 1 else 0) + CountType(es[1..], t)
  }

  /** The events of one team, in order. */
  function TeamEvents(es: seq<ScoreEvent>, team: Team): (r: seq<ScoreEvent>)
    ensures r == Filter(es, (e: ScoreEvent) => e.team == team)
    ensures |r| <= |es|
    ensures forall e :: e in r <==> e in es && e.team == team
  {
    if es == [] then []
    else if es[0].team == team then [es[0]] + TeamEvents(es[1..], team)
    else TeamEvents(es[1..], team)
  }

  /** Made, attempted and the rounded percentage in hundredths. */
  datatype Shooting = Shooting(made: nat, attempted: nat, percentage: int)

  datatype TeamStats =
    | BasketballStats(fieldGoals: Shooting, threePointers: Shooting, freeThrows: Shooting, fouls: nat, timeouts: nat)
    | FootballStats(goals: nat, ownGoals: nat, yellowCards: nat, redCards: nat, penaltiesScored: nat, penaltiesMissed: nat)
    | NoStats

  /** `calculatePercentage`: zero without attempts, else 100 * made / attempted rounded to hundredths. */
  function Percentage(made: nat, attempted: nat): (p: int)
    ensures attempted == 0 ==> p == 0
    ensures made <= attempted ==> 0 <= p <= 10000
    ensures 0 < made == attempted ==> p == 10000
    ensures p == Percent.RoundedPercent(made, attempted)
  {
    var p := Percent.RoundedPercent(made, attempted);
    assert 0 < made == attempted ==> p == 10000 by {
      if 0 < made == attempted {
        Percent.AllMadeIsHundred(made);
      }
    }
    p
  }

  function ShootingOf(made: nat, missed: nat): (s: Shooting)
    ensures s.made == made && s.attempted == made + missed && s.made <= s.attempted
    ensures s.percentage == Percentage(s.made, s.attempted)
    ensures 0 <= s.percentage <= 10000
  {
    Shooting(made, made + missed, Percentage(made, made + missed))
  }

  /**
   * `calculateBasketballStats`: attempts are makes plus misses; only plain
   * `foul` events count as fouls.
   */
  function BasketballTeamStats(es: seq<ScoreEvent>): (s: TeamStats)
    ensures s.BasketballStats?
    ensures s.fieldGoals.made == CountType(es, TwoPointMake) + CountType(es, ThreePointMake)
    ensures s.fieldGoals.attempted == s.fieldGoals.made + CountType(es, TwoPointMiss) + CountType(es, ThreePointMiss)
    ensures s.threePointers.made == CountType(es, ThreePointMake)
    ensures s.threePointers.attempted == s.threePointers.made + CountType(es, ThreePointMiss)
    ensures s.freeThrows.made == CountType(es, FreeThrowMake)
    ensures s.freeThrows.attempted == s.freeThrows.made + CountType(es, FreeThrowMiss)
    ensures s.threePointers.made <= s.fieldGoals.made && s.threePointers.attempted <= s.fieldGoals.attempted
    ensures s.fieldGoals.percentage == Percentage(s.fieldGoals.made, s.fieldGoals.attempted)
    ensures s.threePointers.percentage == Percentage(s.threePointers.made, s.threePointers.attempted)
    ensures s.freeThrows.percentage == Percentage(s.freeThrows.made, s.freeThrows.attempted)
    ensures s.fouls == CountType(es, Foul) && s.timeouts == CountType(es, Timeout)
  {
    var two := CountType(es, TwoPointMake);
    var three := CountType(es, ThreePointMake);
    BasketballStats(
      ShootingOf(two + three, CountType(es, TwoPointMiss) + CountType(es, ThreePointMiss)),
      ShootingOf(three, CountType(es, ThreePointMiss)),
      ShootingOf(CountType(es, FreeThrowMake), CountType(es, FreeThrowMiss)),
      CountType(es, Foul),
      CountType(es, Timeout))
  }

  /** Events of distinct types are counted apart, so the counts of any two distinct types fit in the list. */
  lemma {:induction false} TwoCountsFit(es: seq<ScoreEvent>, a: EventType, b: EventType)
    requires a != b
    ensures CountType(es, a) + CountType(es, b) <= |es|
  {
    if es != [] {
      TwoCountsFit(es[1..], a, b);
    }
  }

  /** Every counted shot, foul and timeout is a distinct event. */
  lemma {:induction false} BasketballCountsFit(es: seq<ScoreEvent>)
    ensures var s := BasketballTeamStats(es);
      s.fieldGoals.attempted + s.freeThrows.attempted + s.fouls + s.timeouts <= |es|
  {
    if es != [] {
      BasketballCountsFit(es[1..]);
    }
  }

  /** `calculateFootballStats`: a count per event type. */
  function FootballTeamStats(es: seq<ScoreEvent>): (s: TeamStats)
    ensures s.FootballStats?
    ensures s.goals == CountType(es, Goal) && s.ownGoals == CountType(es, OwnGoal)
    ensures s.yellowCards == CountType(es, YellowCard) && s.redCards == CountType(es, RedCard)
    ensures s.penaltiesScored == CountType(es, PenaltyGoal) && s.penaltiesMissed == CountType(es, MissedPenalty)
  {
    FootballStats(CountType(es, Goal), CountType(es, OwnGoal), CountType(es, YellowCard), CountType(es, RedCard),
                  CountType(es, PenaltyGoal), CountType(es, MissedPenalty))
  }

  /** `analyzeTeamPerformance`/`calculateTeamStats`: the team's own events, by sport; nothing for other sports. */
  function TeamStatistics(d: MatchData, team: Team): (s: TeamStats)
    ensures d.sport == "basketball" ==> s == BasketballTeamStats(TeamEvents(d.events, team))
    ensures d.sport == "football" ==> s == FootballTeamStats(TeamEvents(d.events, team))
    ensures d.sport != "basketball" && d.sport != "football" ==> s == NoStats
  {
    var es := TeamEvents(d.events, team);
    if d.sport == "basketball" then BasketballTeamStats(es)
    else if d.sport == "football" then FootballTeamStats(es)
    else NoStats
  }

  // ---------------------------------------------------------------- key moments

  /** `getPeriodDuration` of the analyser, in seconds of game clock. */
  function PeriodSeconds(sport: string): (s: int)
    ensures s == (if sport == "football" then 2700 else 720)
  {
    if sport == "basketball" then 720 else if sport == "football" then 2700 else 720
  }

  /** `isCloseGame`: the final margin is at most ten, whichever event is asked about. */
  predicate IsCloseGame(d: MatchData) {
    -10 <= d.homeScore - d.awayScore <= 10
  }

  /**
   * Closeness is symmetric in the two teams and reads neither the events nor
   * the sport; a one-point change of either score moves the margin by one.
   */
  lemma CloseGameSymmetric(d: MatchData, es: seq<ScoreEvent>, sport: string)
    ensures IsCloseGame(d) <==> IsCloseGame(d.(homeScore := d.awayScore, awayScore := d.homeScore))
    ensures IsCloseGame(d) <==> IsCloseGame(d.(events := es, sport := sport))
    ensures d.homeScore == d.awayScore + 10 ==> IsCloseGame(d) && !IsCloseGame(d.(homeScore := d.homeScore + 1))
  {
  }

  /** `getTeamFouls`: foul-like events of the team over the whole match. */
  function TeamFouls(es: seq<ScoreEvent>, team: Team): (n: nat)
    ensures n <= |es|
  {
    if es == [] then 0
    else (if es[0].team == team && IsFoulLike(es[0].eventType) then 1 else 0) + TeamFouls(es[1..], team)
  }

  datatype MomentKind = GameWinningShot | ScoreMoment | CriticalFoul | FoulMoment | TimeoutMoment

  datatype KeyMoment = KeyMoment(time: int, kind: MomentKind, team: Team, impact: int)

  /** Game-clock position past 80 % of a period: `gameClock / duration * 100 > 80`. */
  predicate IsLate(gameClock: int, periodSeconds: int) {
    5 * gameClock > 4 * periodSeconds
  }

  /**
   * The moment one event makes, if any: any scoring event; else a foul-like
   * event; else a timeout. Everything else is not a moment.
   */
  function MomentOf(d: MatchData, e: ScoreEvent): (r: Option<KeyMoment>)
    ensures r.Some? <==> e.points > 0 || IsFoulLike(e.eventType) || e.eventType == Timeout
    ensures r.Some? ==> r.value.time == e.gameClock && r.value.team == e.team
    ensures r.Some? ==> r.value.impact in {1, 2, 3, 5}
    ensures r.Some? && e.points > 0 ==>
      (r.value.impact == 5 <==> IsCloseGame(d) && IsLate(e.gameClock, PeriodSeconds(d.sport)))
      && (r.value.impact == 1 <==> !IsCloseGame(d))
    ensures r.Some? && e.points <= 0 && IsFoulLike(e.eventType) ==>
      (r.value.impact == 3 <==> TeamFouls(d.events, e.team) >= 5) && r.value.impact != 5
    ensures r.Some? && e.points <= 0 && !IsFoulLike(e.eventType) ==> r.value.impact == 2
    ensures e.points > 0 && IsCloseGame(d) && IsLate(e.gameClock, PeriodSeconds(d.sport)) ==>
      r.Some? && r.value.kind == GameWinningShot && r.value.impact == 5
    ensures e.points > 0 && IsCloseGame(d) && !IsLate(e.gameClock, PeriodSeconds(d.sport)) ==>
      r.Some? && r.value.kind == ScoreMoment && r.value.impact == 3
    ensures e.points > 0 && !IsCloseGame(d) ==> r.Some? && r.value.kind == ScoreMoment && r.value.impact == 1
    ensures e.points <= 0 && IsFoulLike(e.eventType) && TeamFouls(d.events, e.team) >= 5 ==>
      r.Some? && r.value.kind == CriticalFoul && r.value.impact == 3
    ensures e.points <= 0 && IsFoulLike(e.eventType) && TeamFouls(d.events, e.team) < 5 ==>
      r.Some? && r.value.kind == FoulMoment && r.value.impact == 1
    ensures e.points <= 0 && !IsFoulLike(e.eventType) && e.eventType == Timeout ==>
      r.Some? && r.value.kind == TimeoutMoment && r.value.impact == 2
  {
    if e.points > 0 then
      if IsLate(e.gameClock, PeriodSeconds(d.sport)) && IsCloseGame(d) then Some(KeyMoment(e.gameClock, GameWinningShot, e.team, 5))
      else if IsCloseGame(d) then Some(KeyMoment(e.gameClock, ScoreMoment, e.team, 3))
      else Some(KeyMoment(e.gameClock, ScoreMoment, e.team, 1))
    else if IsFoulLike(e.eventType) then
      if TeamFouls(d.events, e.team) >= 5 then Some(KeyMoment(e.gameClock, CriticalFoul, e.team, 3))
      else Some(KeyMoment(e.gameClock, FoulMoment, e.team, 1))
    else if e.eventType == Timeout then Some(KeyMoment(e.gameClock, TimeoutMoment, e.team, 2))
    else None
  }

  /** The moments of `es` in event order. */
  function Moments(d: MatchData, es: seq<ScoreEvent>): (r: seq<KeyMoment>)
    ensures |r| <= |es|
    ensures forall m :: m in r ==> exists e :: e in es && MomentOf(d, e) == Some(m)
    ensures forall e :: e in es && MomentOf(d, e).Some? ==> MomentOf(d, e).value in r
  {
    if es == [] then []
    else
      var m := MomentOf(d, es[0]);
      var rest := Moments(d, es[1..]);
      assert forall e :: e in es[1..] ==> e in es;
      assert forall e :: e in es ==> e == es[0] || e in es[1..];
      if m.Some? then [m.value] + rest else rest
  }

  /** Holds of the events that make a moment. */
  function HasMoment(d: MatchData): ScoreEvent -> bool {
    (e: ScoreEvent) => MomentOf(d, e).Some?
  }

  /**
   * The moments are those of the events that make one, in event order and
   * one per such event: the i-th moment is the moment of the i-th such event.
   */
  lemma {:induction false} MomentsFollowEvents(d: MatchData, es: seq<ScoreEvent>)
    ensures |Moments(d, es)| == |Filter(es, HasMoment(d))|
    ensures forall i :: 0 <= i < |Moments(d, es)| ==> Some(Moments(d, es)[i]) == MomentOf(d, Filter(es, HasMoment(d))[i])
    decreases |es|
  {
    if es != [] {
      MomentsFollowEvents(d, es[1..]);
      var rest, tail := Moments(d, es[1..]), Filter(es[1..], HasMoment(d));
      if MomentOf(d, es[0]).Some? {
        assert Moments(d, es) == [MomentOf(d, es[0]).value] + rest;
        assert Filter(es, HasMoment(d)) == [es[0]] + tail;
      } else {
        assert Moments(d, es) == rest;
        assert Filter(es, HasMoment(d)) == tail;
      }
    }
  }

  const MaxKeyMoments: nat := 20

  function Impact(m: KeyMoment): int { m.impact }

  /** `identifyKeyMoments`: the moments by impact, highest first, at most twenty. */
  function KeyMoments(d: MatchData): (r: seq<KeyMoment>)
    ensures |r| <= MaxKeyMoments
    ensures SortedDesc(r, Impact)
    ensures forall m :: m in r ==> m.impact in {1, 2, 3, 5} && exists e :: e in d.events && MomentOf(d, e) == Some(m)
    ensures |Moments(d, d.events)| <= MaxKeyMoments ==> multiset(r) == multiset(Moments(d, d.events))
  {
    var sorted := SortDesc(Moments(d, d.events), Impact);
    SortKeepsElements(Moments(d, d.events), Impact);
    TakeSorted(sorted, MaxKeyMoments, Impact);
    var r := Take(sorted, MaxKeyMoments);
    assert forall m :: m in r ==> m in sorted by {
      forall m | m in r ensures m in sorted {
        var k :| 0 <= k < |r| && r[k] == m;
        assert sorted[k] == m;
      }
    }
    r
  }

  /**
   * Moments of equal impact keep their event order, and of each impact the
   * earliest moments are the ones kept: all of them when there are at most twenty.
   */
  lemma KeyMomentsKeepEventOrder(d: MatchData, k: int)
    ensures Filter(KeyMoments(d), SameKey(Impact, k)) <= Filter(Moments(d, d.events), SameKey(Impact, k))
    ensures |Moments(d, d.events)| <= MaxKeyMoments ==>
      Filter(KeyMoments(d), SameKey(Impact, k)) == Filter(Moments(d, d.events), SameKey(Impact, k))
  {
    var sorted := SortDesc(Moments(d, d.events), Impact);
    SortDescStable(Moments(d, d.events), Impact, k);
    FilterPrefix(Take(sorted, MaxKeyMoments), sorted, SameKey(Impact, k));
  }

  /**
   * Closeness is judged on the final score, so it colours every scoring event
   * alike: in a close game each one is worth at least 3, otherwise exactly 1.
   */
  lemma ClosenessIsWholeMatch(d: MatchData, e: ScoreEvent)
    requires e.points > 0
    ensures IsCloseGame(d) ==> MomentOf(d, e).value.impact >= 3
    ensures !IsCloseGame(d) ==> MomentOf(d, e).value.impact == 1 && MomentOf(d, e).value.kind == ScoreMoment
  {
  }

  /**
   * Foul criticality counts the team's fouls over the whole match, so once a
   * team commits five, even its first foul is reported as critical.
   */
  lemma FoulCriticalityIsWholeMatch(d: MatchData, i: nat)
    requires i < |d.events| && d.events[i].points <= 0 && IsFoulLike(d.events[i].eventType)
    requires TeamFouls(d.events, d.events[i].team) >= 5
    ensures MomentOf(d, d.events[i]).value.kind == CriticalFoul
  {
  }

  // ---------------------------------------------------------------- momentum

  const WindowSize: nat := 5

  /** One momentum point, stamped with the index of the event whose timestamp the source uses. */
  datatype MomentumPoint = MomentumPoint(at: nat, value: int)

  /** Home points minus away points. */
  function Margin(es: seq<ScoreEvent>): int {
    if es == [] then 0
    else Margin(es[..|es| - 1]) + (if es[|es| - 1].team == Home then es[|es| - 1].points else -es[|es| - 1].points)
  }

  lemma {:induction false} MarginIsDifference(es: seq<ScoreEvent>)
    ensures Margin(es) == TeamPoints(es, Home) - TeamPoints(es, Away)
  {
    if es != [] {
      MarginIsDifference(es[..|es| - 1]);
    }
  }

  lemma {:induction false} MarginAppend(a: seq<ScoreEvent>, b: seq<ScoreEvent>)
    ensures Margin(a + b) == Margin(a) + Margin(b)
    decreases |b|
  {
    if b != [] {
      var b0 := b[..|b| - 1];
      assert (a + b)[..|a + b| - 1] == a + b0;
      MarginAppend(a, b0);
    } else {
      assert a + b == a;
    }
  }

  /** The points for window ending before event `i`, for `i` from `from` to the end. */
  function MomentumFrom(es: seq<ScoreEvent>, from: nat): (r: seq<MomentumPoint>)
    requires from >= WindowSize
    decreases |es| - from
    ensures |r| == if from < |es| then |es| - from else 0
    ensures forall k :: 0 <= k < |r| ==>
      var i := from + k;
      r[k].at == i && r[k].value == TeamPoints(es[i - WindowSize..i], Home) - TeamPoints(es[i - WindowSize..i], Away)
  {
    if from >= |es| then []
    else
      MarginIsDifference(es[from - WindowSize..from]);
      [MomentumPoint(from, Margin(es[from - WindowSize..from]))] + MomentumFrom(es, from + 1)
  }

  /**
   * `calculateMomentum`: one point per event from the sixth on, each the
   * home-minus-away points of the five events before it. The window that
   * ends at the last event is never reported.
   */
  function Momentum(es: seq<ScoreEvent>): (r: seq<MomentumPoint>)
    ensures |r| == if |es| > WindowSize then |es| - WindowSize else 0
    ensures forall k :: 0 <= k < |r| ==>
      r[k].value == TeamPoints(es[k..k + WindowSize], Home) - TeamPoints(es[k..k + WindowSize], Away)
  {
    MomentumFrom(es, WindowSize)
  }

  /**
   * Consecutive momentum values differ by the event entering the window
   * less the event leaving it.
   */
  lemma MomentumSlides(es: seq<ScoreEvent>, k: nat)
    requires k + 1 < |Momentum(es)|
    ensures Momentum(es)[k + 1].value == Momentum(es)[k].value - Margin([es[k]]) + Margin([es[k + WindowSize]])
  {
    var w0 := es[k..k + WindowSize];
    var w1 := es[k + 1..k + 1 + WindowSize];
    assert w0 == [es[k]] + es[k + 1..k + WindowSize];
    assert w1 == es[k + 1..k + WindowSize] + [es[k + WindowSize]];
    MarginAppend([es[k]], es[k + 1..k + WindowSize]);
    MarginAppend(es[k + 1..k + WindowSize], [es[k + WindowSize]]);
    MarginIsDifference(w0);
    MarginIsDifference(w1);
  }

  // ---------------------------------------------------------------- scoring runs

  const RunThreshold: int := 8

  /** A scoring run: `start` and `end` are game clocks, `duration` is `start - end`. */
  datatype Run = Run(team: Team, start: int, end: int, points: int, duration: int)

  function StartRun(e: ScoreEvent): Run {
    Run(e.team, e.gameClock, e.gameClock, e.points, 0)
  }

  function ExtendRun(r: Run, e: ScoreEvent): Run {
    r.(end := e.gameClock, points := r.points + e.points, duration := r.start - e.gameClock)
  }

  predicate WellFormed(r: Run) {
    r.points > 0 && r.duration == r.start - r.end
  }

  /**
   * Reference: every maximal block of consecutive scoring events of one team,
   * in order, whatever its points; `cur` is the block still open.
   */
  function Blocks(es: seq<ScoreEvent>, cur: Option<Run>): (r: seq<Run>)
    requires cur.Some? ==> WellFormed(cur.value)
    ensures forall i :: 0 <= i < |r| ==> WellFormed(r[i])
    ensures forall i :: 0 <= i < |r| - 1 ==> r[i].team != r[i + 1].team
    ensures cur.Some? ==> |r| > 0 && r[0].team == cur.value.team && r[0].start == cur.value.start
    ensures cur.None? && r != [] ==> exists e :: e in es && e.points > 0 && r[0].team == e.team
  {
    if es == [] then (if cur.Some? then [cur.value] else [])
    else
      var e := es[0];
      if e.points <= 0 then
        var r := Blocks(es[1..], cur);
        assert cur.None? && r != [] ==> exists e :: e in es[1..] && e.points > 0 && r[0].team == e.team;
        assert forall x :: x in es[1..] ==> x in es;
        r
      else if cur.None? then Blocks(es[1..], Some(StartRun(e)))
      else if cur.value.team == e.team then Blocks(es[1..], Some(ExtendRun(cur.value, e)))
      else [cur.value] + Blocks(es[1..], Some(StartRun(e)))
  }

  /** The points scored by positive-point events. */
  function ScoredPoints(es: seq<ScoreEvent>): int {
    if es == [] then 0 else (if es[0].points > 0 then es[0].points else 0) + ScoredPoints(es[1..])
  }

  function RunPoints(rs: seq<Run>): int {
    if rs == [] then 0 else rs[0].points + RunPoints(rs[1..])
  }

  /** The blocks share out exactly the points scored: none lost, none counted twice. */
  lemma {:induction false} BlocksConservePoints(es: seq<ScoreEvent>, cur: Option<Run>)
    requires cur.Some? ==> WellFormed(cur.value)
    ensures RunPoints(Blocks(es, cur)) == ScoredPoints(es) + (if cur.Some? then cur.value.points else 0)
  {
    if es != [] {
      var e := es[0];
      if e.points <= 0 {
        BlocksConservePoints(es[1..], cur);
      } else if cur.None? {
        BlocksConservePoints(es[1..], Some(StartRun(e)));
      } else if cur.value.team == e.team {
        BlocksConservePoints(es[1..], Some(ExtendRun(cur.value, e)));
      } else {
        BlocksConservePoints(es[1..], Some(StartRun(e)));
      }
    }
  }

  /** Keeps the runs of at least `RunThreshold` points, in order. */
  function Significant(rs: seq<Run>): (r: seq<Run>)
    ensures r == Filter(rs, (x: Run) => x.points >= RunThreshold)
    ensures forall x :: x in r <==> x in rs && x.points >= RunThreshold
  {
    if rs == [] then []
    else if rs[0].points >= RunThreshold then [rs[0]] + Significant(rs[1..])
    else Significant(rs[1..])
  }

  /** The run fold as written: a finished run is kept only if it reached the threshold. */
  function CollectRuns(es: seq<ScoreEvent>, cur: Option<Run>): (r: seq<Run>)
    ensures forall i :: 0 <= i < |r| ==> r[i].points >= RunThreshold
    ensures |r| <= |es| + 1
    ensures cur.None? && (forall e :: e in es ==> e.points <= 0) ==> r == []
  {
    if es == [] then (if cur.Some? && cur.value.points >= RunThreshold then [cur.value] else [])
    else
      var e := es[0];
      if e.points <= 0 then CollectRuns(es[1..], cur)
      else if cur.None? then CollectRuns(es[1..], Some(StartRun(e)))
      else if cur.value.team == e.team then CollectRuns(es[1..], Some(ExtendRun(cur.value, e)))
      else (if cur.value.points >= RunThreshold then [cur.value] else []) + CollectRuns(es[1..], Some(StartRun(e)))
  }

  /** The fold keeps exactly the significant maximal blocks. */
  lemma {:induction false} CollectIsSignificantBlocks(es: seq<ScoreEvent>, cur: Option<Run>)
    requires cur.Some? ==> WellFormed(cur.value)
    ensures CollectRuns(es, cur) == Significant(Blocks(es, cur))
  {
    if es != [] {
      var e := es[0];
      if e.points <= 0 {
        CollectIsSignificantBlocks(es[1..], cur);
      } else if cur.None? {
        CollectIsSignificantBlocks(es[1..], Some(StartRun(e)));
      } else if cur.value.team == e.team {
        CollectIsSignificantBlocks(es[1..], Some(ExtendRun(cur.value, e)));
      } else {
        CollectIsSignificantBlocks(es[1..], Some(StartRun(e)));
      }
    }
  }

  function RunSize(r: Run): int { r.points }

  /** `identifyScoringRuns`: the significant runs, largest first. */
  function ScoringRuns(es: seq<ScoreEvent>): (r: seq<Run>)
    ensures SortedDesc(r, RunSize)
    ensures multiset(r) == multiset(Significant(Blocks(es, None)))
    ensures forall x :: x in r <==> x in Blocks(es, None) && x.points >= RunThreshold
    ensures forall x :: x in r ==> x.points >= RunThreshold && x.duration == x.start - x.end
  {
    CollectIsSignificantBlocks(es, None);
    SortKeepsElements(CollectRuns(es, None), RunSize);
    SortDesc(CollectRuns(es, None), RunSize)
  }

  /** The fold over two scoring events of one team closes a single run. */
  lemma TwoEventsOneBlock(e1: ScoreEvent, e2: ScoreEvent)
    requires e1.team == e2.team && e1.points > 0 && e2.points > 0 && e1.points + e2.points >= RunThreshold
    ensures CollectRuns([e1, e2], None) == [ExtendRun(StartRun(e1), e2)]
  {
    assert [e1, e2][1..] == [e2];
    var run := ExtendRun(StartRun(e1), e2);
    assert CollectRuns([e2], Some(StartRun(e1))) == CollectRuns([], Some(run));
  }

  /** A single team scoring eight or more with no opposing score in between is one run. */
  lemma OneTeamOneRun(e1: ScoreEvent, e2: ScoreEvent)
    requires e1.team == e2.team && e1.points > 0 && e2.points > 0 && e1.points + e2.points >= RunThreshold
    ensures ScoringRuns([e1, e2]) == [Run(e1.team, e1.gameClock, e2.gameClock, e1.points + e2.points, e1.gameClock - e2.gameClock)]
  {
    var run := ExtendRun(StartRun(e1), e2);
    assert run == Run(e1.team, e1.gameClock, e2.gameClock, e1.points + e2.points, e1.gameClock - e2.gameClock);
    TwoEventsOneBlock(e1, e2);
    SortSingleton(run, RunSize);
  }

  // ---------------------------------------------------------------- the whole analysis

  datatype MatchAnalytics = MatchAnalytics(
    home: TeamStats,
    away: TeamStats,
    keyMoments: seq<KeyMoment>,
    momentum: seq<MomentumPoint>,
    scoringRuns: seq<Run>)

  /** `analyzeMatch`. */
  function AnalyzeMatch(d: MatchData): (r: MatchAnalytics)
    ensures r.home == TeamStatistics(d, Home) && r.away == TeamStatistics(d, Away)
    ensures r.keyMoments == KeyMoments(d) && r.momentum == Momentum(d.events) && r.scoringRuns == ScoringRuns(d.events)
    ensures |r.keyMoments| <= MaxKeyMoments && SortedDesc(r.keyMoments, Impact)
    ensures |r.momentum| == if |d.events| > WindowSize then |d.events| - WindowSize else 0
    ensures SortedDesc(r.scoringRuns, RunSize)
  {
    MatchAnalytics(TeamStatistics(d, Home), TeamStatistics(d, Away), KeyMoments(d), Momentum(d.events), ScoringRuns(d.events))
  }

  /** Moments read the final score only through closeness. */
  lemma {:induction false} MomentsSameCloseness(d: MatchData, d2: MatchData, es: seq<ScoreEvent>)
    requires d2.sport == d.sport && d2.events == d.events && IsCloseGame(d2) == IsCloseGame(d)
    ensures Moments(d2, es) == Moments(d, es)
    decreases |es|
  {
    if es != [] {
      assert MomentOf(d2, es[0]) == MomentOf(d, es[0]);
      MomentsSameCloseness(d, d2, es[1..]);
    }
  }

  /**
   * The final score enters the analysis only through whether the game was
   * close: any other pair of scores on the same side of the ten-point margin
   * gives the same analysis.
   */
  lemma AnalysisReadsScoreOnlyThroughCloseness(d: MatchData, h: int, a: int)
    requires IsCloseGame(d.(homeScore := h, awayScore := a)) == IsCloseGame(d)
    ensures AnalyzeMatch(d.(homeScore := h, awayScore := a)) == AnalyzeMatch(d)
  {
    var d2 := d.(homeScore := h, awayScore := a);
    MomentsSameCloseness(d, d2, d.events);
    assert KeyMoments(d2) == KeyMoments(d);
  }
}
