/**
 * The integer parts of the analytics engine: win/loss/streak statistics over
 * a team's match list, and the in-memory metric store with its time-series
 * registrations.
 */
module AnalyticsEngine {
  import opened Wrappers

  // ---------------------------------------------------------------- team statistics

  /** A match's `result`; any value other than win, loss or draw is counted nowhere. */
  datatype MatchResult = Win | Loss | Draw | Unrecorded

  datatype TeamMatch = TeamMatch(teamId: string, teamName: string, result: MatchResult, points: int, isHome: bool)

  /** The counting fields of `TeamStatistics` (win rate and average are left out). */
  datatype TeamStatistics = TeamStatistics(
    teamId: string,
    teamName: string,
    totalMatches: nat,
    wins: nat,
    losses: nat,
    draws: nat,
    totalPoints: int,
    homeWins: nat,
    awayWins: nat,
    currentStreak: int,
    longestWinStreak: nat)

  datatype StatsError = NoMatches

  function CountResult(ms: seq<TeamMatch>, r: MatchResult): (n: nat)
    ensures n <= |ms|
  {
    if ms == [] then 0 else (if ms[0].result == r then 1 else 0) + CountResult(ms[1..], r)
  }

  /** Wins at home (`home`) or away (`!home`). */
  function CountWinsWhere(ms: seq<TeamMatch>, home: bool): nat {
    if ms == [] then 0 else (if ms[0].result == Win && ms[0].isHome == home then 1 else 0) + CountWinsWhere(ms[1..], home)
  }

  function SumPoints(ms: seq<TeamMatch>): int {
    if ms == [] then 0 else ms[0].points + SumPoints(ms[1..])
  }

  /** Home and away wins share out the wins. */
  lemma {:induction false} HomeAwaySplit(ms: seq<TeamMatch>)
    ensures CountWinsWhere(ms, true) + CountWinsWhere(ms, false) == CountResult(ms, Win)
  {
    if ms != [] {
      HomeAwaySplit(ms[1..]);
    }
  }

  /** Wins, losses and draws together never exceed the list, and fill it when every result is recorded. */
  lemma {:induction false} ResultsPartition(ms: seq<TeamMatch>)
    ensures CountResult(ms, Win) + CountResult(ms, Loss) + CountResult(ms, Draw) + CountResult(ms, Unrecorded) == |ms|
  {
    if ms != [] {
      ResultsPartition(ms[1..]);
    }
  }

  /** Reference: the number of `counted` results before the first `stop` result. */
  function LeadCount(ms: seq<TeamMatch>, counted: MatchResult, stop: MatchResult): (n: nat)
    ensures n <= CountResult(ms, counted)
  {
    if ms == [] || ms[0].result == stop then 0
    else (if ms[0].result == counted then 1 else 0) + LeadCount(ms[1..], counted, stop)
  }

  /** The first win or loss, skipping draws and unrecorded results. */
  function FirstDecided(ms: seq<TeamMatch>): (r: Option<MatchResult>)
    ensures r.Some? ==> r.value == Win || r.value == Loss
  {
    if ms == [] then None
    else if ms[0].result == Win || ms[0].result == Loss then Some(ms[0].result)
    else FirstDecided(ms[1..])
  }

  /**
   * Reference: the signed length of the streak at the front of the list —
   * the wins before the first loss if a win comes first, minus the losses
   * before the first win if a loss comes first, zero with neither.
   */
  function LeadingStreak(ms: seq<TeamMatch>): int {
    match FirstDecided(ms)
    case Some(Win) => LeadCount(ms, Win, Loss)
    case Some(_) => -(LeadCount(ms, Loss, Win) as int)
    case None => 0
  }

  /** Reference: the most wins in any stretch free of losses, read one starting point at a time. */
  function LongestWinRun(ms: seq<TeamMatch>): (n: nat)
    ensures ms != [] ==> n >= LeadCount(ms, Win, Loss)
  {
    if ms == [] then 0
    else
      var here := LeadCount(ms, Win, Loss);
      var later := LongestWinRun(ms[1..]);
      if here >= later then here else later
  }

  /** Until the first decided result, nothing has been counted on either side. */
  lemma {:induction false} LeadCountsBeforeFirstDecided(ms: seq<TeamMatch>)
    ensures FirstDecided(ms) != Some(Win) ==> LeadCount(ms, Win, Loss) == 0
    ensures FirstDecided(ms) != Some(Loss) ==> LeadCount(ms, Loss, Win) == 0
  {
    if ms != [] && ms[0].result != Win && ms[0].result != Loss {
      LeadCountsBeforeFirstDecided(ms[1..]);
    }
  }

  /** The source's streak update for one more match, read towards the front of the list. */
  function StreakStep(r: MatchResult, current: int): int {
    if r == Win then (if current >= 0 then current + 1 else 1)
    else if r == Loss then (if current <= 0 then current - 1 else -1)
    else current
  }

  /** Putting a match in front of a list moves its leading streak by the source's update. */
  lemma StreakStepIsLeading(m: TeamMatch, ms: seq<TeamMatch>)
    ensures LeadingStreak([m] + ms) == StreakStep(m.result, LeadingStreak(ms))
  {
    var s := [m] + ms;
    assert s[1..] == ms;
    LeadCountsBeforeFirstDecided(ms);
  }

  /**
   * `calculateTeamStatistics`: fails on an empty list; otherwise counts,
   * sums and the two streaks, scanning from the last match to the first.
   */
  method CalculateTeamStatistics(ms: seq<TeamMatch>) returns (r: Result<TeamStatistics, StatsError>)
    ensures r.Err? <==> ms == []
    ensures r.Ok? ==>
      && r.value.teamId == ms[0].teamId && r.value.teamName == ms[0].teamName
      && r.value.totalMatches == |ms|
      && r.value.wins == CountResult(ms, Win) && r.value.losses == CountResult(ms, Loss)
      && r.value.draws == CountResult(ms, Draw)
      && r.value.totalPoints == SumPoints(ms)
      && r.value.homeWins == CountWinsWhere(ms, true) && r.value.awayWins == CountWinsWhere(ms, false)
      && r.value.homeWins + r.value.awayWins == r.value.wins
      && r.value.currentStreak == LeadingStreak(ms)
      && r.value.longestWinStreak == LongestWinRun(ms)
  {
    if |ms| == 0 {
      return Err(NoMatches);
    }
    var current := 0;
    var longest := 0;
    var temp := 0;
    var i := |ms|;
    while i > 0
      invariant 0 <= i <= |ms|
      invariant current == LeadingStreak(ms[i..])
      invariant temp == LeadCount(ms[i..], Win, Loss)
      invariant longest == LongestWinRun(ms[i..])
    {
      i := i - 1;
      assert ms[i..] == [ms[i]] + ms[i + 1..];
      assert ms[i..][1..] == ms[i + 1..];
      StreakStepIsLeading(ms[i], ms[i + 1..]);
      if ms[i].result == Win {
        if current >= 0 {
          current := current + 1;
        } else {
          current := 1;
        }
        temp := temp + 1;
        if temp > longest {
          longest := temp;
        }
      } else if ms[i].result == Loss {
        if current <= 0 {
          current := current - 1;
        } else {
          current := -1;
        }
        temp := 0;
      }
    }
    assert ms[0..] == ms;
    HomeAwaySplit(ms);
    r := Ok(TeamStatistics(ms[0].teamId, ms[0].teamName, |ms|, CountResult(ms, Win), CountResult(ms, Loss),
                           CountResult(ms, Draw), SumPoints(ms), CountWinsWhere(ms, true), CountWinsWhere(ms, false),
                           current, longest));
  }

  /** No loss among the matches. */
  predicate NoLoss(ms: seq<TeamMatch>) {
    forall k :: 0 <= k < |ms| ==> ms[k].result != Loss
  }

  /** A loss-free stretch from the front holds no more wins than the leading count. */
  lemma {:induction false} PrefixWithinLead(ms: seq<TeamMatch>, j: nat)
    requires j <= |ms| && NoLoss(ms[..j])
    ensures CountResult(ms[..j], Win) <= LeadCount(ms, Win, Loss)
  {
    if j > 0 {
      assert ms[..j][0] == ms[0];
      assert ms[..j][1..] == ms[1..][..j - 1];
      PrefixWithinLead(ms[1..], j - 1);
    }
  }

  /** Every loss-free stretch holds at most `LongestWinRun` wins. */
  lemma {:induction false} LongestBoundsEveryStretch(ms: seq<TeamMatch>, i: nat, j: nat)
    requires i <= j <= |ms| && NoLoss(ms[i..j])
    ensures CountResult(ms[i..j], Win) <= LongestWinRun(ms)
  {
    if i == 0 {
      if j > 0 {
        assert ms[0..j] == ms[..j];
        PrefixWithinLead(ms, j);
      }
    } else {
      assert ms[i..j] == ms[1..][i - 1..j - 1];
      LongestBoundsEveryStretch(ms[1..], i - 1, j - 1);
    }
  }

  /** The leading count is attained by the stretch before the first loss. */
  lemma {:induction false} LeadAttained(ms: seq<TeamMatch>) returns (j: nat)
    ensures j <= |ms| && NoLoss(ms[..j]) && CountResult(ms[..j], Win) == LeadCount(ms, Win, Loss)
  {
    if ms == [] || ms[0].result == Loss {
      j := 0;
    } else {
      var j1 := LeadAttained(ms[1..]);
      j := j1 + 1;
      assert ms[..j] == [ms[0]] + ms[1..][..j1];
      assert ms[..j][1..] == ms[1..][..j1];
    }
  }

  /** Some loss-free stretch holds exactly `LongestWinRun` wins. */
  lemma {:induction false} LongestAttained(ms: seq<TeamMatch>) returns (i: nat, j: nat)
    ensures i <= j <= |ms| && NoLoss(ms[i..j]) && CountResult(ms[i..j], Win) == LongestWinRun(ms)
  {
    if ms == [] {
      i, j := 0, 0;
    } else if LeadCount(ms, Win, Loss) >= LongestWinRun(ms[1..]) {
      j := LeadAttained(ms);
      i := 0;
      assert ms[0..j] == ms[..j];
    } else {
      var i1, j1 := LongestAttained(ms[1..]);
      i, j := i1 + 1, j1 + 1;
      assert ms[i..j] == ms[1..][i1..j1];
    }
  }

  /** The current streak describes the matches at the front of the list, not the end. */
  lemma StreakCountsFromFront()
    ensures LeadingStreak([TeamMatch("t", "T", Win, 0, true), TeamMatch("t", "T", Draw, 0, true),
                           TeamMatch("t", "T", Win, 0, true), TeamMatch("t", "T", Loss, 0, true)]) == 2
  {
    var ms := [TeamMatch("t", "T", Win, 0, true), TeamMatch("t", "T", Draw, 0, true),
               TeamMatch("t", "T", Win, 0, true), TeamMatch("t", "T", Loss, 0, true)];
    assert ms[1..][1..][1..] == [ms[3]];
    assert ms[1..][1..][1..][1..] == [];
  }

  // ---------------------------------------------------------------- metric store

  datatype MetricType = Counter | Gauge | Histogram | Summary | TrendMetric

  /** A recorded metric; the identity is a fresh counter value and the timestamp is left out. */
  datatype Metric = Metric(id: nat, name: string, kind: MetricType, value: int)

  datatype Aggregation = SumAgg | AvgAgg | MinAgg | MaxAgg | CountAgg
  datatype Granularity = MinuteGrain | HourGrain | DayGrain | WeekGrain | MonthGrain

  /** A time-series registration; its data points are left out. */
  datatype Series = Series(metricName: string, aggregation: Aggregation, granularity: Granularity)

  datatype Store = Store(metrics: map<string, seq<Metric>>, series: map<string, Series>, nextId: nat)

  const EmptyStore := Store(map[], map[], 0)

  datatype AnalyticsError = UnknownMetric(name: string)

  function Recorded(s: Store, name: string): seq<Metric> {
    if name in s.metrics then s.metrics[name] else []
  }

  datatype RecordResult = RecordResult(store: Store, metric: Metric)

  /** `recordMetric`: the new metric goes at the end of its name's list. */
  function RecordMetric(s: Store, name: string, kind: MetricType, value: int): (r: RecordResult)
    ensures r.metric.name == name && r.metric.kind == kind && r.metric.value == value
    ensures r.store.metrics == s.metrics[name := Recorded(s, name) + [r.metric]]
    ensures r.store.series == s.series
    ensures r.metric.id == s.nextId && r.store.nextId > s.nextId
  {
    var m := Metric(s.nextId, name, kind, value);
    RecordResult(s.(metrics := s.metrics[name := Recorded(s, name) + [m]], nextId := s.nextId + 1), m)
  }

  function SumValues(ms: seq<Metric>): int {
    if ms == [] then 0 else SumValues(ms[..|ms| - 1]) + ms[|ms| - 1].value
  }

  /** `getMetricValue`: absent for an unknown or empty metric; else the latest value, or the sum. */
  function MetricValue(s: Store, name: string, latest: bool): (r: Option<int>)
    ensures r.None? <==> Recorded(s, name) == []
    ensures r.Some? && latest ==> r.value == Recorded(s, name)[|Recorded(s, name)| - 1].value
    ensures r.Some? && !latest ==> r.value == SumValues(Recorded(s, name))
  {
    var ms := Recorded(s, name);
    if ms == [] then None
    else if latest then Some(ms[|ms| - 1].value)
    else Some(SumValues(ms))
  }

  /** A value just recorded is the latest, and adds to the sum. */
  lemma RecordThenRead(s: Store, name: string, kind: MetricType, value: int)
    ensures MetricValue(RecordMetric(s, name, kind, value).store, name, true) == Some(value)
    ensures MetricValue(RecordMetric(s, name, kind, value).store, name, false)
         == Some(SumValues(Recorded(s, name)) + value)
  {
    var r := RecordMetric(s, name, kind, value);
    var ms := Recorded(s, name) + [r.metric];
    assert Recorded(r.store, name) == ms;
    assert ms[..|ms| - 1] == Recorded(s, name);
  }

  /** Recording under one name leaves every other name's values alone. */
  lemma RecordLeavesOthers(s: Store, name: string, other: string, kind: MetricType, value: int, latest: bool)
    requires other != name
    ensures MetricValue(RecordMetric(s, name, kind, value).store, other, latest) == MetricValue(s, other, latest)
  {
  }

  function AggregationName(a: Aggregation): string {
    match a
    case SumAgg => "sum"
    case AvgAgg => "avg"
    case MinAgg => "min"
    case MaxAgg => "max"
    case CountAgg => "count"
  }

  function GranularityName(g: Granularity): string {
    match g
    case MinuteGrain => "minute"
    case HourGrain => "hour"
    case DayGrain => "day"
    case WeekGrain => "week"
    case MonthGrain => "month"
  }

  /** The time-series key `<metric>-<aggregation>-<granularity>`. */
  function SeriesKey(name: string, a: Aggregation, g: Granularity): (k: string)
    ensures name <= k && |k| > |name|
  {
    name + "-" + AggregationName(a) + "-" + GranularityName(g)
  }

  /** The registration part of `createTimeSeries`: fails for a metric never recorded. */
  function CreateTimeSeries(s: Store, name: string, a: Aggregation, g: Granularity): (r: Result<Store, AnalyticsError>)
    ensures r.Err? <==> name !in s.metrics
    ensures r.Err? ==> r.error == UnknownMetric(name)
    ensures r.Ok? ==> r.value == s.(series := s.series[SeriesKey(name, a, g) := Series(name, a, g)])
  {
    if name !in s.metrics then Err(UnknownMetric(name))
    else Ok(s.(series := s.series[SeriesKey(name, a, g) := Series(name, a, g)]))
  }

  /** Every registered series sits under its own key. */
  ghost predicate SeriesKeyed(s: Store) {
    forall k :: k in s.series ==> k == SeriesKey(s.series[k].metricName, s.series[k].aggregation, s.series[k].granularity)
  }

  /**
   * `clearMetric`: the metric goes, and so does every series whose key
   * starts with the name.
   */
  function ClearMetric(s: Store, name: string): (r: Store)
    ensures r.metrics == s.metrics - {name}
    ensures forall k :: k in r.series <==> k in s.series && !(name <= k)
    ensures forall k :: k in r.series ==> r.series[k] == s.series[k]
    ensures SeriesKeyed(s) ==> SeriesKeyed(r)
  {
    s.(metrics := s.metrics - {name}, series := map k | k in s.series && !(name <= k) :: s.series[k])
  }

  /**
   * Clearing a metric also drops the series of every metric whose name
   * extends it ("score" takes "score-home"'s series), while that metric's
   * own values stay.
   */
  lemma ClearMetricReachesLongerNames(s: Store, name: string, suffix: string)
    requires SeriesKeyed(s) && suffix != "" && name + suffix in s.metrics
    ensures var r := ClearMetric(s, name);
      && (forall k :: k in r.series ==> r.series[k].metricName != name + suffix)
      && (forall k :: k in r.series ==> r.series[k].metricName != name)
      && name + suffix in r.metrics
  {
    var r := ClearMetric(s, name);
    forall k | k in r.series
      ensures r.series[k].metricName != name + suffix && r.series[k].metricName != name
    {
      var x := s.series[k];
      assert x.metricName <= k;
      assert name <= name + suffix;
    }
    assert name + suffix != name;
  }

  /** `clearAll`: no metrics and no series. */
  function ClearAll(s: Store): (r: Store)
    ensures r.metrics == map[] && r.series == map[]
    ensures forall name, latest :: MetricValue(r, name, latest).None?
  {
    s.(metrics := map[], series := map[])
  }
}
