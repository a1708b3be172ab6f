# Event Control System — scoring, timing and analysis core in Dafny

This project models the rule-driven core of the Event Control System server:

- **Score engines.** Events are validated against a rule table per sport, and valid events update the match context and the history. The base engine provides undo, a history summary and reset. The basketball engine adds bonus, shot-clock, foul and shooting queries. The football engine adds own goals, yellow-card accumulation into red cards, substitutions and offside. A factory merges rule overrides into sport defaults.
- **Timers.** The five-state timer (idle, running, paused, stopped, completed) runs over an explicit wall clock. The per-match timer manager holds the game, period, overtime and shot-clock timers. A registry holds one manager per match. Managers are values here, so a change a caller makes through the manager the registry hands out is written back with `TimerRegistry.Put`; removal and clearing hand back the destroyed managers.
- **Analysis.** The match analyser produces team statistics, key moments, momentum and scoring runs. The analytics engine contributes its integer parts: team win/loss/streak statistics and the metric store.

Modelling conventions:

- Every operation is a pure function over immutable state.
- Wall-clock time is a parameter `now` (milliseconds).
- The timer's 10 ms interval is the explicit step `Timers.Tick`.
- Event ids come from a counter in the engine.
- Percentages are integers in hundredths of a percent (`5000` is 50.00%), rounded half up as `Math.round` does for non-negative values. The shared definition is `Percent.RoundedPercent`.
- Failures the source reports by throwing or returning `null` are `Result`/`Option` values or an error field.

Modules, one file each:

- `Wrappers`
- `Percent`
- `ScoreTypes`
- `RuleTables`
- `ScoreEngine`
- `Basketball`
- `Football`
- `Engines` (factory and sport dispatch)
- `EngineInvariants` (properties of operation sequences)
- `Timers`
- `MatchTimers`
- `TimerRegistry`
- `Sequences` (reference filter)
- `Ordering` (stable descending sort)
- `MatchAnalyzer`
- `AnalyticsEngine`

## Model

| member | source | states |
|---|---|---|
| Percent.RoundedPercent | server/src/engines/BasketballScoreEngine.ts:271-285 | no attempts gives 0; otherwise the result is within half a hundredth of 100·made/attempted, so it lies in 0..10000 whenever made ≤ attempted |
| Percent.OneOfTwoIsFifty | server/src/analytics/MatchAnalyzer.ts:120-123 | one success in two attempts reads as exactly 50.00% |
| Percent.AllMadeIsHundred | server/src/analytics/MatchAnalyzer.ts:120-123 | every attempt made reads as exactly 100.00% |
| ScoreTypes.Team.Opposite | server/src/engines/ScoreEngine.ts:90-114 | the other team is never the same team |
| ScoreTypes.TeamPointsAppend | server/src/engines/ScoreEngine.ts:90-114 | appending an event adds its points to its own team's total only |
| ScoreTypes.CountWhereAppend | server/src/engines/ScoreEngine.ts:143-179 | a count over history grows by one exactly when the appended event matches |
| ScoreTypes.TeamPointsRemove | server/src/engines/ScoreEngine.ts:119-138 | removing the i-th event takes its points off its own team's total only |
| ScoreTypes.CountWhereRemove | server/src/engines/ScoreEngine.ts:119-138 | removing the i-th event lowers a count by one exactly when that event matches |
| ScoreTypes.CountWhereMono | server/src/engines/FootballScoreEngine.ts:324-366 | a weaker filter never counts fewer events |
| RuleTables.FindRule | server/src/engines/ScoreEngine.ts:62-68 | a found rule is in the table and is for the event's type; nothing is found exactly when no rule has that type |
| RuleTables.YellowCount | server/src/engines/FootballScoreEngine.ts:177-178 | a count exists exactly when the (team, player) key has an entry, and it is that entry's count |
| RuleTables.RunCheck | server/src/engines/BasketballScoreEngine.ts:25-195 | per rule kind: free throws and misses need a shot clock; made shots need a non-negative shot clock; timeouts need timeouts left; a yellow card needs a player; a goal fails exactly when the offside rule is on and the goal is flagged offside; the team-foul warning and the remaining checks always pass |
| RuleTables.FootballGoalCheck | server/src/engines/FootballScoreEngine.ts:28-43 | the football goal rule is worth 1, needs a player, allows periods 1-4, and fails its check exactly when the offside rule is on and the goal is flagged offside |
| RuleTables.BasketballHasRule | server/src/engines/BasketballScoreEngine.ts:25-195 | every basketball and shared event type has a basketball rule |
| RuleTables.BasketballLacksRule | server/src/engines/BasketballScoreEngine.ts:25-195 | goals, penalties, own goals and cards have no basketball rule |
| RuleTables.FootballHasRule | server/src/engines/FootballScoreEngine.ts:26-128 | every football and shared event type has a football rule |
| RuleTables.FootballLacksRule | server/src/engines/FootballScoreEngine.ts:26-128 | shots, free throws, timeouts and fouls have no football rule |
| ScoreEngine.NewEngine | server/src/engines/ScoreEngine.ts:21-26 | a new engine has an empty history and no violations, and takes the caller's context |
| ScoreEngine.FullEvent | server/src/engines/ScoreEngine.ts:37-43 | the stored event carries the draft's fields and a fresh id, and starts unvalidated |
| ScoreEngine.ValidateWith | server/src/engines/ScoreEngine.ts:62-85 | an unknown type is rejected first, then a period outside the rule's list, then a missing required player, then the rule's own check; a valid event satisfies the period and player conditions |
| ScoreEngine.FindRuleFlipped | server/src/engines/ScoreEngine.ts:62-68 | flipping every rule's shot-clock flag changes the found rule only in that flag |
| ScoreEngine.ShotClockFlagIgnored | server/src/engines/ScoreEngine.ts:62-85 | validation never consults a rule's `requiresShotClock` flag |
| ScoreEngine.ContextPeriodIgnored | server/src/engines/ScoreEngine.ts:69-72 | the allowed-period check uses the event's period, never the context's current period |
| ScoreEngine.FindPeriod | server/src/engines/ScoreEngine.ts:98-100 | a found index holds that period and is the first such; none means no entry has that period |
| ScoreEngine.AddPeriodPoints | server/src/engines/ScoreEngine.ts:98-113 | an existing period row gets the points on the scoring team's side only; otherwise one new row is appended with the points on that side |
| ScoreEngine.UpdateScore | server/src/engines/ScoreEngine.ts:90-114 | the scoring team's score rises by the event's points and the other's is unchanged; period scores are updated; nothing else in the context changes |
| ScoreEngine.Validated | server/src/engines/ScoreEngine.ts:36-48 | the event is marked valid exactly when validation passes, and an invalid one carries the validation error |
| ScoreEngine.AddEvent | server/src/engines/ScoreEngine.ts:36-57 | the id counter always advances; an invalid event leaves context and history unchanged; a valid one is appended and scored |
| ScoreEngine.FindEvent | server/src/engines/ScoreEngine.ts:120 | a found index holds the id; none means no stored event has it |
| ScoreEngine.Undo | server/src/engines/ScoreEngine.ts:119-138 | an unknown id reports false and changes nothing; otherwise the event is removed, its points come off its team's score, and the period scores stay as they were |
| ScoreEngine.BumpPeriodRows | server/src/engines/ScoreEngine.ts:149-159 | counting one event raises only its own period row, on its own team's side |
| ScoreEngine.BumpPeriodShape | server/src/engines/ScoreEngine.ts:149-159 | period rows stay distinct and their total rises by one |
| ScoreEngine.BumpTypeHas | server/src/engines/ScoreEngine.ts:161-165 | a type row exists afterwards exactly when it did before or is the counted type |
| ScoreEngine.BumpTypeRows | server/src/engines/ScoreEngine.ts:161-165 | only the counted type's row rises, by one |
| ScoreEngine.BumpTypeShape | server/src/engines/ScoreEngine.ts:161-165 | type rows stay distinct and their total rises by one |
| ScoreEngine.SummaryCounts | server/src/engines/ScoreEngine.ts:143-179 | each period row counts exactly that period's home and away events, each type row counts exactly that type's events, and both tables total the history length |
| ScoreEngine.GetScoreHistory | server/src/engines/ScoreEngine.ts:143-179 | the summary lists the history, totals its length, and its per-period and per-type rows add up to that total |
| ScoreEngine.UpdateMatchContext | server/src/engines/ScoreEngine.ts:184-186 | each of the thirteen context fields, scores included, takes the update's value when given and keeps its own when absent; only the context changes, and an empty update changes nothing |
| ScoreEngine.AddViolation | server/src/engines/ScoreEngine.ts:198-200 | the violation is appended and nothing else changes |
| ScoreEngine.Reset | server/src/engines/ScoreEngine.ts:219-225 | history and violations are emptied, scores return to zero with no period scores, the id counter is kept, and the rest of the context is untouched |
| Basketball.FoulBonusStep | server/src/engines/BasketballScoreEngine.ts:200-206 | a recorded foul never takes a team out of the bonus; afterwards it is in the bonus exactly when it was already or that foul reached the limit; the opponent's bonus is unaffected |
| Basketball.FoulDoubleBonusStep | server/src/engines/BasketballScoreEngine.ts:211-217 | the same for the double bonus and its threshold |
| Basketball.DoubleBonusImpliesBonus | server/src/engines/BasketballScoreEngine.ts:200-217 | with the limit at most the threshold, the double bonus implies the bonus |
| Basketball.ResetShotClock | server/src/engines/BasketballScoreEngine.ts:222-224 | the shot clock becomes the rules' duration and nothing else changes |
| Basketball.ResetShotClockOnOffensiveRebound | server/src/engines/BasketballScoreEngine.ts:229-231 | the shot clock becomes the rebound reset value and nothing else changes |
| Basketball.RecordFoul | server/src/engines/BasketballScoreEngine.ts:236-242 | the team's fouls rise by one, the opponent's are unchanged, and nothing else changes |
| Basketball.RecordTimeout | server/src/engines/BasketballScoreEngine.ts:247-253 | the team's timeouts fall by one, the opponent's are unchanged, and nothing else changes |
| Basketball.RecordFoulsCount | server/src/engines/BasketballScoreEngine.ts:236-242 | n recorded fouls add exactly n to the team's fouls and leave the history alone |
| Basketball.FoulsReachBonus | server/src/engines/BasketballScoreEngine.ts:200-206 | from zero fouls, recording at least the limit puts the team in the bonus |
| Basketball.PlayerFoulsAppend | server/src/engines/BasketballScoreEngine.ts:258-266 | a stored event raises a player's foul count by one exactly when it is that player's FOUL or TECHNICAL_FOUL, and otherwise leaves it |
| Basketball.FouledOutStep | server/src/engines/BasketballScoreEngine.ts:258-266 | after one more stored event a player is out exactly when already out, or when the event is their FOUL or TECHNICAL_FOUL and brings them to the per-player limit |
| Basketball.FouledOutStays | server/src/engines/BasketballScoreEngine.ts:258-266 | storing more events never brings a fouled-out player back |
| Basketball.MadeWithinAttempted | server/src/engines/BasketballScoreEngine.ts:271-317 | made field goals, threes and free throws never exceed the attempts |
| Basketball.FieldGoalPercentage | server/src/engines/BasketballScoreEngine.ts:271-285 | the rounded ratio of two- and three-point makes to attempts, in 0..10000, and 0 without attempts |
| Basketball.ThreePointPercentage | server/src/engines/BasketballScoreEngine.ts:290-301 | the rounded ratio of three-point makes to attempts, in 0..10000, and 0 without attempts |
| Basketball.FreeThrowPercentage | server/src/engines/BasketballScoreEngine.ts:306-317 | the rounded ratio of free throws made to attempted, in 0..10000, and 0 without attempts |
| Basketball.Stats | server/src/engines/BasketballScoreEngine.ts:322-333 | the three percentages are the engine's rounded shooting ratios, the bonus flags agree with the foul thresholds, and fouls, timeouts and shot clock are the context's |
| Basketball.TeamCountAppend | server/src/engines/BasketballScoreEngine.ts:271-317 | a stored event adds one to a team's count of a shot type exactly when it is that team's and of that type |
| Basketball.RecordFoulStats | server/src/engines/BasketballScoreEngine.ts:236-242 | after a recorded foul the team's statistics show one more foul, never lose a bonus flag, and keep shooting, timeouts and shot clock |
| Basketball.OpponentEventKeepsShooting | server/src/engines/BasketballScoreEngine.ts:271-317 | an event stored for the opponent leaves a team's three shooting percentages unchanged |
| Football.SetYellowCount | server/src/engines/FootballScoreEngine.ts:174-206 | only the (team, player) counter changes, to n; the team's yellow total changes by the difference and the other team's does not |
| Football.SumYellowAppend | server/src/engines/FootballScoreEngine.ts:239-249 | a new counter entry adds its count to its own team's total only |
| Football.YellowCountAppend | server/src/engines/FootballScoreEngine.ts:203-204 | a counter appended for a new key is found for that key and leaves every other key's count as it was |
| Football.SecondYellowRedCard | server/src/engines/FootballScoreEngine.ts:187-200 | the automatic red card is a valid zero-point event for the same team, player and period, marked as coming from the given yellow card |
| Football.HandleYellowCard | server/src/engines/FootballScoreEngine.ts:174-206 | without a player nothing changes; a first card creates the counter at 1 with no threshold check; a known counter rises by one, and when it reaches the threshold a red card with the next id is also stored; the team's yellow total rises by one and the opponent's is unchanged |
| Football.AddEvent | server/src/engines/FootballScoreEngine.ts:133-169 | the id counter advances; an invalid event changes nothing else; a yellow card goes to the card handling and is not stored; an own goal is stored and credited to the opponent; any other valid event is stored, and scored only when its points are positive |
| Football.YellowCardRule | server/src/engines/FootballScoreEngine.ts:80-105 | the yellow-card rule is worth 0 points, needs a player, allows periods 1-4 and checks for a player |
| Football.YellowCardValidity | server/src/engines/FootballScoreEngine.ts:80-105 | a yellow card is valid exactly when its period is 1-4 and it names a player |
| Football.SecondYellowSendsOff | server/src/engines/FootballScoreEngine.ts:180-201 | with the default threshold of two, a player's second yellow appends one red card, sends the player off and raises the team's red cards by one |
| Football.RedCardAppended | server/src/engines/FootballScoreEngine.ts:211-259 | a stored red card sends its player off and raises its team's red-card count by one |
| Football.YellowCardEffect | server/src/engines/FootballScoreEngine.ts:148-152 | a yellow card never changes the context: either nothing is stored, or exactly one red card with the following id is, and the id counter advances by one or two accordingly |
| Football.HasRedCard | server/src/engines/FootballScoreEngine.ts:213-216 | true exactly when some stored red card names the player |
| Football.IsPlayerSentOff | server/src/engines/FootballScoreEngine.ts:211-234 | a player is off exactly when a red card for them is stored or their yellow counter has reached the threshold |
| Football.SumYellowSplit | server/src/engines/FootballScoreEngine.ts:239-249 | the two teams' totals share out all yellow counters |
| Football.TeamYellowCards | server/src/engines/FootballScoreEngine.ts:239-249 | the team's total and the opponent's make up all yellow counters, and no counters give 0 |
| Football.YellowCardCounted | server/src/engines/FootballScoreEngine.ts:239-249 | a valid yellow card raises its team's yellow-card total by one and leaves the opponent's unchanged |
| Football.TeamRedCardsStep | server/src/engines/FootballScoreEngine.ts:254-259 | a stored event adds one to a team's red cards exactly when it is that team's red card, and otherwise leaves the count |
| Football.PlayersOnField | server/src/engines/FootballScoreEngine.ts:264-270 | eleven minus red cards, never below seven |
| Football.TeamSubstitutions | server/src/engines/FootballScoreEngine.ts:290-295 | the filter of the history to the team's substitutions: in history order, each as often as stored, so its length is their count |
| Football.Substitutions | server/src/engines/FootballScoreEngine.ts:290-295 | the same filter over the engine's history: every listed event is one of the team's stored substitutions and every such one is listed, in order |
| Football.SubstitutionAppended | server/src/engines/FootballScoreEngine.ts:290-295 | storing a substitution lengthens its team's list by one |
| Football.CanSubstitute | server/src/engines/FootballScoreEngine.ts:275-285 | true exactly when the team has made fewer than five substitutions |
| Football.OffsideFlagEffect | server/src/engines/FootballScoreEngine.ts:300-319 | a goal that counts was validated; without the offside rule the offside flag makes no difference; with it a flagged goal never counts; an unflagged goal counts exactly when validated |
| Football.RecordOffside | server/src/engines/FootballScoreEngine.ts:314-319 | only the event's offside flag changes, to true |
| Football.OffsideInvalidatesGoal | server/src/engines/FootballScoreEngine.ts:300-319 | with the offside rule on, a goal marked offside never counts |
| Football.Stats | server/src/engines/FootballScoreEngine.ts:324-366 | goals, own goals conceded, scored and missed penalties are counted from history; the conversion rate is the rounded ratio of scored to taken penalties, 0 when none were taken; yellow and red cards and players on field are the engine's queries; conceded goals are the opponent's score; remaining substitutions are five minus those made, positive exactly when another is allowed |
| Football.PenaltyStoredStats | server/src/engines/FootballScoreEngine.ts:324-366 | a stored scored penalty adds one goal and one scored penalty, a missed one adds one miss; cards are unchanged |
| Engines.DefaultBasketballRules | server/src/engines/ScoreEngineFactory.ts:97-107 | the default bonus limit is at most the per-period limit, which is at most the double-bonus threshold; the rebound reset is shorter than the shot clock |
| Engines.DefaultFootballRules | server/src/engines/ScoreEngineFactory.ts:112-119 | two yellows make a red, and the offside rule is on |
| Engines.MergeBasketball | server/src/engines/ScoreEngineFactory.ts:58-74 | each of the seven rules takes its override when given and its default when absent, independently of the others; no overrides keeps the defaults |
| Engines.MergeFootball | server/src/engines/ScoreEngineFactory.ts:79-92 | each of the four rules takes its override when given and its default when absent, independently of the others; no overrides keeps the defaults |
| Engines.CreateBasketballEngine | server/src/engines/ScoreEngineFactory.ts:58-74 | a fresh basketball engine with the merged rules and the caller's context |
| Engines.CreateFootballEngine | server/src/engines/ScoreEngineFactory.ts:79-92 | a fresh football engine with the merged rules, no yellow counters and the caller's context |
| Engines.CreateEngine | server/src/engines/ScoreEngineFactory.ts:19-53 | an unknown sport is an error naming it; otherwise a fresh engine of the matching sport |
| Engines.FactoriesAgree | server/src/engines/ScoreEngineFactory.ts:19-53 | the generic factory gives the same engines as the per-sport ones, and without overrides those use the defaults |
| Engines.AddScoreEvent | server/src/engines/ScoreEngine.ts:36-57 | dispatches to the sport's event application; fouls, timeouts, shot clock and current period are never touched by adding an event |
| EngineInvariants.StoreAndScore | server/src/engines/ScoreEngine.ts:36-57 | storing an event while adding its points to its team keeps the scores equal to the base plus the history's points |
| EngineInvariants.AddKeepsScoresBasketball | server/src/engines/ScoreEngine.ts:36-57 | a basketball add keeps the scores equal to the base plus the history's points |
| EngineInvariants.StoreZeroPoints | server/src/engines/FootballScoreEngine.ts:148-165 | storing nothing or a zero-point event without touching the context keeps the scores tracking the history |
| EngineInvariants.YellowKeepsScores | server/src/engines/FootballScoreEngine.ts:148-152 | a yellow card, with any red card it triggers, keeps the scores tracking the history |
| EngineInvariants.OtherKeepsScores | server/src/engines/FootballScoreEngine.ts:133-169 | any other football add with non-negative points keeps the scores tracking the history, own goals included |
| EngineInvariants.AddKeepsScores | server/src/engines/ScoreEngine.ts:36-57 | any add keeps the scores equal to the base plus the history's points (football drafts with non-negative points) |
| EngineInvariants.UndoKeepsScores | server/src/engines/ScoreEngine.ts:119-138 | undo keeps the scores equal to the base plus the history's points |
| EngineInvariants.ResetTracksHistory | server/src/engines/ScoreEngine.ts:219-225 | after a reset the scores track the empty history from zero |
| EngineInvariants.AppendKeepsIdsFresh | server/src/engines/ScoreEngine.ts:212-214 | appending events with distinct ids from the issued range keeps stored ids distinct and below the counter |
| EngineInvariants.AddKeepsIds | server/src/engines/ScoreEngine.ts:212-214 | any add keeps stored ids distinct and below the counter |
| EngineInvariants.FootballAddKeepsIds | server/src/engines/FootballScoreEngine.ts:133-169 | a football add keeps stored ids distinct and below the counter, including an automatic red card |
| EngineInvariants.StoredCasesKeepIds | server/src/engines/ScoreEngine.ts:212-214 | storing nothing, or one event with the fresh id, keeps ids distinct and below the counter |
| EngineInvariants.UndoKeepsIds | server/src/engines/ScoreEngine.ts:119-138 | undo keeps stored ids distinct and below the counter |
| EngineInvariants.FindAppended | server/src/engines/ScoreEngine.ts:120 | an appended event with a new id is found at the end |
| EngineInvariants.AddThenUndo | server/src/engines/ScoreEngine.ts:119-138 | undoing a just-added valid event restores history and both scores, while the period scores keep the event's points |
| EngineInvariants.UndoLeavesPeriodScores | server/src/engines/ScoreEngine.ts:119-138 | add-then-undo of an event with non-zero points never restores the period scores |
| EngineInvariants.YellowCardNotUndoable | server/src/engines/FootballScoreEngine.ts:148-152 | the id returned for a football yellow card is never found by undo |
| EngineInvariants.FreeThrowNeedsShotClock | server/src/engines/BasketballScoreEngine.ts:27-56 | a free throw without a shot-clock value is rejected and changes neither history nor context |
| EngineInvariants.FreeThrowRule | server/src/engines/BasketballScoreEngine.ts:27-56 | the free-throw rules are worth 1 and 0 points, need a player, allow periods 1-8 and check for a shot clock |
| EngineInvariants.Apply | server/src/engines/ScoreEngine.ts:36-225 | no operation changes the engine's sport or lowers the id counter; operations other than add, undo and reset keep the history; a reset operation is the engine's reset and a context operation is the context update |
| EngineInvariants.Rebase | server/src/engines/ScoreEngine.ts:184-225 | operations other than a reset or a score-writing context update leave the score baselines where they were |
| EngineInvariants.KeptBaselines | server/src/engines/ScoreEngine.ts:184-225 | without resets or score writes, a whole sequence of operations leaves the baselines where they were |
| EngineInvariants.ScoreWriteBreaksTracking | server/src/engines/ScoreEngine.ts:184-186 | writing a home score that differs from the current one breaks the tracking from the old baselines, and it tracks again from the rebased ones |
| EngineInvariants.StepKeepsInvariants | server/src/engines/ScoreEngine.ts:36-225 | any single operation keeps the scores tracking the history against the rebased baselines, and keeps the ids fresh |
| EngineInvariants.Run | server/src/engines/ScoreEngine.ts:36-138 | a sequence of operations never changes the engine's sport |
| EngineInvariants.RunKeepsInvariants | server/src/engines/ScoreEngine.ts:36-225 | over any sequence of operations, resets and context updates included, the scores track the history from baselines that move only at a reset or a score write, and ids stay fresh; with no reset or score write the original baselines hold throughout (football drafts with non-negative points) |
| EngineInvariants.NegativePointsBreakFootball | server/src/engines/FootballScoreEngine.ts:160-165 | a valid football event with negative points other than a yellow card or own goal is stored but not scored, so the scores no longer track the history |
| EngineInvariants.FootballSubstitutionRule | server/src/engines/FootballScoreEngine.ts:118-127 | the substitution rule needs a player, allows periods 1-4 and always passes |
| EngineInvariants.NegativeSubstitutionAccepted | server/src/engines/FootballScoreEngine.ts:118-127 | a substitution with negative points is accepted |
| EngineInvariants.ShotClockOverrideOnlyOnReset | server/src/engines/ScoreEngineFactory.ts:58-74 | a shot-clock override leaves the reported shot clock at the context's until a reset, which sets the override |
| EngineInvariants.SubstitutionLimitNotEnforced | server/src/engines/FootballScoreEngine.ts:275-295 | a team that may no longer substitute still has a substitution accepted and stored, and its remaining count drops below zero |
| Timers.Start | server/src/timers/Timer.ts:45-74 | a running timer is unchanged; otherwise it runs from now, or from a start moved on by the pause gap when resuming, with a start entry logged |
| Timers.Pause | server/src/timers/Timer.ts:79-103 | only a running timer changes: it becomes paused at now with a pause entry logged |
| Timers.Stop | server/src/timers/Timer.ts:108-131 | an idle or stopped timer is unchanged; otherwise it is stopped at now and logged, and it is never left running |
| Timers.Reset | server/src/timers/Timer.ts:136-161 | times return to the initial time with nothing elapsed; a running auto-reset timer keeps running, anything else becomes idle |
| Timers.UpdateTimeFields | server/src/timers/Timer.ts:283-291 | a countdown reports the current time as remaining and the rest as elapsed; other modes report it as both |
| Timers.Adjust | server/src/timers/Timer.ts:166-206 | the current time becomes the new value with derived fields updated; a running timer's start is re-based to now |
| Timers.SetTime | server/src/timers/Timer.ts:166-184 | negative times clamp to zero and the status is unchanged |
| Timers.AddTime | server/src/timers/Timer.ts:189-206 | the current time rises by the amount and the status is unchanged |
| Timers.SubtractTime | server/src/timers/Timer.ts:211-213 | the current time falls by the amount and the status is unchanged |
| Timers.AddThenSubtract | server/src/timers/Timer.ts:189-213 | subtracting what was added restores the current, remaining and elapsed times |
| Timers.Complete | server/src/timers/Timer.ts:247-278 | the timer becomes completed at zero with a completion entry logged |
| Timers.Tick | server/src/timers/Timer.ts:218-242 | only a running timer changes; a countdown shows the initial time less the time since start and completes at zero; a count-up shows the time since start |
| Timers.TickRemainingNonNegative | server/src/timers/Timer.ts:225-232 | a countdown never shows negative remaining time after a tick |
| Timers.Destroy | server/src/timers/Timer.ts:390-394 | the timer is left not running with an empty log; a live timer is stopped at now |
| Timers.DestroyIdempotent | server/src/timers/Timer.ts:390-394 | destroying twice is the same as destroying once |
| Timers.TransitionsIdempotent | server/src/timers/Timer.ts:45-131 | a second start, pause or stop changes nothing |
| Timers.NewTimer | server/src/timers/Timer.ts:22-40 | the timer shows its initial time with nothing elapsed, and is running from now exactly when auto-start is set |
| Timers.ResumeForgetsElapsed | server/src/timers/Timer.ts:51-58 | after a run, a pause and a resume, the next tick shows the initial time plus the pause gap, so the time already run is lost |
| Timers.SetTimeDiscardedByTick | server/src/timers/Timer.ts:166-184 | on a running countdown the next tick replaces a set time with the initial time less the time since the adjustment |
| Timers.LogOnlyGrows | server/src/timers/Timer.ts:296-307 | start, pause, stop, tick and reset only ever append to the log |
| MatchTimers.StandardPeriods | server/src/timers/MatchTimerManager.ts:118-131 | every sport has two to four regulation periods |
| MatchTimers.PeriodDuration | server/src/timers/MatchTimerManager.ts:136-149 | every period lasts a positive whole number of minutes |
| MatchTimers.GameDuration | server/src/timers/MatchTimerManager.ts:118-131 | the game lasts the sport's periods times the period length |
| MatchTimers.OvertimeDuration | server/src/timers/MatchTimerManager.ts:154-167 | overtime is a positive whole number of minutes, no longer than a period, and as long as one only for ice hockey |
| MatchTimers.ManagedConfig | server/src/timers/MatchTimerManager.ts:41-77 | managed timers count down, without auto-start or auto-reset |
| MatchTimers.LastPeriod | server/src/timers/MatchTimerManager.ts:219-232 | the highest period number, one past the regulation count exactly in overtime |
| MatchTimers.RegulationTimers | server/src/timers/MatchTimerManager.ts:53-64 | one fresh period timer for each of periods 1..periodCount |
| MatchTimers.NewManager | server/src/timers/MatchTimerManager.ts:31-81 | fails exactly when there is no first period; otherwise every timer is idle at its full time, period 1 is current, and basketball gets a 24-second shot clock |
| MatchTimers.CurrentTimer | server/src/timers/MatchTimerManager.ts:266-268 | the current period's timer, present whenever the manager is not in overtime |
| MatchTimers.OnCurrent | server/src/timers/MatchTimerManager.ts:172-194 | without a current period timer the manager is unchanged and an error names the period |
| MatchTimers.StartCurrentPeriod | server/src/timers/MatchTimerManager.ts:172-176 | the current period timer and the game timer both take the timer start transition, the shot clock and every other period are untouched; fails without change when there is no current period timer |
| MatchTimers.PauseCurrentPeriod | server/src/timers/MatchTimerManager.ts:181-185 | the current period timer and the game timer both take the timer pause transition, the shot clock and every other period are untouched; fails without change when there is no current period timer |
| MatchTimers.EndCurrentPeriod | server/src/timers/MatchTimerManager.ts:190-194 | the current period timer takes the timer stop transition and the game timer the pause transition, so a running game clock ends paused; the shot clock and every other period are untouched; fails without change when there is no current period timer |
| MatchTimers.NextPeriod | server/src/timers/MatchTimerManager.ts:199-232 | without a current period timer the manager is unchanged and the error names the period; otherwise the old period is stopped and the period number advances by one, entering overtime exactly past the regulation count; it succeeds exactly when the next period has a timer or a first overtime is created, and then the new period and the game clock run |
| MatchTimers.NextPeriodKeepsInv | server/src/timers/MatchTimerManager.ts:199-232 | moving to the next period keeps one timer per period up to the last and the manager's shape |
| MatchTimers.NextPeriodInRegulation | server/src/timers/MatchTimerManager.ts:199-214 | within regulation the period advances by one: the old period stops, the new one and the game clock run |
| MatchTimers.NextPeriodIntoOvertime | server/src/timers/MatchTimerManager.ts:199-232 | after the last regulation period, one overtime timer of the sport's overtime length is created and runs |
| MatchTimers.NoSecondOvertime | server/src/timers/MatchTimerManager.ts:199-232 | from overtime, the next period has no timer: the call fails, and starting, pausing or advancing then fails without change |
| MatchTimers.GameClockRestartsEachPeriod | server/src/timers/MatchTimerManager.ts:199-214 | after a period change the game clock's next tick shows the full game duration less only the time since the change |
| MatchTimers.ResetShotClock | server/src/timers/MatchTimerManager.ts:273-281 | a full reset returns the shot clock to 24 seconds and idles it; a rebound sets it to 14 seconds; without a shot clock nothing changes |
| MatchTimers.ReboundResetLostOnTick | server/src/timers/MatchTimerManager.ts:273-281 | on a running 24-second clock, the next tick replaces the 14-second rebound value with 24 seconds less the time since the reset |
| MatchTimers.TickAll | server/src/timers/Timer.ts:218-242 | every timer of the manager ticks; those not running are unchanged |
| MatchTimers.Views | server/src/timers/MatchTimerManager.ts:289-299 | one view per period number in range, each that period's timer state |
| MatchTimers.AllStates | server/src/timers/MatchTimerManager.ts:286-311 | the game, shot clock and current period as held; one entry per period numbered 1..last, with zero scores |
| MatchTimers.AllStatesFlags | server/src/timers/MatchTimerManager.ts:292-296 | a period is completed exactly when it is before the current one, and only the period after regulation is overtime |
| MatchTimers.Destroy | server/src/timers/MatchTimerManager.ts:361-367 | every timer is left not running with an empty log |
| MatchTimers.DestroyedIsFrozen | server/src/timers/MatchTimerManager.ts:361-367 | a destroyed manager is unchanged by ticking and by a second destroy |
| TimerRegistry.AppendFresh | server/src/timers/TimerManagerFactory.ts:22 | registering a new id keeps the registration order free of duplicates |
| TimerRegistry.GetManager | server/src/timers/TimerManagerFactory.ts:12-25 | an existing manager comes back unchanged; otherwise a new one with four periods by default is registered last, or nothing is registered if construction fails |
| TimerRegistry.Put | server/src/timers/TimerManagerFactory.ts:17-18 | a change made through the manager handed out replaces that match's manager and nothing else; an unregistered id changes nothing |
| TimerRegistry.PutThenGet | server/src/timers/TimerManagerFactory.ts:17-18 | the next lookup returns the changed manager and registers nothing |
| TimerRegistry.StartSeenByNextLookup | server/src/timers/TimerManagerFactory.ts:12-25 | starting a registered match's current period through the manager handed out is what the next lookup returns |
| TimerRegistry.GetTwice | server/src/timers/TimerManagerFactory.ts:12-25 | a second request for the same match returns the same manager and registers nothing |
| TimerRegistry.Without | server/src/timers/TimerManagerFactory.ts:36 | drops exactly the given id and keeps the list free of duplicates |
| TimerRegistry.RemoveManager | server/src/timers/TimerManagerFactory.ts:30-40 | reports true exactly when the match was registered, in which case it is removed and its manager destroyed and handed back; otherwise nothing changes and nothing is destroyed |
| TimerRegistry.ActiveMatches | server/src/timers/TimerManagerFactory.ts:45-47 | lists each registered match exactly once |
| TimerRegistry.DistinctLength | server/src/timers/TimerManagerFactory.ts:45-47 | a duplicate-free list is as long as its set of ids |
| TimerRegistry.ClearAll | server/src/timers/TimerManagerFactory.ts:52-55 | no match is registered afterwards, and every formerly registered manager comes back destroyed under its id |
| TimerRegistry.ClearAllStopsEverything | server/src/timers/TimerManagerFactory.ts:52-55 | after clearing, no game or period timer of any former match is running |
| TimerRegistry.GetThenRemove | server/src/timers/TimerManagerFactory.ts:12-40 | registering then removing a new match restores the registered set, and the removal succeeds exactly when construction did |
| TimerRegistry.RemoveTwice | server/src/timers/TimerManagerFactory.ts:30-40 | a second removal of the same match reports false |
| Ordering.InsertDesc | server/src/analytics/MatchAnalyzer.ts:191 | insertion adds exactly the one element |
| Ordering.InsertKeepsSorted | server/src/analytics/MatchAnalyzer.ts:191 | insertion into a descending sequence keeps it descending |
| Ordering.SortDesc | server/src/analytics/MatchAnalyzer.ts:191 | the result is a descending permutation of the input |
| Ordering.InsertFilterKey | server/src/analytics/MatchAnalyzer.ts:191 | insertion places the element among those of its key after the ones already there, and leaves other keys' order alone |
| Ordering.SortDescStable | server/src/analytics/MatchAnalyzer.ts:191 | the sort is stable: the elements of each key come out in their input order |
| Ordering.SortKeepsElements | server/src/analytics/MatchAnalyzer.ts:305 | sorting neither adds nor loses elements |
| Ordering.Take | server/src/analytics/MatchAnalyzer.ts:191 | a prefix of at most n elements |
| Ordering.TakeSorted | server/src/analytics/MatchAnalyzer.ts:191 | a prefix of a descending sequence is descending |
| MatchAnalyzer.FoulLikeByName | server/src/analytics/MatchAnalyzer.ts:162 | an event type is foul-like exactly when its wire name contains "foul" |
| MatchAnalyzer.NoFoulInName | server/src/analytics/MatchAnalyzer.ts:162 | names of event types that are not fouls never contain "foul" |
| MatchAnalyzer.OccursAt | server/src/analytics/MatchAnalyzer.ts:162 | a pattern found at some position occurs in the text |
| MatchAnalyzer.CountType | server/src/analytics/MatchAnalyzer.ts:64-115 | a count of events never exceeds the number of events |
| MatchAnalyzer.TeamEvents | server/src/analytics/MatchAnalyzer.ts:32-46 | the filter of the events to the given team, in order and with multiplicity |
| MatchAnalyzer.Percentage | server/src/analytics/MatchAnalyzer.ts:120-123 | 0 without attempts; within 0..10000 when made ≤ attempted; exactly 10000 when every attempt is made |
| MatchAnalyzer.ShootingOf | server/src/analytics/MatchAnalyzer.ts:64-101 | made and attempted are the makes and makes plus misses, and the percentage is their rounded ratio |
| MatchAnalyzer.BasketballTeamStats | server/src/analytics/MatchAnalyzer.ts:64-101 | field goals, threes and free throws count their makes and misses with the rounded percentage of each; threes are within field goals; fouls and timeouts count their events |
| MatchAnalyzer.TwoCountsFit | server/src/analytics/MatchAnalyzer.ts:64-115 | counts of two different event types together fit in the event count |
| MatchAnalyzer.BasketballCountsFit | server/src/analytics/MatchAnalyzer.ts:64-101 | no shooting attempt total exceeds the team's event count |
| MatchAnalyzer.FootballTeamStats | server/src/analytics/MatchAnalyzer.ts:106-115 | goals, own goals, cards and penalties each count their event type |
| MatchAnalyzer.TeamStatistics | server/src/analytics/MatchAnalyzer.ts:51-59 | basketball and football get their statistics over the team's events; any other sport gets none |
| MatchAnalyzer.PeriodSeconds | server/src/analytics/MatchAnalyzer.ts:215-224 | 45 minutes for football, 12 for anything else |
| MatchAnalyzer.TeamFouls | server/src/analytics/MatchAnalyzer.ts:206-210 | a team's foul count never exceeds the number of events |
| MatchAnalyzer.MomentOf | server/src/analytics/MatchAnalyzer.ts:138-189 | an event is a key moment exactly when it scores, is foul-like or is a timeout, at the event's clock and for its team; a score in a close game late on is a game-winning shot rated 5, earlier in a close game a score moment rated 3, in a game that is not close a score moment rated 1; a foul-like event is a critical foul rated 3 once the team has five or more fouls and a foul moment rated 1 before that; a timeout is a timeout moment rated 2 |
| MatchAnalyzer.Moments | server/src/analytics/MatchAnalyzer.ts:138-189 | every moment comes from an event, and every event that makes one contributes it |
| MatchAnalyzer.MomentsFollowEvents | server/src/analytics/MatchAnalyzer.ts:138-189 | the moments follow the events that make one, in order and one each: the i-th moment is that of the i-th such event |
| MatchAnalyzer.KeyMoments | server/src/analytics/MatchAnalyzer.ts:128-192 | at most twenty moments, ordered by impact, each from some event; when there are at most twenty they are all of them |
| MatchAnalyzer.KeyMomentsKeepEventOrder | server/src/analytics/MatchAnalyzer.ts:128-192 | of each impact, the kept moments are the earliest ones in event order; all of them when there are at most twenty |
| MatchAnalyzer.CloseGameSymmetric | server/src/analytics/MatchAnalyzer.ts:197-201 | closeness is symmetric in the two teams, ignores the events and the sport, and a ten-point margin is close while eleven is not |
| MatchAnalyzer.ClosenessIsWholeMatch | server/src/analytics/MatchAnalyzer.ts:197-201 | a scoring moment's rating depends only on the final scores being close, not on the score at the time |
| MatchAnalyzer.FoulCriticalityIsWholeMatch | server/src/analytics/MatchAnalyzer.ts:206-210 | a foul is critical once the team has five fouls in the whole match, even if earlier ones came later |
| MatchAnalyzer.MarginIsDifference | server/src/analytics/MatchAnalyzer.ts:236-245 | the running margin is home points minus away points |
| MatchAnalyzer.MarginAppend | server/src/analytics/MatchAnalyzer.ts:236-245 | the margin of two stretches is the sum of their margins |
| MatchAnalyzer.MomentumFrom | server/src/analytics/MatchAnalyzer.ts:229-250 | one point per event from the given index to the end, each the margin of the preceding window |
| MatchAnalyzer.Momentum | server/src/analytics/MatchAnalyzer.ts:229-250 | one point per event after the first window, each the margin of the five events before it |
| MatchAnalyzer.MomentumSlides | server/src/analytics/MatchAnalyzer.ts:229-250 | consecutive momentum values differ by the event leaving and the event entering the window |
| MatchAnalyzer.Blocks | server/src/analytics/MatchAnalyzer.ts:268-303 | maximal same-team scoring blocks: neighbours belong to different teams |
| MatchAnalyzer.BlocksConservePoints | server/src/analytics/MatchAnalyzer.ts:268-303 | the blocks' points add up to all points scored |
| MatchAnalyzer.Significant | server/src/analytics/MatchAnalyzer.ts:286-288 | the filter of the blocks to those of at least eight points, in order |
| MatchAnalyzer.CollectRuns | server/src/analytics/MatchAnalyzer.ts:268-303 | every run the fold keeps has at least eight points; there is at most one more run than events; with no open run and no scoring event there are none |
| MatchAnalyzer.CollectIsSignificantBlocks | server/src/analytics/MatchAnalyzer.ts:268-303 | the source's fold keeps exactly the significant blocks |
| MatchAnalyzer.ScoringRuns | server/src/analytics/MatchAnalyzer.ts:255-306 | a permutation of the same-team blocks of at least eight points, largest first |
| MatchAnalyzer.TwoEventsOneBlock | server/src/analytics/MatchAnalyzer.ts:268-303 | the fold closes two scores of one team totalling eight into a single run |
| MatchAnalyzer.OneTeamOneRun | server/src/analytics/MatchAnalyzer.ts:255-306 | two scores by one team totalling eight make one run spanning both |
| MatchAnalyzer.AnalyzeMatch | server/src/analytics/MatchAnalyzer.ts:11-27 | the analysis is each team's statistics, the key moments, the momentum and the scoring runs of the match, with their bounds and orders |
| MatchAnalyzer.MomentsSameCloseness | server/src/analytics/MatchAnalyzer.ts:138-201 | two matches with the same sport and events and the same closeness have the same moments |
| MatchAnalyzer.AnalysisReadsScoreOnlyThroughCloseness | server/src/analytics/MatchAnalyzer.ts:11-27 | any other final score on the same side of the ten-point margin gives the same analysis |
| AnalyticsEngine.CountResult | server/src/analytics/AnalyticsEngine.ts:265-267 | a count of results never exceeds the number of matches |
| AnalyticsEngine.HomeAwaySplit | server/src/analytics/AnalyticsEngine.ts:298-299 | home wins plus away wins are all wins |
| AnalyticsEngine.ResultsPartition | server/src/analytics/AnalyticsEngine.ts:265-267 | wins, losses, draws and unrecognised results add up to the number of matches |
| AnalyticsEngine.LeadCount | server/src/analytics/AnalyticsEngine.ts:275-286 | the leading run counts at most all results of its kind |
| AnalyticsEngine.FirstDecided | server/src/analytics/AnalyticsEngine.ts:275-286 | the first decided result is a win or a loss |
| AnalyticsEngine.LongestWinRun | server/src/analytics/AnalyticsEngine.ts:275-286 | the longest win run is at least the leading one |
| AnalyticsEngine.LeadCountsBeforeFirstDecided | server/src/analytics/AnalyticsEngine.ts:275-286 | a win run can lead only when the first decided result is a win, and likewise for losses |
| AnalyticsEngine.StreakStepIsLeading | server/src/analytics/AnalyticsEngine.ts:275-286 | one backward loop step over the current streak gives the streak of the longer list |
| AnalyticsEngine.CalculateTeamStatistics | server/src/analytics/AnalyticsEngine.ts:257-303 | fails exactly on no matches; otherwise counts results and points, splits wins home and away, and reports the streak at the front of the list and the longest win run |
| AnalyticsEngine.PrefixWithinLead | server/src/analytics/AnalyticsEngine.ts:275-286 | no loss-free prefix has more wins than the leading run |
| AnalyticsEngine.LongestBoundsEveryStretch | server/src/analytics/AnalyticsEngine.ts:275-286 | no loss-free stretch has more wins than the longest win run |
| AnalyticsEngine.LeadAttained | server/src/analytics/AnalyticsEngine.ts:275-286 | some loss-free prefix has exactly the leading run's wins |
| AnalyticsEngine.LongestAttained | server/src/analytics/AnalyticsEngine.ts:275-286 | some loss-free stretch has exactly the longest win run's wins |
| AnalyticsEngine.StreakCountsFromFront | server/src/analytics/AnalyticsEngine.ts:275-286 | the reported streak is the run at the front of the list, with draws skipped |
| AnalyticsEngine.RecordMetric | server/src/analytics/AnalyticsEngine.ts:25-48 | the metric is appended to its name's list with a fresh id; other names and series are untouched |
| AnalyticsEngine.MetricValue | server/src/analytics/AnalyticsEngine.ts:53-65 | absent exactly when nothing is recorded; otherwise the latest value or the sum |
| AnalyticsEngine.RecordThenRead | server/src/analytics/AnalyticsEngine.ts:25-65 | the latest value right after recording is the value recorded, and the sum grows by it |
| AnalyticsEngine.RecordLeavesOthers | server/src/analytics/AnalyticsEngine.ts:25-65 | recording under one name never changes what another name reads |
| AnalyticsEngine.SeriesKey | server/src/analytics/AnalyticsEngine.ts:98 | a series key extends its metric's name |
| AnalyticsEngine.CreateTimeSeries | server/src/analytics/AnalyticsEngine.ts:69-101 | fails exactly for an unknown metric; otherwise registers the series under its key |
| AnalyticsEngine.ClearMetric | server/src/analytics/AnalyticsEngine.ts:380-387 | drops the metric and exactly the series whose key starts with its name |
| AnalyticsEngine.ClearMetricReachesLongerNames | server/src/analytics/AnalyticsEngine.ts:380-387 | clearing a name also drops the series of a longer metric name that extends it, while that metric's values stay |
| AnalyticsEngine.ClearAll | server/src/analytics/AnalyticsEngine.ts:372-375 | no metric reads any value afterwards |

## Behaviour as written

These follow the code where it differs from comments, tests or the obvious intent:

- A basketball free throw is rejected without a shot-clock value, although its rule comment says it needs none (`EngineInvariants.FreeThrowNeedsShotClock`).
- Adding a `TIMEOUT` event does not lower the team's timeouts. Only `recordTimeout` does (`Engines.AddScoreEvent`).
- Undo restores the team scores but not the per-period scores (`EngineInvariants.UndoLeavesPeriodScores`).
- Invalid events get an id and advance the counter, but they are not stored (`ScoreEngine.AddEvent`).
- A rule's `requiresShotClock` flag is never consulted (`ScoreEngine.ShotClockFlagIgnored`).
- The allowed-period check uses the event's own period (`ScoreEngine.ContextPeriodIgnored`).
- A yellow card is never stored and so cannot be undone (`EngineInvariants.YellowCardNotUndoable`). Its counters survive a reset.
- Football stores a valid event with negative points, other than a yellow card or own goal, without scoring it (`EngineInvariants.NegativePointsBreakFootball`).
- A substitution with negative points is accepted (`EngineInvariants.NegativeSubstitutionAccepted`).
- The substitution limit is reported but not enforced (`EngineInvariants.SubstitutionLimitNotEnforced`).
- A shot-clock duration override takes effect only at the next shot-clock reset (`EngineInvariants.ShotClockOverrideOnlyOnReset`).
- Resuming a paused timer moves its start forward by the pause gap. The next tick therefore loses the time already run (`Timers.ResumeForgetsElapsed`).
- A time set on a running timer lasts only until the next tick (`Timers.SetTimeDiscardedByTick`).
- The game clock restarts its countdown at every period change (`MatchTimers.GameClockRestartsEachPeriod`).
- The offensive-rebound shot-clock value lasts only until the next tick (`MatchTimers.ReboundResetLostOnTick`).
- There is only one overtime period, and advancing past it fails (`MatchTimers.NoSecondOvertime`).
- A new match timer manager has four periods whatever the sport, so a default football manager runs four 45-minute periods under a 90-minute game clock (`MatchTimers.StandardPeriods`, `TimerRegistry.GetManager`).
- A context update may overwrite the scores, after which they no longer equal the stored points plus the old baselines (`EngineInvariants.ScoreWriteBreaksTracking`).
- Closeness of the game and a team's foul count are taken from the whole match, not from the time of the event (`MatchAnalyzer.ClosenessIsWholeMatch`, `MatchAnalyzer.FoulCriticalityIsWholeMatch`).
- The team streak is the run at the front of the match list, because the loop runs backwards (`AnalyticsEngine.StreakCountsFromFront`).
- Clearing a metric also drops the series of every metric whose name extends it (`AnalyticsEngine.ClearMetricReachesLongerNames`).

## Left out

- Sockets, broadcasts, timer listeners and the per-timer notification callbacks: no I/O is modelled. A timer's completion is a state change only.
- `setInterval` ticking, sync intervals and sync events, the auto-reset `setTimeout` and `playSound`: time advances only through explicit `Tick(now)` calls. The source resets a completed auto-reset timer one second after completion, back to idle at its full time (server/src/timers/Timer.ts:273-277); the model leaves it completed.
- `uuid` ids and `Date` timestamps: replaced by an id counter and the `now` parameter. Event timestamps are not stored.
- The floating-point analytics: win rate and averages, time-series data points and `aggregateDataPoints`, `getTimeKey`, `parseTimeKey`, `analyzeTrend`, `calculatePlayerStatistics` and heat maps. Metric values are integers, and a time series is modelled as its registration only.
- Possession and timeout timers: the manager never creates them.
- `getPeriodsSummary`: its output is not read by the modelled operations. `getCurrentPeriod`, `isInOvertime`, `getMatchContext`, `getViolations`, `getState`, `getConfig` and `getEvents` are plain field reads.
- Player names and numbers, and the key-moment description strings: only identities, counts and ratings are modelled.
- MatchAnalyzer.KeyMoments: the sort is stated as a permutation only when there are at most twenty moments. With more, it states that each moment comes from an event and the order is by impact; `MatchAnalyzer.KeyMomentsKeepEventOrder` says the earliest of each impact are kept, but no member states how many of each impact survive the cut.
- Ordering.InsertDesc: states the inserted multiset and length. Sortedness is in `Ordering.InsertKeepsSorted`.
- Percent.RoundedPercent: rounds the exact rational 10000·made/attempted half up, whereas the source rounds the JavaScript float `(made/attempted)*100*100`. The two can differ by one hundredth: for 23 made of 160 attempted the float gives 1437 and the model 1438. `MatchAnalyzer.Percentage`, `Basketball.FieldGoalPercentage`, `Basketball.ThreePointPercentage`, `Basketball.FreeThrowPercentage` and `Football.Stats` share this definition and this gap.
- MatchAnalyzer.MomentOf: the late-game test is the exact comparison 5·clock > 4·period length. The source's floating-point percentage can differ from it at the 80% boundary.
