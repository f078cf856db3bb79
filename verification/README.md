# Activity ranking, verified

This project models the decision core of the activity-ranking service in Dafny and proves what the
service promises about it. Each module follows one part of the program:

- **Scoring.** Declarations are loaded and checked (`Loader`, `LoadMeaning`, `Soundness`), turned into
  requirements, planned calls and one merged series (`Requirements`, `Planning`, `Merge`, `Containment`), cut
  into local days (`DayWindows`, `Slicing`, `SliceTheorem`), aggregated and derived (`Aggregation`,
  `AggregationMeaning`, `DerivedMetrics`), put through three-valued constraints (`Predicates`, `Constraints`),
  null policies and curves (`Engine`, `Normalizers`), and combined into an explained score (`ScoringMeaning`,
  `ScoreLaws`, `Exclusion`). `RefusalMeaning` and `LoadedActivities` put load, score, cache and partial failure
  together.
- **The marine probe.** Any number of instances find, probe and save evidence about a place over an
  insert-or-ignore table (`LocationProfiles`, `ProbeRows`, `ProbeRuns`, `ProfileStore`,
  `ProbeProtocol`, `LocationService`); the same with a cache in front of the source (`CachedProbes`).
- **The cache.** Keys, lifetimes and the payload codec (`CacheKeys`), stale-while-revalidate with
  single flight as a transition system (`CacheMachine`) and as the class that runs it (`CachedSeries`).
- **Accounting.** The refilling token bucket and the three-window budget (`TokenBucket`,
  `OutboundBudget`), and the bounded audit buffer (`AuditBuffer`).
- **Two smaller algorithms.** The GraphQL depth rule (`DepthRule`), which has to end even on the cyclic
  fragments that section 5.5.2.2 of the GraphQL specification (October 2021) forbids, and canonical
  comparison with append-only publication (`CanonicalJson`, `Publication`).

What the program does step by step is a method or a class here, proved equal to a function of its inputs
or of its old state; the results below are lemmas about those functions, for all inputs, all runs or all
reachable states. Numbers are reals, local dates are text compared by equality, the days of probes are ordered
numbers, and `exp` is any function with the range the curves rely on.

Where the program falls short of what its documentation promises, the model keeps the program's behaviour,
gives an input or a run that shows it, and states when the promise does hold:

- Confirming that there is no coastline is promised to take a second all-null response, obtained on another day, but
  the probe asks through the cache.
  `CachedProbes.OneResponseCanSettle` is a run in which one response, given ten minutes before midnight UTC, is
  recorded for two days and settles a place. What an ask meets at the moment it is decided settles the rest: a
  response of its day, or none as yet and one before the day is over (`CachedProbes.WhatIsMetDecides`,
  `CachedProbes.OwnDayExactly`). Of the days recorded the source confirmed all exactly when each has such a probe
  (`CachedProbes.AllConfirmedExactly`), and then a verdict stands on as many (`CachedProbes.NoCoastlineIsConfirmed`).
- Coverage seen by an instance whose insert loses a same-day race is dropped
  (`ProbeProtocol.LostRaceDropsCoverage`); `ProbeProtocol.CoverageIsRecordedUnlessTheDayIsTaken` is the exact condition.
- A reading of the archive is meant to be made once. With two instances a guess can be written over it
  (`LocationService.AGuessCanOverwriteTheArchive`); `LocationService.ReadingStaysExactly` is the exact condition,
  `LocationService.ArchiveIsPermanent` the case of one process.
- That a failure costs only the activities that need what failed (`src/domain/ranking/required-capabilities.ts:15-17`)
  holds as long as the sources agree on the time axis: `Containment.AnUnneededAnswerCanCostANeededOne` shows what happens
  otherwise, `Containment.LostExactlyWhenAxesClash` is the exact condition, `Containment.FaultsStayContained` the result.

Other promises hold because of what the configuration or the load guarantees, and the model says what would
happen without:

- Requests that share a cache entry ask the same question as long as none reaches beyond the horizon they are
  widened to (`CacheKeys.SharedEntriesAreTransparent`, `CacheMachine.EveryAnswerPutItsQuestion`); the ranking accepts
  no longer horizon than that. `CacheKeys.LongRequestsShareTooMuch` shows two longer ones.
- The audit account is exact exactly when the buffer holds at least one record (`AuditBuffer.ExactExactlyWithRoom`,
  `AuditBuffer.NoRoomOvercounts`); the environment schema admits no other size.
- Scoring commutes with slicing because the load refuses a derived metric on the daily axis:
  `SliceTheorem.DerivedDailyWouldNotCommute`.

## Model

| member | source | states |
|---|---|---|
| `SliceTheorem.ScoringCommutesWithSlicing` | src/domain/weather/slice-series.ts:19-80 | Scoring any day a slice answers for gives the same outcome, breakdown included, as scoring that day of the whole series, although every index is renumbered. |
| `SliceTheorem.DerivedDailyWouldNotCommute` | src/domain/activity/declaration.load.ts:419-467 | A concrete aligned series on which a derived metric read from the daily axis changes with the slice: the case the load refuses. |
| `SliceTheorem.ScoringIgnoresStaleness` | src/modules/weather/decorators/cached-series.port.ts:173-180 | Marking a series stale changes no score. |
| `RefusalMeaning.RefusalsWereWritten` | src/domain/scoring/scoring-engine.ts:204-244 | From the declaration to the refusal: a day a loaded activity refuses was written to be refused for that reason, by a shared rule it includes or a condition of its own, however what is missing of the day turns out. |
| `RefusalMeaning.WrittenRefusalsAreGiven` | src/domain/activity/declaration.load.ts:211-222 | And back: where the conditions miss nothing and no required feature has too many gaps, the first written condition that holds of the day, included rules before own, ranks it at zero with its reason. |
| `LoadedActivities.LoadedReadsNoDerivedDaily` | src/domain/activity/declaration.load.ts:419-467 | No definition a load yields reads a derived metric on the daily axis. |
| `LoadedActivities.LoadedScoresCommuteWithSlicing` | src/domain/activity/declaration.load.ts:73-223 | For every definition a load yields, scoring a day of a slice gives what scoring it in the whole series gives. |
| `LoadedActivities.LoadedAnswersScoreAsTheSource` | src/modules/weather/decorators/cached-series.port.ts:87-133 | For every definition a load yields and every interleaving of the cache within the widened horizon, each answer scores each of its days as what the source said to that very question. |
| `LoadedActivities.LoadedFaultsStayContained` | src/modules/ranking/ranking.service.ts:203-281 | For every definition a load yields, while the sources agree on the axes, the outcome depends on the answers of its own capabilities alone. |
| `Slicing.KeptDayRenumbers` | src/domain/weather/slice-series.ts:64-80 | On a kept date, the indexes of the shortened axis are exactly the positions the date's old slots moved to. |
| `Slicing.WindowRenumbers` | src/domain/weather/day-window.ts:30-61 | The window of a kept day in the slice is the old window with its hour, daylight and daily indexes renumbered. |
| `Slicing.DerivedChannelRestricts` | src/domain/weather/derived/derived-metric.registry.ts:146-166 | Deriving a metric from sliced inputs is slicing the derived metric. |
| `Slicing.ViewSurvivesRestriction` | src/domain/scoring/scoring-engine.ts:123-160 | A strategy sees the same slots of a kept day before and after slicing, for every metric the load accepts. |
| `Slicing.SliceAnswersTheFirstDays` | src/domain/weather/slice-series.ts:19-42 | Where both axes list the same days, a slice of n days answers for the first n of them, in order, and for no others. |
| `Slicing.SliceCountsTheDays` | src/domain/weather/slice-series.ts:19-62 | With any axes, the days are counted on the daily one, or on the hourly one where that is empty: the slice has the first n of them and no hour of another, and is the series itself when n is not positive or not less than there are. |
| `Slicing.KeepDatesInChannel` | src/domain/weather/slice-series.ts:64-80 | The loop keeps, for every metric, exactly the slots whose stamp falls on a kept date. |
| `DayWindows.WindowsPartitionTheAxis` | src/domain/weather/day-window.ts:30-61 | Every hourly slot lies in the window of its own date and in no other, and each date has one window. |
| `DayWindows.GroupByDate` | src/domain/weather/day-window.ts:31-43 | One pass lists the dates in order of first appearance and, under each, precisely its slots, ascending. |
| `DayWindows.BuildDayWindows` | src/domain/weather/day-window.ts:30-61 | The grouped loop builds one window per date with the hours, daylight hours and daily slot of that date. |
| `DayWindows.WindowsAreExact` | src/domain/weather/day-window.ts:30-61 | In every window, which is never empty, a slot is an hour exactly when its stamp falls on the date, and a daylight hour exactly when besides its is_day is one; both ascend; the daily slot is the first of that date, or there is none, and the daylight seconds are what it says, or zero. |
| `DayWindows.DatesInOrder` | src/domain/weather/day-window.ts:31-43 | Dates that begin earlier on the axis come earlier. |
| `Series.DateBeforeTheTime` | src/domain/weather/day-window.ts:28-34 | The date of a stamp is its first ten characters. |
| `DayWindows.CollectDates` | src/domain/weather/slice-series.ts:50-62 | The pushes into a list collect each date once, in order of appearance. |
| `DerivedMetrics.AngleBetweenIsAnAngle` | src/domain/weather/derived/derived-metric.registry.ts:44-49 | The angle between two bearings lies between 0 and 180, is symmetric, and ignores whole turns. |
| `DerivedMetrics.AngleIsTheShortestWay` | src/domain/weather/derived/derived-metric.registry.ts:44-49 | It is the shortest way between the bearings: some number of whole turns brings them that close, and none brings them closer. |
| `DerivedMetrics.DerivedSlotsAreExact` | src/domain/weather/derived/derived-metric.registry.ts:74-120 | Each derived slot from the slots of its inputs: the shortest way between wind and waves, the snow that fell below freezing, the freezing level less the elevation; missing as soon as one input is. |
| `DerivedMetrics.DerivedWhenComplete` | src/domain/weather/derived/derived-metric.registry.ts:146-166 | There is a derived channel exactly when every input has one, as long as that of the first. |
| `DerivedMetrics.ElevationIsTheCarriers` | src/domain/weather/derived/derived-metric.registry.ts:135-144 | The elevation is that of the first source that carried the metric, or of the first source when none did. |
| `DerivedMetrics.ComputeSlot` | src/domain/weather/derived/derived-metric.registry.ts:51-72 | A derived slot is missing as soon as one of its inputs is, and otherwise the formula of all of them. |
| `DerivedMetrics.ComputeDerived` | src/domain/weather/derived/derived-metric.registry.ts:146-166 | No channel when a base metric is absent; otherwise one slot per slot of the first input, with the elevation of the node that carried it. |
| `Aggregation.ReducedWithinRange` | src/domain/weather/aggregation/aggregator.registry.ts:94-124 | Mean, maximum and minimum never leave the range their samples lie in. |
| `AggregationMeaning.AggregatedExactly` | src/domain/scoring/scoring-engine.ts:123-160 | An aggregated quantity is absent exactly when its channel or every slot it reads is; otherwise its number is, of the slots at the positions its strategy reads, the greatest, the least, the total, the mean, or the number or share of those that pass the test, with the counts of slots found and of holes. |
| `AggregationMeaning.CollapsedExactly` | src/domain/weather/aggregation/aggregator.registry.ts:94-221 | The same of the slots alone: a maximum is among the values and none is above it, a mean times the count is the total, a share times the count is the number of positions that pass. |
| `AggregationMeaning.TotalsAdd` | src/domain/weather/aggregation/aggregator.registry.ts:94-105 | A total is additive over parts of the slots, is the value of a single slot, and a hole adds nothing. |
| `Predicates.ComparesInOrder` | src/domain/weather/aggregation/predicate.ts:60-88 | Of below, at and above exactly one holds, each seen from the other side, and the other three comparisons are their opposites. |
| `Predicates.ComparesMembers` | src/domain/weather/aggregation/predicate.ts:60-70 | Membership and its opposite are told by the members; no other operator holds of a set. |
| `Predicates.OneMoreBranch` | src/domain/weather/aggregation/predicate.ts:44-58 | One more branch adds an alternative to `anyOf` and a condition to `allOf`, which begin false and true. |
| `Aggregation.SlotsOf` | src/domain/weather/aggregation/aggregator.registry.ts:77-92 | One pass splits the slots read into the values found, in order, and a count of holes; together they are all slots. |
| `Normalizers.AcceptedCurveIsTotal` | src/domain/scoring/normalizer.registry.ts:66-140 | A curve whose parameters the schema accepts has a number at every value: no division by zero and no unknown name. |
| `Normalizers.DeclaredMonotonicity` | src/domain/scoring/normalizer.registry.ts:97-140 | A linear curve never falls and an inverse one never rises. |
| `Normalizers.PlateauShape` | src/domain/scoring/normalizers/trapezoid.ts:19-39 | The trapezoid is one exactly on its plateau and zero exactly beyond its feet, a foot included where its edge is not upright. |
| `Normalizers.BellShape` | src/domain/scoring/normalizer.registry.ts:70-135 | The Gaussian is one at its centre and never zero, and the inverse Gaussian is its exact complement. |
| `Normalizers.RampScoresTheFraction` | src/domain/scoring/normalizers/linear.ts:15-17 | A linear curve scores the fraction of the way between its ends, an inverse one what remains of it, clamped at both ends. |
| `Normalizers.PlateauRises` | src/domain/scoring/normalizers/trapezoid.ts:26-28 | On its rising edge a trapezoid scores the fraction climbed from the foot. |
| `Normalizers.PlateauFalls` | src/domain/scoring/normalizers/trapezoid.ts:34-36 | On its falling edge a trapezoid scores the fraction left above the foot. |
| `Normalizers.BellCountsDeviations` | src/domain/scoring/normalizers/gaussian.ts:16-20 | k standard deviations from its centre, on either side, a Gaussian of any width scores exp(-k²/2). |
| `Normalizers.StepPicksTheLastReached` | src/domain/scoring/normalizers/step.ts:20-32 | A step curve scores the value of the last point reached. |
| `Normalizers.StepCurve` | src/domain/scoring/normalizers/step.ts:20-32 | The loop with its early exit computes the step curve. |
| `Constraints.HoldsIsMonotone` | src/domain/scoring/scoring-engine.ts:222-244 | A decided constraint keeps its truth value however missing values are filled in. |
| `Constraints.HoldsIsSound` | src/domain/scoring/scoring-engine.ts:222-244 | A decided constraint agrees with the two-valued reading of every completion. |
| `Constraints.UndecidedIsExact` | src/domain/scoring/scoring-engine.ts:222-244 | Where each quantity is named once and no comparison is settled by itself, undecided means exactly that one completion makes it true and another false. |
| `Constraints.UndecidedTautology` | src/domain/scoring/scoring-engine.ts:222-244 | A constraint naming a quantity twice may stay undecided although every completion makes it true. |
| `Constraints.FiredAtExact` | src/domain/scoring/scoring-engine.ts:204-220 | The constraint reported is the first that is decided true. |
| `Constraints.FiringSurvivesCompletion` | src/domain/scoring/scoring-engine.ts:204-220 | If a constraint fires with values missing, one at the same place or earlier fires under every completion. |
| `Loader.LoadDeclarations` | src/domain/activity/declaration.load.ts:73-104 | The loops that push into one fault list yield all definitions when no fault was found, and all faults otherwise. |
| `LoadMeaning.LoadsExactly` | src/domain/activity/declaration.load.ts:73-794 | A load succeeds exactly when the shared rules and every declaration are written as they may be (known metrics in their own unit on a channel that carries them, values they can have, ordered curves, roles with their weights or floors, known reasons, rules and includes) and no version is declared twice or says other than what was last published under it; then every declaration is loaded. |
| `LoadMeaning.LoadedAsWritten` | src/domain/activity/declaration.load.ts:141-280 | A loaded definition says what was written: its features in order, each weight a share of one total, and its constraints, first the shared rules it includes and then its own, each with its reason and holding of every reading of a day as the written condition does. |
| `LoadMeaning.ReadMeansTheSame` | src/domain/activity/declaration.load.ts:643-708 | What was read of a condition holds of a reading exactly when the written tree of alternatives, conjunctions and negations does. |
| `LoadMeaning.FaultsNameTheFaulty` | src/domain/activity/declaration.load.ts:82-103 | A load that fails names every declaration that is not written as it may be, not the first alone. |
| `Loader.CheckEachVersion` | src/domain/activity/declaration.load.ts:745-794 | The loop over the declarations finds exactly the versions declared twice or rewritten. |
| `Loader.NoFaultMeansChecked` | src/domain/activity/declaration.load.ts:225-329 | Features without a fault all name known metrics with a unit, under different ids, and none is dropped. |
| `Soundness.LoadedIsSound` | src/domain/activity/declaration.load.ts:73-223 | Every definition the load yields reads only registered strategies with readable parameters, on channels that serve them, with weights that sum to one. |
| `Soundness.SoundDefinitionsNeverFault` | src/domain/scoring/scoring-engine.ts:43-80 | A sound definition is scored on every series, window and profile without an unregistered lookup, unreadable parameters or a division by zero. |
| `Soundness.LoadedDefinitionsNeverFault` | src/domain/activity/declaration.load.ts:73-708 | The static checker is sound: what it accepts, the engine scores on every input. |
| `Soundness.ResolvedFeaturesAreSound` | src/domain/activity/declaration.load.ts:225-329 | Features resolved without a fault are sound, and their weights are normalised over the additive ones. |
| `Soundness.SoundDefinitionReads` | src/domain/scoring/scoring-engine.ts:143-160 | A sound definition never reads a derived metric on the daily axis. |
| `Soundness.LoadRespectsVersions` | src/domain/activity/declaration.load.ts:745-794 | A load that succeeds declares no version twice and rewrites none that was published. |
| `Engine.ExtractValues` | src/domain/scoring/scoring-engine.ts:95-121 | The loop aggregates every quantity of features and constraints once, stopping at the first fault. |
| `Engine.CheckCoverage` | src/domain/scoring/scoring-engine.ts:171-202 | The loop refuses the day for the first feature that must not have gaps and has too many. |
| `Engine.EvaluateConstraints` | src/domain/scoring/scoring-engine.ts:204-220 | The loop stops at the first constraint decided true. |
| `Engine.NullPolicyInOnePass` | src/domain/scoring/scoring-engine.ts:277-327 | One pass separates what must be there and is not from what may be dropped. |
| `Engine.NormalizeAndCombine` | src/domain/scoring/scoring-engine.ts:338-420 | The loop that updates sum, gates and breakdown together computes the specified combination. |
| `Engine.Score` | src/domain/scoring/scoring-engine.ts:43-80 | The six stages in order compute the specified outcome, faults included. |
| `ScoringMeaning.GapsDecideFirst` | src/domain/scoring/scoring-engine.ts:43-77 | A required feature whose share of holes is above the threshold decides before everything else, and the first such is named. |
| `ScoringMeaning.ConstraintsDecideNext` | src/domain/scoring/scoring-engine.ts:43-77 | After that the first constraint decided true ranks the day at zero with its reason. |
| `ScoringMeaning.MissingDecidesThen` | src/domain/scoring/scoring-engine.ts:277-327 | After that, what is required and missing decides, and exactly those metrics are listed. |
| `ScoringMeaning.MeritsDecideLast` | src/domain/scoring/scoring-engine.ts:277-327 | With nothing required missing, the day is ranked on its merits exactly when some additive feature with a weight still counts; otherwise what was left out is listed. |
| `ScoringMeaning.RowsAreExact` | src/domain/scoring/scoring-engine.ts:338-422 | A day ranked on its merits has one row per feature, in order: its status and value, its curve at that value or the neutral score or nothing, and its share of the weights that still count times that, or the way from its floor to one that it limits by. |
| `ScoringMeaning.BoundsKeep` | src/domain/scoring/scoring-engine.ts:450-465 | A score within the bounds is kept, one beyond becomes the bound, and rounding goes to the nearest whole. |
| `ScoringMeaning.CoverageExactly` | src/domain/scoring/scoring-engine.ts:171-200 | The gap reported is that of the first required feature with a value whose holes, of all its slots, are more than the threshold allows. |
| `ScoringMeaning.ExtractedExactly` | src/domain/scoring/scoring-engine.ts:95-160 | For every definition a load can yield, what is extracted of a day is an answer for every quantity its features and conditions name, and for no other, and each tells what its slots say. |
| `ScoreLaws.BreakdownIsTheScore` | src/domain/scoring/scoring-engine.ts:338-465 | For every unconstrained ranking of a sound definition the effective weights sum to one and the score, between 0 and 100, is the rounded, bounded product of the contributions' sum and the gates, computed from the breakdown alone. |
| `ScoreLaws.RaisingAFeatureNeverLowers` | src/domain/scoring/scoring-engine.ts:338-465 | Between two unconstrained rankings with the same values missing, higher normalised values never give a lower score. |
| `ScoreLaws.FiredConstraintScoresZero` | src/domain/scoring/scoring-engine.ts:43-80 | A day with enough data on which a constraint fires is ranked with score zero, no breakdown, and that constraint's reason. |
| `ScoreLaws.AppliedIsSound` | src/domain/scoring/scoring-engine.ts:277-327 | After the null policy the additive weights that remain are shares of their total. |
| `Exclusion.ExclusionEqualsDeletion` | src/domain/scoring/scoring-engine.ts:277-327 | When features are excluded for want of data and some weight remains, the score is that of the declaration with those features deleted and its weights renormalised by the loader. |
| `Exclusion.DecideReadsItsKeys` | src/domain/scoring/scoring-engine.ts:43-80 | The decision depends on the declared quantities only. |
| `Requirements.RequirementsAreExact` | src/domain/activity/metric-requirements.ts:15-57 | A metric is required, once, exactly when some quantity the engine extracts names it or reads daylight by it. |
| `AggregationMeaning.DaylightIsAskedWhereRead` | src/domain/activity/metric-requirements.ts:15-57 | The daylight flag is required, besides the metrics themselves, exactly of what reads the daylight hours, whatever the day. |
| `Requirements.CollectRequirements` | src/domain/activity/metric-requirements.ts:15-57 | The additions over features and the walk over nested constraints collect the requirements in order of first mention. |
| `Requirements.Walk` | src/domain/activity/metric-requirements.ts:43-57 | The recursive walk adds what the leaves of an expression mention, from the left. |
| `Requirements.BaseMetricsAreExact` | src/domain/ranking/required-capabilities.ts:43-57 | The metrics asked of sources are exactly those some quantity cannot be computed without. |
| `Requirements.ExpandBases` | src/domain/ranking/required-capabilities.ts:43-57 | The nested additions replace derived metrics by their inputs, each once, in order. |
| `Requirements.RequiredCapabilitiesAreExact` | src/domain/ranking/required-capabilities.ts:23-40 | A capability owes exactly the metrics of its own that the declaration needs, each once, and none that owes nothing is listed. |
| `Requirements.ListedByFirstNeed` | src/domain/ranking/required-capabilities.ts:23-57 | Metrics, what sources are asked for, and capabilities are each listed in the order in which they are first needed, features before conditions. |
| `Requirements.GroupByCapability` | src/domain/ranking/required-capabilities.ts:23-40 | The loop that fills the map of lists computes the groups, capabilities in order of first need. |
| `Planning.ApplicableExactly` | src/domain/location/applicability-plan.ts:29-47 | The activities planned for are exactly the declared ones whose rules all hold at the place. |
| `Planning.PlannedWhenMet` | src/domain/location/applicability-plan.ts:29-47 | In terms of the evidence: for rules a load accepts, an activity is planned for exactly when the archive says at least the declared snowfall, or the guess is favourable, and the coast was seen, as far as it asks for them. |
| `LocationProfiles.SnowDecides` | src/domain/location/location-profile.ts:97-111 | A reading of the archive at the declared threshold is enough, more never is too much, and any less, down to none at all, rules the season out. |
| `LocationProfiles.GuessDecides` | src/domain/location/location-profile.ts:97-111 | A guess from the elevation decides by its own mark, and without evidence nothing is decided. |
| `LocationProfiles.CoastDecides` | src/domain/location/location-profile.ts:113-130 | A coast that was seen is one, as many empty days as the rule asks for, or two where it does not say, rule it out, and anything between is undecided. |
| `LocationProfiles.ApplicabilityNamesTheFirst` | src/domain/location/location-profile.ts:179-190 | The reason given is that of the first impossible rule, or, with none, of the first undecided one. |
| `Planning.PlanCalls` | src/modules/weather/metric-planner.service.ts:46-102 | The loop and its early exit compute the plan: one request per capability in the fixed order, metrics in dictionary order, or the first unsupported name. |
| `Planning.FirstUnknownIsNamed` | src/modules/weather/metric-planner.service.ts:46-78 | A plan is refused exactly for a name that is not known, and it is the first such name that is told. |
| `Planning.PlanIsTheUnionOfWhatIsOwed` | src/modules/weather/metric-planner.service.ts:46-102 | Per capability the plan asks for exactly the union of what it owes the applicable activities, each metric once; a capability nobody needs is not asked. |
| `Planning.DerivedExactly` | src/modules/weather/metric-planner.service.ts:46-78 | The plan lists each derived metric once, and exactly those some applicable activity names. |
| `Planning.NoNeedGoesUnasked` | src/domain/ranking/required-capabilities.ts:23-40 | Every capability an applicable activity depends on is among the planned requests. |
| `Merge.MergeIsADisjointUnion` | src/domain/weather/merge-series.ts:29-97 | Merging succeeds exactly when, per channel, all axes that exist are one and no metric arrives twice; then the result holds every such metric with its values and every provenance entry in order. |
| `Merge.MergeInAnyOrder` | src/domain/weather/merge-series.ts:29-56 | Where the merge fails, or each channel has an axis somewhere or is the same everywhere, any order of the contributions merges alike. |
| `Merge.MergeOrderShowsExactly` | src/domain/weather/merge-series.ts:29-97 | A merge gives the same channels and provenance entries in every order exactly when it fails, or each channel has an axis in some contribution or is equal in all of them. |
| `Merge.OrderShowsExactly` | src/domain/weather/merge-series.ts:58-69 | The same for the channels of one axis alone. |
| `Merge.SilentMergesKeepTheFirst` | src/domain/weather/merge-series.ts:63-69 | Two channels without an axis of which the first one put is the one kept. |
| `Merge.MergeChannel` | src/domain/weather/merge-series.ts:58-97 | The loop over the second channel's metrics combines the two, or reports a mismatch of axes or a metric both carry. |
| `Merge.MergeSeries` | src/domain/weather/merge-series.ts:29-56 | The fold merges all contributions, or stops at the first that does not fit and says why. |
| `Merge.SameAxis` | src/domain/weather/merge-series.ts:99-101 | Slot-by-slot comparison decides equality of axes. |
| `Containment.Gather` | src/modules/ranking/ranking.service.ts:128-195 | The loop over settled calls keeps what fits and records a failure for every call that threw, failed or did not line up; an impossible plan fails every capability. |
| `Containment.GatheredSeries` | src/modules/ranking/ranking.service.ts:154-195 | The series gathered is the merge of exactly the answers kept. |
| `Containment.GatheredFailures` | src/modules/ranking/ranking.service.ts:154-195 | A capability fails exactly when its answer was not kept, with its own error or as a mismatch. |
| `Containment.LostExactlyWhenAxesClash` | src/modules/ranking/ranking.service.ts:174-192 | A series that arrived is counted as a failure exactly when one kept before it is on another axis. |
| `Containment.AnUnneededAnswerCanCostANeededOne` | src/modules/ranking/ranking.service.ts:174-192 | A gathering in which the waves answered and surfing, which needs nothing else, is refused because a forecast came on another axis; without the forecast it is not. |
| `Containment.RefusalsAreExact` | src/modules/ranking/ranking.service.ts:257-309 | An activity is refused exactly when a capability it needs failed; the refusal is retryable, names the first such failure by its reason, and lists exactly the metrics that capability owed. |
| `Containment.VerdictComesFirst` | src/modules/ranking/ranking.service.ts:203-281 | What the place rules out is said whatever the sources did; what it leaves undecided is said next on a day, and after a failure where no day is known; and only then does a day score. |
| `Containment.NothingPlannedRefusesAll` | src/modules/ranking/ranking.service.ts:127-145 | Where nothing could be planned nothing is asked, and every possible activity is refused for what it needs. |
| `Containment.OthersChangeNothing` | src/modules/ranking/ranking.service.ts:203-281 | Once what an activity needs is available in two gatherings and answered the same, nothing else that was answered or failed changes its outcome on any day both contain. |
| `Containment.FaultsStayContained` | src/modules/ranking/ranking.service.ts:203-281 | While sources agree on the axes, the outcome of an activity, refusals included and dated or not, depends on the answers of its own capabilities alone. |
| `LocationProfiles.ApplicabilityPrecedence` | src/domain/location/location-profile.ts:179-200 | An impossible rule wins over an undecided one, and an activity is possible exactly when every rule is. |
| `LocationProfiles.SettledSettlesEveryRule` | src/domain/location/location-profile.ts:235-247 | When nothing is left to probe, every declared marine rule is decided. |
| `LocationProfiles.RequiredIsDeclared` | src/modules/geo/location-profile.service.ts:260-269 | The count probing goes by is one that some rule asks for, and two where none does. |
| `ProbeRows.EvidenceReadsTheTable` | src/modules/geo/adapters/profile-rows.ts:25-48 | Evidence rebuilt from rows says what the table says, in whatever order the rows come. |
| `ProbeRows.SavedRows` | src/modules/geo/adapters/profile-rows.ts:50-61 | Saving evidence with insert-or-ignore adds its missing days and alters no row. |
| `ProbeRuns.RowStoreSimulatesObjectStore` | src/domain/location/location-profile.ts:209-247 | On one instance with a clock that does not go back, evidence kept as rows and evidence kept as an object stay related through every run of visits. |
| `ProbeRuns.RelatedLooksAlike` | src/domain/location/location-profile.ts:113-135 | Related evidence gives the same verdict, last day, coverage and, while uncovered, the same days. |
| `ProbeRuns.ProbingStaysInBudget` | src/modules/geo/location-profile.service.ts:217-268 | Over a whole run a place gets at most one probe a day and no more answered probes than the confirmations required. |
| `ProfileStore.Database.Read` | src/modules/geo/adapters/db-profile.store.ts:149-168 | Reading a place rebuilds its profile from the tables and changes nothing. |
| `ProfileStore.DbProfileStore.Find` | src/modules/geo/adapters/db-profile.store.ts:43-78 | A find answers from the tables, or from the mirror through an outage, and says how the mirror changed. |
| `ProfileStore.DbProfileStore.Save` | src/modules/geo/adapters/db-profile.store.ts:80-147 | A save inserts missing days, never rewrites one, and leaves the mirror as read back. |
| `ProfileStore.WhatIsSavedIsRead` | src/modules/geo/adapters/db-profile.store.ts:80-168 | What is saved is what is read back: a profile of a new place as it was, and one of a known place but for the days on which the table said something already. |
| `ProbeProtocol.AlwaysInvariant` | src/modules/geo/adapters/db-profile.store.ts:43-147 | In every reachable state of any number of instances, stored, mirrored and answered evidence stands for probes that were made. |
| `ProbeProtocol.NoCoastlineIsEarned` | src/domain/location/location-profile.ts:113-135 | A verdict that no coastline is near implies that many distinct days for which some instance made a probe that was told nothing but empty slots. |
| `ProbeProtocol.EveryRowWasProbed` | src/modules/geo/adapters/db-profile.store.ts:80-147 | Every row stands for a probe made for that day and told that outcome. |
| `ProbeProtocol.FailuresNeverSettle` | src/domain/location/location-profile.ts:209-233 | While no probe was told all-null, no answer decides against a coastline. |
| `ProbeProtocol.RecordedCoverageIsSettled` | src/domain/location/location-profile.ts:235-247 | Once coverage is recorded no later read of the table asks for another probe. |
| `ProbeProtocol.CoverageIsRecordedUnlessTheDayIsTaken` | src/modules/geo/adapters/db-profile.store.ts:80-147 | Coverage found by a probe reaches the table exactly when no row for that day is there already. |
| `ProbeProtocol.LostRaceDropsCoverage` | src/modules/geo/adapters/db-profile.store.ts:80-147 | A run of two instances in which one of them sees coverage and, when both have saved, no row says so. |
| `CachedProbes.AlwaysSound` | src/modules/geo/marine-probe.service.ts:24-38 | In every interleaving of the protocol with one cache per instance, every probe rests on a response the source gave to that question, no older than the cache may serve. |
| `CachedProbes.WhatIsMetDecides` | src/modules/weather/decorators/cached-series.port.ts:87-130 | For any ask decided no sooner than its day began, from any sound state of the cache and in every later run: the day of the response it is given, and whether that is one of before the day, follow from the record or the call it meets when it is decided. |
| `CachedProbes.OwnDayExactly` | src/modules/geo/marine-probe.service.ts:24-38 | Behind every answered probe there is a logged response. It is one of the recorded day exactly when the ask met a response of that day, or met none and was given one before the day was over; it is one of before the day exactly when the ask met such a response. |
| `CachedProbes.LateEnoughIsFresh` | src/modules/weather/decorators/cached-series.port.ts:87-130 | A probe that met no response, or was answered from the cache no sooner after midnight UTC than a record may be old, meets that condition, provided the day was not over when it was answered. |
| `CachedProbes.AllConfirmedExactly` | src/modules/geo/location-profile.service.ts:217-237 | In every run the source itself said so on all the days recorded as all-null exactly when each of them has a probe that meets that condition. |
| `CachedProbes.NoCoastlineIsConfirmed` | src/domain/location/location-profile.ts:113-135 | Where each day recorded as all-null has a probe that met a response of its day, or none and got one in time, a verdict of no coastline rests on that many days on which the source said so. |
| `CachedProbes.OneResponseCanSettle` | src/modules/geo/location-profile.service.ts:217-237 | With the shipped lifetimes and any series that is all-null, a run with a single logged response that ends in a verdict of no coastline. |
| `CachedProbes.SomewhereInland` | src/modules/geo/marine-probe.service.ts:46-54 | There is such a series, aligned and with its provenance. |
| `CachedProbes.ProbeReadsTheWaves` | src/modules/geo/marine-probe.service.ts:45-53 | A single wave on either axis is coverage, a response that carries no waves on either is a failure, and what is left is all null. |
| `LocationService.LocationProfileService.Compute` | src/modules/geo/location-profile.service.ts:85-192 | One request answers the stored profile when current, and otherwise gathers, saves and answers, through outages and refusals. |
| `LocationService.AnswersAreExact` | src/modules/geo/location-profile.service.ts:85-192 | A known place is always answered, short of a refused find, and a new one exactly when it and its profile could be stored; the answer is the stored profile unless a newer one was stored in its place, which is of this moment exactly when something had to be looked for. |
| `LocationService.GatheringFollowsTheRules` | src/modules/geo/location-profile.service.ts:194-258 | The coast is probed for a marine rule, to the count required; a season is read for a snow rule, when none is known or a guess of another day is; and what no rule asks for is dropped. |
| `LocationService.RequestIsAProtocolRun` | src/modules/geo/location-profile.service.ts:85-237 | Every request, one that is refused or cannot save its place included, is a run of the protocol: its events give its answer and no other, change the table as it does and no other instance, and leave its own instance free for the next. |
| `LocationService.ArchiveIsPermanent` | src/modules/geo/location-profile.service.ts:194-215 | In every run of one process that is not restarted, through outages and failed saves, an archive reading once stored is stored for ever. |
| `LocationService.ReadingStaysExactly` | src/modules/geo/location-profile.service.ts:194-215 | Over any run of any number of instances a stored reading of the season stays at every moment exactly when every gathering whose profile is written found that reading with no need of another, or came back with that very reading. |
| `LocationService.ReadingStands` | src/modules/geo/location-profile.service.ts:194-215 | With any number of instances and restarts, a reading that all of them have in hand stands while nobody is answered from a memory without it and no gathering looks for a new one. |
| `LocationService.AGuessCanOverwriteTheArchive` | src/modules/geo/adapters/db-profile.store.ts:92-110 | A run of two instances, each gathering as the rule says, in which a stored archive reading becomes a guess. |
| `LocationService.GuessIsKeptForItsDay` | src/modules/geo/location-profile.service.ts:202-215 | With nothing better found, a gathering keeps a heuristic reading exactly on the day it was made and drops it on any other. |
| `CacheKeys.SameKeySameQuestion` | src/common/cache/cache-keys.ts:66-151 | Requests with equal keys put the same question to the source exactly when the horizons they are widened to agree. |
| `CacheKeys.CellIsNearest` | src/common/cache/cache-keys.ts:98-100 | A coordinate is keyed by its nearest hundredth of a degree, alike on both sides of zero. |
| `CacheKeys.CellsAreSmall` | src/common/cache/cache-keys.ts:98-100 | Places that share a cell lie within a hundredth of a degree of each other, and cells are in the order of their places. |
| `CacheKeys.WideningReachesForward` | src/modules/weather/decorators/cached-series.port.ts:160-170 | Widening only reaches further forward, as far as is wanted and the source declares; it leaves alone everything else, and every request with days of history or between two dates. |
| `CacheKeys.SharedEntriesAreTransparent` | src/common/cache/cache-keys.ts:143-151 | Within the configured maximum and the declared limit, requests that share an entry always ask the same question. |
| `CacheKeys.LengthIsNotInTheKey` | src/common/cache/cache-keys.ts:143-151 | Requests that differ only in how far forward they reach share one entry. |
| `CacheKeys.LongRequestsShareTooMuch` | src/common/cache/cache-keys.ts:143-151 | Two requests beyond that limit that share an entry and ask different questions. |
| `CacheKeys.FreshnessEndsOnTheBoundary` | src/common/cache/freshness.ts:27-29 | Data is fresh until a multiple of its lifetime that lies ahead, by at most one lifetime. |
| `CacheKeys.FreshIsNeverExpired` | src/common/cache/freshness.ts:27-36 | When the lifetime is no longer than the allowed staleness, a fresh record is never expired. |
| `CacheKeys.CodecRoundTrip` | src/common/cache/codecs.ts:61-195 | Decoding what was encoded gives the series back exactly when it is aligned and says where it came from. |
| `CacheMachine.AlwaysInvariant` | src/modules/weather/decorators/cached-series.port.ts:59-151 | In every interleaving of lookups, calls, settlements, evictions, refreshes and ticks, records and answers are backed by what the source returned. |
| `CacheMachine.EveryAnswerIsTheSourcesOwn` | src/modules/weather/decorators/cached-series.port.ts:87-133 | Every answer is the slice of a series the source returned for that key at the moment it claims, young enough, and marked stale exactly when past its boundary. |
| `CacheMachine.EveryAnswerPutItsQuestion` | src/modules/weather/decorators/cached-series.port.ts:87-133 | While no request exceeds what requests are widened to, every answer is made of a call that put the very question of its own request. |
| `CacheMachine.OnlySuccessIsRemembered` | src/modules/weather/decorators/cached-series.port.ts:59-85 | A failure is never stored. |
| `CacheMachine.OneCallPerKey` | src/common/cache/single-flight.ts:18-36 | At most one call per key is running, background refreshes included. |
| `CacheMachine.FreshRecordsAreServable` | src/modules/weather/decorators/cached-series.port.ts:87-126 | A record the cache calls fresh can always be served. |
| `CachedSeries.SingleFlight.Run` | src/common/cache/single-flight.ts:18-36 | A running call of the key is joined, and otherwise one is started and registered. |
| `CachedSeries.SingleFlight.Settle` | src/common/cache/single-flight.ts:18-36 | A settled call leaves the table of running calls and no other does. |
| `CachedSeries.CachedSeriesPort.Look` | src/modules/weather/decorators/cached-series.port.ts:87-98 | A fetch begins with a lookup under the key of the widened request; a cache that fails is a miss. |
| `CachedSeries.CachedSeriesPort.DecideFetch` | src/modules/weather/decorators/cached-series.port.ts:87-133 | What a request does with what it found is the machine's step: serve, serve and refresh, or wait for a call. |
| `CacheMachine.DecisionsAreExact` | src/modules/weather/decorators/cached-series.port.ts:87-151 | In every reachable state: what is fresh is served and begins no call; what is stale is served and a call of its key is under way afterwards, the one in flight or a new one that takes the widened request out; and what cannot be served waits for the call of its key, which is under way. |
| `CacheMachine.WhatWasStoredIsServed` | src/modules/weather/decorators/cached-series.port.ts:59-133 | In every reachable state: once the source has answered a call and the cache has taken the answer, a later ask under that key is served with it until it expires, as stale from its boundary on, and after that waits for a call. |
| `CacheMachine.EveryWaiterHearsTheSource` | src/modules/weather/decorators/cached-series.port.ts:127-131 | Whoever waits for a call hears what its source said, a failure as it was told and a success cut to the request, whatever happens in between. |
| `CachedSeries.CachedSeriesPort.Obtain` | src/modules/weather/decorators/cached-series.port.ts:59-85 | The call that leaves is logged and, when it succeeds, written to the cache under its own key. |
| `CachedSeries.CachedSeriesPort.Write` | src/modules/weather/decorators/cached-series.port.ts:62-71 | A success is written with its moment, freshness and expiry, or the write is lost; either way the call settles. |
| `CachedSeries.AnswersScoreAsTheSource` | src/modules/weather/decorators/cached-series.port.ts:173-180 | Cached or not, stale or fresh, sliced or whole, an answer scores every day it contains as the source's own series does. |
| `CachedSeries.AnswersAreCutAndMarked` | src/modules/weather/decorators/cached-series.port.ts:173-180 | An answer holds the first days asked for, or all where it was not asked for a length, and every source in it is marked stale or not as the answer is. |
| `TokenBucket.AvailableIsTheLeastRoom` | src/modules/weather/outbound-budget/token-bucket.ts:46-56 | The refilled level is the least room left under the limit by any stretch that begins with its moment, for requests of any sign. |
| `TokenBucket.AdmissionIsExact` | src/modules/weather/outbound-budget/token-bucket.ts:28-38 | Where nothing was given back, a request fits exactly when, from every earlier observation on, what was admitted plus the request stays within limit plus refill. |
| `TokenBucket.AdmissionSinceEachMoment` | src/modules/weather/outbound-budget/token-bucket.ts:28-56 | For requests of any sign, admission is exact over the stretches that begin with a moment, and below the limit once the clock has moved. |
| `TokenBucket.EveryStretchIsBounded` | src/modules/weather/outbound-budget/token-bucket.ts:28-56 | In every reachable state every stretch that begins with its moment, and every stretch at all where nothing was given back, admitted at most the limit plus what flowed back. |
| `TokenBucket.AWindowRefillsTheLimit` | src/modules/weather/outbound-budget/token-bucket.ts:46-56 | What flows back is in proportion to the time, and in one window as much as the limit. |
| `TokenBucket.Bucket.Refill` | src/modules/weather/outbound-budget/token-bucket.ts:46-56 | The mutable level equals the level the history determines, with a clock that may stand still or step back. |
| `TokenBucket.Bucket.TryConsume` | src/modules/weather/outbound-budget/token-bucket.ts:28-38 | Takes the units or none, whatever their sign, and takes them exactly when every stretch has room. |
| `TokenBucket.Bucket.Remaining` | src/modules/weather/outbound-budget/token-bucket.ts:40-44 | Reports the whole units available now. |
| `OutboundBudget.OutboundBudgetService.TryConsume` | src/modules/weather/outbound-budget/outbound-budget.service.ts:61-79 | One unit is taken from all three windows or from none, exactly when each has one. |
| `OutboundBudget.AllBoundsHold` | src/modules/weather/outbound-budget/outbound-budget.service.ts:36-79 | Over any stretch each of the three windows bounds what was admitted: in a minute, an hour and a day at most twice their limits, however the requests fall. |
| `AuditBuffer.NothingGoesMissing` | src/modules/ranking/audit/audit-buffer.service.ts:56-133 | In every reachable state, through shutdown, recorded equals written plus lost plus in flight plus waiting, in recorded order, within the bound. |
| `AuditBuffer.NextKeepsOrder` | src/modules/ranking/audit/audit-buffer.service.ts:56-115 | Written, in flight and waiting, one after another, stay a subsequence of what was recorded. |
| `AuditBuffer.EveryRecordsWay` | src/modules/ranking/audit/audit-buffer.service.ts:56-133 | The way of every record through every run: it waits, goes out with the next flush that finds no write outstanding, unless a shutdown comes first or as many records as there is room for, and is then written or gone as its write turns out. |
| `AuditBuffer.LatestAlwaysWait` | src/modules/ranking/audit/audit-buffer.service.ts:56-95 | What waits is always what was recorded last, without a gap. |
| `AuditBuffer.RecordConservesExactly` | src/modules/ranking/audit/audit-buffer.service.ts:56-79 | Recording keeps the account exact exactly when there was a record to shift out or room for the new one. |
| `AuditBuffer.ExactExactlyWithRoom` | src/modules/ranking/audit/audit-buffer.service.ts:56-79 | The account is exact on all runs exactly when the buffer holds at least one record. |
| `AuditBuffer.NoRoomOvercounts` | src/modules/ranking/audit/audit-buffer.service.ts:56-79 | A run with no room in which more is counted than was recorded. |
| `AuditBuffer.AuditBufferService.RecordRun` | src/modules/ranking/audit/audit-buffer.service.ts:56-79 | The fields after a record are the account's next state, the oldest dropped and counted at the bound. |
| `AuditBuffer.AuditBufferService.BeginFlush` | src/modules/ranking/audit/audit-buffer.service.ts:81-95 | A flush hands over everything waiting, unless a write is outstanding. |
| `AuditBuffer.AuditBufferService.SettleFlush` | src/modules/ranking/audit/audit-buffer.service.ts:95-115 | A settled write is counted as written or as lost, and the next may begin. |
| `AuditBuffer.AuditBufferService.DropRest` | src/modules/ranking/audit/audit-buffer.service.ts:117-133 | What is left at shutdown is counted as lost. |
| `DepthRule.DepthRespectsInlining` | src/modules/api/graphql/max-depth.rule.ts:49-94 | On every acyclic table of fragments the measured depth is the depth of the query with all fragments written in place. |
| `DepthRule.InlinedIsSpreadFree` | src/modules/api/graphql/max-depth.rule.ts:49-94 | Writing the fragments of an acyclic table in place leaves no spread. |
| `DepthRule.AllDepthIsTheCuts` | src/modules/api/graphql/max-depth.rule.ts:49-94 | On any table, cyclic ones included, the measured depth is exactly the nesting of the query written out and cut where a fragment comes back to itself, which has no spread left. |
| `DepthRule.NothingIsCut` | src/modules/api/graphql/max-depth.rule.ts:49-94 | On an acyclic table nothing is cut: the cut query is the inlined one. |
| `DepthRule.AllDepthWithinUnrolling` | src/modules/api/graphql/max-depth.rule.ts:49-94 | On any table, cyclic ones included, the measured depth is at most that of every sufficiently high unrolling, which cuts nothing above its height. |
| `DepthRule.MeasureDepth` | src/modules/api/graphql/max-depth.rule.ts:49-94 | The loop with its running maximum terminates on every table and computes the depth. |
| `DepthRule.DepthIsTheLongestWay` | src/modules/api/graphql/max-depth.rule.ts:49-94 | On any table the measured depth is the length of the longest way down through the query, written out and cut where a fragment comes back to itself; fields whose names begin with two underscores are not counted, nor anything under them. |
| `CanonicalJson.CanonicalFormsAgree` | src/infrastructure/db/seed/checksum.ts:15-33 | Canonical forms agree exactly when two documents have the same content, whatever the order of keys at any depth. |
| `CanonicalJson.NoDifferencesMeansSameContent` | src/infrastructure/db/seed/checksum.ts:43-55 | Nothing is reported exactly when the two documents have the same content. |
| `CanonicalJson.DifferencesAreNamedExactly` | src/infrastructure/db/seed/checksum.ts:43-55 | The paths reported are exactly those that lead, in both documents, to values that differ and are not both objects. |
| `CanonicalJson.DifferencesAreInOrder` | src/infrastructure/db/seed/checksum.ts:43-55 | They are reported in the order of their keys at every depth, and none of them twice. |
| `Publication.RuleTable.PublishVersions` | src/infrastructure/db/seed/publish.ts:60-105 | The select-then-insert loop computes the run: what is stored, what is reported, and where a conflict stops it. |
| `Publication.EveryRunOnlyGrows` | src/infrastructure/db/seed/publish.ts:60-105 | No run, a failing one included, alters or removes a stored version; a successful one has stored every name with its first content. |
| `Publication.SucceedsExactlyWhenAllAgree` | src/infrastructure/db/seed/publish.ts:72-103 | A run succeeds exactly when no version contradicts the table or an earlier version of the same name. |
| `Publication.ConflictIsTheFirst` | src/infrastructure/db/seed/publish.ts:91-100 | A conflict names the first contradicting version and exactly the places that differ; what came before it is stored and nothing after. |
| `Publication.RepublishingIsANoOp` | src/infrastructure/db/seed/publish.ts:60-105 | Publishing the same contents again, keys in any order, succeeds, reports all as unchanged and stores nothing. |

## Left out

- Floating-point rounding: numbers are reals, `Math.round` is the floor of x + 1/2, and `exp` is any function that is 1 at 0 and lies in (0, 1] below it.
- Text: digests, checksums and rendered keys are taken as injective; Unicode folding, number formatting and messages are not modelled. Keys that look like integers are serialised in numeric order by the runtime, which changes no comparison.
- Parameters written in a declaration are records of optional fields, so surplus keys and values of the wrong type are not modelled; an unknown name is a constructor of its own.
- The shared list of faults of the load is modelled by lists that are concatenated in the same order; fault texts are reduced to their kinds.
- Sunrise and sunset are metrics without a number, as in the dictionary; no series carries them.
- Containment.OthersChangeNothing: assumes that each source carries, and names in its provenance, only metrics of its own capability, as the mapper's provenance and the planner's requests provide; the mapper itself is not modelled.
- Merge.MergeChannel: which of several colliding metrics is named is left open, because the order of an object's keys is.
- Planning.PlanCalls: the requirements of a loaded declaration always carry known names, so the refusal is reachable only for other callers.
- ProfileStore.DbProfileStore.Save: the transaction is one step that commits or does not, and the locations table enters only as whether the place could be saved.
- CachedProbes.AlwaysSound: one place is followed; the requests the cache serves besides are arbitrary, and the time a call or a write to the cache takes is not bounded.
- ProbeProtocol.AlwaysInvariant: a find, a gathering and a save are atomic steps; what happens inside the database during one is not modelled.
- CacheMachine.AlwaysInvariant: a source that throws is a call that settles with an error; the cache behind the port is a map that may drop any entry at any time.
- Publication.RuleTable.PublishVersions: rows hold the content alone; the identifier, the checksum and the dates stored beside it are never read by a publication.
- The HTTP client, retries, breaker, bulkhead and timeouts, and the internals of the snow probe: an arbitrary answer stands for them.
- The LRU adapter and its byte accounting, SQL, migrations, the seed's own contents and the calibration of weights.
- `rankDay`, the comparison of the depth with its limit, the answer's time zone and age, the catalogue index, horizon validation, environment parsing, metrics, logging and the wiring of modules and resolvers: true but easy.
