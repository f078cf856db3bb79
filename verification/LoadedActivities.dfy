/** What holds of every activity a load accepts, from its declaration to its score behind the cache. */
module LoadedActivities {
  import opened Requirements
  import opened Definitions
  import opened Series
  import opened DayWindows
  import opened Aggregation
  import opened Slicing
  import opened Engine
  import opened Loader
  import opened Soundness
  import opened Planning
  import opened SliceTheorem
  import M = CacheMachine
  import A = CachedSeries
  import C = Containment

  /** The definition is among those a load without a fault has yielded. */
  ghost predicate Loaded(definition: Definition, inputs: seq<RawDeclaration>, rules: RawSharedRules, published: seq<PublishedVersion>) {
    var loaded := Load(inputs, rules, published);
    loaded.Ok? && exists i :: 0 <= i < |loaded.value| && loaded.value[i].definition == definition
  }

  /** No loaded definition reads a derived metric on the daily axis. */
  lemma {:induction false} LoadedReadsNoDerivedDaily(
    definition: Definition, inputs: seq<RawDeclaration>, rules: RawSharedRules, published: seq<PublishedVersion>
  )
    requires Loaded(definition, inputs, rules, published)
    ensures NoDerivedDaily(definition)
  {
    var loaded := Load(inputs, rules, published).value;
    var i :| 0 <= i < |loaded| && loaded[i].definition == definition;
    LoadedIsSound(inputs, rules, published, i);
    SoundDefinitionReads(definition);
    forall key | key in KeysOf(definition) ensures !ReadsDerivedDaily(key) {
      assert SoundRead(key);
    }
  }

  /** Every loaded definition scores a day of a slice as it scores that day of the whole. */
  lemma {:induction false} LoadedScoresCommuteWithSlicing(
    definition: Definition, inputs: seq<RawDeclaration>, rules: RawSharedRules, published: seq<PublishedVersion>,
    series: WeatherSeries, days: int, date: string, profile: Profile, exp: real -> real
  )
    requires Loaded(definition, inputs, rules, published) && Aligned(series)
    requires date in DistinctDates(SliceToDays(series, days).hourly.time)
    ensures var sliced := SliceToDays(series, days);
      ScoreActivity(definition, sliced, WindowOn(sliced, date), profile, exp)
        == ScoreActivity(definition, series, WindowOn(series, date), profile, exp)
  {
    LoadedReadsNoDerivedDaily(definition, inputs, rules, published);
    ScoringCommutesWithSlicing(definition, series, days, date, profile, exp);
  }

  ghost predicate ScoresAlike(
    definition: Definition, one: WeatherSeries, other: WeatherSeries, date: string, profile: Profile, exp: real -> real
  ) {
    ScoreActivity(definition, one, WindowOn(one, date), profile, exp)
      == ScoreActivity(definition, other, WindowOn(other, date), profile, exp)
  }

  /**
   * From the declaration to the answer: in every interleaving of the cache in
   * which no request exceeds what requests are widened to, each answer scores
   * every day it contains, for every activity the load accepted, as what the
   * source itself said to that very question.
   */
  lemma {:induction false} LoadedAnswersScoreAsTheSource(
    definition: Definition, inputs: seq<RawDeclaration>, rules: RawSharedRules, published: seq<PublishedVersion>,
    events: seq<M.Event>, k: nat, config: M.Config, date: string, profile: Profile, exp: real -> real
  )
    requires Loaded(definition, inputs, rules, published) && config.Valid() && M.LookupsWithin(events, config)
    requires forall entry :: entry in M.After(events, config).log ==> Aligned(entry.series)
    requires k < |M.After(events, config).answers| && M.After(events, config).answers[k].Result().Ok?
    requires date in DistinctDates(M.After(events, config).answers[k].Result().value.hourly.time)
    ensures var system := M.After(events, config);
      exists entry :: entry in system.log && M.AnswersTheQuestion(system.answers[k], entry, config)
        && ScoresAlike(definition, system.answers[k].Result().value, entry.series, date, profile, exp)
  {
    var system := M.After(events, config);
    var answer := system.answers[k];
    LoadedReadsNoDerivedDaily(definition, inputs, rules, published);
    M.EveryAnswerPutItsQuestion(events, k, config);
    var entry :| entry in system.log && M.AnswersTheQuestion(answer, entry, config);
    A.AnswersScoreAsTheSource(
      definition, entry.series, answer.request, answer.FromCache? && answer.stale, date, profile, exp);
    assert ScoresAlike(definition, answer.Result().value, entry.series, date, profile, exp);
  }

  /** While the sources agree on the time axis, a loaded activity hears of no failure but those of what it needs. */
  lemma {:induction false} LoadedFaultsStayContained(
    judged: ActivityVerdict, inputs: seq<RawDeclaration>, rules: RawSharedRules, published: seq<PublishedVersion>,
    left: seq<C.Settled>, right: seq<C.Settled>, date: string, profile: Profile, exp: real -> real
  )
    requires Loaded(judged.definition, inputs, rules, published)
    requires C.Honest(left, CapabilityOf) && C.Honest(right, CapabilityOf) && C.OneClock(left) && C.OneClock(right)
    requires C.SameForNeeds(judged.definition, left, right)
    ensures C.OutcomeWithoutADay(judged, C.Gathered(left)) == C.OutcomeWithoutADay(judged, C.Gathered(right))
    ensures
      C.Gathered(left).series.Some? && C.OnAxis(C.Gathered(left).series.value, date) &&
      C.Gathered(right).series.Some? && C.OnAxis(C.Gathered(right).series.value, date) ==>
        C.OutcomeOn(judged, C.Gathered(left), date, profile, exp) == C.OutcomeOn(judged, C.Gathered(right), date, profile, exp)
  {
    LoadedReadsNoDerivedDaily(judged.definition, inputs, rules, published);
    C.FaultsStayContained(judged, left, right, date, profile, exp);
  }
}
