/** What a day is told, in the order in which knowledge decides, and what each row of a score says of its feature. */
module ScoringMeaning {
  import opened Prelude
  import opened Metrics
  import opened Definitions
  import opened Series
  import opened DayWindows
  import opened Aggregation
  import opened Normalizers
  import opened Engine
  import opened Soundness
  import opened ScoreLaws
  import M = AggregationMeaning
  import X = Exclusion

  // ---- What a day is found to be ----

  /** The answer for a quantity is what its slots say, or none when no channel carries it. */
  predicate TellsOf(key: Key, series: WeatherSeries, window: DayWindow, answer: Option<AggregatedValue>) {
    if M.Carried(key, series) then
      M.Accounts(key.aggregation, M.SlotsFor(key, series, window), UnitOf(key.metric), answer)
    else answer.None?
  }

  /** Every quantity a definition names is extracted, and no other, and each tells of the day. */
  lemma {:induction false} ExtractedExactly(definition: Definition, series: WeatherSeries, window: DayWindow)
    requires SoundDefinition(definition)
    ensures Extract(KeysOf(definition), series, window).Ok?
    ensures var values := Extract(KeysOf(definition), series, window).value;
      && (forall key :: key in values <==> key in KeysOf(definition))
      && forall key :: key in values ==> TellsOf(key, series, window, values[key])
  {
    SoundDefinitionReads(definition);
    SoundExtractionSucceeds(KeysOf(definition), series, window);
    X.ExtractExact(KeysOf(definition), series, window);
    var values := Extract(KeysOf(definition), series, window).value;
    forall key | key in values ensures TellsOf(key, series, window, values[key]) {
      assert SoundRead(key);
      M.AggregatedExactly(key, series, window);
    }
  }

  // ---- Coverage ----

  /** What must not be missing is there in part, and more of it is missing than the profile allows. */
  predicate Gappy(feature: Feature, values: Values, profile: Profile) {
    var value := Of(values, feature.Quantity());
    && feature.nullPolicy == Fail && value.Some? && value.value.sampleCount > 0
    && value.value.missingCount as real > profile.gapThreshold * (value.value.sampleCount + value.value.missingCount) as real
  }

  lemma {:induction false} OverThreshold(part: real, whole: real, threshold: real)
    requires whole > 0.0
    ensures part / whole > threshold <==> part > threshold * whole
  {
    var share := part / whole;
    assert share * whole == part;
    if share > threshold {
      PositiveTimes(share - threshold, whole);
    } else if share < threshold {
      PositiveTimes(threshold - share, whole);
    }
  }

  lemma {:induction false} GappyExactly(feature: Feature, values: Values, profile: Profile)
    ensures TooManyMissing(feature, values, profile) <==> Gappy(feature, values, profile)
  {
    var value := Of(values, feature.Quantity());
    if value.Some? && value.value.sampleCount > 0 {
      OverThreshold(value.value.missingCount as real, (value.value.sampleCount + value.value.missingCount) as real,
        profile.gapThreshold);
    }
  }

  /** The first feature with too many gaps, if there is one. */
  ghost predicate FirstGappy(features: seq<Feature>, values: Values, profile: Profile, i: nat)
    requires i < |features|
  {
    Gappy(features[i], values, profile) && forall j :: 0 <= j < i ==> !Gappy(features[j], values, profile)
  }

  lemma {:induction false} CoverageExactly(features: seq<Feature>, values: Values, profile: Profile)
    ensures FirstGap(features, values, profile).None? ==>
      forall i :: 0 <= i < |features| ==> !Gappy(features[i], values, profile)
    ensures FirstGap(features, values, profile).Some? ==>
      exists i :: 0 <= i < |features| && FirstGappy(features, values, profile, i)
        && FirstGap(features, values, profile).value == features[i].metric
  {
    if features != [] {
      GappyExactly(features[0], values, profile);
      if TooManyMissing(features[0], values, profile) {
        assert FirstGappy(features, values, profile, 0);
      } else {
        CoverageExactly(features[1..], values, profile);
        assert forall i :: 0 < i < |features| ==> features[i] == features[1..][i - 1];
        if FirstGap(features, values, profile).Some? {
          var i :| 0 <= i < |features[1..]| && FirstGappy(features[1..], values, profile, i)
            && FirstGap(features[1..], values, profile).value == features[1..][i].metric;
          assert FirstGappy(features, values, profile, i + 1);
        }
      }
    }
  }

  // ---- Which stage decides ----

  /** The first constraint decided true, if there is one. */
  ghost predicate FirstTrue(constraints: seq<Constraint>, values: Values, i: nat)
    requires i < |constraints|
  {
    Holds(constraints[i].when, values) == Some(true)
    && forall j :: 0 <= j < i ==> Holds(constraints[j].when, values) != Some(true)
  }

  lemma {:induction false} FiredExactly(constraints: seq<Constraint>, values: Values)
    ensures FirstFired(constraints, values).None? ==>
      forall i :: 0 <= i < |constraints| ==> Holds(constraints[i].when, values) != Some(true)
    ensures FirstFired(constraints, values).Some? ==>
      exists i :: 0 <= i < |constraints| && FirstTrue(constraints, values, i)
        && FirstFired(constraints, values).value == constraints[i].reason
  {
    if constraints != [] {
      if Holds(constraints[0].when, values) == Some(true) {
        assert FirstTrue(constraints, values, 0);
      } else {
        FiredExactly(constraints[1..], values);
        assert forall i :: 0 < i < |constraints| ==> constraints[i] == constraints[1..][i - 1];
        if FirstFired(constraints, values).Some? {
          var i :| 0 <= i < |constraints[1..]| && FirstTrue(constraints[1..], values, i)
            && FirstFired(constraints[1..], values).value == constraints[1..][i].reason;
          assert FirstTrue(constraints, values, i + 1);
        }
      }
    }
  }

  predicate Lacking(feature: Feature, values: Values) {
    feature.nullPolicy == Fail && Of(values, feature.Quantity()).None?
  }

  predicate LetGoOf(feature: Feature, values: Values) {
    feature.nullPolicy == Exclude && Of(values, feature.Quantity()).None?
  }

  /** A day with gaps is told of the first of them, whatever else is known of it. */
  lemma {:induction false} GapsDecideFirst(definition: Definition, values: Values, profile: Profile, exp: real -> real, i: nat)
    requires i < |definition.features| && FirstGappy(definition.features, values, profile, i)
    ensures Decide(definition, values, profile, exp) == Ok(NoData(TooManyGaps, [definition.features[i].metric], false))
  {
    CoverageExactly(definition.features, values, profile);
    if FirstGap(definition.features, values, profile).Some? {
      var j :| 0 <= j < |definition.features| && FirstGappy(definition.features, values, profile, j)
        && FirstGap(definition.features, values, profile).value == definition.features[j].metric;
      assert i == j;
    }
  }

  predicate NoGaps(features: seq<Feature>, values: Values, profile: Profile) {
    forall j :: 0 <= j < |features| ==> !Gappy(features[j], values, profile)
  }

  lemma {:induction false} NoGapFound(features: seq<Feature>, values: Values, profile: Profile)
    requires NoGaps(features, values, profile)
    ensures FirstGap(features, values, profile).None?
  {
    CoverageExactly(features, values, profile);
  }

  /** Without gaps the first constraint that is true scores a zero, even if something required is missing. */
  lemma {:induction false} ConstraintsDecideNext(definition: Definition, values: Values, profile: Profile, exp: real -> real, i: nat)
    requires NoGaps(definition.features, values, profile)
    requires i < |definition.constraints| && FirstTrue(definition.constraints, values, i)
    ensures Decide(definition, values, profile, exp) == Ok(Ranked(0, Some(definition.constraints[i].reason), [],
      definition.version, profile.id, profile.version))
  {
    NoGapFound(definition.features, values, profile);
    FiredExactly(definition.constraints, values);
    if FirstFired(definition.constraints, values).Some? {
      var j :| 0 <= j < |definition.constraints| && FirstTrue(definition.constraints, values, j)
        && FirstFired(definition.constraints, values).value == definition.constraints[j].reason;
      assert i == j;
    }
    FiredConstraintScoresZero(definition, values, profile, exp);
  }

  predicate NothingTrue(constraints: seq<Constraint>, values: Values) {
    forall j :: 0 <= j < |constraints| ==> Holds(constraints[j].when, values) != Some(true)
  }

  lemma {:induction false} NothingFired(constraints: seq<Constraint>, values: Values)
    requires NothingTrue(constraints, values)
    ensures FirstFired(constraints, values).None?
  {
    FiredExactly(constraints, values);
  }

  predicate LackedBy(features: seq<Feature>, values: Values, metric: Requirable) {
    exists i :: 0 <= i < |features| && Lacking(features[i], values) && features[i].metric == metric
  }

  lemma {:induction false} MissingExactly(features: seq<Feature>, values: Values, metric: Requirable)
    ensures metric in Collect(features, MissingRequired(values)) <==> LackedBy(features, values, metric)
  {
    CollectedFrom(features, MissingRequired(values), metric);
    forall i | 0 <= i < |features|
      ensures metric in MissingRequired(values)(features[i]) <==> Lacking(features[i], values) && features[i].metric == metric
    {
    }
  }

  /** After that what is missing and required decides, and the answer lists exactly those metrics. */
  lemma {:induction false} MissingDecidesThen(definition: Definition, values: Values, profile: Profile, exp: real -> real, i: nat)
    requires NoGaps(definition.features, values, profile) && NothingTrue(definition.constraints, values)
    requires i < |definition.features| && Lacking(definition.features[i], values)
    ensures var outcome := Decide(definition, values, profile, exp);
      && outcome.Ok? && outcome.value.NoData? && outcome.value.missingFor == MissingRequiredMetric && !outcome.value.retryable
      && forall metric :: metric in outcome.value.missingMetrics <==> LackedBy(definition.features, values, metric)
  {
    NoGapFound(definition.features, values, profile);
    NothingFired(definition.constraints, values);
    var missing := Collect(definition.features, MissingRequired(values));
    forall metric ensures metric in missing <==> LackedBy(definition.features, values, metric) {
      MissingExactly(definition.features, values, metric);
    }
    assert definition.features[i].metric in missing;
  }

  /** A feature that adds to the score, is there or made up for, and weighs something. */
  predicate StillCounts(feature: Feature, values: Values) {
    feature.role == Additive && !LetGoOf(feature, values) && feature.weight.Some? && feature.weight.value > 0.0
  }

  predicate SomethingCounts(features: seq<Feature>, values: Values) {
    exists i :: 0 <= i < |features| && StillCounts(features[i], values)
  }

  lemma {:induction false} NoneAddUp(xs: seq<real>)
    requires forall i :: 0 <= i < |xs| ==> xs[i] == 0.0
    ensures Sum(xs) == 0.0
  {
    if xs != [] {
      NoneAddUp(xs[..|xs| - 1]);
    }
  }

  lemma {:induction false} NothingKept(features: seq<Feature>, values: Values, weight: real)
    requires forall i :: 0 <= i < |features| ==> SoundFeature(features[i])
    requires !SomethingCounts(features, values) && weight in Collect(features, KeptWeight(values))
    ensures weight == 0.0
  {
    CollectedFrom(features, KeptWeight(values), weight);
    var i :| 0 <= i < |features| && weight in KeptWeight(values)(features[i]);
    StatusExactly(features[i], values);
    assert SoundFeature(features[i]) && !StillCounts(features[i], values);
  }

  lemma {:induction false} SomethingKept(features: seq<Feature>, values: Values, i: nat)
    requires forall i :: 0 <= i < |features| ==> SoundFeature(features[i])
    requires i < |features| && Contributes(features[i], values) && WeightOr0(features[i]) > 0.0
    ensures Sum(Collect(features, KeptWeight(values))) > 0.0
  {
    KeptWeightsNonNegative(features, values);
    KeptWeightAt(features, values, i);
    AtMostTheSum(Collect(features, KeptWeight(values)), WeightOr0(features[i]));
  }

  lemma {:induction false} AtMostTheSum(xs: seq<real>, x: real)
    requires x in xs && forall i :: 0 <= i < |xs| ==> 0.0 <= xs[i]
    ensures x <= Sum(xs)
  {
    SumNonNegative(xs);
  }

  lemma {:induction false} CountsExactly(features: seq<Feature>, values: Values)
    requires forall i :: 0 <= i < |features| ==> SoundFeature(features[i])
    ensures Sum(Collect(features, KeptWeight(values))) > 0.0 <==> SomethingCounts(features, values)
  {
    var kept := Collect(features, KeptWeight(values));
    if SomethingCounts(features, values) {
      var i :| 0 <= i < |features| && StillCounts(features[i], values);
      StatusExactly(features[i], values);
      SomethingKept(features, values, i);
    } else {
      forall k | 0 <= k < |kept| ensures kept[k] == 0.0 {
        assert kept[k] in kept;
        NothingKept(features, values, kept[k]);
      }
      NoneAddUp(kept);
    }
  }

  predicate NothingLacking(features: seq<Feature>, values: Values) {
    forall j :: 0 <= j < |features| ==> !Lacking(features[j], values)
  }

  lemma {:induction false} NothingMissing(features: seq<Feature>, values: Values)
    requires NothingLacking(features, values)
    ensures Collect(features, MissingRequired(values)) == []
  {
    var missing := Collect(features, MissingRequired(values));
    if missing != [] {
      assert missing[0] in missing;
      MissingExactly(features, values, missing[0]);
    }
  }

  lemma {:induction false} PolicyDecides(definition: Definition, values: Values, profile: Profile, exp: real -> real)
    requires NoGaps(definition.features, values, profile) && NothingTrue(definition.constraints, values)
    requires NothingLacking(definition.features, values)
    ensures var applied, outcome := ApplyNullPolicy(definition.features, values), Decide(definition, values, profile, exp);
      && (applied.Ok? <==> Sum(Collect(definition.features, KeptWeight(values))) > 0.0)
      && (applied.Ok? ==> outcome == Explain(definition, applied.value, profile, exp))
      && (applied.Err? ==>
            outcome == Ok(NoData(MissingRequiredMetric, Collect(definition.features, ExcludedMetric(values)), false)))
  {
    NoGapFound(definition.features, values, profile);
    NothingFired(definition.constraints, values);
    NothingMissing(definition.features, values);
  }

  /** With nothing left to score, the answer lists what was left out; otherwise the day is ranked on its merits. */
  lemma {:induction false} MeritsDecideLast(definition: Definition, values: Values, profile: Profile, exp: real -> real)
    requires SoundDefinition(definition) && NoGaps(definition.features, values, profile)
    requires NothingTrue(definition.constraints, values) && NothingLacking(definition.features, values)
    ensures Decide(definition, values, profile, exp).Ok?
    ensures var outcome := Decide(definition, values, profile, exp).value;
      if SomethingCounts(definition.features, values) then
        outcome.Ranked? && outcome.constraintViolated.None?
        && outcome.definitionVersion == definition.version
        && outcome.profileId == profile.id && outcome.profileVersion == profile.version
      else
        outcome.NoData? && outcome.missingFor == MissingRequiredMetric && !outcome.retryable
        && forall metric :: metric in outcome.missingMetrics <==> LeftOut(definition.features, values, metric)
  {
    CountsExactly(definition.features, values);
    SoundDecisionSucceeds(definition, values, profile, exp);
    PolicyDecides(definition, values, profile, exp);
    forall metric
      ensures metric in Collect(definition.features, ExcludedMetric(values)) <==> LeftOut(definition.features, values, metric)
    {
      LeftOutExactly(definition.features, values, metric);
    }
  }

  predicate LeftOut(features: seq<Feature>, values: Values, metric: Requirable) {
    exists i :: 0 <= i < |features| && LetGoOf(features[i], values) && features[i].metric == metric
  }

  lemma {:induction false} LeftOutExactly(features: seq<Feature>, values: Values, metric: Requirable)
    ensures metric in Collect(features, ExcludedMetric(values)) <==> LeftOut(features, values, metric)
  {
    CollectedFrom(features, ExcludedMetric(values), metric);
    forall i | 0 <= i < |features|
      ensures metric in ExcludedMetric(values)(features[i]) <==> LetGoOf(features[i], values) && features[i].metric == metric
    {
    }
  }

  // ---- What a row says ----

  /** Used with a value, degraded or excluded without one, as its policy says. */
  function StatusFor(feature: Feature, values: Values): Status {
    if Of(values, feature.Quantity()).Some? then Used
    else if feature.nullPolicy == Exclude then Excluded
    else if feature.nullPolicy == Degrade then Degraded
    else Used
  }

  /** A row says which feature it is about, and what that feature was found to be. */
  ghost predicate RowIsAbout(row: Contribution, feature: Feature, values: Values) {
    && row.featureId == feature.id && row.metric == feature.metric && row.role == feature.role
    && row.status == StatusFor(feature, values) && row.raw == Of(values, feature.Quantity())
  }

  /** What the feature scores by itself: its curve at its value, the profile's neutral score without one, nothing when left out. */
  ghost predicate NormalizedFor(row: Contribution, feature: Feature, values: Values, profile: Profile, exp: real -> real) {
    var value := Of(values, feature.Quantity());
    if value.Some? then Normalize(feature.normalizer, value.value.value, exp) == Ok(row.normalized)
    else row.normalized == if LetGoOf(feature, values) then 0.0 else profile.neutralScore
  }

  /** What it adds or what it limits: a share of the weights that still count, or a way from its floor to one. */
  ghost predicate CountsFor(row: Contribution, feature: Feature, values: Values, total: real) {
    if feature.role == Gate then
      && row.weight.None? && row.contribution.None? && row.gateFactor.Some? && feature.gateFloor.Some?
      && if Of(values, feature.Quantity()).None? then row.gateFactor.value == 1.0
         else row.gateFactor.value - feature.gateFloor.value == (1.0 - feature.gateFloor.value) * row.normalized
    else if LetGoOf(feature, values) then
      row.weight.None? && row.contribution.None? && row.gateFactor.None?
    else
      && row.weight.Some? && row.contribution.Some? && row.gateFactor.None? && feature.weight.Some?
      && row.weight.value * total == feature.weight.value
      && row.contribution.value == row.weight.value * row.normalized
  }

  ghost predicate RowSays(
    row: Contribution, feature: Feature, values: Values, total: real, profile: Profile, exp: real -> real
  ) {
    RowIsAbout(row, feature, values) && NormalizedFor(row, feature, values, profile, exp) && CountsFor(row, feature, values, total)
  }

  lemma {:induction false} StatusExactly(feature: Feature, values: Values)
    ensures StatusOf(feature, values) == StatusFor(feature, values)
    ensures Contributes(feature, values) <==> feature.role == Additive && !LetGoOf(feature, values)
  {
  }

  lemma {:induction false} ShareTimes(weight: real, total: real)
    requires total > 0.0
    ensures weight / total * total == weight
  {
  }

  lemma {:induction false} GateCounts(feature: Feature, values: Values, total: real, normalized: real)
    requires SoundFeature(feature) && feature.role == Gate && total > 0.0
    requires SoundEntry(Apply(feature, values, total)) && 0.0 <= normalized <= 1.0
    ensures CountsFor(Row(Apply(feature, values, total), normalized), feature, values, total)
  {
    GateRowIsExact(Apply(feature, values, total), normalized);
  }

  lemma {:induction false} AdditiveCounts(feature: Feature, values: Values, total: real, normalized: real)
    requires SoundFeature(feature) && feature.role == Additive && !LetGoOf(feature, values) && total > 0.0
    requires SoundEntry(Apply(feature, values, total)) && 0.0 <= normalized <= 1.0
    ensures CountsFor(Row(Apply(feature, values, total), normalized), feature, values, total)
  {
    var entry := Apply(feature, values, total);
    StatusExactly(feature, values);
    ShareTimes(feature.weight.value, total);
    AdditiveRowIsExact(entry, normalized);
    assert Times(entry.weight.value, normalized) == entry.weight.value * normalized;
  }

  lemma {:induction false} RowCounts(feature: Feature, values: Values, total: real, normalized: real)
    requires SoundFeature(feature) && total > 0.0 && SoundEntry(Apply(feature, values, total)) && 0.0 <= normalized <= 1.0
    ensures CountsFor(Row(Apply(feature, values, total), normalized), feature, values, total)
  {
    StatusExactly(feature, values);
    if feature.role == Gate {
      GateCounts(feature, values, total, normalized);
    } else if !LetGoOf(feature, values) {
      AdditiveCounts(feature, values, total, normalized);
    }
  }

  lemma {:induction false} RowSaysIt(
    feature: Feature, values: Values, total: real, profile: Profile, exp: real -> real, normalized: real
  )
    requires SoundFeature(feature) && total > 0.0 && SoundEntry(Apply(feature, values, total)) && 0.0 <= normalized <= 1.0
    requires NormalizedOf(Apply(feature, values, total), profile, exp) == Ok(normalized)
    ensures RowSays(Row(Apply(feature, values, total), normalized), feature, values, total, profile, exp)
  {
    StatusExactly(feature, values);
    RowCounts(feature, values, total, normalized);
  }

  lemma {:induction false} RowAt(entries: seq<Applied>, normalized: seq<real>, i: nat)
    requires |entries| == |normalized| && i < |entries|
    ensures |CombineAll(entries, normalized).breakdown| == |entries|
    ensures CombineAll(entries, normalized).breakdown[i] == Row(entries[i], normalized[i])
  {
    var n := |entries| - 1;
    if i < n {
      RowAt(entries[..n], normalized[..n], i);
    } else if n > 0 {
      RowAt(entries[..n], normalized[..n], 0);
    }
  }

  /**
   * A day that is ranked on its merits has one row for each feature, in order,
   * and each says what its feature was found to be, what that scores by itself,
   * and what share of the weights that still count it has, or what it limits.
   */
  lemma {:induction false} RowsAreExact(definition: Definition, values: Values, profile: Profile, exp: real -> real)
    returns (total: real)
    requires SoundDefinition(definition) && SoundProfile(profile)
    requires Decide(definition, values, profile, exp).Ok?
    requires Decide(definition, values, profile, exp).value.Ranked?
    requires Decide(definition, values, profile, exp).value.constraintViolated.None?
    ensures total > 0.0
    ensures var rows := Decide(definition, values, profile, exp).value.breakdown;
      && |rows| == |definition.features|
      && forall i :: 0 <= i < |rows| ==> RowSays(rows[i], definition.features[i], values, total, profile, exp)
  {
    var features := definition.features;
    RankedIsExplained(definition, values, profile, exp);
    AppliedIsSound(features, values);
    var entries := ApplyNullPolicy(features, values).value;
    total := Sum(Collect(features, KeptWeight(values)));
    var normalized := NormalizeAll(entries, profile, exp).value;
    NormalizeAllInUnit(entries, profile, exp);
    var rows := CombineAll(entries, normalized).breakdown;
    assert Decide(definition, values, profile, exp).value.breakdown == rows;
    if entries != [] {
      RowAt(entries, normalized, 0);
    }
    forall i | 0 <= i < |rows| ensures RowSays(rows[i], features[i], values, total, profile, exp) {
      RowAt(entries, normalized, i);
      RowSaysIt(features[i], values, total, profile, exp, normalized[i]);
    }
  }

  // ---- Bounds and rounding ----

  /** A score within the bounds is kept, one beyond them becomes the bound, and rounding goes to the nearest whole. */
  lemma {:induction false} BoundsKeep(raw: real, bounds: Bounds)
    requires SoundBounds(bounds)
    ensures var floor := if bounds.floor.Some? then bounds.floor.value else 0.0;
      var ceiling := if bounds.ceiling.Some? then bounds.ceiling.value else 100.0;
      && (floor <= raw <= ceiling ==> Bounded(raw, bounds) == raw)
      && (raw < floor ==> Bounded(raw, bounds) == floor)
      && (raw > ceiling ==> Bounded(raw, bounds) == ceiling)
    ensures -0.5 < Round(raw) as real - raw <= 0.5
  {
  }
}
