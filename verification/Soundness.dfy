/**
 * What a successful load guarantees: the engine can score every loaded
 * definition on every series and day without a fault.
 */
module Soundness {
  import opened Prelude
  import opened Metrics
  import opened Predicates
  import opened Definitions
  import opened Series
  import opened DayWindows
  import opened Aggregation
  import opened Normalizers
  import opened Engine
  import opened Loader

  /* ---- the reference: what a definition must be for the engine to be safe ---- */

  /** A registered strategy with readable parameters, over a channel the provider serves. */
  predicate SoundRead(key: Key) {
    && Registered(key.aggregation.code)
    && ParamsAccepted(key.aggregation)
    && !ReadsDerivedDaily(key)
    && (key.metric.Source? ==> Serves(DictionaryEntry(key.metric.code).granularity, GranularityOf(key.aggregation.code)))
  }

  predicate SoundFeature(feature: Feature) {
    && SoundRead(feature.Quantity())
    && CurveAccepted(feature.normalizer)
    && feature.unit == UnitOf(feature.metric)
    && (feature.role.Additive? ==> feature.weight.Some? && 0.0 <= feature.weight.value && feature.gateFloor.None?)
    && (feature.role.Gate? ==>
          feature.weight.None? && feature.gateFloor.Some? && 0.0 < feature.gateFloor.value <= 1.0
          && !feature.nullPolicy.Fail?)
  }

  /** Every leaf reads soundly and compares in a form its operator has a meaning for. */
  predicate SoundExpr(expr: ConstraintExpr) {
    match expr
    case Leaf(metric, _, aggregation, op, threshold) =>
      SoundRead(Key(metric, aggregation)) && IsSetOp(op) == threshold.Many?
    case AnyHolds(any) => forall i :: 0 <= i < |any| ==> SoundExpr(any[i])
    case AllHold(all) => forall i :: 0 <= i < |all| ==> SoundExpr(all[i])
    case Negated(inner) => SoundExpr(inner)
  }

  /** The weight a feature adds to the total of one. */
  function DeclaredWeight(feature: Feature): seq<real> {
    if feature.role.Additive? then [WeightOr0(feature)] else []
  }

  predicate SoundBounds(bounds: Bounds) {
    && BoundShaped(bounds.floor) && BoundShaped(bounds.ceiling)
    && (bounds.floor.Some? && bounds.ceiling.Some? ==> bounds.floor.value <= bounds.ceiling.value)
  }

  /** Sound one by one, told apart by their ids, and weighing one together. */
  ghost predicate SoundFeatures(features: seq<Feature>) {
    && (forall i :: 0 <= i < |features| ==> SoundFeature(features[i]))
    && (forall i, j :: 0 <= i < j < |features| ==> features[i].id != features[j].id)
    && Sum(Collect(features, DeclaredWeight)) == 1.0
  }

  ghost predicate SoundConstraints(constraints: seq<Constraint>) {
    forall i :: 0 <= i < |constraints| ==> SoundExpr(constraints[i].when)
  }

  ghost predicate SoundDefinition(definition: Definition) {
    && SoundFeatures(definition.features)
    && SoundConstraints(definition.constraints)
    && SoundBounds(definition.postprocess)
  }

  /* ---- from an accepted declaration to a sound definition ---- */

  lemma {:induction false} CheckedReadIsSound(name: MetricName, unit: Option<Unit>, aggregation: AggregationSpec)
    requires CheckMetric(name, unit).Ok?
    requires CheckAggregation(aggregation, Some(CheckMetric(name, unit).value)).faults == []
    ensures name.Named? && unit == Some(UnitOf(name.metric)) && SoundRead(Key(name.metric, aggregation))
  {
    var meta := CheckMetric(name, unit).value;
    var checked := CheckAggregation(aggregation, Some(meta));
    assert checked.usable;
  }

  lemma {:induction false} ResolvedFeatureIsSound(raw: RawFeature, total: real)
    requires CheckFeature(raw) == [] && total > 0.0
    requires raw.weight.Some? ==> raw.weight.value >= 0.0
    ensures raw.metric.Named? && raw.unit.Some? && SoundFeature(ResolveFeature(raw, total))
  {
    var metric := CheckMetric(raw.metric, raw.unit);
    assert MetricFaults(metric) == [] && RoleFaults(raw) == [];
    var aggregation := CheckAggregation(raw.aggregation, Some(metric.value));
    assert aggregation.faults == [];
    CheckedReadIsSound(raw.metric, raw.unit, raw.aggregation);
    QuotientMonotone(0.0, RawWeight(raw), total);
  }

  lemma {:induction false} ReadExprIsSound(raw: RawExpr)
    requires ExprFaults(raw) == []
    ensures SoundExpr(ReadExpr(raw))
    decreases raw, 0
  {
    match raw
    case RawLeaf(metric, unit, aggregation, op, threshold) =>
      assert MetricFaults(CheckMetric(metric, unit)) == [];
      CheckedReadIsSound(metric, unit, aggregation);
    case RawAny(any) => ReadExprsAreSound(any);
    case RawAll(all) => ReadExprsAreSound(all);
    case RawNot(inner) => ReadExprIsSound(inner);
  }

  lemma {:induction false} ReadExprsAreSound(raws: seq<RawExpr>)
    requires ExprFaultsOf(raws) == []
    ensures forall i :: 0 <= i < |raws| ==> SoundExpr(ReadExprs(raws)[i])
    decreases raws, 0
  {
    if raws != [] {
      ReadExprIsSound(raws[0]);
      ReadExprsAreSound(raws[1..]);
    }
  }

  lemma {:induction false} SharedRulesAreSound(rules: seq<(string, RawConstraint)>)
    ensures forall id :: id in SharedRules(rules) ==> SoundExpr(SharedRules(rules)[id].when)
  {
    if rules != [] {
      var n := |rules| - 1;
      SharedRulesAreSound(rules[..n]);
      ReadConstraintIsSound(rules[n].1);
    }
  }

  lemma {:induction false} ReadConstraintIsSound(raw: RawConstraint)
    ensures ReadConstraint(raw).Ok? ==> SoundExpr(ReadConstraint(raw).value.when)
  {
    if ReadConstraint(raw).Ok? {
      assert ExprFaults(raw.when) == [];
      ReadExprIsSound(raw.when);
    }
  }

  ghost predicate SoundRules(shared: map<string, Constraint>) {
    forall id :: id in shared ==> SoundExpr(shared[id].when)
  }

  lemma {:induction false} ResolvedConstraintsAreSound(raw: RawDeclaration, shared: map<string, Constraint>)
    requires SoundRules(shared)
    ensures SoundConstraints(Collect(raw.includes, IncludedRule(shared)) + Collect(raw.constraints, ConstraintIfRead))
  {
    var included := Collect(raw.includes, IncludedRule(shared));
    var own := Collect(raw.constraints, ConstraintIfRead);
    forall constraint | constraint in included ensures SoundExpr(constraint.when) {
      CollectedFrom(raw.includes, IncludedRule(shared), constraint);
    }
    forall constraint | constraint in own ensures SoundExpr(constraint.when) {
      CollectedFrom(raw.constraints, ConstraintIfRead, constraint);
      var i :| 0 <= i < |raw.constraints| && constraint in ConstraintIfRead(raw.constraints[i]);
      ReadConstraintIsSound(raw.constraints[i]);
    }
    forall i | 0 <= i < |included + own| ensures SoundExpr((included + own)[i].when) {
      assert (included + own)[i] in included || (included + own)[i] in own;
    }
  }

  /** Normalising divides every contributing weight by their total. */
  lemma {:induction false} WeightsAreNormalised(raws: seq<RawFeature>, features: seq<Feature>, total: real)
    requires |features| == |raws| && total > 0.0
    requires forall i :: 0 <= i < |raws| ==>
      raws[i].metric.Named? && raws[i].unit.Some? && features[i] == ResolveFeature(raws[i], total)
    ensures var declared, resolved := Collect(raws, AdditiveWeight), Collect(features, DeclaredWeight);
      |declared| == |resolved| && forall i :: 0 <= i < |declared| ==> resolved[i] == declared[i] / total
  {
    if raws != [] {
      var n := |raws| - 1;
      WeightsAreNormalised(raws[..n], features[..n], total);
    }
  }

  ghost function TotalWeight(raws: seq<RawFeature>): real {
    Sum(Collect(raws, AdditiveWeight))
  }

  /** A resolution without a fault keeps every feature and divides by a positive total. */
  lemma {:induction false} ResolvedFeaturesShape(raws: seq<RawFeature>)
    requires ResolveFeatures(raws).Ok?
    ensures CollectWith(raws, FeatureFault) == [] && TotalWeight(raws) > 0.0
    ensures forall i :: 0 <= i < |raws| ==> raws[i].metric.Named? && raws[i].unit.Some?
    ensures forall i, j :: 0 <= i < j < |raws| ==> raws[i].id != raws[j].id
    ensures ResolveFeatures(raws).value == seq(|raws|, i requires 0 <= i < |raws| => ResolveFeature(raws[i], TotalWeight(raws)))
  {
    var total := Sum(Collect(CollectWith(raws, KeepFirst), AdditiveWeight));
    assert CollectWith(raws, FeatureFault) == [] && TotalFaults(total) == [];
    NoFaultMeansChecked(raws);
  }

  lemma {:induction false} ResolvedAtIsSound(raws: seq<RawFeature>, i: nat)
    requires CollectWith(raws, FeatureFault) == [] && TotalWeight(raws) > 0.0 && i < |raws|
    requires raws[i].weight.Some? ==> raws[i].weight.value >= 0.0
    ensures raws[i].metric.Named? && raws[i].unit.Some? && SoundFeature(ResolveFeature(raws[i], TotalWeight(raws)))
  {
    CollectedWithNothing(raws, FeatureFault, i);
    ResolvedFeatureIsSound(raws[i], TotalWeight(raws));
  }

  lemma {:induction false} ResolvedEachIsSound(raws: seq<RawFeature>, features: seq<Feature>)
    requires CollectWith(raws, FeatureFault) == [] && TotalWeight(raws) > 0.0 && |features| == |raws|
    requires forall i :: 0 <= i < |raws| ==> (raws[i].weight.Some? ==> raws[i].weight.value >= 0.0)
    requires forall i :: 0 <= i < |raws| ==>
      raws[i].metric.Named? && raws[i].unit.Some? && features[i] == ResolveFeature(raws[i], TotalWeight(raws))
    ensures forall i :: 0 <= i < |features| ==> SoundFeature(features[i])
  {
    forall i | 0 <= i < |features| ensures SoundFeature(features[i]) {
      ResolvedAtIsSound(raws, i);
    }
  }

  lemma {:induction false} WeighOneTogether(raws: seq<RawFeature>, features: seq<Feature>)
    requires TotalWeight(raws) > 0.0 && |features| == |raws|
    requires forall i :: 0 <= i < |raws| ==>
      raws[i].metric.Named? && raws[i].unit.Some? && features[i] == ResolveFeature(raws[i], TotalWeight(raws))
    ensures Sum(Collect(features, DeclaredWeight)) == 1.0
  {
    WeightsAreNormalised(raws, features, TotalWeight(raws));
    SharesSumToOne(Collect(raws, AdditiveWeight), Collect(features, DeclaredWeight));
  }

  lemma {:induction false} ResolvedFeaturesAreSound(raws: seq<RawFeature>)
    requires ResolveFeatures(raws).Ok?
    requires forall i :: 0 <= i < |raws| ==> (raws[i].weight.Some? ==> raws[i].weight.value >= 0.0)
    ensures SoundFeatures(ResolveFeatures(raws).value)
  {
    ResolvedFeaturesShape(raws);
    ResolvedEachIsSound(raws, ResolveFeatures(raws).value);
    WeighOneTogether(raws, ResolveFeatures(raws).value);
  }

  lemma {:induction false} FaultlessParts(raw: RawDeclaration, shared: map<string, Constraint>)
    requires FaultsIn(raw, shared) == []
    ensures ResolveFeatures(raw.features).Ok? && BoundsFaults(raw.postprocess) == []
  {
  }

  lemma {:induction false} ResolvedIsSound(raw: RawDeclaration, shared: map<string, Constraint>)
    requires Shaped(raw) && FaultsIn(raw, shared) == [] && SoundRules(shared)
    ensures SoundDefinition(Resolve(raw, shared))
  {
    FaultlessParts(raw, shared);
    ResolvedFeaturesAreSound(raw.features);
    ResolvedConstraintsAreSound(raw, shared);
  }

  lemma {:induction false} LoadedFromIsResolved(raw: RawDeclaration, shared: map<string, Constraint>, loaded: Loaded)
    requires loaded in LoadedFrom(shared)(raw)
    ensures loaded.content == raw && Shaped(raw) && FaultsIn(raw, shared) == [] && loaded.definition == Resolve(raw, shared)
  {
  }

  lemma {:induction false} LoadedComesFrom(inputs: seq<RawDeclaration>, f: RawDeclaration -> seq<Loaded>, loaded: Loaded) returns (k: nat)
    requires loaded in Collect(inputs, f)
    ensures k < |inputs| && loaded in f(inputs[k])
  {
    CollectedFrom(inputs, f, loaded);
    k :| 0 <= k < |inputs| && loaded in f(inputs[k]);
  }

  /** Nothing but sound definitions leaves the load. */
  lemma {:induction false} LoadedIsSound(inputs: seq<RawDeclaration>, rules: RawSharedRules, published: seq<PublishedVersion>, i: nat)
    requires Load(inputs, rules, published).Ok? && i < |Load(inputs, rules, published).value|
    ensures SoundDefinition(Load(inputs, rules, published).value[i].definition)
  {
    var shared := UsableRules(rules);
    SharedRulesAreSound(rules.rules);
    var loaded := Load(inputs, rules, published).value[i];
    var k := LoadedComesFrom(inputs, LoadedFrom(shared), loaded);
    LoadedFromIsResolved(inputs[k], shared, loaded);
    ResolvedIsSound(inputs[k], shared);
  }

  /* ---- from a sound definition to an engine that cannot fault ---- */

  lemma {:induction false} SoundExprReads(expr: ConstraintExpr)
    requires SoundExpr(expr)
    ensures forall key :: key in LeafKeys(expr) ==> SoundRead(key)
    decreases expr, 0
  {
    match expr
    case Leaf(_, _, _, _, _) =>
    case AnyHolds(any) => SoundExprsRead(any);
    case AllHold(all) => SoundExprsRead(all);
    case Negated(inner) => SoundExprReads(inner);
  }

  lemma {:induction false} SoundExprsRead(exprs: seq<ConstraintExpr>)
    requires forall i :: 0 <= i < |exprs| ==> SoundExpr(exprs[i])
    ensures forall key :: key in LeafKeysOf(exprs) ==> SoundRead(key)
    decreases exprs, 0
  {
    if exprs != [] {
      SoundExprReads(exprs[0]);
      SoundExprsRead(exprs[1..]);
    }
  }

  lemma {:induction false} SoundConstraintsRead(constraints: seq<Constraint>)
    requires forall i :: 0 <= i < |constraints| ==> SoundExpr(constraints[i].when)
    ensures forall key :: key in ConstraintKeys(constraints) ==> SoundRead(key)
  {
    if constraints != [] {
      var n := |constraints| - 1;
      SoundConstraintsRead(constraints[..n]);
      SoundExprReads(constraints[n].when);
    }
  }

  /** Everything a sound definition reads, it reads soundly. */
  lemma {:induction false} SoundDefinitionReads(definition: Definition)
    requires SoundDefinition(definition)
    ensures forall key :: key in KeysOf(definition) ==> SoundRead(key)
  {
    SoundConstraintsRead(definition.constraints);
    forall key | key in FeatureKeys(definition.features) ensures SoundRead(key) {
      var i :| 0 <= i < |definition.features| && key == definition.features[i].Quantity();
      assert SoundFeature(definition.features[i]);
    }
  }

  lemma {:induction false} SoundExtractionSucceeds(keys: seq<Key>, series: WeatherSeries, window: DayWindow)
    requires forall key :: key in keys ==> SoundRead(key)
    ensures Extract(keys, series, window).Ok?
  {
    if keys != [] {
      var n := |keys| - 1;
      SoundExtractionSucceeds(keys[..n], series, window);
      assert SoundRead(keys[n]);
    }
  }

  lemma {:induction false} SoundCombineSucceeds(entries: seq<Applied>, profile: Profile, exp: real -> real)
    requires forall i :: 0 <= i < |entries| ==> CurveAccepted(entries[i].feature.normalizer)
    ensures NormalizeAll(entries, profile, exp).Ok?
  {
    if entries != [] {
      var n := |entries| - 1;
      SoundCombineSucceeds(entries[..n], profile, exp);
      if entries[n].value.Some? {
        AcceptedCurveIsTotal(entries[n].feature.normalizer, entries[n].value.value.value, exp);
      }
    }
  }

  /**
   * A sound definition can be scored on every series, aligned or not, on every
   * window and under every profile: no lookup misses, no parameter is
   * unreadable and no number is not a number.
   */
  lemma {:induction false} SoundDefinitionsNeverFault(
    definition: Definition, series: WeatherSeries, window: DayWindow, profile: Profile, exp: real -> real
  )
    requires SoundDefinition(definition)
    ensures ScoreActivity(definition, series, window, profile, exp).Ok?
  {
    SoundDefinitionReads(definition);
    SoundExtractionSucceeds(KeysOf(definition), series, window);
    SoundDecisionSucceeds(definition, Extract(KeysOf(definition), series, window).value, profile, exp);
  }

  lemma {:induction false} SoundDecisionSucceeds(definition: Definition, values: Values, profile: Profile, exp: real -> real)
    requires SoundFeatures(definition.features)
    ensures Decide(definition, values, profile, exp).Ok?
  {
    var applied := ApplyNullPolicy(definition.features, values);
    if applied.Ok? {
      forall i | 0 <= i < |applied.value| ensures CurveAccepted(applied.value[i].feature.normalizer) {
        assert SoundFeature(definition.features[i]);
      }
      SoundCombineSucceeds(applied.value, profile, exp);
    }
  }

  /** The load and the engine together. */
  lemma {:induction false} LoadedDefinitionsNeverFault(
    inputs: seq<RawDeclaration>, rules: RawSharedRules, published: seq<PublishedVersion>, i: nat,
    series: WeatherSeries, window: DayWindow, profile: Profile, exp: real -> real
  )
    requires Load(inputs, rules, published).Ok? && i < |Load(inputs, rules, published).value|
    ensures ScoreActivity(Load(inputs, rules, published).value[i].definition, series, window, profile, exp).Ok?
  {
    LoadedIsSound(inputs, rules, published, i);
    SoundDefinitionsNeverFault(Load(inputs, rules, published).value[i].definition, series, window, profile, exp);
  }

  /* ---- versions ---- */

  /** What the pass over the versions knows so far. */
  ghost predicate VersionsTracked(all: seq<Loaded>, published: seq<PublishedVersion>, check: VersionCheck) {
    && (forall i :: 0 <= i < |all| ==> KeyOf(all[i]) in check.inThisLoad)
    && (forall k :: k in Seen(published) ==> k in check.seen && check.seen[k] == Seen(published)[k])
    && (forall i, j :: 0 <= i < j < |all| ==> KeyOf(all[i]) != KeyOf(all[j]))
    && (forall i :: 0 <= i < |all| && KeyOf(all[i]) in Seen(published) ==> Seen(published)[KeyOf(all[i])] == all[i].content)
  }

  lemma {:induction false} CheckVersionsExact(all: seq<Loaded>, published: seq<PublishedVersion>)
    requires CheckVersions(all, published).faults == []
    ensures VersionsTracked(all, published, CheckVersions(all, published))
  {
    if all != [] {
      var n := |all| - 1;
      CheckVersionsExact(all[..n], published);
      CheckVersionTracks(all[..n], all[n], published, CheckVersions(all[..n], published));
      assert all[..n] + [all[n]] == all;
    }
  }

  lemma {:induction false} CheckVersionTracks(all: seq<Loaded>, next: Loaded, published: seq<PublishedVersion>, check: VersionCheck)
    requires VersionsTracked(all, published, check) && CheckVersion(check, next).faults == []
    ensures VersionsTracked(all + [next], published, CheckVersion(check, next))
  {
    assert KeyOf(next) !in check.inThisLoad;
  }

  /** A load neither declares a version twice nor says something else under a published one. */
  lemma {:induction false} LoadRespectsVersions(inputs: seq<RawDeclaration>, rules: RawSharedRules, published: seq<PublishedVersion>)
    requires Load(inputs, rules, published).Ok?
    ensures var all := Load(inputs, rules, published).value;
      && (forall i, j :: 0 <= i < j < |all| ==> KeyOf(all[i]) != KeyOf(all[j]))
      && (forall i :: 0 <= i < |all| && KeyOf(all[i]) in Seen(published) ==> Seen(published)[KeyOf(all[i])] == all[i].content)
  {
    CheckVersionsExact(Collect(inputs, LoadedFrom(UsableRules(rules))), published);
  }
}
