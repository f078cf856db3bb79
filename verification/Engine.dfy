/** The scoring pipeline: six stages from a declaration and a day to an explained outcome. */
module Engine {
  import opened Prelude
  import opened Metrics
  import opened Predicates
  import opened Definitions
  import opened Series
  import opened DayWindows
  import opened Aggregation
  import opened Normalizers

  datatype Profile = Profile(id: string, version: nat, gapThreshold: real, neutralScore: real)

  datatype Status = Used | Degraded | Excluded

  /** One term of the score, as it is shown. */
  datatype Contribution = Contribution(
    featureId: string,
    metric: Requirable,
    role: Role,
    status: Status,
    raw: Option<AggregatedValue>,
    normalized: real,
    weight: Option<real>,
    contribution: Option<real>,
    gateFactor: Option<real>
  )

  datatype Outcome =
    | Ranked(
        score: int,
        constraintViolated: Option<ReasonCode>,
        breakdown: seq<Contribution>,
        definitionVersion: nat,
        profileId: string,
        profileVersion: nat)
    | NotApplicable(reason: ReasonCode)
    | NoData(missingFor: ReasonCode, missingMetrics: seq<Requirable>, retryable: bool)

  /* ---- stage 1: extract ---- */

  type Values = map<Key, Option<AggregatedValue>>

  function Of(values: Values, key: Key): Option<AggregatedValue> {
    if key in values then values[key] else None
  }

  /** A quantity is aggregated the first time it is referred to. */
  function ExtractNext(values: Values, key: Key, series: WeatherSeries, window: DayWindow): Result<Values, EngineFault> {
    if key in values then Ok(values)
    else
      var value :- Aggregate(key, series, window);
      Ok(values[key := value])
  }

  function Extract(keys: seq<Key>, series: WeatherSeries, window: DayWindow): Result<Values, EngineFault> {
    if keys == [] then Ok(map[])
    else
      var n := |keys| - 1;
      var values :- Extract(keys[..n], series, window);
      ExtractNext(values, keys[n], series, window)
  }

  /* ---- stage 2: coverage ---- */

  predicate TooManyMissing(feature: Feature, values: Values, profile: Profile) {
    && feature.nullPolicy.Fail?
    && Of(values, feature.Quantity()).Some?
    && var value := Of(values, feature.Quantity()).value;
      && value.sampleCount != 0
      && value.missingCount as real / (value.sampleCount + value.missingCount) as real > profile.gapThreshold
  }

  function FirstGap(features: seq<Feature>, values: Values, profile: Profile): Option<Requirable> {
    if features == [] then None
    else if TooManyMissing(features[0], values, profile) then Some(features[0].metric)
    else FirstGap(features[1..], values, profile)
  }

  /* ---- stage 3: constraints ---- */

  /** Three truth values: `None` stands between the other two. */
  function Holds(expr: ConstraintExpr, values: Values): Option<bool> {
    match expr
    case Leaf(metric, _, aggregation, op, threshold) =>
      var value := Of(values, Key(metric, aggregation));
      if value.None? then None else Some(Compares(op, threshold, value.value.value))
    case AnyHolds(any) =>
      if exists i :: 0 <= i < |any| && Holds(any[i], values) == Some(true) then Some(true)
      else if exists i :: 0 <= i < |any| && Holds(any[i], values) == None then None
      else Some(false)
    case AllHold(all) =>
      if exists i :: 0 <= i < |all| && Holds(all[i], values) == Some(false) then Some(false)
      else if exists i :: 0 <= i < |all| && Holds(all[i], values) == None then None
      else Some(true)
    case Negated(inner) =>
      var held := Holds(inner, values);
      if held.None? then None else Some(!held.value)
  }

  function FirstFired(constraints: seq<Constraint>, values: Values): Option<ReasonCode> {
    if constraints == [] then None
    else if Holds(constraints[0].when, values) == Some(true) then Some(constraints[0].reason)
    else FirstFired(constraints[1..], values)
  }

  /* ---- stage 4: the null policy ---- */

  datatype Applied = Applied(feature: Feature, value: Option<AggregatedValue>, status: Status, weight: Option<real>)

  function StatusOf(feature: Feature, values: Values): Status {
    if Of(values, feature.Quantity()).Some? || feature.nullPolicy.Fail? then Used
    else if feature.nullPolicy.Degrade? then Degraded
    else Excluded
  }

  predicate Contributes(feature: Feature, values: Values) {
    feature.role.Additive? && !StatusOf(feature, values).Excluded?
  }

  function WeightOr0(feature: Feature): real {
    if feature.weight.Some? then feature.weight.value else 0.0
  }

  /** A required metric that has no value. */
  function MissingRequired(values: Values): Feature -> seq<Requirable> {
    (feature: Feature) =>
      if Of(values, feature.Quantity()).None? && feature.nullPolicy.Fail? then [feature.metric] else []
  }

  function ExcludedMetric(values: Values): Feature -> seq<Requirable> {
    (feature: Feature) => if StatusOf(feature, values).Excluded? then [feature.metric] else []
  }

  /** The weight of a feature that still contributes. */
  function KeptWeight(values: Values): Feature -> seq<real> {
    (feature: Feature) => if Contributes(feature, values) then [WeightOr0(feature)] else []
  }

  function Apply(feature: Feature, values: Values, total: real): Applied
    requires total != 0.0
  {
    Applied(
      feature,
      Of(values, feature.Quantity()),
      StatusOf(feature, values),
      if Contributes(feature, values) then Some(WeightOr0(feature) / total) else None)
  }

  /** What each feature contributes with, or the metrics that stand in the way. */
  function ApplyNullPolicy(features: seq<Feature>, values: Values): Result<seq<Applied>, seq<Requirable>> {
    var missing := Collect(features, MissingRequired(values));
    if missing != [] then Err(missing)
    else
      var total := Sum(Collect(features, KeptWeight(values)));
      if total <= 0.0 then Err(Collect(features, ExcludedMetric(values)))
      else Ok(seq(|features|, i requires 0 <= i < |features| => Apply(features[i], values, total)))
  }

  /* ---- stage 5: normalise and combine ---- */

  datatype Combined = Combined(sum: real, gates: real, breakdown: seq<Contribution>)

  function NormalizedOf(entry: Applied, profile: Profile, exp: real -> real): Result<real, EngineFault> {
    if entry.value.None? then Ok(profile.neutralScore)
    else Normalize(entry.feature.normalizer, entry.value.value.value, exp)
  }

  /** An absent limiting feature limits nothing, whichever policy said so. */
  function GateFactor(entry: Applied, normalized: real): real {
    if entry.value.None? then Clamp01(1.0)
    else Clamp01(Blend(if entry.feature.gateFloor.Some? then entry.feature.gateFloor.value else 0.0, normalized))
  }

  function GateRow(entry: Applied, normalized: real): Contribution {
    Contribution(entry.feature.id, entry.feature.metric, Gate, entry.status, entry.value,
      if entry.status.Excluded? then 0.0 else normalized, None, None, Some(GateFactor(entry, normalized)))
  }

  function ExcludedRow(entry: Applied): Contribution {
    Contribution(entry.feature.id, entry.feature.metric, Additive, Excluded, None, 0.0, None, None, None)
  }

  function AdditiveRow(entry: Applied, normalized: real): Contribution {
    var effective := EffectiveWeight(entry);
    Contribution(entry.feature.id, entry.feature.metric, Additive, entry.status, entry.value,
      normalized, Some(effective), Some(Clamp01(Times(effective, normalized))), None)
  }

  function EffectiveWeight(entry: Applied): real {
    if entry.weight.Some? then entry.weight.value else 0.0
  }

  /** The row of one feature in the breakdown. */
  function Row(entry: Applied, normalized: real): Contribution {
    if entry.feature.role.Gate? then GateRow(entry, normalized)
    else if entry.status.Excluded? then ExcludedRow(entry)
    else AdditiveRow(entry, normalized)
  }

  /** What one feature adds to the running sum. */
  function Term(entry: Applied, normalized: real): real {
    if entry.feature.role.Gate? || entry.status.Excluded? then 0.0
    else Times(EffectiveWeight(entry), normalized)
  }

  /** What one feature multiplies the running product by. */
  function Factor(entry: Applied, normalized: real): real {
    if entry.feature.role.Gate? then GateFactor(entry, normalized) else 1.0
  }

  function CombineNext(so: Combined, entry: Applied, normalized: real): Combined {
    Combined(
      so.sum + Term(entry, normalized),
      Times(so.gates, Factor(entry, normalized)),
      so.breakdown + [Row(entry, normalized)])
  }

  /** The normalised value of every entry, or the first fault. */
  function NormalizeAll(entries: seq<Applied>, profile: Profile, exp: real -> real): (r: Result<seq<real>, EngineFault>)
    ensures r.Ok? ==> |r.value| == |entries|
  {
    if entries == [] then Ok([])
    else
      var n := |entries| - 1;
      var normalized :- NormalizeAll(entries[..n], profile, exp);
      var last :- NormalizedOf(entries[n], profile, exp);
      Ok(normalized + [last])
  }

  function CombineAll(entries: seq<Applied>, normalized: seq<real>): Combined
    requires |entries| == |normalized|
  {
    if entries == [] then Combined(0.0, 1.0, [])
    else
      var n := |entries| - 1;
      CombineNext(CombineAll(entries[..n], normalized[..n]), entries[n], normalized[n])
  }

  function Combine(entries: seq<Applied>, profile: Profile, exp: real -> real): Result<Combined, EngineFault> {
    var normalized :- NormalizeAll(entries, profile, exp);
    Ok(CombineAll(entries, normalized))
  }

  /* ---- stage 6: bounds ---- */

  function Bounded(raw: real, bounds: Bounds): real {
    MinReal(
      MaxReal(raw, if bounds.floor.Some? then bounds.floor.value else 0.0),
      if bounds.ceiling.Some? then bounds.ceiling.value else 100.0)
  }

  function Postprocess(score: real, bounds: Bounds, constraintFired: bool): int {
    var raw := score * 100.0;
    if constraintFired then Round(raw) else Round(Bounded(raw, bounds))
  }

  function RankedAs(
    definition: Definition, profile: Profile, score: real, breakdown: seq<Contribution>, fired: Option<ReasonCode>
  ): Outcome {
    Ranked(Postprocess(score, definition.postprocess, fired.Some?), fired, breakdown,
      definition.version, profile.id, profile.version)
  }

  /** Everything past the extraction: a decision over the extracted values alone. */
  function Decide(definition: Definition, values: Values, profile: Profile, exp: real -> real): Result<Outcome, EngineFault> {
    var gap := FirstGap(definition.features, values, profile);
    if gap.Some? then Ok(NoData(TooManyGaps, [gap.value], false))
    else
      var fired := FirstFired(definition.constraints, values);
      if fired.Some? then Ok(RankedAs(definition, profile, Clamp01(0.0), [], fired))
      else
        var applied := ApplyNullPolicy(definition.features, values);
        if applied.Err? then Ok(NoData(MissingRequiredMetric, applied.error, false))
        else
          Explain(definition, applied.value, profile, exp)
  }

  /** The score and the breakdown it is made of. */
  function Explain(
    definition: Definition, entries: seq<Applied>, profile: Profile, exp: real -> real
  ): Result<Outcome, EngineFault> {
    var combined :- Combine(entries, profile, exp);
    Ok(RankedAs(definition, profile, GatedSum(combined), combined.breakdown, None))
  }

  function GatedSum(so: Combined): real {
    Clamp01(Times(so.sum, so.gates))
  }

  function ScoreActivity(
    definition: Definition, series: WeatherSeries, window: DayWindow, profile: Profile, exp: real -> real
  ): Result<Outcome, EngineFault> {
    var values :- Extract(KeysOf(definition), series, window);
    Decide(definition, values, profile, exp)
  }

  /* ---- the loops ---- */

  /** Features are put first, then every leaf of every constraint; nothing is aggregated twice. */
  method ExtractValues(definition: Definition, series: WeatherSeries, window: DayWindow)
    returns (r: Result<Values, EngineFault>)
    ensures r == Extract(KeysOf(definition), series, window)
  {
    r := ExtractEach(KeysOf(definition), series, window);
  }

  method ExtractEach(keys: seq<Key>, series: WeatherSeries, window: DayWindow)
    returns (r: Result<Values, EngineFault>)
    ensures r == Extract(keys, series, window)
  {
    var values: Values := map[];
    for i := 0 to |keys|
      invariant Extract(keys[..i], series, window) == Ok(values)
    {
      assert keys[..i + 1][..i] == keys[..i];
      var next := ExtractNext(values, keys[i], series, window);
      if next.Err? {
        ExtractFaultPersists(keys, i + 1, |keys|, series, window);
        assert keys[..|keys|] == keys;
        return next;
      }
      values := next.value;
    }
    assert keys[..|keys|] == keys;
    r := Ok(values);
  }

  lemma {:induction false} ExtractFaultPersists(keys: seq<Key>, n: nat, m: nat, series: WeatherSeries, window: DayWindow)
    requires n <= m <= |keys| && Extract(keys[..n], series, window).Err?
    ensures Extract(keys[..m], series, window) == Extract(keys[..n], series, window)
    decreases m
  {
    if m > n {
      ExtractFaultPersists(keys, n, m - 1, series, window);
      FaultStays(keys[..m - 1], keys[m - 1], keys[..m], series, window);
    }
  }

  lemma {:induction false} FaultStays(init: seq<Key>, key: Key, keys: seq<Key>, series: WeatherSeries, window: DayWindow)
    requires keys == init + [key] && Extract(init, series, window).Err?
    ensures Extract(keys, series, window) == Extract(init, series, window)
  {
    assert keys[..|keys| - 1] == init;
    var so := Extract(init, series, window);
    assert so.IsFailure();
    assert so.PropagateFailure() == so;
  }

  method CheckCoverage(definition: Definition, values: Values, profile: Profile) returns (gaps: Option<Outcome>)
    ensures gaps == var gap := FirstGap(definition.features, values, profile);
      if gap.None? then None else Some(NoData(TooManyGaps, [gap.value], false))
  {
    var features := definition.features;
    for i := 0 to |features|
      invariant FirstGap(features, values, profile) == FirstGap(features[i..], values, profile)
    {
      assert features[i..][1..] == features[i + 1..];
      if TooManyMissing(features[i], values, profile) {
        return Some(NoData(TooManyGaps, [features[i].metric], false));
      }
    }
    gaps := None;
  }

  method EvaluateConstraints(definition: Definition, values: Values) returns (fired: Option<ReasonCode>)
    ensures fired == FirstFired(definition.constraints, values)
  {
    var constraints := definition.constraints;
    for i := 0 to |constraints|
      invariant FirstFired(constraints, values) == FirstFired(constraints[i..], values)
    {
      assert constraints[i..][1..] == constraints[i + 1..];
      if Holds(constraints[i].when, values) == Some(true) {
        return Some(constraints[i].reason);
      }
    }
    fired := None;
  }

  method TotalKept(features: seq<Feature>, values: Values) returns (total: real)
    ensures total == Sum(Collect(features, KeptWeight(values)))
  {
    total := 0.0;
    ghost var kept := KeptWeight(values);
    for i := 0 to |features|
      invariant total == Sum(Collect(features[..i], kept))
    {
      assert features[..i + 1] == features[..i] + [features[i]];
      CollectSnoc(features[..i], features[i], kept);
      if Contributes(features[i], values) {
        SumSnoc(Collect(features[..i], kept), WeightOr0(features[i]));
        total := total + WeightOr0(features[i]);
      } else {
        assert Collect(features[..i], kept) + [] == Collect(features[..i], kept);
      }
    }
    assert features[..|features|] == features;
  }

  /** One pass gives each feature its status and collects the required metrics that have no value. */
  method NullPolicyInOnePass(definition: Definition, values: Values) returns (r: Result<seq<Applied>, seq<Requirable>>)
    ensures r == ApplyNullPolicy(definition.features, values)
  {
    var features := definition.features;
    var missing, excluded := CollectBoth(features, MissingRequired(values), ExcludedMetric(values));
    var total := TotalKept(features, values);
    if missing != [] {
      return Err(missing);
    }
    if total <= 0.0 {
      return Err(excluded);
    }
    r := Ok(seq(|features|, i requires 0 <= i < |features| => Apply(features[i], values, total)));
  }

  /** Sum, gates and breakdown fall out of one pass. */
  method NormalizeAndCombine(entries: seq<Applied>, profile: Profile, exp: real -> real)
    returns (r: Result<Combined, EngineFault>)
    ensures r == Combine(entries, profile, exp)
  {
    var so := Combined(0.0, 1.0, []);
    ghost var all: seq<real> := [];
    for i := 0 to |entries|
      invariant NormalizeAll(entries[..i], profile, exp) == Ok(all)
      invariant so == CombineAll(entries[..i], all)
    {
      assert entries[..i + 1][..i] == entries[..i];
      var normalized := NormalizedOf(entries[i], profile, exp);
      if normalized.Err? {
        NormalizeFaultPersists(entries, i + 1, profile, exp);
        return Err(normalized.error);
      }
      assert (all + [normalized.value])[..i] == all;
      so := CombineNext(so, entries[i], normalized.value);
      all := all + [normalized.value];
    }
    assert entries[..|entries|] == entries;
    r := Ok(so);
  }

  lemma {:induction false} NormalizeFaultPersists(entries: seq<Applied>, n: nat, profile: Profile, exp: real -> real)
    requires n <= |entries| && NormalizeAll(entries[..n], profile, exp).Err?
    ensures NormalizeAll(entries, profile, exp) == NormalizeAll(entries[..n], profile, exp)
  {
    if n == |entries| {
      assert entries[..n] == entries;
    } else {
      var m := |entries| - 1;
      assert entries[..m][..n] == entries[..n];
      NormalizeFaultPersists(entries[..m], n, profile, exp);
    }
  }

  /** The pipeline past the extraction: coverage before constraints, constraints before the null policy. */
  method DecideInOrder(definition: Definition, values: Values, profile: Profile, exp: real -> real)
    returns (r: Result<Outcome, EngineFault>)
    ensures r == Decide(definition, values, profile, exp)
  {
    var gaps := CheckCoverage(definition, values, profile);
    if gaps.Some? {
      return Ok(gaps.value);
    }
    var fired := EvaluateConstraints(definition, values);
    if fired.Some? {
      return Ok(RankedAs(definition, profile, Clamp01(0.0), [], fired));
    }
    var applied := NullPolicyInOnePass(definition, values);
    if applied.Err? {
      return Ok(NoData(MissingRequiredMetric, applied.error, false));
    }
    var combined := NormalizeAndCombine(applied.value, profile, exp);
    if combined.Err? {
      return Err(combined.error);
    }
    r := Ok(RankedAs(definition, profile, GatedSum(combined.value), combined.value.breakdown, None));
  }

  method Score(definition: Definition, series: WeatherSeries, window: DayWindow, profile: Profile, exp: real -> real)
    returns (r: Result<Outcome, EngineFault>)
    ensures r == ScoreActivity(definition, series, window, profile, exp)
  {
    var extracted := ExtractValues(definition, series, window);
    if extracted.Err? {
      return Err(extracted.error);
    }
    r := DecideInOrder(definition, extracted.value, profile, exp);
  }
}
