/**
 * The load: what was written is checked against the registries, faults are
 * collected rather than thrown, and only a load without a fault yields
 * definitions.
 */
module Loader {
  import opened Prelude
  import opened Metrics
  import opened Predicates
  import opened Definitions
  import opened Aggregation
  import opened Normalizers

  /* ---- what was written ---- */

  /** A metric as it was named; a name neither dictionary answers to stays a name. */
  datatype MetricName = Named(metric: Requirable) | UnknownMetric(name: string)

  datatype RawFeature = RawFeature(
    id: string,
    role: Option<Role>,
    metric: MetricName,
    unit: Option<Unit>,
    aggregation: AggregationSpec,
    normalizer: NormalizerSpec,
    weight: Option<real>,
    gateFloor: Option<real>,
    nullPolicy: NullPolicy
  )

  datatype RawExpr =
    | RawLeaf(metric: MetricName, unit: Option<Unit>, aggregation: AggregationSpec, op: Option<CompareOp>, threshold: Threshold)
    | RawAny(any: seq<RawExpr>)
    | RawAll(all: seq<RawExpr>)
    | RawNot(inner: RawExpr)

  datatype RawConstraint = RawConstraint(reason: Option<ReasonCode>, when: RawExpr)

  datatype RawDeclaration = RawDeclaration(
    code: string,
    version: int,
    includes: seq<string>,
    applicability: seq<RuleRef>,
    constraints: seq<RawConstraint>,
    features: seq<RawFeature>,
    postprocess: Bounds
  )

  datatype RawSharedRules = RawSharedRules(version: int, rules: seq<(string, RawConstraint)>)

  datatype PublishedVersion = PublishedVersion(code: string, version: nat, content: RawDeclaration)

  /** A definition, and the content its fingerprint is a digest of. */
  datatype Loaded = Loaded(definition: Definition, content: RawDeclaration)

  datatype FaultKind =
    | BadShape | UnknownInclude | UnknownRule | BadRuleParams | UnknownReason
    | UnknownMetricName | WrongUnit | CarriesNoNumber
    | UnknownAggregationName | BadAggregationParams | WrongChannel
    | CategoricalByMagnitude | ImplausibleValue
    | UnknownNormalizerName | BadCurveParams
    | UnknownOperator | SetMismatch
    | DuplicateFeature | NoWeight | NoGateFloor | BadGateFloor | GateWithWeight | GateThatFails
    | NothingContributes | FloorAboveCeiling
    | DeclaredTwice | VersionRewritten

  datatype Fault = Fault(activity: string, kind: FaultKind)

  const CATALOGUE := "(catalogue)"
  const SHARED_PREFIX := "shared:"

  /* ---- level 1: shape ---- */

  predicate ExprShaped(expr: RawExpr) {
    match expr
    case RawLeaf(_, _, _, _, threshold) => threshold.Many? ==> threshold.members != []
    case RawAny(any) => any != [] && forall i :: 0 <= i < |any| ==> ExprShaped(any[i])
    case RawAll(all) => all != [] && forall i :: 0 <= i < |all| ==> ExprShaped(all[i])
    case RawNot(inner) => ExprShaped(inner)
  }

  predicate BoundShaped(bound: Option<real>) {
    bound.Some? ==> 0.0 <= bound.value <= 100.0
  }

  predicate Shaped(raw: RawDeclaration) {
    && raw.code != "" && raw.version > 0 && raw.features != []
    && (forall i :: 0 <= i < |raw.constraints| ==> ExprShaped(raw.constraints[i].when))
    && (forall i :: 0 <= i < |raw.features| ==>
          raw.features[i].id != "" && (raw.features[i].weight.Some? ==> raw.features[i].weight.value >= 0.0))
    && BoundShaped(raw.postprocess.floor) && BoundShaped(raw.postprocess.ceiling)
  }

  predicate SharedShaped(raw: RawSharedRules) {
    raw.version > 0 && forall i :: 0 <= i < |raw.rules| ==> ExprShaped(raw.rules[i].1.when)
  }

  /* ---- levels 2 and 3: names, units, parameters, ranges ---- */

  datatype Meta = Meta(code: Requirable, unit: Unit, plausible: Option<Range>, granularity: Granularity, categorical: bool)

  function MetaOf(metric: Requirable): Meta {
    match metric
    case Derived(derived) => Meta(metric, DerivedUnit(derived), Some(DerivedRange(derived)), Hourly, false)
    case Source(code) =>
      var entry := DictionaryEntry(code);
      Meta(metric, entry.unit, entry.plausible, entry.granularity, entry.kind.Categorical?)
  }

  function DerivedRange(code: DerivedCode): Range {
    match code
    case WindWaveAlignment => Range(0.0, 180.0)
    case FreshColdSnowfall => Range(0.0, 300.0)
    case FreezingLevelMargin => Range(-6000.0, 6000.0)
  }

  function CheckMetric(name: MetricName, unit: Option<Unit>): Result<Meta, FaultKind> {
    if name.UnknownMetric? then Err(UnknownMetricName)
    else
      var meta := MetaOf(name.metric);
      if unit != Some(meta.unit) then Err(WrongUnit)
      else if meta.plausible.None? then Err(CarriesNoNumber)
      else Ok(meta)
  }

  function MetricFaults(checked: Result<Meta, FaultKind>): seq<FaultKind> {
    if checked.Err? then [checked.error] else []
  }

  predicate Serves(granularity: Granularity, needed: Granularity) {
    granularity.Both? || granularity == needed
  }

  /** Every threshold below a counting test has to lie where single values of the metric can lie. */
  function PredicateFaults(p: Predicate, meta: Meta): seq<FaultKind>
    decreases p, 0
  {
    match p
    case AnyOf(any) => PredicateFaultsOf(any, meta)
    case AllOf(all) => PredicateFaultsOf(all, meta)
    case Not(inner) => PredicateFaults(inner, meta)
    case Compare(op, threshold) =>
      (if meta.categorical && !IsSetOp(op) then [CategoricalByMagnitude] else []) +
      OutsideFaults(ValuesIn(threshold), meta.plausible)
  }

  function PredicateFaultsOf(ps: seq<Predicate>, meta: Meta): seq<FaultKind>
    decreases ps, 0
  {
    if ps == [] then [] else PredicateFaults(ps[0], meta) + PredicateFaultsOf(ps[1..], meta)
  }

  function ValuesIn(threshold: Threshold): seq<real> {
    if threshold.Many? then threshold.members else [threshold.bound]
  }

  /** One fault per value outside the range; an unknown range accepts everything. */
  function OutsideFaults(values: seq<real>, range: Option<Range>): (r: seq<FaultKind>)
    ensures r == [] <==> range.None? || forall i :: 0 <= i < |values| ==> range.value.Holds(values[i])
  {
    if range.None? || values == [] then []
    else (if range.value.Holds(values[0]) then [] else [ImplausibleValue]) + OutsideFaults(values[1..], range)
  }

  /** Whether the strategy may be used, and what was wrong besides. */
  datatype Checked = Checked(usable: bool, faults: seq<FaultKind>)

  function CheckAggregation(spec: AggregationSpec, meta: Option<Meta>): Checked {
    if !Registered(spec.code) then Checked(false, [UnknownAggregationName])
    else if !ParamsAccepted(spec) then Checked(false, [BadAggregationParams])
    else
      var faults := if meta.Some? && spec.params.test.Some? && (spec.code.ShareOfHours? || spec.code.CountIf?)
        then PredicateFaults(spec.params.test.value, meta.value) else [];
      if meta.Some? && !Serves(meta.value.granularity, GranularityOf(spec.code)) then
        Checked(false, faults + [WrongChannel])
      else Checked(true, faults)
  }

  /** Where a number compared with an aggregated quantity can plausibly lie. */
  function RangeFor(meta: Meta, spec: AggregationSpec): Option<Range> {
    match OutputUnit(spec.code)
    case None => meta.plausible
    case Some(unit) =>
      if unit.Ratio? then Some(Range(0.0, 1.0)) else if unit.Hour? then Some(Range(0.0, 24.0)) else None
  }

  /** Those parameters of a curve that are values of the metric itself. */
  function AxisPoints(spec: NormalizerSpec): seq<real>
    requires CurveAccepted(spec)
  {
    var p := spec.params;
    match spec.code
    case Linear => [p.from.value, p.to.value]
    case Inverse => [p.from.value, p.to.value]
    case Trapezoid => [p.a.value, p.b.value, p.c.value, p.d.value]
    case Gaussian => [p.center.value]
    case InverseGaussian => [p.center.value]
    case Step => seq(|p.points.value|, i requires 0 <= i < |p.points.value| => p.points.value[i].at)
  }

  function CheckNormalizer(spec: NormalizerSpec, meta: Option<Meta>, aggregation: AggregationSpec, usable: bool): seq<FaultKind> {
    if spec.code.UnknownNormalizer? then [UnknownNormalizerName]
    else if !CurveAccepted(spec) then [BadCurveParams]
    else if meta.None? || !usable then []
    else OutsideFaults(AxisPoints(spec), RangeFor(meta.value, aggregation))
  }

  function RoleOf(raw: RawFeature): Role {
    if raw.role.Some? then raw.role.value else Additive
  }

  function RoleFaults(raw: RawFeature): seq<FaultKind> {
    if RoleOf(raw).Additive? then
      if raw.weight.None? then [NoWeight] else []
    else
      (if raw.gateFloor.None? then [NoGateFloor]
       else if raw.gateFloor.value <= 0.0 || raw.gateFloor.value > 1.0 then [BadGateFloor]
       else []) +
      (if raw.weight.Some? then [GateWithWeight] else []) +
      (if raw.nullPolicy.Fail? then [GateThatFails] else [])
  }

  function CheckFeature(raw: RawFeature): seq<FaultKind> {
    var metric := CheckMetric(raw.metric, raw.unit);
    var meta := if metric.Ok? then Some(metric.value) else None;
    var aggregation := CheckAggregation(raw.aggregation, meta);
    RoleFaults(raw) + MetricFaults(metric) + aggregation.faults +
    CheckNormalizer(raw.normalizer, meta, raw.aggregation, aggregation.usable)
  }

  /* ---- constraints ---- */

  function LeafFaults(raw: RawExpr): seq<FaultKind>
    requires raw.RawLeaf?
  {
    var metric := CheckMetric(raw.metric, raw.unit);
    var meta := if metric.Ok? then Some(metric.value) else None;
    var aggregation := CheckAggregation(raw.aggregation, meta);
    var setOp := raw.op.Some? && IsSetOp(raw.op.value);
    MetricFaults(metric) + aggregation.faults +
    (if raw.op.None? then [UnknownOperator] else []) +
    (if setOp != raw.threshold.Many? then [SetMismatch] else []) +
    (if metric.Ok? && aggregation.usable then
      (if metric.value.categorical && OutputUnit(raw.aggregation.code).None? && !setOp then [CategoricalByMagnitude] else []) +
      OutsideFaults(ValuesIn(raw.threshold), RangeFor(metric.value, raw.aggregation))
    else [])
  }

  function ExprFaults(raw: RawExpr): seq<FaultKind>
    decreases raw, 0
  {
    match raw
    case RawLeaf(_, _, _, _, _) => LeafFaults(raw)
    case RawAny(any) => ExprFaultsOf(any)
    case RawAll(all) => ExprFaultsOf(all)
    case RawNot(inner) => ExprFaults(inner)
  }

  function ExprFaultsOf(raws: seq<RawExpr>): seq<FaultKind>
    decreases raws, 0
  {
    if raws == [] then [] else ExprFaults(raws[0]) + ExprFaultsOf(raws[1..])
  }

  /** The expression as the engine takes it, once nothing in it is at fault. */
  function ReadExpr(raw: RawExpr): ConstraintExpr
    requires ExprFaults(raw) == []
    decreases raw, 0
  {
    match raw
    case RawLeaf(metric, unit, aggregation, op, threshold) =>
      Leaf(metric.metric, unit.value, aggregation, op.value, threshold)
    case RawAny(any) => AnyHolds(ReadExprs(any))
    case RawAll(all) => AllHold(ReadExprs(all))
    case RawNot(inner) => Negated(ReadExpr(inner))
  }

  function ReadExprs(raws: seq<RawExpr>): (r: seq<ConstraintExpr>)
    requires ExprFaultsOf(raws) == []
    ensures |r| == |raws|
    decreases raws, 0
  {
    if raws == [] then [] else [ReadExpr(raws[0])] + ReadExprs(raws[1..])
  }

  function ReadConstraint(raw: RawConstraint): Result<Constraint, seq<FaultKind>> {
    var faults := (if raw.reason.None? then [UnknownReason] else []) + ExprFaults(raw.when);
    if faults != [] then Err(faults)
    else
      assert ExprFaults(raw.when) == [];
      Ok(Constraint(raw.reason.value, ReadExpr(raw.when)))
  }

  function ConstraintFault(raw: RawConstraint): seq<FaultKind> {
    var read := ReadConstraint(raw);
    if read.Err? then read.error else []
  }

  function ConstraintIfRead(raw: RawConstraint): seq<Constraint> {
    var read := ReadConstraint(raw);
    if read.Ok? then [read.value] else []
  }

  /* ---- shared rules ---- */

  function SharedRules(rules: seq<(string, RawConstraint)>): map<string, Constraint> {
    if rules == [] then map[]
    else
      var n := |rules| - 1;
      var read := ReadConstraint(rules[n].1);
      var sofar := SharedRules(rules[..n]);
      if read.Ok? then sofar[rules[n].0 := read.value] else sofar
  }

  function SharedFaults(rules: seq<(string, RawConstraint)>): seq<FaultKind> {
    Collect(seq(|rules|, i requires 0 <= i < |rules| => rules[i].1), ConstraintFault)
  }

  /** A reference with or without its prefix names the same rule. */
  function RuleId(reference: string): string {
    if |reference| >= |SHARED_PREFIX| && reference[..|SHARED_PREFIX|] == SHARED_PREFIX
    then reference[|SHARED_PREFIX|..] else reference
  }

  function IncludeFault(shared: map<string, Constraint>): string -> seq<FaultKind> {
    reference => if RuleId(reference) in shared then [] else [UnknownInclude]
  }

  function IncludedRule(shared: map<string, Constraint>): string -> seq<Constraint> {
    reference => if RuleId(reference) in shared then [shared[RuleId(reference)]] else []
  }

  /* ---- applicability ---- */

  function RuleFault(rule: RuleRef): seq<FaultKind> {
    if rule.rule == "snowSeason" then
      if rule.params.minColdMonthSnowfallCm.Some? && rule.params.minColdMonthSnowfallCm.value > 0.0 then []
      else [BadRuleParams]
    else if rule.rule == "marineCoverage" then
      if rule.params.confirmations.Some? && rule.params.confirmations.value > 0 then [] else [BadRuleParams]
    else [UnknownRule]
  }

  /* ---- features ---- */

  predicate IdSeen(before: seq<RawFeature>, id: string) {
    exists i :: 0 <= i < |before| && before[i].id == id
  }

  /** The first feature of each id is kept; a later one is a fault and nothing else. */
  function KeepFirst(before: seq<RawFeature>, raw: RawFeature): seq<RawFeature> {
    if IdSeen(before, raw.id) then [] else [raw]
  }

  function FeatureFault(before: seq<RawFeature>, raw: RawFeature): seq<FaultKind> {
    if IdSeen(before, raw.id) then [DuplicateFeature] else CheckFeature(raw)
  }

  function RawWeight(raw: RawFeature): real {
    if raw.weight.Some? then raw.weight.value else 0.0
  }

  /** A declared weight, where it counts towards the score. */
  function AdditiveWeight(raw: RawFeature): seq<real> {
    if RoleOf(raw).Additive? then [RawWeight(raw)] else []
  }

  function TotalFaults(total: real): seq<FaultKind> {
    if total <= 0.0 then [NothingContributes] else []
  }

  function ResolveFeature(raw: RawFeature, total: real): Feature
    requires total > 0.0 && raw.metric.Named? && raw.unit.Some?
  {
    var role := RoleOf(raw);
    Feature(raw.id, raw.metric.metric, raw.unit.value, raw.aggregation, raw.normalizer, raw.nullPolicy, role,
      if role.Additive? then Some(RawWeight(raw) / total) else None,
      if role.Gate? then Some(Clamp01(if raw.gateFloor.Some? then raw.gateFloor.value else 0.0)) else None)
  }

  /** The features as the engine takes them, weights normalised over the contributing ones. */
  function ResolveFeatures(raws: seq<RawFeature>): Result<seq<Feature>, seq<FaultKind>> {
    var read := CollectWith(raws, KeepFirst);
    var total := Sum(Collect(read, AdditiveWeight));
    var faults := CollectWith(raws, FeatureFault) + TotalFaults(total);
    if faults != [] then Err(faults)
    else
      assert CollectWith(raws, FeatureFault) == [] && TotalFaults(total) == [];
      assert forall i :: 0 <= i < |read| ==> read[i].metric.Named? && read[i].unit.Some? by {
        NoFaultMeansChecked(raws);
      }
      Ok(seq(|read|, i requires 0 <= i < |read| => ResolveFeature(read[i], total)))
  }

  lemma {:induction false} CheckedFeatureIsNamed(raw: RawFeature)
    requires CheckFeature(raw) == []
    ensures raw.metric.Named? && raw.unit.Some?
  {
  }

  lemma {:induction false} NoFaultMeansChecked(raws: seq<RawFeature>)
    requires CollectWith(raws, FeatureFault) == []
    ensures CollectWith(raws, KeepFirst) == raws
    ensures forall i :: 0 <= i < |raws| ==> raws[i].metric.Named? && raws[i].unit.Some?
    ensures forall i, j :: 0 <= i < j < |raws| ==> raws[i].id != raws[j].id
  {
    forall i | 0 <= i < |raws|
      ensures raws[i].metric.Named? && raws[i].unit.Some? && !IdSeen(raws[..i], raws[i].id)
    {
      CollectedWithNothing(raws, FeatureFault, i);
      CheckedFeatureIsNamed(raws[i]);
    }
    CollectedWithAll(raws, KeepFirst);
    forall i, j | 0 <= i < j < |raws| ensures raws[i].id != raws[j].id {
      assert raws[..j][i].id == raws[i].id;
    }
  }

  /* ---- declarations ---- */

  function BoundsFaults(bounds: Bounds): seq<FaultKind> {
    if bounds.floor.Some? && bounds.ceiling.Some? && bounds.floor.value > bounds.ceiling.value
    then [FloorAboveCeiling] else []
  }

  function FaultsIn(raw: RawDeclaration, shared: map<string, Constraint>): seq<FaultKind> {
    var features := ResolveFeatures(raw.features);
    Collect(raw.includes, IncludeFault(shared)) + Collect(raw.applicability, RuleFault) +
    Collect(raw.constraints, ConstraintFault) +
    (if features.Err? then features.error else []) + BoundsFaults(raw.postprocess)
  }

  /** The shared rules a declaration names come first, then the constraints it writes itself. */
  function Resolve(raw: RawDeclaration, shared: map<string, Constraint>): Definition
    requires FaultsIn(raw, shared) == [] && raw.version >= 0
  {
    Definition(raw.code, raw.version, raw.applicability,
      Collect(raw.includes, IncludedRule(shared)) + Collect(raw.constraints, ConstraintIfRead),
      ResolveFeatures(raw.features).value,
      raw.postprocess)
  }

  function Tag(activity: string, kinds: seq<FaultKind>): seq<Fault> {
    seq(|kinds|, i requires 0 <= i < |kinds| => Fault(activity, kinds[i]))
  }

  function DeclarationFaults(raw: RawDeclaration, shared: map<string, Constraint>): seq<Fault> {
    if !Shaped(raw) then [Fault(raw.code, BadShape)] else Tag(raw.code, FaultsIn(raw, shared))
  }

  function FaultsOf(shared: map<string, Constraint>): RawDeclaration -> seq<Fault> {
    raw => DeclarationFaults(raw, shared)
  }

  function LoadedFrom(shared: map<string, Constraint>): RawDeclaration -> seq<Loaded> {
    raw => if Shaped(raw) && FaultsIn(raw, shared) == [] then [Loaded(Resolve(raw, shared), raw)] else []
  }

  /* ---- versions ---- */

  type VersionKey = (string, nat)

  function KeyOf(loaded: Loaded): VersionKey {
    (loaded.definition.code, loaded.definition.version)
  }

  datatype VersionCheck = VersionCheck(seen: map<VersionKey, RawDeclaration>, inThisLoad: set<VersionKey>, faults: seq<Fault>)

  function Seen(published: seq<PublishedVersion>): map<VersionKey, RawDeclaration> {
    if published == [] then map[]
    else
      var n := |published| - 1;
      Seen(published[..n])[(published[n].code, published[n].version) := published[n].content]
  }

  function CheckVersion(so: VersionCheck, loaded: Loaded): VersionCheck {
    var key := KeyOf(loaded);
    if key in so.inThisLoad then
      so.(faults := so.faults + [Fault(loaded.definition.code, DeclaredTwice)])
    else
      var next := so.(inThisLoad := so.inThisLoad + {key});
      if key !in so.seen then next.(seen := so.seen[key := loaded.content])
      else if so.seen[key] != loaded.content then
        next.(faults := so.faults + [Fault(loaded.definition.code, VersionRewritten)])
      else next
  }

  function CheckVersions(all: seq<Loaded>, published: seq<PublishedVersion>): VersionCheck {
    if all == [] then VersionCheck(Seen(published), {}, [])
    else CheckVersion(CheckVersions(all[..|all| - 1], published), all[|all| - 1])
  }

  /** Faults of the shared rules, of the declarations, and of their versions, in that order. */
  function LoadFaults(inputs: seq<RawDeclaration>, rules: RawSharedRules, published: seq<PublishedVersion>): seq<Fault> {
    var shared := UsableRules(rules);
    RulesFaults(rules) + Collect(inputs, FaultsOf(shared)) + CheckVersions(Collect(inputs, LoadedFrom(shared)), published).faults
  }

  function UsableRules(rules: RawSharedRules): map<string, Constraint> {
    if SharedShaped(rules) then SharedRules(rules.rules) else map[]
  }

  function RulesFaults(rules: RawSharedRules): seq<Fault> {
    if SharedShaped(rules) then Tag(CATALOGUE, SharedFaults(rules.rules)) else [Fault(CATALOGUE, BadShape)]
  }

  function Load(inputs: seq<RawDeclaration>, rules: RawSharedRules, published: seq<PublishedVersion>)
    : Result<seq<Loaded>, seq<Fault>>
  {
    var faults := LoadFaults(inputs, rules, published);
    if faults != [] then Err(faults) else Ok(Collect(inputs, LoadedFrom(UsableRules(rules))))
  }

  method CheckEachVersion(resolved: seq<Loaded>, published: seq<PublishedVersion>) returns (faults: seq<Fault>)
    ensures faults == CheckVersions(resolved, published).faults
  {
    var versions := VersionCheck(Seen(published), {}, []);
    for i := 0 to |resolved|
      invariant versions == CheckVersions(resolved[..i], published)
    {
      assert resolved[..i + 1][..i] == resolved[..i];
      versions := CheckVersion(versions, resolved[i]);
    }
    assert resolved[..|resolved|] == resolved;
    faults := versions.faults;
  }

  /** The load as it runs: one list of faults, pushed into by every check. */
  method LoadDeclarations(inputs: seq<RawDeclaration>, rules: RawSharedRules, published: seq<PublishedVersion>)
    returns (r: Result<seq<Loaded>, seq<Fault>>)
    ensures r == Load(inputs, rules, published)
  {
    var shared := UsableRules(rules);
    var faults, resolved := CollectBoth(inputs, FaultsOf(shared), LoadedFrom(shared));
    var rewritten := CheckEachVersion(resolved, published);
    faults := RulesFaults(rules) + faults + rewritten;
    r := if faults != [] then Err(faults) else Ok(resolved);
  }
}
