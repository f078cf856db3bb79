/**
 * What a load accepts and what it hands on, told from what was written: which
 * declarations load at all, and that each one loaded says what its author wrote.
 */
module LoadMeaning {
  import opened Prelude
  import opened Metrics
  import opened Predicates
  import opened Definitions
  import opened Aggregation
  import opened Normalizers
  import opened LocationProfiles
  import opened Constraints
  import opened Loader
  import S = Soundness

  // ---- What a written condition says ----

  /** The two-valued meaning of a condition as it was written. */
  predicate Means(raw: RawExpr, reading: Completion) {
    match raw
    case RawLeaf(metric, _, aggregation, op, threshold) =>
      && metric.Named? && op.Some? && Key(metric.metric, aggregation) in reading
      && Compares(op.value, threshold, reading[Key(metric.metric, aggregation)])
    case RawAny(any) => exists i :: 0 <= i < |any| && Means(any[i], reading)
    case RawAll(all) => forall i :: 0 <= i < |all| ==> Means(all[i], reading)
    case RawNot(inner) => !Means(inner, reading)
  }

  lemma {:induction false} FaultlessAt(raws: seq<RawExpr>, i: nat)
    requires ExprFaultsOf(raws) == [] && i < |raws|
    ensures ExprFaults(raws[i]) == [] && ReadExprs(raws)[i] == ReadExpr(raws[i])
  {
    if i > 0 {
      FaultlessAt(raws[1..], i - 1);
    }
  }

  /** What was read of a condition means what was written, under every reading of a day. */
  lemma {:induction false} ReadMeansTheSame(raw: RawExpr, reading: Completion)
    requires ExprFaults(raw) == []
    ensures Classical(ReadExpr(raw), reading) == Means(raw, reading)
    decreases raw
  {
    match raw
    case RawLeaf(metric, unit, _, _, _) => assert MetricFaults(CheckMetric(metric, unit)) == [];
    case RawAny(any) =>
      forall i | 0 <= i < |any| ensures Classical(ReadExprs(any)[i], reading) == Means(any[i], reading) {
        FaultlessAt(any, i);
        ReadMeansTheSame(any[i], reading);
      }
    case RawAll(all) =>
      forall i | 0 <= i < |all| ensures Classical(ReadExprs(all)[i], reading) == Means(all[i], reading) {
        FaultlessAt(all, i);
        ReadMeansTheSame(all[i], reading);
      }
    case RawNot(inner) => ReadMeansTheSame(inner, reading);
  }

  // ---- What may be written ----

  /** Where single values of a metric can lie; nowhere for one that carries no number. */
  function PlausibleOf(metric: Requirable): Option<Range> {
    match metric
    case Source(code) => DictionaryEntry(code).plausible
    case Derived(derived) =>
      match derived
      case WindWaveAlignment => Some(Range(0.0, 180.0))
      case FreshColdSnowfall => Some(Range(0.0, 300.0))
      case FreezingLevelMargin => Some(Range(-6000.0, 6000.0))
  }

  predicate Plausible(metric: Requirable, x: real) {
    PlausibleOf(metric).Some? ==> PlausibleOf(metric).value.low <= x <= PlausibleOf(metric).value.high
  }

  predicate IsCategorical(metric: Requirable) {
    metric.Source? && DictionaryEntry(metric.code).kind.Categorical?
  }

  /** The metric has the channel the strategy reads: the daily one for a daily value, the hourly one for all others. */
  predicate HasChannel(metric: Requirable, code: AggregationCode) {
    match metric
    case Derived(_) => !code.Identity?
    case Source(source) =>
      DictionaryEntry(source).granularity == Both ||
      DictionaryEntry(source).granularity == if code.Identity? then Daily else Hourly
  }

  /** A test compares values of the metric with values the metric can have, and categories by membership alone. */
  predicate TestWritten(p: Predicate, metric: Requirable) {
    match p
    case AnyOf(any) => forall i :: 0 <= i < |any| ==> TestWritten(any[i], metric)
    case AllOf(all) => forall i :: 0 <= i < |all| ==> TestWritten(all[i], metric)
    case Not(inner) => TestWritten(inner, metric)
    case Compare(op, threshold) =>
      (IsCategorical(metric) ==> IsSetOp(op)) && forall x :: x in Bound(threshold) ==> Plausible(metric, x)
  }

  function Bound(threshold: Threshold): seq<real> {
    match threshold
    case One(bound) => [bound]
    case Many(members) => members
  }

  predicate Counts(code: AggregationCode) {
    code.ShareOfHours? || code.CountIf?
  }

  predicate StrategyWritten(spec: AggregationSpec, metric: Requirable) {
    && !spec.code.UnknownAggregation? && ParamsAccepted(spec) && HasChannel(metric, spec.code)
    && (Counts(spec.code) ==> TestWritten(spec.params.test.value, metric))
  }

  /** A known metric that carries a number, in its own unit, under a strategy that can read it. */
  predicate QuantityWritten(name: MetricName, unit: Option<Unit>, spec: AggregationSpec) {
    && name.Named? && unit == Some(UnitOf(name.metric)) && PlausibleOf(name.metric).Some?
    && StrategyWritten(spec, name.metric)
  }

  /** A value the aggregated quantity can have: a share, a number of hours, or a value of the metric. */
  predicate Reachable(metric: Requirable, spec: AggregationSpec, x: real) {
    if spec.code.ShareOfHours? then 0.0 <= x <= 1.0
    else if spec.code.CountIf? then 0.0 <= x <= 24.0
    else Plausible(metric, x)
  }

  /** A curve with its parameters in order, whose points all lie where the quantity can. */
  predicate CurveWritten(curve: NormalizerSpec, metric: Requirable, spec: AggregationSpec) {
    var p := curve.params;
    && CurveAccepted(curve)
    && match curve.code
       case Linear => Reachable(metric, spec, p.from.value) && Reachable(metric, spec, p.to.value)
       case Inverse => Reachable(metric, spec, p.from.value) && Reachable(metric, spec, p.to.value)
       case Trapezoid =>
         && Reachable(metric, spec, p.a.value) && Reachable(metric, spec, p.b.value)
         && Reachable(metric, spec, p.c.value) && Reachable(metric, spec, p.d.value)
       case Gaussian => Reachable(metric, spec, p.center.value)
       case InverseGaussian => Reachable(metric, spec, p.center.value)
       case Step => forall i :: 0 <= i < |p.points.value| ==> Reachable(metric, spec, p.points.value[i].at)
       case UnknownNormalizer(_) => false
  }

  predicate Limits(raw: RawFeature) {
    raw.role == Some(Gate)
  }

  /** What adds to the score has a weight; what limits it has a floor above zero, no weight, and may be missing. */
  predicate RoleWritten(raw: RawFeature) {
    if Limits(raw) then
      raw.gateFloor.Some? && 0.0 < raw.gateFloor.value <= 1.0 && raw.weight.None? && !raw.nullPolicy.Fail?
    else raw.weight.Some?
  }

  predicate FeatureWritten(raw: RawFeature) {
    && QuantityWritten(raw.metric, raw.unit, raw.aggregation) && RoleWritten(raw)
    && CurveWritten(raw.normalizer, raw.metric.metric, raw.aggregation)
  }

  predicate LeafWritten(raw: RawExpr)
    requires raw.RawLeaf?
  {
    && QuantityWritten(raw.metric, raw.unit, raw.aggregation) && raw.op.Some?
    && (IsSetOp(raw.op.value) <==> raw.threshold.Many?)
    && (IsCategorical(raw.metric.metric) && !Counts(raw.aggregation.code) ==> IsSetOp(raw.op.value))
    && forall x :: x in Bound(raw.threshold) ==> Reachable(raw.metric.metric, raw.aggregation, x)
  }

  predicate ExprWritten(raw: RawExpr) {
    match raw
    case RawLeaf(_, _, _, _, _) => LeafWritten(raw)
    case RawAny(any) => forall i :: 0 <= i < |any| ==> ExprWritten(any[i])
    case RawAll(all) => forall i :: 0 <= i < |all| ==> ExprWritten(all[i])
    case RawNot(inner) => ExprWritten(inner)
  }

  predicate ConstraintWritten(raw: RawConstraint) {
    raw.reason.Some? && ExprWritten(raw.when)
  }

  /** A reference names a rule by its id, with the prefix or without it. */
  predicate Names(reference: string, id: string) {
    if SHARED_PREFIX <= reference then reference == SHARED_PREFIX + id else reference == id
  }

  predicate RuleWritten(rule: RuleRef) {
    SnowRule(rule) || (MarineRule(rule) && rule.params.confirmations.value > 0)
  }

  /** Features that are each in order, told apart by their ids, one of which weighs something. */
  predicate FeaturesWritten(raws: seq<RawFeature>) {
    && (forall i :: 0 <= i < |raws| ==> FeatureWritten(raws[i]))
    && DistinctIds(raws) && WeighsSomething(raws)
  }

  predicate AllWritten(rules: seq<(string, RawConstraint)>) {
    forall j :: 0 <= j < |rules| ==> ConstraintWritten(rules[j].1)
  }

  predicate AllNamed(includes: seq<string>, rules: seq<(string, RawConstraint)>) {
    forall k :: 0 <= k < |includes| ==> exists j :: 0 <= j < |rules| && Names(includes[k], rules[j].0)
  }

  ghost predicate DeclarationWritten(raw: RawDeclaration, rules: seq<(string, RawConstraint)>) {
    && Shaped(raw)
    && AllNamed(raw.includes, rules)
    && (forall k :: 0 <= k < |raw.applicability| ==> RuleWritten(raw.applicability[k]))
    && (forall k :: 0 <= k < |raw.constraints| ==> ConstraintWritten(raw.constraints[k]))
    && FeaturesWritten(raw.features)
    && (raw.postprocess.floor.Some? && raw.postprocess.ceiling.Some? ==>
          raw.postprocess.floor.value <= raw.postprocess.ceiling.value)
  }

  ghost predicate RulesWritten(rules: RawSharedRules) {
    SharedShaped(rules) && AllWritten(rules.rules)
  }

  /** The content last published under a version. */
  ghost predicate LastPublished(published: seq<PublishedVersion>, n: nat, code: string, version: int)
    requires n < |published|
  {
    && published[n].code == code && published[n].version == version
    && forall m :: n < m < |published| ==> published[m].code != code || published[m].version != version
  }

  /** No version is declared twice, and none says other than what was published under it. */
  ghost predicate VersionsAgree(inputs: seq<RawDeclaration>, published: seq<PublishedVersion>) {
    && (forall i, j :: 0 <= i < j < |inputs| ==> inputs[i].code != inputs[j].code || inputs[i].version != inputs[j].version)
    && (forall i, n :: 0 <= i < |inputs| && 0 <= n < |published| ==>
          LastPublished(published, n, inputs[i].code, inputs[i].version) ==> published[n].content == inputs[i])
  }

  // ---- Nothing collected ----

  lemma {:induction false} NothingCollected<A, B>(xs: seq<A>, f: A -> seq<B>)
    ensures Collect(xs, f) == [] <==> forall i :: 0 <= i < |xs| ==> f(xs[i]) == []
  {
    if xs != [] {
      var n := |xs| - 1;
      NothingCollected(xs[..n], f);
      assert forall i :: 0 <= i < n ==> xs[..n][i] == xs[i];
    }
  }

  lemma {:induction false} SinglyCollected<A, B>(xs: seq<A>, f: A -> seq<B>)
    requires forall i :: 0 <= i < |xs| ==> |f(xs[i])| == 1
    ensures |Collect(xs, f)| == |xs| && forall i :: 0 <= i < |xs| ==> Collect(xs, f)[i] == f(xs[i])[0]
  {
    if xs != [] {
      var n := |xs| - 1;
      assert forall i :: 0 <= i < n ==> xs[..n][i] == xs[i];
      SinglyCollected(xs[..n], f);
    }
  }

  // ---- No fault means written as it may be ----

  lemma {:induction false} InsideExactly(metric: Requirable, threshold: Threshold)
    ensures OutsideFaults(ValuesIn(threshold), MetaOf(metric).plausible) == []
      <==> forall x :: x in Bound(threshold) ==> Plausible(metric, x)
  {
    assert ValuesIn(threshold) == Bound(threshold);
    assert MetaOf(metric).plausible == PlausibleOf(metric);
    InsideAll(Bound(threshold), PlausibleOf(metric));
  }

  lemma {:induction false} InsideAll(xs: seq<real>, range: Option<Range>)
    ensures OutsideFaults(xs, range) == [] <==> forall x :: x in xs ==> range.Some? ==> range.value.low <= x <= range.value.high
  {
    if OutsideFaults(xs, range) == [] {
      forall x | x in xs ensures range.Some? ==> range.value.low <= x <= range.value.high {
        var i :| 0 <= i < |xs| && xs[i] == x;
      }
    }
    if forall x :: x in xs ==> range.Some? ==> range.value.low <= x <= range.value.high {
      forall i | 0 <= i < |xs| ensures range.Some? ==> range.value.Holds(xs[i]) {
        assert xs[i] in xs;
      }
    }
  }

  lemma {:induction false} TestFaultsAt(ps: seq<Predicate>, meta: Meta)
    ensures PredicateFaultsOf(ps, meta) == [] <==> forall i :: 0 <= i < |ps| ==> PredicateFaults(ps[i], meta) == []
  {
    if ps != [] {
      TestFaultsAt(ps[1..], meta);
      assert forall i :: 0 < i < |ps| ==> ps[i] == ps[1..][i - 1];
      assert forall i :: 0 <= i < |ps[1..]| ==> ps[1..][i] == ps[i + 1];
    }
  }

  lemma {:induction false} TestExactly(p: Predicate, metric: Requirable)
    ensures PredicateFaults(p, MetaOf(metric)) == [] <==> TestWritten(p, metric)
    decreases p
  {
    match p
    case Compare(_, threshold) => InsideExactly(metric, threshold);
    case AnyOf(any) =>
      TestFaultsAt(any, MetaOf(metric));
      forall i | 0 <= i < |any| ensures PredicateFaults(any[i], MetaOf(metric)) == [] <==> TestWritten(any[i], metric) {
        TestExactly(any[i], metric);
      }
    case AllOf(all) =>
      TestFaultsAt(all, MetaOf(metric));
      forall i | 0 <= i < |all| ensures PredicateFaults(all[i], MetaOf(metric)) == [] <==> TestWritten(all[i], metric) {
        TestExactly(all[i], metric);
      }
    case Not(inner) => TestExactly(inner, metric);
  }

  lemma {:induction false} ChannelExactly(metric: Requirable, code: AggregationCode)
    ensures Serves(MetaOf(metric).granularity, GranularityOf(code)) <==> HasChannel(metric, code)
  {
  }

  lemma {:induction false} StrategyExactly(spec: AggregationSpec, metric: Requirable)
    ensures var checked := CheckAggregation(spec, Some(MetaOf(metric)));
      && (checked.faults == [] <==> StrategyWritten(spec, metric))
      && (checked.faults == [] ==> checked.usable)
  {
    ChannelExactly(metric, spec.code);
    if spec.params.test.Some? {
      TestExactly(spec.params.test.value, metric);
    }
  }

  lemma {:induction false} QuantityExactly(name: MetricName, unit: Option<Unit>, spec: AggregationSpec)
    ensures var metric := CheckMetric(name, unit);
      var faults := MetricFaults(metric) + CheckAggregation(spec, if metric.Ok? then Some(metric.value) else None).faults;
      faults == [] <==> QuantityWritten(name, unit, spec)
    ensures QuantityWritten(name, unit, spec) ==>
      CheckMetric(name, unit) == Ok(MetaOf(name.metric)) && CheckAggregation(spec, Some(MetaOf(name.metric))).usable
  {
    if name.Named? {
      assert MetaOf(name.metric).plausible == PlausibleOf(name.metric) && MetaOf(name.metric).unit == UnitOf(name.metric);
      StrategyExactly(spec, name.metric);
    }
  }

  lemma {:induction false} RangeExactly(metric: Requirable, spec: AggregationSpec, xs: seq<real>)
    requires Registered(spec.code)
    ensures OutsideFaults(xs, RangeFor(MetaOf(metric), spec)) == [] <==> forall x :: x in xs ==> Reachable(metric, spec, x)
  {
    InsideAll(xs, RangeFor(MetaOf(metric), spec));
    assert MetaOf(metric).plausible == PlausibleOf(metric);
  }

  lemma {:induction false} PointsExactly(curve: NormalizerSpec, metric: Requirable, spec: AggregationSpec)
    requires CurveAccepted(curve)
    ensures (forall x :: x in AxisPoints(curve) ==> Reachable(metric, spec, x)) <==> CurveWritten(curve, metric, spec)
  {
    var points := AxisPoints(curve);
    assert (forall x :: x in points ==> Reachable(metric, spec, x))
      <==> (forall i :: 0 <= i < |points| ==> Reachable(metric, spec, points[i]));
    match curve.code
    case Linear => assert points[0] in points && points[1] in points;
    case Inverse => assert points[0] in points && points[1] in points;
    case Trapezoid => assert points[0] in points && points[1] in points && points[2] in points && points[3] in points;
    case Gaussian => assert points[0] in points;
    case InverseGaussian => assert points[0] in points;
    case Step =>
      assert |points| == |curve.params.points.value|;
      assert forall i :: 0 <= i < |points| ==> points[i] == curve.params.points.value[i].at;
  }

  lemma {:induction false} CurveExactly(curve: NormalizerSpec, metric: Requirable, spec: AggregationSpec)
    requires Registered(spec.code)
    ensures CheckNormalizer(curve, Some(MetaOf(metric)), spec, true) == [] <==> CurveWritten(curve, metric, spec)
  {
    if CurveAccepted(curve) {
      PointsExactly(curve, metric, spec);
      RangeExactly(metric, spec, AxisPoints(curve));
    }
  }

  lemma {:induction false} RoleExactly(raw: RawFeature)
    ensures RoleFaults(raw) == [] <==> RoleWritten(raw)
  {
  }

  lemma {:induction false} FeatureExactly(raw: RawFeature)
    ensures CheckFeature(raw) == [] <==> FeatureWritten(raw)
  {
    RoleExactly(raw);
    QuantityExactly(raw.metric, raw.unit, raw.aggregation);
    if QuantityWritten(raw.metric, raw.unit, raw.aggregation) {
      CurveExactly(raw.normalizer, raw.metric.metric, raw.aggregation);
    }
  }

  lemma {:induction false} LeafExactly(raw: RawExpr)
    requires raw.RawLeaf?
    ensures LeafFaults(raw) == [] <==> LeafWritten(raw)
  {
    QuantityExactly(raw.metric, raw.unit, raw.aggregation);
    if QuantityWritten(raw.metric, raw.unit, raw.aggregation) {
      RangeExactly(raw.metric.metric, raw.aggregation, ValuesIn(raw.threshold));
      assert ValuesIn(raw.threshold) == Bound(raw.threshold);
    }
  }

  lemma {:induction false} ExprFaultsAt(raws: seq<RawExpr>)
    ensures ExprFaultsOf(raws) == [] <==> forall i :: 0 <= i < |raws| ==> ExprFaults(raws[i]) == []
  {
    if raws != [] {
      ExprFaultsAt(raws[1..]);
      assert forall i :: 0 < i < |raws| ==> raws[i] == raws[1..][i - 1];
      assert forall i :: 0 <= i < |raws[1..]| ==> raws[1..][i] == raws[i + 1];
    }
  }

  lemma {:induction false} ExprExactly(raw: RawExpr)
    ensures ExprFaults(raw) == [] <==> ExprWritten(raw)
    decreases raw
  {
    match raw
    case RawLeaf(_, _, _, _, _) => LeafExactly(raw);
    case RawAny(any) =>
      ExprFaultsAt(any);
      forall i | 0 <= i < |any| ensures ExprFaults(any[i]) == [] <==> ExprWritten(any[i]) {
        ExprExactly(any[i]);
      }
    case RawAll(all) =>
      ExprFaultsAt(all);
      forall i | 0 <= i < |all| ensures ExprFaults(all[i]) == [] <==> ExprWritten(all[i]) {
        ExprExactly(all[i]);
      }
    case RawNot(inner) => ExprExactly(inner);
  }

  lemma {:induction false} ConstraintExactly(raw: RawConstraint)
    ensures ReadConstraint(raw).Ok? <==> ConstraintWritten(raw)
    ensures ConstraintFault(raw) == [] <==> ConstraintWritten(raw)
  {
    ExprExactly(raw.when);
  }

  lemma {:induction false} RuleExactly(rule: RuleRef)
    ensures RuleFault(rule) == [] <==> RuleWritten(rule)
  {
  }

  // ---- Features together ----

  predicate DistinctIds(raws: seq<RawFeature>) {
    forall i, j :: 0 <= i < j < |raws| ==> raws[i].id != raws[j].id
  }

  lemma {:induction false} SeenExactly(raws: seq<RawFeature>, i: nat)
    requires i < |raws|
    ensures IdSeen(raws[..i], raws[i].id) <==> exists j :: 0 <= j < i && raws[j].id == raws[i].id
  {
    if exists j :: 0 <= j < i && raws[j].id == raws[i].id {
      var j :| 0 <= j < i && raws[j].id == raws[i].id;
      assert raws[..i][j].id == raws[i].id;
    }
  }

  lemma {:induction false} FaultlessIsWritten(raws: seq<RawFeature>, i: nat)
    requires CollectWith(raws, FeatureFault) == [] && i < |raws|
    ensures FeatureWritten(raws[i])
  {
    CollectedWithNothing(raws, FeatureFault, i);
    FeatureExactly(raws[i]);
  }

  lemma {:induction false} FaultlessAreWritten(raws: seq<RawFeature>)
    requires CollectWith(raws, FeatureFault) == []
    ensures DistinctIds(raws) && forall i :: 0 <= i < |raws| ==> FeatureWritten(raws[i])
  {
    NoFaultMeansChecked(raws);
    forall i | 0 <= i < |raws| ensures FeatureWritten(raws[i]) {
      FaultlessIsWritten(raws, i);
    }
  }

  lemma {:induction false} WrittenAreFaultless(raws: seq<RawFeature>)
    requires DistinctIds(raws) && forall i :: 0 <= i < |raws| ==> FeatureWritten(raws[i])
    ensures CollectWith(raws, FeatureFault) == []
  {
    forall i | 0 <= i < |raws| ensures FeatureFault(raws[..i], raws[i]) == [] {
      SeenExactly(raws, i);
      FeatureExactly(raws[i]);
    }
    NothingCollectedWith(raws, FeatureFault);
  }

  predicate WeighsSomething(raws: seq<RawFeature>) {
    exists i :: 0 <= i < |raws| && !Limits(raws[i]) && raws[i].weight.Some? && raws[i].weight.value > 0.0
  }

  /** Weights that are none of them negative add up to something exactly when one of them is. */
  lemma {:induction false} TotalExactly(raws: seq<RawFeature>)
    requires forall i :: 0 <= i < |raws| ==> (raws[i].weight.Some? ==> raws[i].weight.value >= 0.0)
    ensures Sum(Collect(raws, AdditiveWeight)) >= 0.0
    ensures Sum(Collect(raws, AdditiveWeight)) > 0.0 <==> WeighsSomething(raws)
  {
    if raws != [] {
      var n := |raws| - 1;
      TotalExactly(raws[..n]);
      TotalNext(raws[..n], raws[n], raws);
      assert WeighsSomething(raws) <==>
        (WeighsSomething(raws[..n]) || (!Limits(raws[n]) && raws[n].weight.Some? && raws[n].weight.value > 0.0)) by {
        WeighsNext(raws[..n], raws[n], raws);
      }
    }
  }

  lemma {:induction false} TotalNext(init: seq<RawFeature>, raw: RawFeature, raws: seq<RawFeature>)
    requires raws == init + [raw]
    ensures Sum(Collect(raws, AdditiveWeight)) == Sum(Collect(init, AdditiveWeight)) + if Limits(raw) then 0.0 else RawWeight(raw)
  {
    CollectSnoc(init, raw, AdditiveWeight);
    var weights := Collect(init, AdditiveWeight);
    if Limits(raw) {
      assert weights + [] == weights;
    } else {
      SumSnoc(weights, RawWeight(raw));
    }
  }

  lemma {:induction false} WeighsNext(init: seq<RawFeature>, raw: RawFeature, raws: seq<RawFeature>)
    requires raws == init + [raw]
    ensures WeighsSomething(raws) <==>
      (WeighsSomething(init) || (!Limits(raw) && raw.weight.Some? && raw.weight.value > 0.0))
  {
    if WeighsSomething(init) {
      var i :| 0 <= i < |init| && !Limits(init[i]) && init[i].weight.Some? && init[i].weight.value > 0.0;
      assert raws[i] == init[i];
    }
    assert raws[|init|] == raw;
  }

  lemma {:induction false} FeaturesExactly(raws: seq<RawFeature>)
    requires forall i :: 0 <= i < |raws| ==> (raws[i].weight.Some? ==> raws[i].weight.value >= 0.0)
    ensures ResolveFeatures(raws).Ok? <==> FeaturesWritten(raws)
  {
    TotalExactly(raws);
    if CollectWith(raws, FeatureFault) == [] {
      FaultlessAreWritten(raws);
      NoFaultMeansChecked(raws);
    } else if FeaturesWritten(raws) {
      WrittenAreFaultless(raws);
    }
  }

  // ---- Declarations ----

  lemma {:induction false} NamesExactly(reference: string, id: string)
    ensures Names(reference, id) <==> RuleId(reference) == id
  {
    if SHARED_PREFIX <= reference {
      assert reference == SHARED_PREFIX + reference[|SHARED_PREFIX|..];
      assert (SHARED_PREFIX + id)[|SHARED_PREFIX|..] == id;
    }
  }

  /** The last rule written under an id, and under no later place. */
  ghost predicate LastNamed(rules: seq<(string, RawConstraint)>, j: nat, id: string)
    requires j < |rules|
  {
    rules[j].0 == id && forall k :: j < k < |rules| ==> rules[k].0 != id
  }

  predicate Listed(rules: seq<(string, RawConstraint)>, id: string) {
    exists j :: 0 <= j < |rules| && rules[j].0 == id
  }

  lemma {:induction false} SharedNext(rules: seq<(string, RawConstraint)>)
    requires rules != [] && ConstraintWritten(rules[|rules| - 1].1)
    ensures var n := |rules| - 1;
      && ReadConstraint(rules[n].1).Ok?
      && SharedRules(rules) == SharedRules(rules[..n])[rules[n].0 := ReadConstraint(rules[n].1).value]
  {
    ConstraintExactly(rules[|rules| - 1].1);
  }

  lemma {:induction false} ListedNext(rules: seq<(string, RawConstraint)>, id: string)
    requires rules != []
    ensures var n := |rules| - 1;
      Listed(rules, id) <==> Listed(rules[..n], id) || rules[n].0 == id
  {
    var n := |rules| - 1;
    if Listed(rules[..n], id) {
      var j :| 0 <= j < n && rules[..n][j].0 == id;
      assert rules[j].0 == id;
    }
    if Listed(rules, id) && rules[n].0 != id {
      var j :| 0 <= j < |rules| && rules[j].0 == id;
      assert rules[..n][j].0 == id;
    }
  }

  lemma {:induction false} SharedExactly(rules: seq<(string, RawConstraint)>, id: string)
    requires AllWritten(rules)
    ensures id in SharedRules(rules) <==> Listed(rules, id)
  {
    if rules != [] {
      SharedExactly(rules[..|rules| - 1], id);
      SharedNext(rules);
      ListedNext(rules, id);
    }
  }

  lemma {:induction false} SharedIsTheLast(rules: seq<(string, RawConstraint)>, id: string) returns (j: nat)
    requires AllWritten(rules) && id in SharedRules(rules)
    ensures j < |rules| && LastNamed(rules, j, id) && ReadConstraint(rules[j].1) == Ok(SharedRules(rules)[id])
  {
    var n := |rules| - 1;
    SharedNext(rules);
    if rules[n].0 == id {
      j := n;
    } else {
      j := SharedIsTheLast(rules[..n], id);
    }
  }

  lemma {:induction false} NamedAt(reference: string, rules: seq<(string, RawConstraint)>)
    requires AllWritten(rules)
    ensures RuleId(reference) in SharedRules(rules) <==> exists j :: 0 <= j < |rules| && Names(reference, rules[j].0)
  {
    SharedExactly(rules, RuleId(reference));
    forall j | 0 <= j < |rules| ensures Names(reference, rules[j].0) <==> rules[j].0 == RuleId(reference) {
      NamesExactly(reference, rules[j].0);
    }
  }

  lemma {:induction false} IncludesExactly(includes: seq<string>, rules: seq<(string, RawConstraint)>)
    requires AllWritten(rules)
    ensures Collect(includes, IncludeFault(SharedRules(rules))) == [] <==> AllNamed(includes, rules)
  {
    NothingCollected(includes, IncludeFault(SharedRules(rules)));
    forall k | 0 <= k < |includes|
      ensures IncludeFault(SharedRules(rules))(includes[k]) == []
        <==> exists j :: 0 <= j < |rules| && Names(includes[k], rules[j].0)
    {
      NamedAt(includes[k], rules);
    }
  }

  lemma {:induction false} ApplicabilityExactly(rules: seq<RuleRef>)
    ensures Collect(rules, RuleFault) == [] <==> forall k :: 0 <= k < |rules| ==> RuleWritten(rules[k])
  {
    NothingCollected(rules, RuleFault);
    forall k | 0 <= k < |rules| ensures RuleFault(rules[k]) == [] <==> RuleWritten(rules[k]) {
      RuleExactly(rules[k]);
    }
  }

  lemma {:induction false} ConstraintsExactly(constraints: seq<RawConstraint>)
    ensures Collect(constraints, ConstraintFault) == [] <==>
      forall k :: 0 <= k < |constraints| ==> ConstraintWritten(constraints[k])
  {
    NothingCollected(constraints, ConstraintFault);
    forall k | 0 <= k < |constraints| ensures ConstraintFault(constraints[k]) == [] <==> ConstraintWritten(constraints[k]) {
      ConstraintExactly(constraints[k]);
    }
  }

  /** A declaration is without a fault exactly when it is written as it may be. */
  lemma {:induction false} DeclarationExactly(raw: RawDeclaration, rules: seq<(string, RawConstraint)>)
    requires AllWritten(rules)
    ensures DeclarationFaults(raw, SharedRules(rules)) == [] <==> DeclarationWritten(raw, rules)
  {
    if Shaped(raw) {
      IncludesExactly(raw.includes, rules);
      ApplicabilityExactly(raw.applicability);
      ConstraintsExactly(raw.constraints);
      FeaturesExactly(raw.features);
      FaultsExactly(raw, SharedRules(rules));
    }
  }

  lemma {:induction false} FaultsExactly(raw: RawDeclaration, shared: map<string, Constraint>)
    ensures FaultsIn(raw, shared) == [] <==> (
      && Collect(raw.includes, IncludeFault(shared)) == [] && Collect(raw.applicability, RuleFault) == []
      && Collect(raw.constraints, ConstraintFault) == [] && ResolveFeatures(raw.features).Ok?
      && BoundsFaults(raw.postprocess) == [])
    ensures DeclarationFaults(raw, shared) == [] <==> Shaped(raw) && FaultsIn(raw, shared) == []
  {
  }

  // ---- Versions ----

  lemma {:induction false} SeenIsTheLast(published: seq<PublishedVersion>, code: string, version: nat)
    ensures (code, version) in Seen(published) ==>
      exists n :: 0 <= n < |published| && LastPublished(published, n, code, version)
        && published[n].content == Seen(published)[(code, version)]
    ensures forall n :: 0 <= n < |published| && LastPublished(published, n, code, version) ==>
      (code, version) in Seen(published) && published[n].content == Seen(published)[(code, version)]
  {
    if published != [] {
      var m := |published| - 1;
      SeenIsTheLast(published[..m], code, version);
      LastPublishedNext(published, code, version);
      if published[m].code == code && published[m].version == version {
        assert LastPublished(published, m, code, version);
      } else if (code, version) in Seen(published[..m]) {
        var n :| 0 <= n < m && LastPublished(published[..m], n, code, version)
          && published[..m][n].content == Seen(published[..m])[(code, version)];
        assert LastPublished(published, n, code, version);
      }
    }
  }

  lemma {:induction false} LastPublishedNext(published: seq<PublishedVersion>, code: string, version: int)
    requires published != []
    ensures var m := |published| - 1;
      forall n :: 0 <= n < m ==>
        (LastPublished(published, n, code, version) <==>
          LastPublished(published[..m], n, code, version) && (published[m].code != code || published[m].version != version))
  {
    var m := |published| - 1;
    assert forall n :: 0 <= n < m ==> published[..m][n] == published[n];
  }

  /** The pass over the versions knows all keys so far, and what was published of every other key. */
  ghost predicate Tracks(all: seq<Loaded>, published: seq<PublishedVersion>, check: VersionCheck) {
    && check.faults == []
    && (forall k :: k in check.inThisLoad <==> exists i :: 0 <= i < |all| && KeyOf(all[i]) == k)
    && (forall k :: k !in check.inThisLoad ==>
          (k in check.seen <==> k in Seen(published)) && (k in check.seen ==> check.seen[k] == Seen(published)[k]))
  }

  ghost predicate Agrees(all: seq<Loaded>, published: seq<PublishedVersion>) {
    && (forall i, j :: 0 <= i < j < |all| ==> KeyOf(all[i]) != KeyOf(all[j]))
    && (forall i :: 0 <= i < |all| && KeyOf(all[i]) in Seen(published) ==> Seen(published)[KeyOf(all[i])] == all[i].content)
  }

  lemma {:induction false} TracksNext(
    init: seq<Loaded>, next: Loaded, all: seq<Loaded>, published: seq<PublishedVersion>, check: VersionCheck
  )
    requires all == init + [next] && Tracks(init, published, check)
    requires forall i :: 0 <= i < |init| ==> KeyOf(init[i]) != KeyOf(next)
    requires KeyOf(next) in Seen(published) ==> Seen(published)[KeyOf(next)] == next.content
    ensures Tracks(all, published, CheckVersion(check, next))
  {
    var after := CheckVersion(check, next);
    assert KeyOf(next) !in check.inThisLoad;
    assert after.inThisLoad == check.inThisLoad + {KeyOf(next)};
    forall k ensures k in after.inThisLoad <==> exists i :: 0 <= i < |all| && KeyOf(all[i]) == k {
      if exists i :: 0 <= i < |init| && KeyOf(init[i]) == k {
        var i :| 0 <= i < |init| && KeyOf(init[i]) == k;
        assert all[i] == init[i];
      }
      assert all[|init|] == next;
    }
  }

  lemma {:induction false} AgreeingIsFaultless(all: seq<Loaded>, published: seq<PublishedVersion>)
    requires Agrees(all, published)
    ensures Tracks(all, published, CheckVersions(all, published))
  {
    if all != [] {
      var n := |all| - 1;
      AgreeingIsFaultless(all[..n], published);
      TracksNext(all[..n], all[n], all, published, CheckVersions(all[..n], published));
    }
  }

  lemma {:induction false} VersionsExactly(all: seq<Loaded>, published: seq<PublishedVersion>)
    ensures CheckVersions(all, published).faults == [] <==> Agrees(all, published)
  {
    if CheckVersions(all, published).faults == [] {
      S.CheckVersionsExact(all, published);
    }
    if Agrees(all, published) {
      AgreeingIsFaultless(all, published);
    }
  }

  // ---- The load ----

  /** One definition for each declaration, in order, with the declaration as its content. */
  ghost predicate OneForEach(inputs: seq<RawDeclaration>, all: seq<Loaded>) {
    && |all| == |inputs|
    && forall i :: 0 <= i < |inputs| ==>
         all[i].content == inputs[i] && all[i].definition.code == inputs[i].code && all[i].definition.version == inputs[i].version
  }

  lemma {:induction false} FaultlessLoadsEach(inputs: seq<RawDeclaration>, shared: map<string, Constraint>)
    requires Collect(inputs, FaultsOf(shared)) == []
    ensures OneForEach(inputs, Collect(inputs, LoadedFrom(shared)))
    ensures forall i :: 0 <= i < |inputs| ==>
      && Shaped(inputs[i]) && FaultsIn(inputs[i], shared) == []
      && Collect(inputs, LoadedFrom(shared))[i] == Loaded(Resolve(inputs[i], shared), inputs[i])
  {
    NothingCollected(inputs, FaultsOf(shared));
    forall i | 0 <= i < |inputs|
      ensures Shaped(inputs[i]) && FaultsIn(inputs[i], shared) == []
        && LoadedFrom(shared)(inputs[i]) == [Loaded(Resolve(inputs[i], shared), inputs[i])]
    {
      assert FaultsOf(shared)(inputs[i]) == [];
      FaultsExactly(inputs[i], shared);
    }
    SinglyCollected(inputs, LoadedFrom(shared));
  }

  lemma {:induction false} AgreesAsWritten(inputs: seq<RawDeclaration>, all: seq<Loaded>, published: seq<PublishedVersion>)
    requires OneForEach(inputs, all)
    ensures Agrees(all, published) <==> VersionsAgree(inputs, published)
  {
    forall i | 0 <= i < |inputs|
      ensures KeyOf(all[i]) in Seen(published) && Seen(published)[KeyOf(all[i])] != all[i].content ==>
        exists n :: 0 <= n < |published| && LastPublished(published, n, inputs[i].code, inputs[i].version)
          && published[n].content != inputs[i]
      ensures forall n :: 0 <= n < |published| && LastPublished(published, n, inputs[i].code, inputs[i].version) ==>
        KeyOf(all[i]) in Seen(published) && published[n].content == Seen(published)[KeyOf(all[i])]
    {
      SeenIsTheLast(published, all[i].definition.code, all[i].definition.version);
    }
  }

  lemma {:induction false} SharedFaultsExactly(rules: seq<(string, RawConstraint)>)
    ensures SharedFaults(rules) == [] <==> AllWritten(rules)
  {
    var written := seq(|rules|, i requires 0 <= i < |rules| => rules[i].1);
    assert SharedFaults(rules) == Collect(written, ConstraintFault);
    ConstraintsExactly(written);
    assert forall j :: 0 <= j < |rules| ==> written[j] == rules[j].1;
  }

  lemma {:induction false} RulesExactly(rules: RawSharedRules)
    ensures RulesFaults(rules) == [] <==> RulesWritten(rules)
  {
    if SharedShaped(rules) {
      SharedFaultsExactly(rules.rules);
      assert |Tag(CATALOGUE, SharedFaults(rules.rules))| == |SharedFaults(rules.rules)|;
    }
  }

  /**
   * A load succeeds exactly when the shared rules, every declaration and the
   * versions are written as they may be, and then it loads every declaration.
   */
  lemma {:induction false} LoadsExactly(inputs: seq<RawDeclaration>, rules: RawSharedRules, published: seq<PublishedVersion>)
    ensures Load(inputs, rules, published).Ok? <==>
      && RulesWritten(rules) && (forall i :: 0 <= i < |inputs| ==> DeclarationWritten(inputs[i], rules.rules))
      && VersionsAgree(inputs, published)
    ensures Load(inputs, rules, published).Ok? ==> OneForEach(inputs, Load(inputs, rules, published).value)
  {
    RulesExactly(rules);
    if RulesWritten(rules) {
      var shared := SharedRules(rules.rules);
      InputsExactly(inputs, rules.rules);
      var all := Collect(inputs, LoadedFrom(shared));
      if Collect(inputs, FaultsOf(shared)) == [] {
        FaultlessLoadsEach(inputs, shared);
        VersionsExactly(all, published);
        AgreesAsWritten(inputs, all, published);
      }
    }
  }

  lemma {:induction false} InputsExactly(inputs: seq<RawDeclaration>, rules: seq<(string, RawConstraint)>)
    requires AllWritten(rules)
    ensures Collect(inputs, FaultsOf(SharedRules(rules))) == [] <==>
      forall i :: 0 <= i < |inputs| ==> DeclarationWritten(inputs[i], rules)
  {
    NothingCollected(inputs, FaultsOf(SharedRules(rules)));
    forall i | 0 <= i < |inputs|
      ensures FaultsOf(SharedRules(rules))(inputs[i]) == [] <==> DeclarationWritten(inputs[i], rules)
    {
      DeclarationExactly(inputs[i], rules);
    }
  }

  predicate Blames(faults: seq<Fault>, activity: string) {
    exists k :: 0 <= k < |faults| && faults[k].activity == activity
  }

  lemma {:induction false} BlamedWithin(before: seq<Fault>, faults: seq<Fault>, after: seq<Fault>, activity: string)
    ensures Blames(before, activity) || Blames(faults, activity) || Blames(after, activity)
      <==> Blames(before + faults + after, activity)
  {
    var all := before + faults + after;
    if Blames(before, activity) {
      var k :| 0 <= k < |before| && before[k].activity == activity;
      assert all[k] == before[k];
    }
    if Blames(faults, activity) {
      var k :| 0 <= k < |faults| && faults[k].activity == activity;
      assert all[|before| + k] == faults[k];
    }
    if Blames(after, activity) {
      var k :| 0 <= k < |after| && after[k].activity == activity;
      assert all[|before| + |faults| + k] == after[k];
    }
  }

  lemma {:induction false} DeclarationBlames(raw: RawDeclaration, shared: map<string, Constraint>)
    ensures forall k :: 0 <= k < |DeclarationFaults(raw, shared)| ==> DeclarationFaults(raw, shared)[k].activity == raw.code
  {
  }

  lemma {:induction false} InputsBlame(inputs: seq<RawDeclaration>, shared: map<string, Constraint>, activity: string)
    ensures Blames(Collect(inputs, FaultsOf(shared)), activity)
      <==> exists i :: 0 <= i < |inputs| && inputs[i].code == activity && DeclarationFaults(inputs[i], shared) != []
  {
    var faults := Collect(inputs, FaultsOf(shared));
    if Blames(faults, activity) {
      var k :| 0 <= k < |faults| && faults[k].activity == activity;
      assert faults[k] in faults;
      CollectedFrom(inputs, FaultsOf(shared), faults[k]);
      var i :| 0 <= i < |inputs| && faults[k] in FaultsOf(shared)(inputs[i]);
      DeclarationBlames(inputs[i], shared);
    }
    if exists i :: 0 <= i < |inputs| && inputs[i].code == activity && DeclarationFaults(inputs[i], shared) != [] {
      var i :| 0 <= i < |inputs| && inputs[i].code == activity && DeclarationFaults(inputs[i], shared) != [];
      DeclarationBlames(inputs[i], shared);
      var fault := DeclarationFaults(inputs[i], shared)[0];
      assert fault in FaultsOf(shared)(inputs[i]);
      CollectedFrom(inputs, FaultsOf(shared), fault);
    }
  }

  /** A load that fails names every declaration that is not written as it may be. */
  lemma {:induction false} FaultsNameTheFaulty(
    inputs: seq<RawDeclaration>, rules: RawSharedRules, published: seq<PublishedVersion>, i: nat
  )
    requires RulesWritten(rules) && i < |inputs| && !DeclarationWritten(inputs[i], rules.rules)
    ensures Load(inputs, rules, published).Err? && Blames(Load(inputs, rules, published).error, inputs[i].code)
  {
    var shared := SharedRules(rules.rules);
    DeclarationExactly(inputs[i], rules.rules);
    InputsBlame(inputs, shared, inputs[i].code);
    LoadsExactly(inputs, rules, published);
    BlamedWithin(RulesFaults(rules), Collect(inputs, FaultsOf(shared)),
      CheckVersions(Collect(inputs, LoadedFrom(shared)), published).faults, inputs[i].code);
  }

  // ---- What a loaded definition says ----

  /** The constraint gives the reason that was written, and holds of a day as what was written does. */
  ghost predicate Keeps(raw: RawConstraint, constraint: Constraint) {
    && raw.reason == Some(constraint.reason)
    && forall reading :: Classical(constraint.when, reading) == Means(raw.when, reading)
  }

  /** The feature is as it was written, but that its weight is a share of the total. */
  ghost predicate KeepsFeature(raw: RawFeature, feature: Feature, total: real) {
    && feature.id == raw.id && raw.metric == Named(feature.metric) && raw.unit == Some(feature.unit)
    && feature.aggregation == raw.aggregation && feature.normalizer == raw.normalizer && feature.nullPolicy == raw.nullPolicy
    && if Limits(raw) then feature.role == Gate && feature.weight.None? && feature.gateFloor == raw.gateFloor
       else
         && feature.role == Additive && feature.gateFloor.None? && feature.weight.Some? && raw.weight.Some?
         && feature.weight.value * total == raw.weight.value
  }

  ghost predicate KeepsFeatures(raws: seq<RawFeature>, features: seq<Feature>, total: real) {
    && total > 0.0 && |features| == |raws|
    && forall i :: 0 <= i < |raws| ==> KeepsFeature(raws[i], features[i], total)
  }

  /** The constraint is the rule of that name, the last one written under it. */
  ghost predicate KeepsRule(reference: string, rules: seq<(string, RawConstraint)>, constraint: Constraint) {
    exists j :: 0 <= j < |rules| && Names(reference, rules[j].0) && LastNamed(rules, j, rules[j].0)
      && Keeps(rules[j].1, constraint)
  }

  /** The shared rules come first, in the order they are included, and the declaration's own constraints after them. */
  ghost predicate KeepsConstraints(raw: RawDeclaration, rules: seq<(string, RawConstraint)>, constraints: seq<Constraint>) {
    && |constraints| == |raw.includes| + |raw.constraints|
    && (forall k :: 0 <= k < |raw.includes| ==> KeepsRule(raw.includes[k], rules, constraints[k]))
    && (forall k :: 0 <= k < |raw.constraints| ==> Keeps(raw.constraints[k], constraints[|raw.includes| + k]))
  }

  lemma {:induction false} ReadKeeps(raw: RawConstraint)
    requires ReadConstraint(raw).Ok?
    ensures Keeps(raw, ReadConstraint(raw).value)
  {
    assert ExprFaults(raw.when) == [];
    forall reading: Completion ensures Classical(ReadExpr(raw.when), reading) == Means(raw.when, reading) {
      ReadMeansTheSame(raw.when, reading);
    }
  }

  lemma {:induction false} IncludedKeeps(reference: string, rules: seq<(string, RawConstraint)>)
    requires AllWritten(rules) && RuleId(reference) in SharedRules(rules)
    ensures KeepsRule(reference, rules, SharedRules(rules)[RuleId(reference)])
  {
    var j := SharedIsTheLast(rules, RuleId(reference));
    NamesExactly(reference, rules[j].0);
    ReadKeeps(rules[j].1);
  }

  lemma {:induction false} ConstraintsKept(raw: RawDeclaration, rules: seq<(string, RawConstraint)>)
    requires AllWritten(rules) && FaultsIn(raw, SharedRules(rules)) == []
    ensures KeepsConstraints(raw, rules,
      Collect(raw.includes, IncludedRule(SharedRules(rules))) + Collect(raw.constraints, ConstraintIfRead))
  {
    FaultsExactly(raw, SharedRules(rules));
    IncludesKept(raw.includes, rules);
    OwnKept(raw.constraints);
    KeptTogether(raw, rules, Collect(raw.includes, IncludedRule(SharedRules(rules))), Collect(raw.constraints, ConstraintIfRead));
  }

  lemma {:induction false} KeptTogether(
    raw: RawDeclaration, rules: seq<(string, RawConstraint)>, included: seq<Constraint>, own: seq<Constraint>
  )
    requires |included| == |raw.includes| && |own| == |raw.constraints|
    requires forall k :: 0 <= k < |included| ==> KeepsRule(raw.includes[k], rules, included[k])
    requires forall k :: 0 <= k < |own| ==> Keeps(raw.constraints[k], own[k])
    ensures KeepsConstraints(raw, rules, included + own)
  {
    var all := included + own;
    forall k | 0 <= k < |own| ensures Keeps(raw.constraints[k], all[|included| + k]) {
      assert all[|included| + k] == own[k];
    }
  }

  lemma {:induction false} IncludesKept(includes: seq<string>, rules: seq<(string, RawConstraint)>)
    requires AllWritten(rules) && Collect(includes, IncludeFault(SharedRules(rules))) == []
    ensures var included := Collect(includes, IncludedRule(SharedRules(rules)));
      |included| == |includes| && forall k :: 0 <= k < |includes| ==> KeepsRule(includes[k], rules, included[k])
  {
    var shared := SharedRules(rules);
    NothingCollected(includes, IncludeFault(shared));
    forall k | 0 <= k < |includes|
      ensures RuleId(includes[k]) in shared && IncludedRule(shared)(includes[k]) == [shared[RuleId(includes[k])]]
    {
      assert IncludeFault(shared)(includes[k]) == [];
    }
    SinglyCollected(includes, IncludedRule(shared));
    forall k | 0 <= k < |includes| ensures KeepsRule(includes[k], rules, shared[RuleId(includes[k])]) {
      IncludedKeeps(includes[k], rules);
    }
  }

  lemma {:induction false} OwnKept(constraints: seq<RawConstraint>)
    requires Collect(constraints, ConstraintFault) == []
    ensures var own := Collect(constraints, ConstraintIfRead);
      |own| == |constraints| && forall k :: 0 <= k < |constraints| ==> Keeps(constraints[k], own[k])
  {
    NothingCollected(constraints, ConstraintFault);
    forall k | 0 <= k < |constraints|
      ensures ReadConstraint(constraints[k]).Ok? && ConstraintIfRead(constraints[k]) == [ReadConstraint(constraints[k]).value]
    {
      assert ConstraintFault(constraints[k]) == [];
      ConstraintExactly(constraints[k]);
    }
    SinglyCollected(constraints, ConstraintIfRead);
    forall k | 0 <= k < |constraints| ensures Keeps(constraints[k], ReadConstraint(constraints[k]).value) {
      ReadKeeps(constraints[k]);
    }
  }

  lemma {:induction false} ShareTimesTotal(weight: real, total: real)
    requires total > 0.0
    ensures weight / total * total == weight
  {
  }

  lemma {:induction false} FeatureKept(raw: RawFeature, total: real)
    requires FeatureWritten(raw) && total > 0.0
    ensures KeepsFeature(raw, ResolveFeature(raw, total), total)
  {
    ShareTimesTotal(RawWeight(raw), total);
  }

  lemma {:induction false} FeaturesKept(raws: seq<RawFeature>) returns (total: real)
    requires ResolveFeatures(raws).Ok?
    ensures KeepsFeatures(raws, ResolveFeatures(raws).value, total)
  {
    S.ResolvedFeaturesShape(raws);
    total := S.TotalWeight(raws);
    FaultlessAreWritten(raws);
    forall i | 0 <= i < |raws| ensures KeepsFeature(raws[i], ResolveFeature(raws[i], total), total) {
      FeatureKept(raws[i], total);
    }
  }

  /**
   * What is loaded says what was written: version, rules and bounds are the
   * declaration's own; each feature is as written, with its weight as a share
   * of one total; and the constraints are the shared rules it includes and then
   * its own, each with its reason and its meaning.
   */
  lemma {:induction false} LoadedAsWritten(
    inputs: seq<RawDeclaration>, rules: RawSharedRules, published: seq<PublishedVersion>, i: nat
  ) returns (total: real)
    requires Load(inputs, rules, published).Ok? && i < |inputs|
    ensures var all := Load(inputs, rules, published).value;
      && |all| == |inputs| && all[i].content == inputs[i]
      && var definition := all[i].definition;
        && definition.code == inputs[i].code && definition.version == inputs[i].version
        && definition.applicability == inputs[i].applicability && definition.postprocess == inputs[i].postprocess
        && KeepsFeatures(inputs[i].features, definition.features, total)
        && KeepsConstraints(inputs[i], rules.rules, definition.constraints)
  {
    LoadsExactly(inputs, rules, published);
    var shared := SharedRules(rules.rules);
    assert UsableRules(rules) == shared;
    assert Collect(inputs, FaultsOf(shared)) == [];
    FaultlessLoadsEach(inputs, shared);
    FaultsExactly(inputs[i], shared);
    total := FeaturesKept(inputs[i].features);
    ConstraintsKept(inputs[i], rules.rules);
  }
}
