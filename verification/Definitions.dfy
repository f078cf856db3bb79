/** What an activity declares, after the load: features, constraints, bounds. */
module Definitions {
  import opened Prelude
  import opened Metrics
  import opened Predicates

  datatype Reducer = MeanOf | MaxOf | MinOf | SumOf

  datatype Hours = WholeDay | Daylight

  /** The registered strategies, and a name no registry entry answers to. */
  datatype AggregationCode =
    | Plain(reducer: Reducer)
    | Identity
    | DaylightWindow
    | ShareOfHours
    | CountIf
    | UnknownAggregation(name: string)

  /** The parameters of an aggregation as they were written; each may be absent. */
  datatype AggregationParams = AggregationParams(
    reduce: Option<Reducer>,
    test: Option<Predicate>,
    window: Option<Hours>
  )

  datatype AggregationSpec = AggregationSpec(code: AggregationCode, params: AggregationParams)

  datatype NormalizerCode =
    | Linear | Inverse | Trapezoid | Gaussian | InverseGaussian | Step
    | UnknownNormalizer(name: string)

  datatype StepPoint = StepPoint(at: real, value: real)

  /** The parameters of a curve as they were written; each may be absent. */
  datatype CurveParams = CurveParams(
    from: Option<real>, to: Option<real>,
    center: Option<real>, sigma: Option<real>,
    a: Option<real>, b: Option<real>, c: Option<real>, d: Option<real>,
    points: Option<seq<StepPoint>>, below: Option<real>
  )

  datatype NormalizerSpec = NormalizerSpec(code: NormalizerCode, params: CurveParams)

  datatype NullPolicy = Degrade | Exclude | Fail

  datatype Role = Additive | Gate

  /** What is extracted under one name: a metric, and the strategy it is read with. */
  datatype Key = Key(metric: Requirable, aggregation: AggregationSpec)

  datatype Feature = Feature(
    id: string,
    metric: Requirable,
    unit: Unit,
    aggregation: AggregationSpec,
    normalizer: NormalizerSpec,
    nullPolicy: NullPolicy,
    role: Role,
    weight: Option<real>,
    gateFloor: Option<real>
  ) {
    function Quantity(): Key {
      Key(metric, aggregation)
    }
  }

  /** Comparisons of single quantities, under any nesting of or, and, not. */
  datatype ConstraintExpr =
    | Leaf(metric: Requirable, unit: Unit, aggregation: AggregationSpec, op: CompareOp, threshold: Threshold)
    | AnyHolds(any: seq<ConstraintExpr>)
    | AllHold(all: seq<ConstraintExpr>)
    | Negated(inner: ConstraintExpr)

  /** The one registry every refusal is explained from. */
  datatype ReasonCode =
    | NoCoastlineNearby | NoSnowSeason
    | NoSnowCover | FlatSea | DangerousSurf | NoDaylight | SevereWeather
    | ProviderUnavailable | ProviderBusy | MarineUnavailable | ProfileUnavailable
    | TooManyGaps | MissingRequiredMetric
    | LocationNotFound | HorizonTooLarge | InvalidCoordinates | InvalidLocationInput
    | RateLimited | InvalidQuery | InternalError

  predicate IsRetryable(reason: ReasonCode) {
    reason in {ProviderUnavailable, ProviderBusy, MarineUnavailable, ProfileUnavailable}
  }

  datatype Constraint = Constraint(reason: ReasonCode, when: ConstraintExpr)

  datatype RuleRef = RuleRef(rule: string, params: RuleParams)

  datatype RuleParams = RuleParams(minColdMonthSnowfallCm: Option<real>, confirmations: Option<int>)

  datatype Bounds = Bounds(floor: Option<real>, ceiling: Option<real>)

  datatype Definition = Definition(
    code: string,
    version: nat,
    applicability: seq<RuleRef>,
    constraints: seq<Constraint>,
    features: seq<Feature>,
    postprocess: Bounds
  )

  /** The quantities a constraint refers to, leaf by leaf from the left. */
  function LeafKeys(expr: ConstraintExpr): seq<Key>
    decreases expr, 0
  {
    match expr
    case Leaf(metric, _, aggregation, _, _) => [Key(metric, aggregation)]
    case AnyHolds(any) => LeafKeysOf(any)
    case AllHold(all) => LeafKeysOf(all)
    case Negated(inner) => LeafKeys(inner)
  }

  function LeafKeysOf(exprs: seq<ConstraintExpr>): seq<Key>
    decreases exprs, 0
  {
    if exprs == [] then [] else LeafKeys(exprs[0]) + LeafKeysOf(exprs[1..])
  }

  function FeatureKeys(features: seq<Feature>): (r: seq<Key>)
    ensures |r| == |features|
    ensures forall i :: 0 <= i < |r| ==> r[i] == features[i].Quantity()
  {
    seq(|features|, i requires 0 <= i < |features| => features[i].Quantity())
  }

  function ConstraintKeys(constraints: seq<Constraint>): seq<Key> {
    if constraints == [] then []
    else ConstraintKeys(constraints[..|constraints| - 1]) + LeafKeys(constraints[|constraints| - 1].when)
  }

  /** Everything a declaration reads: its features first, then its constraints. */
  function KeysOf(definition: Definition): seq<Key> {
    FeatureKeys(definition.features) + ConstraintKeys(definition.constraints)
  }

  lemma {:induction false} LeafKeysOfMember(exprs: seq<ConstraintExpr>, i: nat)
    requires i < |exprs|
    ensures forall k :: k in LeafKeys(exprs[i]) ==> k in LeafKeysOf(exprs)
  {
    if i > 0 {
      LeafKeysOfMember(exprs[1..], i - 1);
    }
  }

  lemma {:induction false} ConstraintKeysMember(constraints: seq<Constraint>, i: nat)
    requires i < |constraints|
    ensures forall k :: k in LeafKeys(constraints[i].when) ==> k in ConstraintKeys(constraints)
  {
    var n := |constraints| - 1;
    if i < n {
      ConstraintKeysMember(constraints[..n], i);
    }
  }
}
