/** What a declaration needs fetched, and which capability owes it. */
module Requirements {
  import opened Prelude
  import opened Metrics
  import opened Definitions

  // ---- Sets that remember their order ----

  function Add<T(==)>(seen: seq<T>, x: T): seq<T> {
    if x in seen then seen else seen + [x]
  }

  function AddAll<T(==)>(seen: seq<T>, xs: seq<T>): seq<T> {
    if xs == [] then seen else Add(AddAll(seen, xs[..|xs| - 1]), xs[|xs| - 1])
  }

  ghost predicate NoRepeats<T>(xs: seq<T>) {
    forall i, j :: 0 <= i < j < |xs| ==> xs[i] != xs[j]
  }

  lemma {:induction false} AddAllSnoc<T>(seen: seq<T>, xs: seq<T>, x: T)
    ensures AddAll(seen, xs + [x]) == Add(AddAll(seen, xs), x)
  {
    assert (xs + [x])[..|xs|] == xs;
  }

  lemma {:induction false} AddAllInTurn<T>(seen: seq<T>, xs: seq<T>, ys: seq<T>)
    ensures AddAll(seen, xs + ys) == AddAll(AddAll(seen, xs), ys)
  {
    if ys == [] {
      assert xs + ys == xs;
    } else {
      var n := |ys| - 1;
      AddAllInTurn(seen, xs, ys[..n]);
      assert xs + ys == (xs + ys[..n]) + [ys[n]];
      AddAllSnoc(seen, xs + ys[..n], ys[n]);
    }
  }

  lemma {:induction false} AddAllExactly<T>(seen: seq<T>, xs: seq<T>)
    requires NoRepeats(seen)
    ensures NoRepeats(AddAll(seen, xs))
    ensures forall x :: x in AddAll(seen, xs) <==> x in seen || x in xs
  {
    if xs != [] {
      var n := |xs| - 1;
      AddAllExactly(seen, xs[..n]);
      assert xs == xs[..n] + [xs[n]];
    }
  }

  /** One comes up before the other does. */
  ghost predicate Earlier<T>(xs: seq<T>, x: T, y: T) {
    exists a :: 0 <= a < |xs| && xs[a] == x && forall b :: 0 <= b <= a ==> xs[b] != y
  }

  lemma {:induction false} EarlierStill<T>(xs: seq<T>, last: T, x: T, y: T)
    requires Earlier(xs, x, y)
    ensures Earlier(xs + [last], x, y)
  {
    var a :| 0 <= a < |xs| && xs[a] == x && forall b :: 0 <= b <= a ==> xs[b] != y;
    assert (xs + [last])[a] == x && forall b :: 0 <= b <= a ==> (xs + [last])[b] == xs[b];
  }

  lemma {:induction false} AddedFrom<T>(xs: seq<T>, x: T)
    ensures x in AddAll([], xs) <==> x in xs
  {
    if xs != [] {
      var n := |xs| - 1;
      AddedFrom(xs[..n], x);
      assert xs == xs[..n] + [xs[n]];
    }
  }

  /** What is remembered is in the order in which it first came up. */
  lemma {:induction false} AddAllInOrder<T>(xs: seq<T>)
    ensures forall i, j :: 0 <= i < j < |AddAll([], xs)| ==> Earlier(xs, AddAll([], xs)[i], AddAll([], xs)[j])
  {
    if xs != [] {
      var n := |xs| - 1;
      var before, all := AddAll([], xs[..n]), AddAll([], xs);
      AddAllInOrder(xs[..n]);
      assert xs == xs[..n] + [xs[n]];
      forall i, j | 0 <= i < j < |all| ensures Earlier(xs, all[i], all[j]) {
        if j < |before| {
          EarlierStill(xs[..n], xs[n], all[i], all[j]);
        } else {
          assert all == before + [xs[n]] && xs[n] !in before && all[i] == before[i] && all[j] == xs[n];
          assert before[i] in before;
          AddedFrom(xs[..n], before[i]);
          AddedFrom(xs[..n], xs[n]);
          var a :| 0 <= a < n && xs[..n][a] == all[i];
          assert xs[a] == all[i] && forall b :: 0 <= b <= a ==> xs[b] == xs[..n][b] != all[j];
        }
      }
    }
  }

  // ---- What a declaration requires ----

  /** Whether a strategy counts the hours of daylight, as written in its parameters. */
  predicate ReadsDaylight(aggregation: AggregationSpec) {
    aggregation.code.DaylightWindow? || aggregation.params.window == Some(Daylight)
  }

  /** The metrics one quantity names: its own, and the daylight flag when it reads daylight. */
  function Mentions(key: Key): seq<Requirable> {
    [key.metric] + if ReadsDaylight(key.aggregation) then [Source(IsDay)] else []
  }

  /** Everything a declaration needs fetched, each once, in the order first mentioned. */
  function MetricRequirements(definition: Definition): seq<Requirable> {
    AddAll([], Collect(KeysOf(definition), Mentions))
  }

  predicate NeededFor(key: Key, metric: Requirable) {
    metric in Mentions(key)
  }

  /** A metric is required exactly when some quantity the engine extracts mentions it. */
  lemma {:induction false} RequirementsAreExact(definition: Definition, metric: Requirable)
    ensures NoRepeats(MetricRequirements(definition))
    ensures metric in MetricRequirements(definition) <==>
      exists key :: key in KeysOf(definition) && NeededFor(key, metric)
  {
    var keys := KeysOf(definition);
    AddAllExactly([], Collect(keys, Mentions));
    CollectedFrom(keys, Mentions, metric);
    if metric in Collect(keys, Mentions) {
      var i :| 0 <= i < |keys| && metric in Mentions(keys[i]);
      assert NeededFor(keys[i], metric);
    }
  }

  /** The leaves of a constraint are visited from the left, and what each mentions is added. */
  method Walk(expr: ConstraintExpr, seen: seq<Requirable>) returns (required: seq<Requirable>)
    ensures required == AddAll(seen, Collect(LeafKeys(expr), Mentions))
    decreases expr, 0
  {
    match expr {
      case AnyHolds(any) =>
        required := WalkEach(any, seen);
      case AllHold(all) =>
        required := WalkEach(all, seen);
      case Negated(inner) =>
        required := Walk(inner, seen);
      case Leaf(metric, _, aggregation, _, _) =>
        required := AddMentions(Key(metric, aggregation), seen);
        CollectOne(Key(metric, aggregation));
    }
  }

  method WalkEach(exprs: seq<ConstraintExpr>, seen: seq<Requirable>) returns (required: seq<Requirable>)
    ensures required == AddAll(seen, Collect(LeafKeysOf(exprs), Mentions))
    decreases exprs, 0
  {
    required := seen;
    for i := 0 to |exprs|
      invariant AddAll(required, Collect(LeafKeysOf(exprs[i..]), Mentions)) ==
        AddAll(seen, Collect(LeafKeysOf(exprs), Mentions))
    {
      var before := required;
      required := Walk(exprs[i], before);
      assert exprs[i..][0] == exprs[i] && exprs[i..][1..] == exprs[i + 1..];
      CollectAppend(LeafKeys(exprs[i]), LeafKeysOf(exprs[i + 1..]), Mentions);
      AddAllInTurn(before, Collect(LeafKeys(exprs[i]), Mentions), Collect(LeafKeysOf(exprs[i + 1..]), Mentions));
    }
  }

  lemma {:induction false} CollectOne(key: Key)
    ensures Collect([key], Mentions) == Mentions(key)
  {
    assert [key][..0] == [];
  }

  method AddMentions(key: Key, seen: seq<Requirable>) returns (required: seq<Requirable>)
    ensures required == AddAll(seen, Mentions(key))
  {
    required := Add(seen, key.metric);
    assert [key.metric][..0] == [];
    if ReadsDaylight(key.aggregation) {
      AddAllSnoc(seen, [key.metric], Source(IsDay));
      required := Add(required, Source(IsDay));
    }
  }

  method AddFeatures(features: seq<Feature>) returns (required: seq<Requirable>)
    ensures required == AddAll([], Collect(FeatureKeys(features), Mentions))
  {
    required := [];
    for i := 0 to |features|
      invariant required == AddAll([], Collect(FeatureKeys(features[..i]), Mentions))
    {
      var key := features[i].Quantity();
      assert FeatureKeys(features[..i + 1]) == FeatureKeys(features[..i]) + [key];
      CollectSnoc(FeatureKeys(features[..i]), key, Mentions);
      AddAllInTurn([], Collect(FeatureKeys(features[..i]), Mentions), Mentions(key));
      required := AddMentions(key, required);
    }
    assert features[..|features|] == features;
  }

  method AddConstraints(constraints: seq<Constraint>, seen: seq<Requirable>) returns (required: seq<Requirable>)
    ensures required == AddAll(seen, Collect(ConstraintKeys(constraints), Mentions))
  {
    required := seen;
    for i := 0 to |constraints|
      invariant required == AddAll(seen, Collect(ConstraintKeys(constraints[..i]), Mentions))
    {
      assert constraints[..i + 1][..i] == constraints[..i];
      ghost var before, leaves := ConstraintKeys(constraints[..i]), LeafKeys(constraints[i].when);
      CollectAppend(before, leaves, Mentions);
      AddAllInTurn(seen, Collect(before, Mentions), Collect(leaves, Mentions));
      required := Walk(constraints[i].when, required);
    }
    assert constraints[..|constraints|] == constraints;
  }

  /** Features first, then the constraints. */
  method CollectRequirements(definition: Definition) returns (required: seq<Requirable>)
    ensures required == MetricRequirements(definition)
  {
    ghost var features, constraints := FeatureKeys(definition.features), ConstraintKeys(definition.constraints);
    CollectAppend(features, constraints, Mentions);
    AddAllInTurn([], Collect(features, Mentions), Collect(constraints, Mentions));
    required := AddFeatures(definition.features);
    required := AddConstraints(definition.constraints, required);
  }

  // ---- What the sources owe ----

  /** What the sources have to deliver for a list of requirements, each metric once. */
  function BaseMetrics(requirements: seq<Requirable>): seq<MetricCode> {
    AddAll([], Collect(requirements, Bases))
  }

  method AddBases(seen: seq<MetricCode>, bases: seq<MetricCode>) returns (codes: seq<MetricCode>)
    ensures codes == AddAll(seen, bases)
  {
    codes := seen;
    for j := 0 to |bases|
      invariant codes == AddAll(seen, bases[..j])
    {
      assert bases[..j + 1][..j] == bases[..j];
      codes := Add(codes, bases[j]);
    }
    assert bases[..|bases|] == bases;
  }

  lemma {:induction false} BasesSnoc(before: seq<Requirable>, requirement: Requirable)
    ensures BaseMetrics(before + [requirement]) == AddAll(BaseMetrics(before), Bases(requirement))
  {
    CollectSnoc(before, requirement, Bases);
    AddAllInTurn([], Collect(before, Bases), Bases(requirement));
  }

  method ExpandBases(requirements: seq<Requirable>) returns (codes: seq<MetricCode>)
    ensures codes == BaseMetrics(requirements)
  {
    codes := [];
    for i := 0 to |requirements|
      invariant codes == BaseMetrics(requirements[..i])
    {
      BasesSnoc(requirements[..i], requirements[i]);
      assert requirements[..i + 1] == requirements[..i] + [requirements[i]];
      codes := AddBases(codes, Bases(requirements[i]));
    }
    assert requirements[..|requirements|] == requirements;
  }

  function CapabilityOf(code: MetricCode): Capability {
    DictionaryEntry(code).capability
  }

  /** Some quantity of the declaration cannot be computed without this metric. */
  ghost predicate Owed(definition: Definition, code: MetricCode) {
    exists key, metric :: key in KeysOf(definition) && NeededFor(key, metric) && code in Bases(metric)
  }

  lemma {:induction false} BaseMetricsAreExact(definition: Definition, code: MetricCode)
    ensures NoRepeats(BaseMetrics(MetricRequirements(definition)))
    ensures code in BaseMetrics(MetricRequirements(definition)) <==> Owed(definition, code)
  {
    var required := MetricRequirements(definition);
    AddAllExactly([], Collect(required, Bases));
    CollectedFrom(required, Bases, code);
    if code in Collect(required, Bases) {
      var i :| 0 <= i < |required| && code in Bases(required[i]);
      RequirementsAreExact(definition, required[i]);
    }
    if Owed(definition, code) {
      var key, metric :| key in KeysOf(definition) && NeededFor(key, metric) && code in Bases(metric);
      RequirementsAreExact(definition, metric);
      assert metric in required;
    }
  }

  /** Metrics by capability, the capabilities in the order they are first needed. */
  datatype Owing = Owing(order: seq<Capability>, metrics: map<Capability, seq<MetricCode>>)

  function OwedBy(owing: Owing, capability: Capability): seq<MetricCode> {
    if capability in owing.metrics then owing.metrics[capability] else []
  }

  function Deal(owing: Owing, capability: Capability, code: MetricCode): Owing {
    if capability !in owing.metrics then
      Owing(owing.order + [capability], owing.metrics[capability := [code]])
    else
      owing.(metrics := owing.metrics[capability := Add(owing.metrics[capability], code)])
  }

  function Grouped(codes: seq<MetricCode>): Owing {
    if codes == [] then Owing([], map[]) else
      var code := codes[|codes| - 1];
      Deal(Grouped(codes[..|codes| - 1]), CapabilityOf(code), code)
  }

  /** The groups are listed once each, and none is empty. */
  ghost predicate Orderly(owing: Owing) {
    && NoRepeats(owing.order)
    && (forall c :: c in owing.order <==> c in owing.metrics)
    && (forall c :: c in owing.metrics ==> owing.metrics[c] != [] && NoRepeats(owing.metrics[c]))
  }

  lemma {:induction false} DealKeepsOrder(owing: Owing, capability: Capability, code: MetricCode)
    requires Orderly(owing)
    ensures Orderly(Deal(owing, capability, code))
  {
  }

  lemma {:induction false} DealAddsOne(owing: Owing, capability: Capability, code: MetricCode, m: MetricCode, c: Capability)
    ensures m in OwedBy(Deal(owing, capability, code), c) <==>
      m in OwedBy(owing, c) || (m == code && c == capability)
  {
  }

  lemma {:induction false} GroupedIsOrderly(codes: seq<MetricCode>)
    ensures Orderly(Grouped(codes))
  {
    if codes != [] {
      var n := |codes| - 1;
      GroupedIsOrderly(codes[..n]);
      DealKeepsOrder(Grouped(codes[..n]), CapabilityOf(codes[n]), codes[n]);
    }
  }

  lemma {:induction false} GroupedExactly(codes: seq<MetricCode>, m: MetricCode, c: Capability)
    ensures m in OwedBy(Grouped(codes), c) <==> m in codes && c == CapabilityOf(m)
  {
    if codes != [] {
      var n := |codes| - 1;
      GroupedExactly(codes[..n], m, c);
      DealAddsOne(Grouped(codes[..n]), CapabilityOf(codes[n]), codes[n], m, c);
      assert codes == codes[..n] + [codes[n]];
    }
  }

  /** Which capabilities an answer depends on, and which metrics each one owes. */
  function RequiredCapabilities(definition: Definition): Owing {
    Grouped(BaseMetrics(MetricRequirements(definition)))
  }

  /** A capability owes exactly what the declaration cannot do without, each metric once; one that owes nothing is not listed. */
  lemma {:induction false} RequiredCapabilitiesAreExact(definition: Definition, m: MetricCode, c: Capability)
    ensures Orderly(RequiredCapabilities(definition))
    ensures m in OwedBy(RequiredCapabilities(definition), c) <==> Owed(definition, m) && c == CapabilityOf(m)
  {
    GroupedIsOrderly(BaseMetrics(MetricRequirements(definition)));
    GroupedExactly(BaseMetrics(MetricRequirements(definition)), m, c);
    BaseMetricsAreExact(definition, m);
  }

  function CapabilitiesOf(codes: seq<MetricCode>): (r: seq<Capability>)
    ensures |r| == |codes| && forall i :: 0 <= i < |r| ==> r[i] == CapabilityOf(codes[i])
  {
    seq(|codes|, i requires 0 <= i < |codes| => CapabilityOf(codes[i]))
  }

  lemma {:induction false} GroupedInOrder(codes: seq<MetricCode>)
    ensures Grouped(codes).order == AddAll([], CapabilitiesOf(codes))
  {
    if codes != [] {
      var n := |codes| - 1;
      GroupedInOrder(codes[..n]);
      GroupedIsOrderly(codes[..n]);
      assert CapabilitiesOf(codes) == CapabilitiesOf(codes[..n]) + [CapabilityOf(codes[n])];
      AddAllSnoc([], CapabilitiesOf(codes[..n]), CapabilityOf(codes[n]));
    }
  }

  /**
   * Everything is listed in the order in which it is first needed: the metrics
   * as the features and then the conditions name them, what sources are asked
   * for as those need it, and the capabilities as they come to owe something.
   */
  lemma {:induction false} ListedByFirstNeed(definition: Definition, i: nat, j: nat)
    requires i < j
    ensures var required, named := MetricRequirements(definition), Collect(KeysOf(definition), Mentions);
      j < |required| ==> Earlier(named, required[i], required[j])
    ensures var required := MetricRequirements(definition);
      j < |BaseMetrics(required)| ==> Earlier(Collect(required, Bases), BaseMetrics(required)[i], BaseMetrics(required)[j])
    ensures var codes, order := BaseMetrics(MetricRequirements(definition)), RequiredCapabilities(definition).order;
      j < |order| ==> Earlier(CapabilitiesOf(codes), order[i], order[j])
  {
    var required := MetricRequirements(definition);
    AddAllInOrder(Collect(KeysOf(definition), Mentions));
    AddAllInOrder(Collect(required, Bases));
    GroupedInOrder(BaseMetrics(required));
    AddAllInOrder(CapabilitiesOf(BaseMetrics(required)));
  }

  method GroupByCapability(definition: Definition) returns (owing: Owing)
    ensures owing == RequiredCapabilities(definition)
  {
    var required := CollectRequirements(definition);
    var codes := ExpandBases(required);
    owing := Owing([], map[]);
    for i := 0 to |codes|
      invariant owing == Grouped(codes[..i])
    {
      assert codes[..i + 1][..i] == codes[..i];
      var capability := CapabilityOf(codes[i]);
      if capability !in owing.metrics {
        owing := Owing(owing.order + [capability], owing.metrics[capability := [codes[i]]]);
      } else if codes[i] !in owing.metrics[capability] {
        owing := owing.(metrics := owing.metrics[capability := owing.metrics[capability] + [codes[i]]]);
      } else {
        NothingToAdd(owing.metrics, capability);
      }
    }
    assert codes[..|codes|] == codes;
  }

  lemma {:induction false} NothingToAdd<K, V>(m: map<K, V>, key: K)
    requires key in m
    ensures m[key := m[key]] == m
  {
  }
}
