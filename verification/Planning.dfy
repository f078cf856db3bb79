/** Which calls to make for a place: the applicable activities, what they need, and one request per capability. */
module Planning {
  import opened Prelude
  import opened Metrics
  import opened Definitions
  import opened Loader
  import opened LocationProfiles
  import opened Requirements
  import opened CacheKeys

  // ---- Whom to fetch for ----

  datatype ActivityVerdict = ActivityVerdict(definition: Definition, verdict: RuleVerdict)

  datatype ApplicabilityPlan = ApplicabilityPlan(
    outcomes: seq<ActivityVerdict>,
    applicable: seq<Definition>,
    requirements: seq<Requirable>
  )

  function JudgedAt(profile: LocationProfile, definitions: seq<Definition>): (r: seq<ActivityVerdict>)
    ensures |r| == |definitions|
    ensures forall i :: 0 <= i < |r| ==>
      r[i] == ActivityVerdict(definitions[i], Applicability(profile, definitions[i].applicability))
  {
    seq(|definitions|, i requires 0 <= i < |definitions| =>
      ActivityVerdict(definitions[i], Applicability(profile, definitions[i].applicability)))
  }

  function IfPossible(outcome: ActivityVerdict): seq<Definition> {
    if outcome.verdict.Possible? then [outcome.definition] else []
  }

  /** Every activity is judged; the requirements are those of the ones found possible. */
  function PlanFor(profile: LocationProfile, definitions: seq<Definition>): ApplicabilityPlan {
    var outcomes := JudgedAt(profile, definitions);
    var applicable := Collect(outcomes, IfPossible);
    ApplicabilityPlan(outcomes, applicable, AddAll([], Collect(applicable, MetricRequirements)))
  }

  lemma {:induction false} ApplicableExactly(profile: LocationProfile, definitions: seq<Definition>, definition: Definition)
    ensures definition in PlanFor(profile, definitions).applicable <==>
      definition in definitions && Applicability(profile, definition.applicability).Possible?
  {
    var outcomes := JudgedAt(profile, definitions);
    CollectedFrom(outcomes, IfPossible, definition);
    if definition in definitions && Applicability(profile, definition.applicability).Possible? {
      var i :| 0 <= i < |definitions| && definitions[i] == definition;
      assert definition in IfPossible(outcomes[i]);
    }
  }

  /** A rule is met: enough snow by the archive, or likely snow by a guess; or a coast that was seen. */
  predicate Met(profile: LocationProfile, rule: RuleRef) {
    if rule.rule == "snowSeason" then
      && profile.snow.Some?
      && match profile.snow.value
         case Archive(snowfall) => rule.params.minColdMonthSnowfallCm.Some? && snowfall >= rule.params.minColdMonthSnowfallCm.value
         case Elevation(likely, _, _, _) => likely
    else
      rule.rule == "marineCoverage" && profile.marine.Some? && profile.marine.value.covered
  }

  predicate AcceptedRule(rule: RuleRef) {
    SnowRule(rule) || (MarineRule(rule) && rule.params.confirmations.value > 0)
  }

  lemma {:induction false} PossibleWhenMet(profile: LocationProfile, rule: RuleRef)
    requires AcceptedRule(rule)
    ensures Verdict(profile, rule).Possible? <==> Met(profile, rule)
  {
    if SnowRule(rule) {
      if profile.snow.Some? && profile.snow.value.Archive? {
        var threshold, cm := rule.params.minColdMonthSnowfallCm.value, profile.snow.value.coldSeasonSnowfallCm;
        SnowDecides(profile, rule, if cm < threshold then cm else 0.0, if cm < threshold then 0.0 else cm - threshold);
        assert profile.(snow := Some(SnowEvidence.Archive(cm))) == profile;
      } else if profile.snow.Some? {
        GuessDecides(profile, rule, profile.snow.value);
        assert profile.(snow := Some(profile.snow.value)) == profile;
      }
    } else {
      CoastDecides(profile, rule);
    }
  }

  /** From the evidence to the plan: planned for is what the evidence meets every rule of. */
  lemma {:induction false} PlannedWhenMet(profile: LocationProfile, definitions: seq<Definition>, definition: Definition)
    requires forall j :: 0 <= j < |definition.applicability| ==> AcceptedRule(definition.applicability[j])
    ensures definition in PlanFor(profile, definitions).applicable <==>
      definition in definitions
      && forall j :: 0 <= j < |definition.applicability| ==> Met(profile, definition.applicability[j])
  {
    ApplicableExactly(profile, definitions, definition);
    ApplicabilityPrecedence(profile, definition.applicability);
    forall j | 0 <= j < |definition.applicability|
      ensures Verdict(profile, definition.applicability[j]).Possible? <==> Met(profile, definition.applicability[j])
    {
      PossibleWhenMet(profile, definition.applicability[j]);
    }
  }

  // ---- What to ask for ----

  datatype MetricPlan = MetricPlan(requests: seq<SeriesRequest>, derived: seq<DerivedCode>)

  datatype PlanError = UnsupportedMetric(name: string)

  /** Where, how far and in which zone: the same for every request of a plan. */
  datatype Scope = Scope(location: Coordinates, horizon: Horizon, timezone: string)

  function FirstUnknown(requirements: seq<MetricName>): Option<string> {
    if requirements == [] then None
    else if requirements[0].UnknownMetric? then Some(requirements[0].name)
    else FirstUnknown(requirements[1..])
  }

  function SourcesOf(name: MetricName): seq<MetricCode> {
    if name.Named? then Bases(name.metric) else []
  }

  function DerivedOf(name: MetricName): seq<DerivedCode> {
    if name.Named? && name.metric.Derived? then [name.metric.derived] else []
  }

  /** The members of a list that are wanted of one capability, in the order of the list. */
  function Selected(codes: seq<MetricCode>, wanted: set<MetricCode>, capability: Capability): seq<MetricCode> {
    if codes == [] then []
    else
      var n := |codes| - 1;
      Selected(codes[..n], wanted, capability) +
      if codes[n] in wanted && CapabilityOf(codes[n]) == capability then [codes[n]] else []
  }

  function RequestFor(capability: Capability, wanted: set<MetricCode>, scope: Scope): seq<SeriesRequest> {
    var metrics := Selected(DICTIONARY, wanted, capability);
    if metrics == [] then []
    else [SeriesRequest(capability, scope.location, metrics, scope.horizon, scope.timezone)]
  }

  function Asker(wanted: set<MetricCode>, scope: Scope): Capability -> seq<SeriesRequest> {
    (capability: Capability) => RequestFor(capability, wanted, scope)
  }

  function Plan(requirements: seq<MetricName>, scope: Scope): Result<MetricPlan, PlanError> {
    if FirstUnknown(requirements).Some? then Err(UnsupportedMetric(FirstUnknown(requirements).value))
    else
      var wanted := ToSet(Collect(requirements, SourcesOf));
      Ok(MetricPlan(
        Collect(CAPABILITIES, Asker(wanted, scope)),
        AddAll([], Collect(requirements, DerivedOf))))
  }

  /** One pass sorts what is asked of a source from what is computed afterwards. */
  method SortRequirements(requirements: seq<MetricName>)
    returns (unknown: Option<string>, source: set<MetricCode>, derived: seq<DerivedCode>)
    ensures unknown == FirstUnknown(requirements)
    ensures unknown.None? ==> source == ToSet(Collect(requirements, SourcesOf))
    ensures unknown.None? ==> derived == AddAll([], Collect(requirements, DerivedOf))
  {
    unknown, source, derived := None, {}, [];
    for i := 0 to |requirements|
      invariant FirstUnknown(requirements) == FirstUnknown(requirements[i..])
      invariant source == ToSet(Collect(requirements[..i], SourcesOf))
      invariant derived == AddAll([], Collect(requirements[..i], DerivedOf))
    {
      var requirement := requirements[i];
      assert requirements[i..][0] == requirement && requirements[i..][1..] == requirements[i + 1..];
      assert requirements[..i + 1] == requirements[..i] + [requirement];
      if requirement.UnknownMetric? {
        return Some(requirement.name), source, derived;
      }
      SourcesSnoc(requirements[..i], requirement);
      DerivedSnoc(requirements[..i], requirement);
      source := AddEach(source, Bases(requirement.metric));
      if requirement.metric.Derived? {
        derived := Add(derived, requirement.metric.derived);
      }
    }
    assert requirements[..|requirements|] == requirements;
  }

  lemma {:induction false} SourcesSnoc(before: seq<MetricName>, requirement: MetricName)
    requires requirement.Named?
    ensures ToSet(Collect(before + [requirement], SourcesOf)) ==
      ToSet(Collect(before, SourcesOf)) + ToSet(Bases(requirement.metric))
  {
    CollectSnoc(before, requirement, SourcesOf);
  }

  lemma {:induction false} DerivedSnoc(before: seq<MetricName>, requirement: MetricName)
    requires requirement.Named?
    ensures AddAll([], Collect(before + [requirement], DerivedOf)) ==
      if requirement.metric.Derived? then Add(AddAll([], Collect(before, DerivedOf)), requirement.metric.derived)
      else AddAll([], Collect(before, DerivedOf))
  {
    CollectSnoc(before, requirement, DerivedOf);
    if requirement.metric.Derived? {
      AddAllSnoc([], Collect(before, DerivedOf), requirement.metric.derived);
    } else {
      assert Collect(before, DerivedOf) + [] == Collect(before, DerivedOf);
    }
  }

  method AddEach(source: set<MetricCode>, bases: seq<MetricCode>) returns (grown: set<MetricCode>)
    ensures grown == source + ToSet(bases)
  {
    grown := source;
    for j := 0 to |bases|
      invariant grown == source + ToSet(bases[..j])
    {
      grown := grown + {bases[j]};
    }
    assert bases[..|bases|] == bases;
  }

  method PlanCalls(requirements: seq<MetricName>, scope: Scope) returns (plan: Result<MetricPlan, PlanError>)
    ensures plan == Plan(requirements, scope)
  {
    var unknown, source, derived := SortRequirements(requirements);
    if unknown.Some? {
      return Err(UnsupportedMetric(unknown.value));
    }
    plan := Ok(MetricPlan(Collect(CAPABILITIES, Asker(source, scope)), derived));
  }

  /** A plan is refused exactly for a name that is not known, and it is the first such name that is told. */
  lemma {:induction false} FirstUnknownIsNamed(requirements: seq<MetricName>, scope: Scope)
    ensures Plan(requirements, scope).Err? <==> exists i :: 0 <= i < |requirements| && requirements[i].UnknownMetric?
    ensures Plan(requirements, scope).Err? ==>
      exists i :: 0 <= i < |requirements| && requirements[i] == UnknownMetric(Plan(requirements, scope).error.name)
        && forall j :: 0 <= j < i ==> requirements[j].Named?
  {
    if FirstUnknown(requirements).Some? {
      var i := UnknownAt(requirements);
    } else {
      KnownThroughout(requirements);
    }
  }

  lemma {:induction false} UnknownAt(requirements: seq<MetricName>) returns (i: nat)
    requires FirstUnknown(requirements).Some?
    ensures i < |requirements| && requirements[i] == UnknownMetric(FirstUnknown(requirements).value)
    ensures forall j :: 0 <= j < i ==> requirements[j].Named?
  {
    if requirements[0].UnknownMetric? {
      i := 0;
    } else {
      var rest := UnknownAt(requirements[1..]);
      i := rest + 1;
      assert forall j :: 0 < j < i ==> requirements[j] == requirements[1..][j - 1];
    }
  }

  lemma {:induction false} KnownThroughout(requirements: seq<MetricName>)
    requires FirstUnknown(requirements).None?
    ensures forall i :: 0 <= i < |requirements| ==> requirements[i].Named?
  {
    if requirements != [] {
      KnownThroughout(requirements[1..]);
      assert forall i :: 0 < i < |requirements| ==> requirements[i] == requirements[1..][i - 1];
    }
  }

  lemma {:induction false} SelectedExactly(codes: seq<MetricCode>, wanted: set<MetricCode>, capability: Capability)
    ensures forall m :: m in Selected(codes, wanted, capability) <==>
      m in codes && m in wanted && CapabilityOf(m) == capability
  {
    if codes != [] {
      var n := |codes| - 1;
      SelectedExactly(codes[..n], wanted, capability);
      assert codes == codes[..n] + [codes[n]];
    }
  }

  ghost predicate Ascending(codes: seq<MetricCode>, rank: MetricCode -> nat) {
    forall i, j :: 0 <= i < j < |codes| ==> rank(codes[i]) < rank(codes[j])
  }

  ghost predicate InDictionaryOrder(codes: seq<MetricCode>) {
    Ascending(codes, Position)
  }

  lemma {:induction false} SelectedInOrder(
      codes: seq<MetricCode>, wanted: set<MetricCode>, capability: Capability, rank: MetricCode -> nat)
    requires Ascending(codes, rank)
    ensures Ascending(Selected(codes, wanted, capability), rank)
  {
    if codes != [] {
      var n := |codes| - 1;
      var init := Selected(codes[..n], wanted, capability);
      SelectedInOrder(codes[..n], wanted, capability, rank);
      SelectedExactly(codes[..n], wanted, capability);
      forall i | 0 <= i < |init| ensures rank(init[i]) < rank(codes[n]) {
        assert init[i] in codes[..n];
      }
    }
  }

  lemma {:induction false} DictionaryIsInOrder()
    ensures InDictionaryOrder(DICTIONARY)
  {
    forall i, j | 0 <= i < j < |DICTIONARY| ensures Position(DICTIONARY[i]) < Position(DICTIONARY[j]) {
      PositionOfEntry(i);
      PositionOfEntry(j);
    }
  }

  // ---- The plan and the declarations agree ----

  function Names(requirements: seq<Requirable>): seq<MetricName> {
    if requirements == [] then [] else Names(requirements[..|requirements| - 1]) + [Named(requirements[|requirements| - 1])]
  }

  lemma {:induction false} NamesAreKnown(requirements: seq<Requirable>)
    ensures FirstUnknown(Names(requirements)).None?
    ensures Collect(Names(requirements), SourcesOf) == Collect(requirements, Bases)
  {
    if requirements != [] {
      var n := |requirements| - 1;
      NamesAreKnown(requirements[..n]);
      KnownSnoc(Names(requirements[..n]), requirements[n]);
      CollectSnoc(Names(requirements[..n]), Named(requirements[n]), SourcesOf);
    }
  }

  lemma {:induction false} KnownSnoc(names: seq<MetricName>, metric: Requirable)
    requires FirstUnknown(names).None?
    ensures FirstUnknown(names + [Named(metric)]).None?
  {
    if names != [] {
      KnownSnoc(names[1..], metric);
      assert (names + [Named(metric)])[1..] == names[1..] + [Named(metric)];
    }
  }

  /** What a plan asks of one capability. */
  function AskedOf(requests: seq<SeriesRequest>, capability: Capability): seq<MetricCode> {
    if requests == [] then []
    else if requests[0].capability == capability then requests[0].metrics
    else AskedOf(requests[1..], capability)
  }

  /** A request that asks for something, in dictionary order, for the place and time planned. */
  ghost predicate WellAsked(request: SeriesRequest, scope: Scope) {
    && request.metrics != [] && InDictionaryOrder(request.metrics)
    && request.location == scope.location
    && request.horizon == scope.horizon && request.timezone == scope.timezone
  }

  /** At most one request per capability, none of them empty. */
  ghost predicate OneEach(requests: seq<SeriesRequest>, scope: Scope) {
    && (forall i, j :: 0 <= i < j < |requests| ==> requests[i].capability != requests[j].capability)
    && (forall i :: 0 <= i < |requests| ==> WellAsked(requests[i], scope))
  }

  /** None, or one well-formed request of the capability. */
  ghost predicate AtMostOne(requests: seq<SeriesRequest>, capability: Capability, scope: Scope) {
    |requests| <= 1 && (requests != [] ==> requests[0].capability == capability && WellAsked(requests[0], scope))
  }

  lemma {:induction false} RequestsExactly(wanted: set<MetricCode>, scope: Scope, capability: Capability)
    ensures var requests := Collect(CAPABILITIES, Asker(wanted, scope));
      OneEach(requests, scope) && AskedOf(requests, capability) == Selected(DICTIONARY, wanted, capability)
  {
    var asker := Asker(wanted, scope);
    forall c: Capability ensures AtMostOne(asker(c), c, scope) {
      RequestForOne(c, wanted, scope);
    }
    InTurn(asker, scope, capability);
    RequestForOne(capability, wanted, scope);
  }

  lemma {:induction false} RequestForOne(capability: Capability, wanted: set<MetricCode>, scope: Scope)
    ensures AtMostOne(RequestFor(capability, wanted, scope), capability, scope)
    ensures AskedOf(RequestFor(capability, wanted, scope), capability) == Selected(DICTIONARY, wanted, capability)
  {
    DictionaryIsInOrder();
    SelectedInOrder(DICTIONARY, wanted, capability, Position);
  }

  lemma {:induction false} InTurn(asker: Capability -> seq<SeriesRequest>, scope: Scope, capability: Capability)
    requires forall c: Capability :: AtMostOne(asker(c), c, scope)
    ensures OneEach(Collect(CAPABILITIES, asker), scope)
    ensures AskedOf(Collect(CAPABILITIES, asker), capability) == AskedOf(asker(capability), capability)
  {
    var forecast, marine, archive := asker(Capability.Forecast), asker(Capability.Marine), asker(Capability.Archive);
    ThreeCapabilities(asker);
    assert forecast + (marine + archive) == forecast + marine + archive;
    OneOfThree(forecast, marine, archive, scope);
    AskedOfThree(forecast, marine, archive, capability);
  }

  lemma {:induction false} OneOfThree(
      forecast: seq<SeriesRequest>, marine: seq<SeriesRequest>, archive: seq<SeriesRequest>, scope: Scope)
    requires AtMostOne(forecast, Capability.Forecast, scope) && AtMostOne(marine, Capability.Marine, scope)
    requires AtMostOne(archive, Capability.Archive, scope)
    ensures OneEach(forecast + (marine + archive), scope)
  {
    OneMore(marine, Capability.Marine, archive, scope);
    OneMore(forecast, Capability.Forecast, marine + archive, scope);
  }

  predicate OnlyFrom(requests: seq<SeriesRequest>, capability: Capability) {
    |requests| <= 1 && (requests != [] ==> requests[0].capability == capability)
  }

  lemma {:induction false} AskedOfThree(
      forecast: seq<SeriesRequest>, marine: seq<SeriesRequest>, archive: seq<SeriesRequest>, capability: Capability)
    requires OnlyFrom(forecast, Capability.Forecast) && OnlyFrom(marine, Capability.Marine)
    requires OnlyFrom(archive, Capability.Archive)
    ensures AskedOf(forecast + (marine + archive), capability) ==
      match capability
      case Forecast => AskedOf(forecast, capability)
      case Marine => AskedOf(marine, capability)
      case Archive => AskedOf(archive, capability)
  {
    AskedInTurn(forecast, marine + archive, capability);
    AskedInTurn(marine, archive, capability);
  }

  lemma {:induction false} OneMore(first: seq<SeriesRequest>, capability: Capability, rest: seq<SeriesRequest>, scope: Scope)
    requires AtMostOne(first, capability, scope) && OneEach(rest, scope)
    requires forall i :: 0 <= i < |rest| ==> rest[i].capability != capability
    ensures OneEach(first + rest, scope)
  {
    if first == [] {
      assert first + rest == rest;
    } else {
      assert first == [first[0]];
    }
  }

  lemma {:induction false} ThreeCapabilities(asker: Capability -> seq<SeriesRequest>)
    ensures Collect(CAPABILITIES, asker) ==
      asker(Capability.Forecast) + asker(Capability.Marine) + asker(Capability.Archive)
  {
    CollectSnoc([], Capability.Forecast, asker);
    CollectSnoc([Capability.Forecast], Capability.Marine, asker);
    CollectSnoc([Capability.Forecast, Capability.Marine], Capability.Archive, asker);
    assert [] + [Capability.Forecast] == [Capability.Forecast];
    assert CAPABILITIES == [Capability.Forecast, Capability.Marine] + [Capability.Archive];
  }

  lemma {:induction false} AskedInTurn(first: seq<SeriesRequest>, rest: seq<SeriesRequest>, capability: Capability)
    requires |first| <= 1
    ensures AskedOf(first + rest, capability) ==
      if first != [] && first[0].capability == capability then first[0].metrics else AskedOf(rest, capability)
  {
    assert first != [] ==> (first + rest)[1..] == rest;
    assert first == [] ==> first + rest == rest;
  }

  /**
   * The planner and the containment agree: a capability is asked for exactly
   * the metrics some applicable activity is owed by it, each once and in
   * dictionary order, and a capability nobody needs is not asked at all.
   */
  lemma {:induction false} PlanIsTheUnionOfWhatIsOwed(
      profile: LocationProfile, definitions: seq<Definition>, scope: Scope, m: MetricCode, c: Capability)
    ensures var applicable := PlanFor(profile, definitions);
      var plan := Plan(Names(applicable.requirements), scope);
      && plan.Ok? && OneEach(plan.value.requests, scope)
      && (m in AskedOf(plan.value.requests, c) <==> OwedToSome(applicable.applicable, m, c))
  {
    var applicable := PlanFor(profile, definitions);
    NamesAreKnown(applicable.requirements);
    var wanted := ToSet(Collect(applicable.requirements, Bases));
    RequestsExactly(wanted, scope, c);
    InDictionary(wanted, m, c);
    WantedExactly(applicable.applicable, m);
    OwedByCapability(applicable.applicable, m, c);
  }

  lemma {:induction false} InDictionary(wanted: set<MetricCode>, m: MetricCode, c: Capability)
    ensures m in Selected(DICTIONARY, wanted, c) <==> m in wanted && CapabilityOf(m) == c
  {
    SelectedExactly(DICTIONARY, wanted, c);
    assert DICTIONARY[Position(m)] == m;
  }

  ghost predicate OwedToSome(definitions: seq<Definition>, m: MetricCode, c: Capability) {
    exists d :: d in definitions && m in OwedBy(RequiredCapabilities(d), c)
  }

  ghost predicate OwedAnywhere(definitions: seq<Definition>, m: MetricCode) {
    exists d :: d in definitions && Owed(d, m)
  }

  lemma {:induction false} OwedByCapability(definitions: seq<Definition>, m: MetricCode, c: Capability)
    ensures OwedToSome(definitions, m, c) <==> OwedAnywhere(definitions, m) && CapabilityOf(m) == c
  {
    if OwedToSome(definitions, m, c) {
      var d :| d in definitions && m in OwedBy(RequiredCapabilities(d), c);
      RequiredCapabilitiesAreExact(d, m, c);
      assert OwedAnywhere(definitions, m);
    }
    if OwedAnywhere(definitions, m) && CapabilityOf(m) == c {
      var d :| d in definitions && Owed(d, m);
      RequiredCapabilitiesAreExact(d, m, c);
    }
  }

  lemma {:induction false} WantedExactly(definitions: seq<Definition>, m: MetricCode)
    ensures m in Collect(AddAll([], Collect(definitions, MetricRequirements)), Bases) <==> OwedAnywhere(definitions, m)
  {
    var required := AddAll([], Collect(definitions, MetricRequirements));
    CollectedFrom(required, Bases, m);
    if m in Collect(required, Bases) {
      var i :| 0 <= i < |required| && m in Bases(required[i]);
      MentionedExactly(definitions, required[i]);
      assert MentionedBySome(definitions, required[i]);
      WantedIsOwed(definitions, required[i], m);
    }
    if OwedAnywhere(definitions, m) {
      var metric := OwedIsWanted(definitions, m);
      assert metric in required;
    }
  }

  lemma {:induction false} WantedIsOwed(definitions: seq<Definition>, metric: Requirable, m: MetricCode)
    requires MentionedBySome(definitions, metric) && m in Bases(metric)
    ensures OwedAnywhere(definitions, m)
  {
    var d :| d in definitions && metric in MetricRequirements(d);
    RequirementsAreExact(d, metric);
    assert Owed(d, m);
  }

  lemma {:induction false} OwedIsWanted(definitions: seq<Definition>, m: MetricCode) returns (metric: Requirable)
    requires OwedAnywhere(definitions, m)
    ensures metric in AddAll([], Collect(definitions, MetricRequirements)) && m in Bases(metric)
  {
    var d :| d in definitions && Owed(d, m);
    var key: Key;
    key, metric :| key in KeysOf(d) && NeededFor(key, metric) && m in Bases(metric);
    RequirementsAreExact(d, metric);
    assert MentionedBySome(definitions, metric);
    MentionedExactly(definitions, metric);
  }

  ghost predicate MentionedBySome(definitions: seq<Definition>, metric: Requirable) {
    exists d :: d in definitions && metric in MetricRequirements(d)
  }

  lemma {:induction false} MentionedExactly(definitions: seq<Definition>, metric: Requirable)
    ensures metric in AddAll([], Collect(definitions, MetricRequirements)) <==> MentionedBySome(definitions, metric)
  {
    AddAllExactly([], Collect(definitions, MetricRequirements));
    CollectedFrom(definitions, MetricRequirements, metric);
  }

  /** Every capability an applicable activity depends on is asked, so that its answer or failure is known. */
  lemma {:induction false} NoNeedGoesUnasked(
      profile: LocationProfile, definitions: seq<Definition>, scope: Scope, definition: Definition, c: Capability)
    requires definition in PlanFor(profile, definitions).applicable
    requires c in RequiredCapabilities(definition).order
    ensures var plan := Plan(Names(PlanFor(profile, definitions).requirements), scope);
      plan.Ok? && exists i :: 0 <= i < |plan.value.requests| && plan.value.requests[i].capability == c
  {
    RequiredCapabilitiesAreExact(definition, Snowfall, c);
    var m := RequiredCapabilities(definition).metrics[c][0];
    PlanIsTheUnionOfWhatIsOwed(profile, definitions, scope, m, c);
    assert m in OwedBy(RequiredCapabilities(definition), c);
    AskedOfSome(Plan(Names(PlanFor(profile, definitions).requirements), scope).value.requests, c);
  }

  lemma {:induction false} AskedOfSome(requests: seq<SeriesRequest>, c: Capability)
    requires AskedOf(requests, c) != []
    ensures exists i :: 0 <= i < |requests| && requests[i].capability == c
  {
    if requests[0].capability != c {
      AskedOfSome(requests[1..], c);
      var i :| 0 <= i < |requests[1..]| && requests[1..][i].capability == c;
      assert requests[i + 1].capability == c;
    }
  }

  lemma {:induction false} NamesExactly(requirements: seq<Requirable>, name: MetricName)
    ensures name in Names(requirements) <==> name.Named? && name.metric in requirements
  {
    if requirements != [] {
      var n := |requirements| - 1;
      NamesExactly(requirements[..n], name);
      assert requirements == requirements[..n] + [requirements[n]];
    }
  }

  /** What is to be computed on our side is what some applicable activity names, each once. */
  lemma {:induction false} DerivedExactly(
      profile: LocationProfile, definitions: seq<Definition>, scope: Scope, derived: DerivedCode)
    ensures var applicable := PlanFor(profile, definitions);
      var plan := Plan(Names(applicable.requirements), scope);
      && plan.Ok? && NoRepeats(plan.value.derived)
      && (derived in plan.value.derived <==> MentionedBySome(applicable.applicable, Derived(derived)))
  {
    var applicable := PlanFor(profile, definitions);
    NamesAreKnown(applicable.requirements);
    AddAllExactly([], Collect(Names(applicable.requirements), DerivedOf));
    DerivedAmong(applicable.requirements, derived);
    MentionedExactly(applicable.applicable, Derived(derived));
  }

  lemma {:induction false} DerivedAmong(requirements: seq<Requirable>, derived: DerivedCode)
    ensures derived in Collect(Names(requirements), DerivedOf) <==> Derived(derived) in requirements
  {
    var names, name := Names(requirements), Named(Derived(derived));
    CollectedFrom(names, DerivedOf, derived);
    NamesExactly(requirements, name);
    if name in names {
      var i :| 0 <= i < |names| && names[i] == name;
      assert derived in DerivedOf(names[i]);
    }
    if derived in Collect(names, DerivedOf) {
      var i :| 0 <= i < |names| && derived in DerivedOf(names[i]);
      assert names[i] == name;
    }
  }
}
