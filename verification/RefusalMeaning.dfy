/** Which days a loaded activity refuses, told from the conditions that were written. */
module RefusalMeaning {
  import opened Prelude
  import opened Definitions
  import opened Series
  import opened DayWindows
  import opened Engine
  import opened Constraints
  import opened Loader
  import opened LoadMeaning
  import opened ScoringMeaning

  /** The conditions of a declaration by place: those it includes, then its own. */
  ghost predicate WrittenAt(raw: RawDeclaration, rules: seq<(string, RawConstraint)>, k: nat, written: RawConstraint) {
    if k < |raw.includes| then exists j :: 0 <= j < |rules| && Included(raw.includes[k], rules, j) && rules[j].1 == written
    else k - |raw.includes| < |raw.constraints| && raw.constraints[k - |raw.includes|] == written
  }

  /** The rule a reference stands for: the last one written under its id. */
  ghost predicate Included(reference: string, rules: seq<(string, RawConstraint)>, j: nat)
    requires j < |rules|
  {
    Names(reference, rules[j].0) && LastNamed(rules, j, rules[j].0)
  }

  /** What is written at a place holds of the reading, and that is the reason it gives. */
  ghost predicate Refuses(
    raw: RawDeclaration, rules: seq<(string, RawConstraint)>, k: nat, reason: ReasonCode, reading: Completion
  ) {
    exists written :: WrittenAt(raw, rules, k, written) && written.reason == Some(reason) && Means(written.when, reading)
  }

  lemma {:induction false} OneIncluded(reference: string, rules: seq<(string, RawConstraint)>, i: nat, j: nat)
    requires i < |rules| && j < |rules| && Included(reference, rules, i) && Included(reference, rules, j)
    ensures i == j
  {
    var prefix, id, other := SHARED_PREFIX, rules[i].0, rules[j].0;
    if prefix <= reference {
      assert (prefix + id)[|prefix|..] == id && (prefix + other)[|prefix|..] == other;
    }
  }

  lemma {:induction false} RefusesAsLoaded(
    raw: RawDeclaration, rules: seq<(string, RawConstraint)>, constraints: seq<Constraint>, k: nat, reason: ReasonCode,
    reading: Completion
  )
    requires KeepsConstraints(raw, rules, constraints)
    ensures Refuses(raw, rules, k, reason, reading) <==>
      k < |constraints| && constraints[k].reason == reason && Classical(constraints[k].when, reading)
  {
    if k < |raw.includes| {
      assert KeepsRule(raw.includes[k], rules, constraints[k]);
      var j :| 0 <= j < |rules| && Included(raw.includes[k], rules, j) && Keeps(rules[j].1, constraints[k]);
      assert WrittenAt(raw, rules, k, rules[j].1);
      forall i | 0 <= i < |rules| && Included(raw.includes[k], rules, i) ensures i == j {
        OneIncluded(raw.includes[k], rules, i, j);
      }
    } else if k < |constraints| {
      var own := raw.constraints[k - |raw.includes|];
      assert WrittenAt(raw, rules, k, own) && Keeps(own, constraints[k]);
    }
  }

  lemma {:induction false} FiredIsReported(definition: Definition, values: Values, profile: Profile, exp: real -> real)
    requires Decide(definition, values, profile, exp).Ok? && Refused(Decide(definition, values, profile, exp).value)
    ensures FirstFired(definition.constraints, values) == Decide(definition, values, profile, exp).value.constraintViolated
  {
  }

  predicate Refused(outcome: Outcome) {
    outcome.Ranked? && outcome.constraintViolated.Some?
  }

  /** The values are those of the day, and the reading fills in what its conditions miss. */
  ghost predicate ReadsTheDay(
    definition: Definition, series: WeatherSeries, window: DayWindow, values: Values, reading: Completion
  ) {
    && Extract(KeysOf(definition), series, window) == Ok(values)
    && Covers(reading, ConstraintKeys(definition.constraints)) && Completes(reading, values)
  }

  lemma {:induction false} LoadedKeepsConditions(
    inputs: seq<RawDeclaration>, rules: RawSharedRules, published: seq<PublishedVersion>, loaded: seq<Loaded>, i: nat
  )
    requires Load(inputs, rules, published) == Ok(loaded) && i < |inputs| == |loaded|
    ensures KeepsConstraints(inputs[i], rules.rules, loaded[i].definition.constraints)
  {
    var _ := LoadedAsWritten(inputs, rules, published, i);
  }

  /**
   * From what was written to what is refused: a day that is refused was written
   * to be refused for that reason, however what is missing of it turns out.
   */
  lemma {:induction false} RefusalsWereWritten(
    inputs: seq<RawDeclaration>, rules: RawSharedRules, published: seq<PublishedVersion>, loaded: seq<Loaded>, i: nat,
    series: WeatherSeries, window: DayWindow, profile: Profile, exp: real -> real, values: Values, reading: Completion
  ) returns (k: nat)
    requires Load(inputs, rules, published) == Ok(loaded) && i < |inputs| == |loaded|
    requires ReadsTheDay(loaded[i].definition, series, window, values, reading)
    requires ScoreActivity(loaded[i].definition, series, window, profile, exp).Ok?
    requires Refused(ScoreActivity(loaded[i].definition, series, window, profile, exp).value)
    ensures Refuses(inputs[i], rules.rules, k,
      ScoreActivity(loaded[i].definition, series, window, profile, exp).value.constraintViolated.value, reading)
  {
    var constraints := loaded[i].definition.constraints;
    LoadedKeepsConditions(inputs, rules, published, loaded, i);
    FiredIsReported(loaded[i].definition, values, profile, exp);
    FiredAtExact(constraints, values);
    k := FiredAt(constraints, values).value;
    ConstraintKeysMember(constraints, k);
    HoldsIsSound(constraints[k].when, values, reading);
    RefusesAsLoaded(inputs[i], rules.rules, constraints, k, constraints[k].reason, reading);
  }

  predicate AllKnown(definition: Definition, values: Values) {
    forall key :: key in ConstraintKeys(definition.constraints) ==> Of(values, key).Some?
  }

  /** The first place that refuses the reading. */
  ghost predicate FirstRefusal(
    raw: RawDeclaration, rules: seq<(string, RawConstraint)>, k: nat, reason: ReasonCode, reading: Completion
  ) {
    Refuses(raw, rules, k, reason, reading) && forall j: nat, other :: j < k ==> !Refuses(raw, rules, j, other, reading)
  }

  /**
   * And back: where the conditions miss nothing and what the features require
   * has no gaps, the first written condition that holds of the day ranks it at
   * zero, with its reason.
   */
  lemma {:induction false} WrittenRefusalsAreGiven(
    inputs: seq<RawDeclaration>, rules: RawSharedRules, published: seq<PublishedVersion>, loaded: seq<Loaded>, i: nat,
    series: WeatherSeries, window: DayWindow, profile: Profile, exp: real -> real, values: Values, reading: Completion,
    k: nat, reason: ReasonCode
  )
    requires Load(inputs, rules, published) == Ok(loaded) && i < |inputs| == |loaded|
    requires ReadsTheDay(loaded[i].definition, series, window, values, reading)
    requires AllKnown(loaded[i].definition, values) && NoGaps(loaded[i].definition.features, values, profile)
    requires FirstRefusal(inputs[i], rules.rules, k, reason, reading)
    ensures ScoreActivity(loaded[i].definition, series, window, profile, exp)
      == Ok(Ranked(0, Some(reason), [], loaded[i].definition.version, profile.id, profile.version))
  {
    var definition := loaded[i].definition;
    var constraints := definition.constraints;
    LoadedKeepsConditions(inputs, rules, published, loaded, i);
    FirstRefusalFires(inputs[i], rules.rules, constraints, k, reason, values, reading);
    ConstraintsDecideNext(definition, values, profile, exp, k);
  }

  lemma {:induction false} FirstRefusalFires(
    raw: RawDeclaration, rules: seq<(string, RawConstraint)>, constraints: seq<Constraint>, k: nat, reason: ReasonCode,
    values: Values, reading: Completion
  )
    requires KeepsConstraints(raw, rules, constraints) && FirstRefusal(raw, rules, k, reason, reading)
    requires Covers(reading, ConstraintKeys(constraints)) && Completes(reading, values)
    requires forall key :: key in ConstraintKeys(constraints) ==> Of(values, key).Some?
    ensures k < |constraints| && FirstTrue(constraints, values, k) && constraints[k].reason == reason
  {
    RefusesAsLoaded(raw, rules, constraints, k, reason, reading);
    KnownIsDecided(constraints, k, values, reading);
    forall j: nat | j < k ensures Holds(constraints[j].when, values) != Some(true) {
      RefusesAsLoaded(raw, rules, constraints, j, constraints[j].reason, reading);
      KnownIsDecided(constraints, j, values, reading);
    }
  }

  lemma {:induction false} KnownIsDecided(constraints: seq<Constraint>, j: nat, values: Values, reading: Completion)
    requires j < |constraints|
    requires Covers(reading, ConstraintKeys(constraints)) && Completes(reading, values)
    requires forall key :: key in ConstraintKeys(constraints) ==> Of(values, key).Some?
    ensures Holds(constraints[j].when, values) == Some(Classical(constraints[j].when, reading))
  {
    ConstraintKeysMember(constraints, j);
    AllKnownDecides(constraints[j].when, values);
    HoldsIsSound(constraints[j].when, values, reading);
  }

  lemma {:induction false} AllKnownDecides(expr: ConstraintExpr, values: Values)
    requires forall key :: key in LeafKeys(expr) ==> Of(values, key).Some?
    ensures Holds(expr, values).Some?
    decreases expr
  {
    match expr
    case Leaf(metric, _, aggregation, _, _) => assert Key(metric, aggregation) in LeafKeys(expr);
    case AnyHolds(any) =>
      forall i | 0 <= i < |any| ensures Holds(any[i], values).Some? {
        LeafKeysOfMember(any, i);
        AllKnownDecides(any[i], values);
      }
    case AllHold(all) =>
      forall i | 0 <= i < |all| ensures Holds(all[i], values).Some? {
        LeafKeysOfMember(all, i);
        AllKnownDecides(all[i], values);
      }
    case Negated(inner) => AllKnownDecides(inner, values);
  }
}
