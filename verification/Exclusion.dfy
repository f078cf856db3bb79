/**
 * A feature excluded for want of data might as well not have been declared:
 * the score is the one the declaration without it would have given.
 */
module Exclusion {
  import opened Prelude
  import opened Metrics
  import opened Definitions
  import opened Series
  import opened DayWindows
  import opened Aggregation
  import opened Engine
  import opened Loader
  import opened Soundness

  /* ---- deciding reads only what the declaration names ---- */

  ghost predicate SameOn(keys: seq<Key>, some: Values, others: Values) {
    forall key :: key in keys ==> Of(some, key) == Of(others, key)
  }

  lemma {:induction false} HoldsReadsItsLeaves(expr: ConstraintExpr, some: Values, others: Values)
    requires SameOn(LeafKeys(expr), some, others)
    ensures Holds(expr, some) == Holds(expr, others)
    decreases expr
  {
    match expr
    case Leaf(_, _, _, _, _) =>
    case AnyHolds(any) =>
      forall i | 0 <= i < |any| ensures Holds(any[i], some) == Holds(any[i], others) {
        LeafKeysOfMember(any, i);
        HoldsReadsItsLeaves(any[i], some, others);
      }
    case AllHold(all) =>
      forall i | 0 <= i < |all| ensures Holds(all[i], some) == Holds(all[i], others) {
        LeafKeysOfMember(all, i);
        HoldsReadsItsLeaves(all[i], some, others);
      }
    case Negated(inner) => HoldsReadsItsLeaves(inner, some, others);
  }

  lemma {:induction false} FirstFiredReads(constraints: seq<Constraint>, some: Values, others: Values)
    requires forall i :: 0 <= i < |constraints| ==> SameOn(LeafKeys(constraints[i].when), some, others)
    ensures FirstFired(constraints, some) == FirstFired(constraints, others)
  {
    if constraints != [] {
      HoldsReadsItsLeaves(constraints[0].when, some, others);
      FirstFiredReads(constraints[1..], some, others);
    }
  }

  ghost predicate SameOnFeatures(features: seq<Feature>, some: Values, others: Values) {
    forall i :: 0 <= i < |features| ==> Of(some, features[i].Quantity()) == Of(others, features[i].Quantity())
  }

  lemma {:induction false} FirstGapReads(features: seq<Feature>, some: Values, others: Values, profile: Profile)
    requires SameOnFeatures(features, some, others)
    ensures FirstGap(features, some, profile) == FirstGap(features, others, profile)
  {
    if features != [] {
      FirstGapReads(features[1..], some, others, profile);
    }
  }

  lemma {:induction false} CollectsRead(features: seq<Feature>, some: Values, others: Values)
    requires SameOnFeatures(features, some, others)
    ensures Collect(features, MissingRequired(some)) == Collect(features, MissingRequired(others))
    ensures Collect(features, ExcludedMetric(some)) == Collect(features, ExcludedMetric(others))
    ensures Collect(features, KeptWeight(some)) == Collect(features, KeptWeight(others))
  {
    if features != [] {
      CollectsRead(features[..|features| - 1], some, others);
    }
  }

  lemma {:induction false} PolicyReads(features: seq<Feature>, some: Values, others: Values)
    requires SameOnFeatures(features, some, others)
    ensures ApplyNullPolicy(features, some) == ApplyNullPolicy(features, others)
  {
    CollectsRead(features, some, others);
    var missing := Collect(features, MissingRequired(some));
    var total := Sum(Collect(features, KeptWeight(some)));
    if missing == [] && total > 0.0 {
      forall i | 0 <= i < |features| ensures Apply(features[i], some, total) == Apply(features[i], others, total) {
      }
      assert ApplyNullPolicy(features, some).value == ApplyNullPolicy(features, others).value;
    }
  }

  /** Past the extraction, nothing is read but the quantities the declaration names. */
  lemma {:induction false} DecideReadsItsKeys(
    definition: Definition, some: Values, others: Values, profile: Profile, exp: real -> real
  )
    requires SameOn(KeysOf(definition), some, others)
    ensures Decide(definition, some, profile, exp) == Decide(definition, others, profile, exp)
  {
    var features, constraints := definition.features, definition.constraints;
    forall i | 0 <= i < |features|
      ensures Of(some, features[i].Quantity()) == Of(others, features[i].Quantity())
    {
      assert FeatureKeys(features)[i] in KeysOf(definition);
    }
    forall i | 0 <= i < |constraints| ensures SameOn(LeafKeys(constraints[i].when), some, others) {
      ConstraintKeysMember(constraints, i);
    }
    FirstGapReads(features, some, others, profile);
    FirstFiredReads(constraints, some, others);
    PolicyReads(features, some, others);
  }

  /** What is extracted under a key is that quantity's aggregate. */
  lemma {:induction false} ExtractExact(keys: seq<Key>, series: WeatherSeries, window: DayWindow)
    requires Extract(keys, series, window).Ok?
    ensures forall key :: key in Extract(keys, series, window).value <==> key in keys
    ensures forall key :: key in keys ==> Aggregate(key, series, window) == Ok(Extract(keys, series, window).value[key])
  {
    forall key ensures key in Extract(keys, series, window).value <==> key in keys
      ensures key in keys ==> Aggregate(key, series, window) == Ok(Extract(keys, series, window).value[key])
    {
      ExtractedUnder(keys, key, series, window);
    }
  }

  lemma {:induction false} ExtractedUnder(keys: seq<Key>, key: Key, series: WeatherSeries, window: DayWindow)
    requires Extract(keys, series, window).Ok?
    ensures key in Extract(keys, series, window).value <==> key in keys
    ensures key in keys ==> Aggregate(key, series, window) == Ok(Extract(keys, series, window).value[key])
  {
    if keys != [] {
      var n := |keys| - 1;
      ExtractedUnder(keys[..n], key, series, window);
      ExtractedNext(Extract(keys[..n], series, window).value, keys[n], key, series, window);
      assert keys == keys[..n] + [keys[n]];
    }
  }

  lemma {:induction false} ExtractedNext(values: Values, next: Key, key: Key, series: WeatherSeries, window: DayWindow)
    requires ExtractNext(values, next, series, window).Ok?
    ensures var after := ExtractNext(values, next, series, window).value;
      && (key in after <==> key in values || key == next)
      && (key in values ==> after[key] == values[key])
      && (key == next && key !in values ==> Aggregate(key, series, window) == Ok(after[key]))
  {
  }

  /* ---- deletion ---- */

  predicate NamedFeature(raw: RawFeature) {
    raw.metric.Named? && raw.unit.Some?
  }

  /** Whether a feature would be excluded: no value, and a policy that lets it go. */
  predicate LetGo(raw: RawFeature, values: Values) {
    NamedFeature(raw) && raw.nullPolicy.Exclude? && Of(values, Key(raw.metric.metric, raw.aggregation)).None?
  }

  function Surviving(values: Values): RawFeature -> seq<RawFeature> {
    (raw: RawFeature) => if LetGo(raw, values) then [] else [raw]
  }

  function Survivors(raws: seq<RawFeature>, values: Values): seq<RawFeature> {
    Collect(raws, Surviving(values))
  }

  /** The entry of one feature, from its declared weight, the loader's total and the engine's. */
  function EntryFor(raw: RawFeature, values: Values, total: real, kept: real): Applied
    requires NamedFeature(raw) && total > 0.0 && kept != 0.0
  {
    Apply(ResolveFeature(raw, total), values, kept)
  }

  function EntriesFor(raws: seq<RawFeature>, values: Values, total: real, kept: real): (r: seq<Applied>)
    requires total > 0.0 && kept != 0.0 && forall i :: 0 <= i < |raws| ==> NamedFeature(raws[i])
    ensures |r| == |raws|
    ensures forall i :: 0 <= i < |raws| ==> r[i] == EntryFor(raws[i], values, total, kept)
  {
    if raws == [] then []
    else EntriesFor(raws[..|raws| - 1], values, total, kept) + [EntryFor(raws[|raws| - 1], values, total, kept)]
  }

  function ShownRow(row: Contribution): seq<Contribution> {
    if row.status.Excluded? then [] else [row]
  }

  lemma {:induction false} SharesCancel(x: real, total: real, rest: real)
    requires total > 0.0 && rest > 0.0
    ensures rest / total != 0.0 && (x / total) / (rest / total) == x / rest
  {
    var y, z := x / total, rest / total;
    assert y * total == x && z * total == rest;
    QuotientPositive(rest, total);
    QuotientOfProducts(y, z, total);
  }

  lemma {:induction false} QuotientPositive(x: real, d: real)
    requires x > 0.0 && d > 0.0
    ensures x / d > 0.0
  {
  }

  lemma {:induction false} QuotientOfProducts(y: real, z: real, total: real)
    requires z > 0.0 && total > 0.0 && z * total != 0.0
    ensures (y * total) / (z * total) == y / z
  {
    var q := y / z;
    assert q * z == y;
    assert q * (z * total) == y * total;
  }

  /* ---- the entries that remain are the entries of what remains ---- */

  /** The row, the term and the factor of a survivor do not depend on which declaration it stands in. */
  lemma {:induction false} SurvivorScoresAlike(
    raw: RawFeature, values: Values, total: real, rest: real, profile: Profile, exp: real -> real, x: real
  )
    requires NamedFeature(raw) && total > 0.0 && rest > 0.0 && rest / total != 0.0
    ensures var full, alone := EntryFor(raw, values, total, rest / total), EntryFor(raw, values, rest, 1.0);
      && NormalizedOf(full, profile, exp) == NormalizedOf(alone, profile, exp)
      && Row(full, x) == Row(alone, x)
      && Term(full, x) == Term(alone, x)
      && Factor(full, x) == Factor(alone, x)
  {
    SharesCancel(RawWeight(raw), total, rest);
  }

  /** A feature that is let go adds nothing, multiplies by one, and shows an excluded row. */
  lemma {:induction false} LetGoScoresNothing(
    raw: RawFeature, values: Values, total: real, kept: real, profile: Profile, exp: real -> real, x: real
  )
    requires LetGo(raw, values) && total > 0.0 && kept != 0.0
    ensures var entry := EntryFor(raw, values, total, kept);
      && NormalizedOf(entry, profile, exp) == Ok(profile.neutralScore)
      && ShownRow(Row(entry, x)) == []
      && Term(entry, x) == 0.0
      && Factor(entry, x) == 1.0
  {
  }

  predicate AllNamed(raws: seq<RawFeature>) {
    forall i :: 0 <= i < |raws| ==> NamedFeature(raws[i])
  }

  lemma {:induction false} SurvivorsSnoc(raws: seq<RawFeature>, raw: RawFeature, values: Values)
    ensures Survivors(raws + [raw], values) ==
      if LetGo(raw, values) then Survivors(raws, values) else Survivors(raws, values) + [raw]
  {
    CollectSnoc(raws, raw, Surviving(values));
    assert Survivors(raws, values) + [] == Survivors(raws, values);
  }

  lemma {:induction false} SurvivorsAmong(raws: seq<RawFeature>, values: Values)
    ensures forall raw :: raw in Survivors(raws, values) ==> raw in raws && !LetGo(raw, values)
    ensures AllNamed(raws) ==> AllNamed(Survivors(raws, values))
  {
    forall raw | raw in Survivors(raws, values) ensures raw in raws && !LetGo(raw, values) {
      CollectedFrom(raws, Surviving(values), raw);
    }
    var rest := Survivors(raws, values);
    forall i | 0 <= i < |rest| ensures AllNamed(raws) ==> NamedFeature(rest[i]) {
      assert rest[i] in rest;
    }
  }

  lemma {:induction false} SurvivorsOfSurvivors(raws: seq<RawFeature>, values: Values)
    requires forall i :: 0 <= i < |raws| ==> !LetGo(raws[i], values)
    ensures Survivors(raws, values) == raws
  {
    if raws != [] {
      var n := |raws| - 1;
      SurvivorsOfSurvivors(raws[..n], values);
      SurvivorsSnoc(raws[..n], raws[n], values);
      assert raws[..n] + [raws[n]] == raws;
    }
  }

  /** Two running totals that agree, one of them showing only the rows that were kept. */
  ghost predicate Agree(full: Combined, alone: Combined) {
    && alone.sum == full.sum
    && alone.gates == full.gates
    && alone.breakdown == Collect(full.breakdown, ShownRow)
  }

  lemma {:induction false} AgreeWithout(full: Combined, alone: Combined, entry: Applied, x: real)
    requires Agree(full, alone)
    requires ShownRow(Row(entry, x)) == [] && Term(entry, x) == 0.0 && Factor(entry, x) == 1.0
    ensures Agree(CombineNext(full, entry, x), alone)
  {
    CollectSnoc(full.breakdown, Row(entry, x), ShownRow);
    assert alone.breakdown + [] == alone.breakdown;
    TimesOne(full.gates);
  }

  lemma {:induction false} TimesOne(x: real)
    ensures Times(x, 1.0) == x
  {
  }

  lemma {:induction false} AgreeWith(full: Combined, alone: Combined, entry: Applied, other: Applied, x: real)
    requires Agree(full, alone) && !Row(entry, x).status.Excluded?
    requires Row(entry, x) == Row(other, x) && Term(entry, x) == Term(other, x) && Factor(entry, x) == Factor(other, x)
    ensures Agree(CombineNext(full, entry, x), CombineNext(alone, other, x))
  {
    CollectSnoc(full.breakdown, Row(entry, x), ShownRow);
  }

  lemma {:induction false} CombineAllSnoc(entries: seq<Applied>, entry: Applied, normalized: seq<real>, x: real)
    requires |entries| == |normalized|
    ensures CombineAll(entries + [entry], normalized + [x]) == CombineNext(CombineAll(entries, normalized), entry, x)
  {
    assert (entries + [entry])[..|entries|] == entries && (normalized + [x])[..|normalized|] == normalized;
  }

  lemma {:induction false} NormalizeAllSnoc(entries: seq<Applied>, entry: Applied, profile: Profile, exp: real -> real)
    ensures NormalizeAll(entries + [entry], profile, exp).Ok? <==>
      NormalizeAll(entries, profile, exp).Ok? && NormalizedOf(entry, profile, exp).Ok?
    ensures NormalizeAll(entries + [entry], profile, exp).Ok? ==>
      NormalizeAll(entries + [entry], profile, exp).value ==
        NormalizeAll(entries, profile, exp).value + [NormalizedOf(entry, profile, exp).value]
  {
    assert (entries + [entry])[..|entries|] == entries;
  }

  lemma {:induction false} EntriesForSnoc(raws: seq<RawFeature>, raw: RawFeature, values: Values, total: real, kept: real)
    requires total > 0.0 && kept != 0.0 && AllNamed(raws) && NamedFeature(raw)
    ensures AllNamed(raws + [raw])
    ensures EntriesFor(raws + [raw], values, total, kept) == EntriesFor(raws, values, total, kept) + [EntryFor(raw, values, total, kept)]
  {
    assert (raws + [raw])[..|raws|] == raws;
    assert (raws + [raw])[|raws|] == raw;
  }

  ghost predicate CombineAlike(full: seq<Applied>, alone: seq<Applied>, profile: Profile, exp: real -> real) {
    NormalizeAll(full, profile, exp).Ok? ==>
      && NormalizeAll(alone, profile, exp).Ok?
      && Agree(CombineAll(full, NormalizeAll(full, profile, exp).value),
               CombineAll(alone, NormalizeAll(alone, profile, exp).value))
  }

  lemma {:induction false} CombineAlikeWithout(
    full: seq<Applied>, alone: seq<Applied>, raw: RawFeature, values: Values, total: real, kept: real,
    profile: Profile, exp: real -> real
  )
    requires LetGo(raw, values) && total > 0.0 && kept != 0.0 && CombineAlike(full, alone, profile, exp)
    ensures CombineAlike(full + [EntryFor(raw, values, total, kept)], alone, profile, exp)
  {
    var entry := EntryFor(raw, values, total, kept);
    LetGoScoresNothing(raw, values, total, kept, profile, exp, profile.neutralScore);
    NormalizeAllSnoc(full, entry, profile, exp);
    if NormalizeAll(full, profile, exp).Ok? {
      var normalized := NormalizeAll(full, profile, exp).value;
      CombineAllSnoc(full, entry, normalized, profile.neutralScore);
      AgreeWithout(CombineAll(full, normalized), CombineAll(alone, NormalizeAll(alone, profile, exp).value),
        entry, profile.neutralScore);
    }
  }

  lemma {:induction false} SurvivorIsShown(raw: RawFeature, values: Values, total: real, kept: real, x: real)
    requires NamedFeature(raw) && !LetGo(raw, values) && total > 0.0 && kept != 0.0
    ensures !Row(EntryFor(raw, values, total, kept), x).status.Excluded?
  {
  }

  lemma {:induction false} CombineAlikeWith(
    full: seq<Applied>, alone: seq<Applied>, raw: RawFeature, values: Values, total: real, rest: real,
    profile: Profile, exp: real -> real
  )
    requires NamedFeature(raw) && !LetGo(raw, values) && total > 0.0 && rest > 0.0 && rest / total != 0.0
    requires CombineAlike(full, alone, profile, exp)
    ensures CombineAlike(full + [EntryFor(raw, values, total, rest / total)], alone + [EntryFor(raw, values, rest, 1.0)], profile, exp)
  {
    var entry, other := EntryFor(raw, values, total, rest / total), EntryFor(raw, values, rest, 1.0);
    NormalizeAllSnoc(full, entry, profile, exp);
    NormalizeAllSnoc(alone, other, profile, exp);
    if NormalizeAll(full + [entry], profile, exp).Ok? {
      var x := NormalizedOf(entry, profile, exp).value;
      SurvivorScoresAlike(raw, values, total, rest, profile, exp, x);
      SurvivorIsShown(raw, values, total, rest / total, x);
      var normalized, fewer := NormalizeAll(full, profile, exp).value, NormalizeAll(alone, profile, exp).value;
      CombineAllSnoc(full, entry, normalized, x);
      CombineAllSnoc(alone, other, fewer, x);
      AgreeWith(CombineAll(full, normalized), CombineAll(alone, fewer), entry, other, x);
    } else {
      SurvivorScoresAlike(raw, values, total, rest, profile, exp, 0.0);
    }
  }

  lemma {:induction false} DeletionCombines(
    raws: seq<RawFeature>, values: Values, total: real, rest: real, profile: Profile, exp: real -> real
  )
    requires AllNamed(raws) && total > 0.0 && rest > 0.0 && rest / total != 0.0
    ensures AllNamed(Survivors(raws, values))
    ensures CombineAlike(EntriesFor(raws, values, total, rest / total),
      EntriesFor(Survivors(raws, values), values, rest, 1.0), profile, exp)
  {
    SurvivorsAmong(raws, values);
    if raws != [] {
      var n := |raws| - 1;
      var init, raw := raws[..n], raws[n];
      DeletionCombines(init, values, total, rest, profile, exp);
      assert init + [raw] == raws;
      EntriesForSnoc(init, raw, values, total, rest / total);
      SurvivorsSnoc(init, raw, values);
      var full, alone := EntriesFor(init, values, total, rest / total), EntriesFor(Survivors(init, values), values, rest, 1.0);
      if LetGo(raw, values) {
        CombineAlikeWithout(full, alone, raw, values, total, rest / total, profile, exp);
      } else {
        EntriesForSnoc(Survivors(init, values), raw, values, rest, 1.0);
        CombineAlikeWith(full, alone, raw, values, total, rest, profile, exp);
      }
    }
  }

  /* ---- the stages before ---- */

  function FeaturesFor(raws: seq<RawFeature>, total: real): (r: seq<Feature>)
    requires AllNamed(raws) && total > 0.0
    ensures |r| == |raws|
    ensures forall i :: 0 <= i < |raws| ==> r[i] == ResolveFeature(raws[i], total)
  {
    seq(|raws|, i requires 0 <= i < |raws| => ResolveFeature(raws[i], total))
  }

  lemma {:induction false} FeaturesForSnoc(raws: seq<RawFeature>, raw: RawFeature, total: real)
    requires AllNamed(raws) && NamedFeature(raw) && total > 0.0
    ensures AllNamed(raws + [raw])
    ensures FeaturesFor(raws + [raw], total) == FeaturesFor(raws, total) + [ResolveFeature(raw, total)]
  {
  }

  ghost predicate Scaled(xs: seq<real>, ys: seq<real>, total: real)
    requires total > 0.0
  {
    |xs| == |ys| && forall i :: 0 <= i < |xs| ==> xs[i] == ys[i] / total
  }

  lemma {:induction false} ScaledAppend(xs: seq<real>, ys: seq<real>, more: seq<real>, others: seq<real>, total: real)
    requires total > 0.0 && Scaled(xs, ys, total) && Scaled(more, others, total)
    ensures Scaled(xs + more, ys + others, total)
  {
  }

  lemma {:induction false} KeptOne(raw: RawFeature, values: Values, total: real)
    requires NamedFeature(raw) && total > 0.0
    ensures Scaled(KeptWeight(values)(ResolveFeature(raw, total)),
      if LetGo(raw, values) then [] else AdditiveWeight(raw), total)
  {
  }

  /** The weights that are kept are the survivors' weights, each over the loader's total. */
  lemma {:induction false} KeptAreSurvivors(raws: seq<RawFeature>, values: Values, total: real)
    requires AllNamed(raws) && total > 0.0
    ensures Scaled(Collect(FeaturesFor(raws, total), KeptWeight(values)), Collect(Survivors(raws, values), AdditiveWeight), total)
  {
    if raws != [] {
      var n := |raws| - 1;
      KeptAreSurvivors(raws[..n], values, total);
      KeptAreSurvivorsNext(raws[..n], raws[n], raws, values, total);
    }
  }

  lemma {:induction false} KeptAreSurvivorsNext(
    init: seq<RawFeature>, raw: RawFeature, longer: seq<RawFeature>, values: Values, total: real
  )
    requires longer == init + [raw] && AllNamed(init) && NamedFeature(raw) && total > 0.0
    requires Scaled(Collect(FeaturesFor(init, total), KeptWeight(values)), Collect(Survivors(init, values), AdditiveWeight), total)
    ensures AllNamed(longer)
    ensures Scaled(Collect(FeaturesFor(longer, total), KeptWeight(values)),
      Collect(Survivors(longer, values), AdditiveWeight), total)
  {
    var kept, left := Collect(FeaturesFor(init, total), KeptWeight(values)), Survivors(init, values);
    FeaturesForSnoc(init, raw, total);
    CollectSnoc(FeaturesFor(init, total), ResolveFeature(raw, total), KeptWeight(values));
    SurvivorsSnoc(init, raw, values);
    CollectSnoc(left, raw, AdditiveWeight);
    KeptOne(raw, values, total);
    ScaledAppend(kept, Collect(left, AdditiveWeight), KeptWeight(values)(ResolveFeature(raw, total)),
      if LetGo(raw, values) then [] else AdditiveWeight(raw), total);
    assert Collect(left, AdditiveWeight) + [] == Collect(left, AdditiveWeight);
  }

  lemma {:induction false} KeptTotal(raws: seq<RawFeature>, values: Values, total: real)
    requires AllNamed(raws) && total > 0.0
    ensures Sum(Collect(FeaturesFor(raws, total), KeptWeight(values)))
      == Sum(Collect(Survivors(raws, values), AdditiveWeight)) / total
  {
    KeptAreSurvivors(raws, values, total);
    SumScale(Collect(Survivors(raws, values), AdditiveWeight), Collect(FeaturesFor(raws, total), KeptWeight(values)), total);
  }

  function MissingFrom(values: Values): RawFeature -> seq<Requirable> {
    (raw: RawFeature) =>
      if NamedFeature(raw) && raw.nullPolicy.Fail? && Of(values, Key(raw.metric.metric, raw.aggregation)).None?
      then [raw.metric.metric] else []
  }

  /** Deleting excluded features leaves the list of required metrics without a value as it was. */
  lemma {:induction false} MissingAlike(raws: seq<RawFeature>, values: Values, total: real)
    requires AllNamed(raws) && total > 0.0
    ensures Collect(FeaturesFor(raws, total), MissingRequired(values)) == Collect(raws, MissingFrom(values))
    ensures Collect(Survivors(raws, values), MissingFrom(values)) == Collect(raws, MissingFrom(values))
  {
    MissingWhenResolved(raws, values, total);
    MissingWhenDeleted(raws, values);
  }

  lemma {:induction false} MissingWhenResolved(raws: seq<RawFeature>, values: Values, total: real)
    requires AllNamed(raws) && total > 0.0
    ensures Collect(FeaturesFor(raws, total), MissingRequired(values)) == Collect(raws, MissingFrom(values))
  {
    if raws != [] {
      var n := |raws| - 1;
      var init, raw := raws[..n], raws[n];
      MissingWhenResolved(init, values, total);
      assert FeaturesFor(raws, total) == FeaturesFor(init, total) + [ResolveFeature(raw, total)];
      CollectSnoc(FeaturesFor(init, total), ResolveFeature(raw, total), MissingRequired(values));
    }
  }

  /** A deleted feature is one whose policy lets it go, so none that fails for want of data is deleted. */
  lemma {:induction false} MissingWhenDeleted(raws: seq<RawFeature>, values: Values)
    requires AllNamed(raws)
    ensures Collect(Survivors(raws, values), MissingFrom(values)) == Collect(raws, MissingFrom(values))
  {
    if raws != [] {
      var n := |raws| - 1;
      var init, raw := raws[..n], raws[n];
      MissingWhenDeleted(init, values);
      assert init + [raw] == raws;
      SurvivorsSnoc(init, raw, values);
      CollectSnoc(Survivors(init, values), raw, MissingFrom(values));
    }
  }

  lemma {:induction false} FirstGapSnoc(features: seq<Feature>, feature: Feature, values: Values, profile: Profile)
    ensures FirstGap(features + [feature], values, profile) ==
      if FirstGap(features, values, profile).Some? then FirstGap(features, values, profile)
      else if TooManyMissing(feature, values, profile) then Some(feature.metric) else None
  {
    if features != [] {
      assert (features + [feature])[1..] == features[1..] + [feature];
      FirstGapSnoc(features[1..], feature, values, profile);
    }
  }

  lemma {:induction false} GapOne(raw: RawFeature, values: Values, total: real, rest: real, profile: Profile)
    requires NamedFeature(raw) && total > 0.0 && rest > 0.0
    ensures TooManyMissing(ResolveFeature(raw, total), values, profile) == TooManyMissing(ResolveFeature(raw, rest), values, profile)
    ensures LetGo(raw, values) ==> !TooManyMissing(ResolveFeature(raw, total), values, profile)
    ensures ResolveFeature(raw, total).metric == ResolveFeature(raw, rest).metric
  {
  }

  lemma {:induction false} GapAlike(raws: seq<RawFeature>, values: Values, total: real, rest: real, profile: Profile)
    requires AllNamed(raws) && total > 0.0 && rest > 0.0
    ensures AllNamed(Survivors(raws, values))
    ensures FirstGap(FeaturesFor(raws, total), values, profile)
      == FirstGap(FeaturesFor(Survivors(raws, values), rest), values, profile)
  {
    SurvivorsAmong(raws, values);
    if raws != [] {
      var n := |raws| - 1;
      GapAlike(raws[..n], values, total, rest, profile);
      GapAlikeNext(raws[..n], raws[n], raws, values, total, rest, profile);
    }
  }

  lemma {:induction false} GapAlikeNext(
    init: seq<RawFeature>, raw: RawFeature, longer: seq<RawFeature>, values: Values, total: real, rest: real, profile: Profile
  )
    requires longer == init + [raw] && total > 0.0 && rest > 0.0
    requires AllNamed(init) && NamedFeature(raw) && AllNamed(Survivors(init, values))
    requires FirstGap(FeaturesFor(init, total), values, profile) == FirstGap(FeaturesFor(Survivors(init, values), rest), values, profile)
    ensures AllNamed(longer) && AllNamed(Survivors(longer, values))
    ensures FirstGap(FeaturesFor(longer, total), values, profile)
      == FirstGap(FeaturesFor(Survivors(longer, values), rest), values, profile)
  {
    var left := Survivors(init, values);
    FeaturesForSnoc(init, raw, total);
    FirstGapSnoc(FeaturesFor(init, total), ResolveFeature(raw, total), values, profile);
    SurvivorsSnoc(init, raw, values);
    GapOne(raw, values, total, rest, profile);
    if !LetGo(raw, values) {
      FeaturesForSnoc(left, raw, rest);
      FirstGapSnoc(FeaturesFor(left, rest), ResolveFeature(raw, rest), values, profile);
    }
  }

  /** With some weight left, the policy hands on the entries of the whole, or of the survivors. */
  lemma {:induction false} PolicyHandsOn(raws: seq<RawFeature>, values: Values, total: real)
    requires AllNamed(raws) && total > 0.0 && Sum(Collect(Survivors(raws, values), AdditiveWeight)) > 0.0
    requires Collect(raws, MissingFrom(values)) == []
    ensures var rest := Sum(Collect(Survivors(raws, values), AdditiveWeight));
      rest / total > 0.0 &&
      ApplyNullPolicy(FeaturesFor(raws, total), values) == Ok(EntriesFor(raws, values, total, rest / total))
  {
    var rest := Sum(Collect(Survivors(raws, values), AdditiveWeight));
    KeptTotal(raws, values, total);
    MissingAlike(raws, values, total);
    QuotientPositive(rest, total);
    var applied := ApplyNullPolicy(FeaturesFor(raws, total), values).value;
    var entries := EntriesFor(raws, values, total, rest / total);
    forall i | 0 <= i < |raws| ensures applied[i] == entries[i] {
    }
    assert applied == entries;
  }

  function WithoutExcluded(outcome: Outcome): Outcome {
    if outcome.Ranked? then outcome.(breakdown := Collect(outcome.breakdown, ShownRow)) else outcome
  }

  /** The declared weight of the features that survive. */
  function RestWeight(raws: seq<RawFeature>, values: Values): real {
    Sum(Collect(Survivors(raws, values), AdditiveWeight))
  }

  lemma {:induction false} RestOfRest(raws: seq<RawFeature>, values: Values)
    ensures Survivors(Survivors(raws, values), values) == Survivors(raws, values)
  {
    SurvivorsAmong(raws, values);
    var left := Survivors(raws, values);
    forall i | 0 <= i < |left| ensures !LetGo(left[i], values) {
      assert left[i] in left;
    }
    SurvivorsOfSurvivors(left, values);
  }

  lemma {:induction false} ExplainAlike(
    definition: Definition, smaller: Definition, full: seq<Applied>, alone: seq<Applied>, profile: Profile, exp: real -> real
  )
    requires CombineAlike(full, alone, profile, exp) && Explain(definition, full, profile, exp).Ok?
    requires smaller.postprocess == definition.postprocess && smaller.version == definition.version
    ensures Explain(smaller, alone, profile, exp) == Ok(WithoutExcluded(Explain(definition, full, profile, exp).value))
  {
  }

  /** With something required missing, both declarations are refused for it. */
  lemma {:induction false} BothFail(raws: seq<RawFeature>, values: Values, total: real)
    requires AllNamed(raws) && total > 0.0 && RestWeight(raws, values) > 0.0
    requires Collect(raws, MissingFrom(values)) != []
    ensures AllNamed(Survivors(raws, values))
    ensures ApplyNullPolicy(FeaturesFor(raws, total), values) == Err(Collect(raws, MissingFrom(values)))
    ensures ApplyNullPolicy(FeaturesFor(Survivors(raws, values), RestWeight(raws, values)), values)
      == Err(Collect(raws, MissingFrom(values)))
  {
    SurvivorsAmong(raws, values);
    RestOfRest(raws, values);
    MissingAlike(raws, values, total);
    MissingAlike(Survivors(raws, values), values, RestWeight(raws, values));
  }

  lemma {:induction false} DecideRefused(
    definition: Definition, smaller: Definition, values: Values, profile: Profile, exp: real -> real, missing: seq<Requirable>
  )
    requires smaller == definition.(features := smaller.features)
    requires FirstGap(definition.features, values, profile) == FirstGap(smaller.features, values, profile)
    requires ApplyNullPolicy(definition.features, values) == Err(missing)
    requires ApplyNullPolicy(smaller.features, values) == Err(missing)
    ensures Decide(definition, values, profile, exp).Ok?
    ensures Decide(smaller, values, profile, exp) == Ok(WithoutExcluded(Decide(definition, values, profile, exp).value))
  {
  }

  /** With nothing required missing, both declarations get past the policy, the smaller one with nothing to hand on. */
  lemma {:induction false} BothHandOn(raws: seq<RawFeature>, values: Values, total: real)
    requires AllNamed(raws) && total > 0.0 && RestWeight(raws, values) > 0.0
    requires Collect(raws, MissingFrom(values)) == []
    ensures var left, rest := Survivors(raws, values), RestWeight(raws, values);
      && AllNamed(left) && rest / total != 0.0
      && ApplyNullPolicy(FeaturesFor(raws, total), values) == Ok(EntriesFor(raws, values, total, rest / total))
      && ApplyNullPolicy(FeaturesFor(left, rest), values) == Ok(EntriesFor(left, values, rest, 1.0))
  {
    var left, rest := Survivors(raws, values), RestWeight(raws, values);
    SurvivorsAmong(raws, values);
    PolicyHandsOn(raws, values, total);
    RestOfRest(raws, values);
    MissingAlike(raws, values, total);
    PolicyHandsOn(left, values, rest);
    SelfQuotient(rest);
  }

  /** The same decision, stage by stage, with the excluded rows left out of the explanation. */
  lemma {:induction false} DecideAlike(
    definition: Definition, raws: seq<RawFeature>, values: Values, total: real, profile: Profile, exp: real -> real
  )
    requires AllNamed(raws) && total > 0.0 && definition.features == FeaturesFor(raws, total)
    requires RestWeight(raws, values) > 0.0 && Decide(definition, values, profile, exp).Ok?
    ensures AllNamed(Survivors(raws, values))
    ensures var smaller := definition.(features := FeaturesFor(Survivors(raws, values), RestWeight(raws, values)));
      Decide(smaller, values, profile, exp) == Ok(WithoutExcluded(Decide(definition, values, profile, exp).value))
  {
    var left, rest := Survivors(raws, values), RestWeight(raws, values);
    SurvivorsAmong(raws, values);
    var smaller := definition.(features := FeaturesFor(left, rest));
    GapAlike(raws, values, total, rest, profile);
    if Collect(raws, MissingFrom(values)) != [] {
      BothFail(raws, values, total);
      DecideRefused(definition, smaller, values, profile, exp, Collect(raws, MissingFrom(values)));
    } else {
      BothHandOn(raws, values, total);
      DeletionCombines(raws, values, total, rest, profile, exp);
      DecidePast(definition, smaller, values, profile, exp,
        EntriesFor(raws, values, total, rest / total), EntriesFor(left, values, rest, 1.0));
    }
  }

  lemma {:induction false} DecidePast(
    definition: Definition, smaller: Definition, values: Values, profile: Profile, exp: real -> real,
    full: seq<Applied>, alone: seq<Applied>
  )
    requires smaller == definition.(features := smaller.features)
    requires FirstGap(definition.features, values, profile) == FirstGap(smaller.features, values, profile)
    requires ApplyNullPolicy(definition.features, values) == Ok(full) && ApplyNullPolicy(smaller.features, values) == Ok(alone)
    requires CombineAlike(full, alone, profile, exp) && Decide(definition, values, profile, exp).Ok?
    ensures Decide(smaller, values, profile, exp) == Ok(WithoutExcluded(Decide(definition, values, profile, exp).value))
  {
    if FirstGap(definition.features, values, profile).None? && FirstFired(definition.constraints, values).None? {
      ExplainAlike(definition, smaller, full, alone, profile, exp);
    }
  }

  /* ---- the declaration without them ---- */

  function Without(raw: RawDeclaration, values: Values): RawDeclaration {
    raw.(features := Survivors(raw.features, values))
  }

  ghost predicate DistinctIds(raws: seq<RawFeature>) {
    forall i, j :: 0 <= i < j < |raws| ==> raws[i].id != raws[j].id
  }

  lemma {:induction false} SurvivorsDistinct(raws: seq<RawFeature>, values: Values)
    requires DistinctIds(raws)
    ensures DistinctIds(Survivors(raws, values))
  {
    if raws != [] {
      var n := |raws| - 1;
      var init := raws[..n];
      SurvivorsDistinct(init, values);
      SurvivorsAmong(init, values);
      SurvivorsSnoc(init, raws[n], values);
      assert init + [raws[n]] == raws;
      OthersDiffer(Survivors(init, values), raws);
    }
  }

  lemma {:induction false} OthersDiffer(left: seq<RawFeature>, raws: seq<RawFeature>)
    requires raws != [] && DistinctIds(raws)
    requires forall i :: 0 <= i < |left| ==> left[i] in raws[..|raws| - 1]
    ensures forall i :: 0 <= i < |left| ==> left[i].id != raws[|raws| - 1].id
  {
    forall i | 0 <= i < |left| ensures left[i].id != raws[|raws| - 1].id {
      var k :| 0 <= k < |raws| - 1 && raws[k] == left[i];
    }
  }

  lemma {:induction false} CleanFeaturesResolve(raws: seq<RawFeature>)
    requires AllNamed(raws) && DistinctIds(raws) && TotalWeight(raws) > 0.0
    requires forall i :: 0 <= i < |raws| ==> FeatureFault([], raws[i]) == []
    ensures ResolveFeatures(raws) == Ok(FeaturesFor(raws, TotalWeight(raws)))
  {
    forall i | 0 <= i < |raws| ensures FeatureFault(raws[..i], raws[i]) == [] && KeepFirst(raws[..i], raws[i]) == [raws[i]] {
      assert !IdSeen(raws[..i], raws[i].id);
      FaultOfFirst(raws[..i], raws[i]);
    }
    NothingCollectedWith(raws, FeatureFault);
    CollectedWithAll(raws, KeepFirst);
    assert CollectWith(raws, FeatureFault) + TotalFaults(TotalWeight(raws)) == [];
  }

  /** A feature whose id is new is judged on its own. */
  lemma {:induction false} FaultOfFirst(before: seq<RawFeature>, raw: RawFeature)
    requires !IdSeen(before, raw.id)
    ensures FeatureFault(before, raw) == FeatureFault([], raw)
  {
  }

  lemma {:induction false} FaultlessAlone(raws: seq<RawFeature>, i: nat)
    requires CollectWith(raws, FeatureFault) == [] && i < |raws| && DistinctIds(raws)
    ensures FeatureFault([], raws[i]) == []
  {
    CollectedWithNothing(raws, FeatureFault, i);
    assert !IdSeen(raws[..i], raws[i].id);
    FaultOfFirst(raws[..i], raws[i]);
  }

  lemma {:induction false} SurvivorsResolve(raws: seq<RawFeature>, values: Values)
    requires ResolveFeatures(raws).Ok? && RestWeight(raws, values) > 0.0
    ensures AllNamed(raws) && AllNamed(Survivors(raws, values)) && TotalWeight(raws) > 0.0
    ensures ResolveFeatures(raws) == Ok(FeaturesFor(raws, TotalWeight(raws)))
    ensures ResolveFeatures(Survivors(raws, values)) == Ok(FeaturesFor(Survivors(raws, values), RestWeight(raws, values)))
  {
    ResolvedFeaturesShape(raws);
    SurvivorsAmong(raws, values);
    SurvivorsDistinct(raws, values);
    var left := Survivors(raws, values);
    forall i | 0 <= i < |left| ensures FeatureFault([], left[i]) == [] {
      assert left[i] in raws;
      var k :| 0 <= k < |raws| && raws[k] == left[i];
      FaultlessAlone(raws, k);
    }
    CleanFeaturesResolve(left);
    assert ResolveFeatures(raws).value == FeaturesFor(raws, TotalWeight(raws));
  }

  lemma {:induction false} ShapedWithout(raw: RawDeclaration, values: Values)
    requires Shaped(raw) && Survivors(raw.features, values) != []
    ensures Shaped(Without(raw, values))
  {
    SurvivorsAmong(raw.features, values);
    var left := Survivors(raw.features, values);
    forall i | 0 <= i < |left| ensures left[i].id != "" && (left[i].weight.Some? ==> left[i].weight.value >= 0.0) {
      assert left[i] in raw.features;
    }
  }

  lemma {:induction false} FaultsWithout(raw: RawDeclaration, shared: map<string, Constraint>, values: Values)
    requires FaultsIn(raw, shared) == [] && ResolveFeatures(Survivors(raw.features, values)).Ok?
    ensures FaultsIn(Without(raw, values), shared) == []
  {
    FaultlessParts(raw, shared);
  }

  /** What is left of a declaration loads, and loads to the same definition but for its features. */
  lemma {:induction false} RemainderLoads(raw: RawDeclaration, shared: map<string, Constraint>, values: Values)
    requires Shaped(raw) && FaultsIn(raw, shared) == [] && RestWeight(raw.features, values) > 0.0
    ensures Shaped(Without(raw, values)) && FaultsIn(Without(raw, values), shared) == []
    ensures AllNamed(raw.features) && AllNamed(Survivors(raw.features, values)) && TotalWeight(raw.features) > 0.0
    ensures Resolve(raw, shared).features == FeaturesFor(raw.features, TotalWeight(raw.features))
    ensures Resolve(Without(raw, values), shared) ==
      Resolve(raw, shared).(features := FeaturesFor(Survivors(raw.features, values), RestWeight(raw.features, values)))
  {
    FaultlessParts(raw, shared);
    SurvivorsResolve(raw.features, values);
    ShapedWithout(raw, values);
    FaultsWithout(raw, shared, values);
  }

  lemma {:induction false} FewerKeys(raws: seq<RawFeature>, values: Values, total: real, rest: real)
    requires AllNamed(raws) && AllNamed(Survivors(raws, values)) && total > 0.0 && rest > 0.0
    ensures forall key :: key in FeatureKeys(FeaturesFor(Survivors(raws, values), rest)) ==>
      key in FeatureKeys(FeaturesFor(raws, total))
  {
    var left := Survivors(raws, values);
    SurvivorsAmong(raws, values);
    forall i | 0 <= i < |left| ensures FeatureKeys(FeaturesFor(left, rest))[i] in FeatureKeys(FeaturesFor(raws, total)) {
      assert left[i] in raws;
      var k :| 0 <= k < |raws| && raws[k] == left[i];
      assert FeatureKeys(FeaturesFor(raws, total))[k] == FeatureKeys(FeaturesFor(left, rest))[i];
    }
  }

  /** On fewer keys, the same quantities are extracted. */
  lemma {:induction false} ExtractionOfFewer(keys: seq<Key>, fewer: seq<Key>, series: WeatherSeries, window: DayWindow)
    requires forall key :: key in fewer ==> key in keys
    requires Extract(keys, series, window).Ok? && Extract(fewer, series, window).Ok?
    ensures SameOn(fewer, Extract(keys, series, window).value, Extract(fewer, series, window).value)
  {
    ExtractExact(keys, series, window);
    ExtractExact(fewer, series, window);
  }

  /**
   * When features are let go for want of data and some declared weight remains,
   * the outcome is the one of the declaration with those features deleted and
   * its weights normalised anew: the same outcome, the same score, and the same
   * breakdown but for the rows that say "excluded".
   */
  lemma {:induction false} ExclusionEqualsDeletion(
    raw: RawDeclaration, shared: map<string, Constraint>,
    series: WeatherSeries, window: DayWindow, profile: Profile, exp: real -> real
  )
    requires Shaped(raw) && FaultsIn(raw, shared) == [] && SoundRules(shared)
    requires Extract(KeysOf(Resolve(raw, shared)), series, window).Ok? ==>
      RestWeight(raw.features, Extract(KeysOf(Resolve(raw, shared)), series, window).value) > 0.0
    ensures Extract(KeysOf(Resolve(raw, shared)), series, window).Ok?
    ensures var values := Extract(KeysOf(Resolve(raw, shared)), series, window).value;
      var left := Without(raw, values);
      var whole := ScoreActivity(Resolve(raw, shared), series, window, profile, exp);
      && Shaped(left) && FaultsIn(left, shared) == []
      && whole.Ok?
      && ScoreActivity(Resolve(left, shared), series, window, profile, exp) == Ok(WithoutExcluded(whole.value))
  {
    var definition := Resolve(raw, shared);
    ResolvedIsSound(raw, shared);
    SoundDefinitionReads(definition);
    SoundExtractionSucceeds(KeysOf(definition), series, window);
    var values := Extract(KeysOf(definition), series, window).value;
    SoundDecisionSucceeds(definition, values, profile, exp);
    RemainderLoads(raw, shared, values);
    var smaller := Resolve(Without(raw, values), shared);
    DecideAlike(definition, raw.features, values, TotalWeight(raw.features), profile, exp);
    FewerKeys(raw.features, values, TotalWeight(raw.features), RestWeight(raw.features, values));
    ResolvedIsSound(Without(raw, values), shared);
    ScoreOfFewer(definition, smaller, series, window, profile, exp);
  }

  lemma {:induction false} ScoreOfFewer(
    definition: Definition, smaller: Definition, series: WeatherSeries, window: DayWindow, profile: Profile, exp: real -> real
  )
    requires SoundDefinition(smaller) && smaller.constraints == definition.constraints
    requires forall key :: key in FeatureKeys(smaller.features) ==> key in FeatureKeys(definition.features)
    requires Extract(KeysOf(definition), series, window).Ok?
    ensures ScoreActivity(smaller, series, window, profile, exp)
      == Decide(smaller, Extract(KeysOf(definition), series, window).value, profile, exp)
  {
    SoundDefinitionReads(smaller);
    SoundExtractionSucceeds(KeysOf(smaller), series, window);
    ExtractionOfFewer(KeysOf(definition), KeysOf(smaller), series, window);
    DecideReadsItsKeys(smaller, Extract(KeysOf(definition), series, window).value,
      Extract(KeysOf(smaller), series, window).value, profile, exp);
  }
}
