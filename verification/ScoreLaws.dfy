/**
 * The explanation is the calculation: what the rows of a breakdown add up to,
 * and how the score moves when a feature does.
 */
module ScoreLaws {
  import opened Prelude
  import opened Definitions
  import opened Normalizers
  import opened Engine
  import opened Soundness

  predicate SoundProfile(profile: Profile) {
    0.0 <= profile.neutralScore <= 1.0
  }

  /* ---- what the null policy hands on ---- */

  predicate SoundEntry(entry: Applied) {
    && (entry.feature.role.Gate? ==>
          entry.weight.None? && entry.feature.gateFloor.Some? && 0.0 < entry.feature.gateFloor.value <= 1.0)
    && (entry.feature.role.Additive? ==> entry.weight.Some? == !entry.status.Excluded?)
    && (entry.weight.Some? ==> 0.0 <= entry.weight.value <= 1.0)
    && (entry.value.Some? ==> entry.status.Used?)
  }

  function EntryWeight(entry: Applied): seq<real> {
    if entry.weight.Some? then [entry.weight.value] else []
  }

  lemma {:induction false} EntryWeightsAreShares(features: seq<Feature>, values: Values, entries: seq<Applied>, total: real)
    requires total != 0.0 && |entries| == |features|
    requires forall i :: 0 <= i < |features| ==> entries[i] == Apply(features[i], values, total)
    ensures var kept, shares := Collect(features, KeptWeight(values)), Collect(entries, EntryWeight);
      |kept| == |shares| && forall i :: 0 <= i < |kept| ==> shares[i] == kept[i] / total
  {
    if features != [] {
      var n := |features| - 1;
      EntryWeightsAreShares(features[..n], values, entries[..n], total);
    }
  }

  lemma {:induction false} KeptWeightAt(features: seq<Feature>, values: Values, i: nat)
    requires i < |features| && Contributes(features[i], values)
    ensures WeightOr0(features[i]) in Collect(features, KeptWeight(values))
  {
    assert WeightOr0(features[i]) in KeptWeight(values)(features[i]);
    CollectedFrom(features, KeptWeight(values), WeightOr0(features[i]));
  }

  lemma {:induction false} KeptWeightsNonNegative(features: seq<Feature>, values: Values)
    requires forall i :: 0 <= i < |features| ==> SoundFeature(features[i])
    ensures var kept := Collect(features, KeptWeight(values)); forall i :: 0 <= i < |kept| ==> 0.0 <= kept[i]
  {
    var kept := Collect(features, KeptWeight(values));
    forall i | 0 <= i < |kept| ensures 0.0 <= kept[i] {
      assert kept[i] in kept;
      CollectedFrom(features, KeptWeight(values), kept[i]);
    }
  }

  /** The effective weights are shares of one, whatever was excluded. */
  lemma {:induction false} AppliedIsSound(features: seq<Feature>, values: Values)
    requires forall i :: 0 <= i < |features| ==> SoundFeature(features[i])
    requires ApplyNullPolicy(features, values).Ok?
    ensures var entries := ApplyNullPolicy(features, values).value;
      && (forall i :: 0 <= i < |entries| ==> SoundEntry(entries[i]))
      && Sum(Collect(entries, EntryWeight)) == 1.0
  {
    var entries := ApplyNullPolicy(features, values).value;
    var kept := Collect(features, KeptWeight(values));
    EntryWeightsAreShares(features, values, entries, Sum(kept));
    SharesSumToOne(kept, Collect(entries, EntryWeight));
    KeptWeightsNonNegative(features, values);
    SumNonNegative(kept);
    forall i | 0 <= i < |entries| ensures SoundEntry(entries[i]) {
      AppliedEntryIsSound(features, values, i);
    }
  }

  lemma {:induction false} AppliedEntryIsSound(features: seq<Feature>, values: Values, i: nat)
    requires i < |features| && SoundFeature(features[i])
    requires var kept := Collect(features, KeptWeight(values));
      Sum(kept) > 0.0 && forall j :: 0 <= j < |kept| ==> 0.0 <= kept[j] <= Sum(kept)
    ensures SoundEntry(Apply(features[i], values, Sum(Collect(features, KeptWeight(values)))))
  {
    var total := Sum(Collect(features, KeptWeight(values)));
    if Contributes(features[i], values) {
      KeptWeightAt(features, values, i);
      ShareInUnit(WeightOr0(features[i]), total);
    }
  }

  /* ---- the rows of a breakdown ---- */

  function RowWeight(row: Contribution): seq<real> {
    if row.weight.Some? then [row.weight.value] else []
  }

  function RowContribution(row: Contribution): seq<real> {
    if row.contribution.Some? then [row.contribution.value] else []
  }

  function RowGate(row: Contribution): seq<real> {
    if row.gateFactor.Some? then [row.gateFactor.value] else []
  }

  /** A row in which no clamp had anything to do. */
  predicate ExactRow(row: Contribution) {
    && 0.0 <= row.normalized <= 1.0
    && (row.weight.Some? ==> 0.0 <= row.weight.value <= 1.0)
    && row.weight.Some? == row.contribution.Some?
    && (row.weight.Some? ==> row.contribution.value == Times(row.weight.value, row.normalized))
    && (row.gateFactor.Some? ==> 0.0 < row.gateFactor.value <= 1.0)
    && row.gateFactor.Some? == row.role.Gate?
  }

  lemma {:induction false} GateRowIsExact(entry: Applied, normalized: real)
    requires SoundEntry(entry) && entry.feature.role.Gate? && 0.0 <= normalized <= 1.0
    ensures ExactRow(GateRow(entry, normalized))
    ensures entry.value.Some? ==> GateFactor(entry, normalized) == Blend(entry.feature.gateFloor.value, normalized)
  {
    BlendInUnit(entry.feature.gateFloor.value, normalized);
  }

  lemma {:induction false} AdditiveRowIsExact(entry: Applied, normalized: real)
    requires SoundEntry(entry) && entry.feature.role.Additive? && !entry.status.Excluded? && 0.0 <= normalized <= 1.0
    ensures ExactRow(AdditiveRow(entry, normalized))
    ensures AdditiveRow(entry, normalized).contribution == Some(Term(entry, normalized))
  {
    TimesInUnit(entry.weight.value, normalized);
  }

  lemma {:induction false} RowIsExact(entry: Applied, normalized: real)
    requires SoundEntry(entry) && 0.0 <= normalized <= 1.0
    ensures ExactRow(Row(entry, normalized))
  {
    if entry.feature.role.Gate? {
      GateRowIsExact(entry, normalized);
    } else if !entry.status.Excluded? {
      AdditiveRowIsExact(entry, normalized);
    }
  }

  lemma {:induction false} NormalizedInUnit(entry: Applied, profile: Profile, exp: real -> real)
    requires SoundProfile(profile)
    ensures NormalizedOf(entry, profile, exp).Ok? ==> 0.0 <= NormalizedOf(entry, profile, exp).value <= 1.0
  {
  }

  /** The running sum and gates are what the rows so far add up to. */
  ghost predicate Explains(so: Combined, entries: seq<Applied>) {
    && |so.breakdown| == |entries|
    && (forall i :: 0 <= i < |entries| ==> ExactRow(so.breakdown[i]))
    && Collect(so.breakdown, RowWeight) == Collect(entries, EntryWeight)
    && so.sum == Sum(Collect(so.breakdown, RowContribution))
    && so.gates == Product(Collect(so.breakdown, RowGate))
  }

  lemma {:induction false} ExplainsSum(so: Combined, entry: Applied, normalized: real)
    requires SoundEntry(entry) && 0.0 <= normalized <= 1.0
    requires so.sum == Sum(Collect(so.breakdown, RowContribution))
    ensures var next := CombineNext(so, entry, normalized); next.sum == Sum(Collect(next.breakdown, RowContribution))
  {
    var row := Row(entry, normalized);
    var contributions := Collect(so.breakdown, RowContribution);
    CollectSnoc(so.breakdown, row, RowContribution);
    if row.contribution.Some? {
      AdditiveRowIsExact(entry, normalized);
      SumSnoc(contributions, row.contribution.value);
    } else {
      assert contributions + [] == contributions;
    }
  }

  lemma {:induction false} ExplainsGates(so: Combined, entry: Applied, normalized: real)
    requires so.gates == Product(Collect(so.breakdown, RowGate))
    ensures var next := CombineNext(so, entry, normalized); next.gates == Product(Collect(next.breakdown, RowGate))
  {
    var row := Row(entry, normalized);
    var gates := Collect(so.breakdown, RowGate);
    CollectSnoc(so.breakdown, row, RowGate);
    if row.gateFactor.Some? {
      ProductSnoc(gates, row.gateFactor.value);
    } else {
      assert gates + [] == gates;
    }
  }

  lemma {:induction false} ExplainsWeights(so: Combined, entries: seq<Applied>, entry: Applied, normalized: real)
    requires SoundEntry(entry) && Collect(so.breakdown, RowWeight) == Collect(entries, EntryWeight)
    ensures Collect(CombineNext(so, entry, normalized).breakdown, RowWeight) == Collect(entries + [entry], EntryWeight)
  {
    CollectSnoc(so.breakdown, Row(entry, normalized), RowWeight);
    CollectSnoc(entries, entry, EntryWeight);
  }

  lemma {:induction false} ExplainsNext(
    so: Combined, entries: seq<Applied>, entry: Applied, longer: seq<Applied>, normalized: real
  )
    requires longer == entries + [entry]
    requires Explains(so, entries) && SoundEntry(entry) && 0.0 <= normalized <= 1.0
    ensures Explains(CombineNext(so, entry, normalized), longer)
  {
    RowIsExact(entry, normalized);
    ExplainsSum(so, entry, normalized);
    ExplainsGates(so, entry, normalized);
    ExplainsWeights(so, entries, entry, normalized);
  }

  predicate InUnit(xs: seq<real>) {
    forall i :: 0 <= i < |xs| ==> 0.0 <= xs[i] <= 1.0
  }

  lemma {:induction false} NormalizeAllInUnit(entries: seq<Applied>, profile: Profile, exp: real -> real)
    requires SoundProfile(profile) && NormalizeAll(entries, profile, exp).Ok?
    ensures InUnit(NormalizeAll(entries, profile, exp).value)
    ensures forall i :: 0 <= i < |entries| ==>
      NormalizedOf(entries[i], profile, exp) == Ok(NormalizeAll(entries, profile, exp).value[i])
  {
    if entries != [] {
      var n := |entries| - 1;
      NormalizeAllInUnit(entries[..n], profile, exp);
      NormalizedInUnit(entries[n], profile, exp);
    }
  }

  lemma {:induction false} CombineExplains(entries: seq<Applied>, normalized: seq<real>)
    requires |entries| == |normalized| && InUnit(normalized)
    requires forall i :: 0 <= i < |entries| ==> SoundEntry(entries[i])
    ensures Explains(CombineAll(entries, normalized), entries)
  {
    if entries != [] {
      var n := |entries| - 1;
      CombineExplains(entries[..n], normalized[..n]);
      ExplainsNext(CombineAll(entries[..n], normalized[..n]), entries[..n], entries[n], entries, normalized[n]);
    }
  }

  lemma {:induction false} ContributionsAtMost(rows: seq<Contribution>, row: Contribution)
    requires 0.0 <= Sum(Collect(rows, RowContribution)) <= Sum(Collect(rows, RowWeight)) && ExactRow(row)
    ensures 0.0 <= Sum(Collect(rows + [row], RowContribution)) <= Sum(Collect(rows + [row], RowWeight))
  {
    CollectSnoc(rows, row, RowContribution);
    CollectSnoc(rows, row, RowWeight);
    var contributions, weights := Collect(rows, RowContribution), Collect(rows, RowWeight);
    if row.weight.Some? {
      TimesInUnit(row.weight.value, row.normalized);
      SumSnoc(contributions, row.contribution.value);
      SumSnoc(weights, row.weight.value);
    } else {
      assert contributions + [] == contributions && weights + [] == weights;
    }
  }

  lemma {:induction false} GatesAtMostOne(rows: seq<Contribution>, row: Contribution)
    requires 0.0 <= Product(Collect(rows, RowGate)) <= 1.0 && ExactRow(row)
    ensures 0.0 <= Product(Collect(rows + [row], RowGate)) <= 1.0
  {
    CollectSnoc(rows, row, RowGate);
    var gates := Collect(rows, RowGate);
    if row.gateFactor.Some? {
      var product, factor := Product(gates), row.gateFactor.value;
      ProductSnoc(gates, factor);
      assert Product(gates + [factor]) == Times(product, factor);
      TimesInUnit(product, factor);
    } else {
      assert gates + [] == gates;
    }
  }

  /** Contributions add up to at most their weights, and factors never multiply to more than one. */
  lemma {:induction false} ContributionsBounded(rows: seq<Contribution>)
    requires forall i :: 0 <= i < |rows| ==> ExactRow(rows[i])
    ensures 0.0 <= Sum(Collect(rows, RowContribution)) <= Sum(Collect(rows, RowWeight))
    ensures 0.0 <= Product(Collect(rows, RowGate)) <= 1.0
  {
    if rows != [] {
      var n := |rows| - 1;
      ContributionsBounded(rows[..n]);
      ContributionsAtMost(rows[..n], rows[n]);
      GatesAtMostOne(rows[..n], rows[n]);
      assert rows[..n] + [rows[n]] == rows;
    }
  }

  /** What a breakdown says the score is, before bounds and rounding. */
  function Explained(rows: seq<Contribution>): real {
    Times(Sum(Collect(rows, RowContribution)), Product(Collect(rows, RowGate)))
  }

  /** A ranked answer no constraint touched is the explanation of what the null policy handed on. */
  lemma {:induction false} RankedIsExplained(definition: Definition, values: Values, profile: Profile, exp: real -> real)
    requires Decide(definition, values, profile, exp).Ok?
    requires Decide(definition, values, profile, exp).value.Ranked?
    requires Decide(definition, values, profile, exp).value.constraintViolated.None?
    ensures ApplyNullPolicy(definition.features, values).Ok?
    ensures Decide(definition, values, profile, exp)
      == Explain(definition, ApplyNullPolicy(definition.features, values).value, profile, exp)
  {
  }

  /**
   * For every ranked answer no constraint touched: the weights of its rows sum
   * to one, no inner clamp had anything to do, and the score is the rounded,
   * bounded product of what the rows add up to and what they multiply to.
   */
  lemma {:induction false} BreakdownIsTheScore(definition: Definition, values: Values, profile: Profile, exp: real -> real)
    requires SoundDefinition(definition) && SoundProfile(profile)
    requires Decide(definition, values, profile, exp).Ok?
    ensures var outcome := Decide(definition, values, profile, exp).value;
      outcome.Ranked? && outcome.constraintViolated.None? ==>
        && (forall i :: 0 <= i < |outcome.breakdown| ==> ExactRow(outcome.breakdown[i]))
        && Sum(Collect(outcome.breakdown, RowWeight)) == 1.0
        && 0.0 <= Explained(outcome.breakdown) <= 1.0
        && outcome.score == Round(Bounded(Explained(outcome.breakdown) * 100.0, definition.postprocess))
        && 0 <= outcome.score <= 100
  {
    var outcome := Decide(definition, values, profile, exp).value;
    if outcome.Ranked? && outcome.constraintViolated.None? {
      RankedIsExplained(definition, values, profile, exp);
      AppliedIsSound(definition.features, values);
      ExplainIsTheScore(definition, ApplyNullPolicy(definition.features, values).value, profile, exp);
    }
  }

  lemma {:induction false} ExplainIsTheScore(definition: Definition, entries: seq<Applied>, profile: Profile, exp: real -> real)
    requires SoundProfile(profile) && SoundBounds(definition.postprocess) && Explain(definition, entries, profile, exp).Ok?
    requires Sum(Collect(entries, EntryWeight)) == 1.0 && forall i :: 0 <= i < |entries| ==> SoundEntry(entries[i])
    ensures var outcome := Explain(definition, entries, profile, exp).value;
      && (forall i :: 0 <= i < |outcome.breakdown| ==> ExactRow(outcome.breakdown[i]))
      && Sum(Collect(outcome.breakdown, RowWeight)) == 1.0
      && 0.0 <= Explained(outcome.breakdown) <= 1.0
      && outcome.score == Round(Bounded(Explained(outcome.breakdown) * 100.0, definition.postprocess))
      && 0 <= outcome.score <= 100
  {
    var normalized := NormalizeAll(entries, profile, exp).value;
    NormalizeAllInUnit(entries, profile, exp);
    CombineExplains(entries, normalized);
    var so := CombineAll(entries, normalized);
    ContributionsBounded(so.breakdown);
    TimesInUnit(so.sum, so.gates);
    BoundedInScale(Explained(so.breakdown) * 100.0, definition.postprocess);
  }

  lemma {:induction false} BoundedInScale(raw: real, bounds: Bounds)
    requires SoundBounds(bounds)
    ensures 0.0 <= Bounded(raw, bounds) <= 100.0 && 0 <= Round(Bounded(raw, bounds)) <= 100
  {
  }

  /** A fired constraint is a zero that no floor lifts; only it leaves the breakdown empty. */
  lemma {:induction false} FiredConstraintScoresZero(definition: Definition, values: Values, profile: Profile, exp: real -> real)
    requires FirstGap(definition.features, values, profile).None?
    ensures FirstFired(definition.constraints, values).Some? ==>
      Decide(definition, values, profile, exp) == Ok(Ranked(0, FirstFired(definition.constraints, values), [],
        definition.version, profile.id, profile.version))
  {
    assert Clamp01(0.0) * 100.0 == 0.0;
  }

  /* ---- raising a feature ---- */

  /** The same features known, each normalising at least as high. */
  ghost predicate ScoresHigher(features: seq<Feature>, low: Values, high: Values, profile: Profile, exp: real -> real) {
    forall i :: 0 <= i < |features| ==>
      var a, b := Of(low, features[i].Quantity()), Of(high, features[i].Quantity());
      && a.Some? == b.Some?
      && (a.Some? ==>
            var x, y := Normalize(features[i].normalizer, a.value.value, exp), Normalize(features[i].normalizer, b.value.value, exp);
            x.Ok? && y.Ok? && x.value <= y.value)
  }

  lemma {:induction false} GateFactorMonotone(entry: Applied, other: Applied, x: real, y: real)
    requires SoundEntry(entry) && entry.feature == other.feature && entry.feature.role.Gate?
    requires entry.value.Some? == other.value.Some? && 0.0 <= x <= y <= 1.0
    ensures 0.0 <= GateFactor(entry, x) <= GateFactor(other, y) <= 1.0
  {
    BlendInUnit(entry.feature.gateFloor.value, x);
    BlendInUnit(entry.feature.gateFloor.value, y);
    BlendMonotone(entry.feature.gateFloor.value, x, y);
  }

  lemma {:induction false} TermMonotone(entry: Applied, other: Applied, x: real, y: real)
    requires SoundEntry(entry) && entry.feature == other.feature
    requires entry.status == other.status && entry.weight == other.weight && 0.0 <= x <= y
    ensures 0.0 <= Term(entry, x) <= Term(other, y)
  {
    if entry.weight.Some? {
      TimesMonotone(entry.weight.value, entry.weight.value, x, y);
    }
  }

  /** Two lists of entries that differ only in their values. */
  ghost predicate SameButValues(entries: seq<Applied>, others: seq<Applied>) {
    && |entries| == |others|
    && (forall i :: 0 <= i < |entries| ==>
          && SoundEntry(entries[i])
          && entries[i].feature == others[i].feature
          && entries[i].status == others[i].status
          && entries[i].weight == others[i].weight
          && entries[i].value.Some? == others[i].value.Some?)
  }

  ghost predicate Below(xs: seq<real>, ys: seq<real>) {
    |xs| == |ys| && forall i :: 0 <= i < |xs| ==> 0.0 <= xs[i] <= ys[i] <= 1.0
  }

  lemma {:induction false} NextMonotone(a: Combined, b: Combined, entry: Applied, other: Applied, x: real, y: real)
    requires 0.0 <= a.sum <= b.sum && 0.0 <= a.gates <= b.gates
    requires SameButValues([entry], [other]) && Below([x], [y])
    ensures var c, d := CombineNext(a, entry, x), CombineNext(b, other, y);
      0.0 <= c.sum <= d.sum && 0.0 <= c.gates <= d.gates
  {
    assert [entry][0] == entry && [other][0] == other && [x][0] == x && [y][0] == y;
    TermMonotone(entry, other, x, y);
    if entry.feature.role.Gate? {
      GateFactorMonotone(entry, other, x, y);
    }
    TimesMonotone(a.gates, b.gates, Factor(entry, x), Factor(other, y));
  }

  lemma {:induction false} CombineMonotone(entries: seq<Applied>, others: seq<Applied>, low: seq<real>, high: seq<real>)
    requires SameButValues(entries, others) && Below(low, high) && |low| == |entries|
    ensures var a, b := CombineAll(entries, low), CombineAll(others, high);
      0.0 <= a.sum <= b.sum && 0.0 <= a.gates <= b.gates
  {
    if entries != [] {
      var n := |entries| - 1;
      CombineMonotone(entries[..n], others[..n], low[..n], high[..n]);
      NextMonotone(CombineAll(entries[..n], low[..n]), CombineAll(others[..n], high[..n]),
        entries[n], others[n], low[n], high[n]);
    }
  }

  lemma {:induction false} SamePolicy(features: seq<Feature>, low: Values, high: Values)
    requires forall i :: 0 <= i < |features| ==>
      Of(low, features[i].Quantity()).Some? == Of(high, features[i].Quantity()).Some?
    ensures Collect(features, KeptWeight(low)) == Collect(features, KeptWeight(high))
    ensures Collect(features, MissingRequired(low)) == Collect(features, MissingRequired(high))
  {
    if features != [] {
      SamePolicy(features[..|features| - 1], low, high);
    }
  }

  lemma {:induction false} PostprocessMonotone(x: real, y: real, bounds: Bounds)
    requires x <= y
    ensures Postprocess(x, bounds, false) <= Postprocess(y, bounds, false)
  {
    RoundMonotone(Bounded(x * 100.0, bounds), Bounded(y * 100.0, bounds));
  }

  lemma {:induction false} AppliedDiffersInValues(features: seq<Feature>, low: Values, high: Values)
    requires forall i :: 0 <= i < |features| ==> SoundFeature(features[i])
    requires forall i :: 0 <= i < |features| ==>
      Of(low, features[i].Quantity()).Some? == Of(high, features[i].Quantity()).Some?
    requires ApplyNullPolicy(features, low).Ok? && ApplyNullPolicy(features, high).Ok?
    ensures SameButValues(ApplyNullPolicy(features, low).value, ApplyNullPolicy(features, high).value)
  {
    SamePolicy(features, low, high);
    AppliedIsSound(features, low);
  }

  lemma {:induction false} NormalizedBelow(entries: seq<Applied>, others: seq<Applied>, profile: Profile, exp: real -> real)
    requires SoundProfile(profile) && |entries| == |others|
    requires NormalizeAll(entries, profile, exp).Ok? && NormalizeAll(others, profile, exp).Ok?
    requires forall i :: 0 <= i < |entries| ==>
      var x, y := NormalizedOf(entries[i], profile, exp), NormalizedOf(others[i], profile, exp);
      x.Ok? && y.Ok? ==> x.value <= y.value
    ensures Below(NormalizeAll(entries, profile, exp).value, NormalizeAll(others, profile, exp).value)
  {
    NormalizeAllInUnit(entries, profile, exp);
    NormalizeAllInUnit(others, profile, exp);
  }

  lemma {:induction false} ScoreMonotone(a: Combined, b: Combined, bounds: Bounds)
    requires 0.0 <= a.sum <= b.sum && 0.0 <= a.gates <= b.gates
    ensures Postprocess(GatedSum(a), bounds, false) <= Postprocess(GatedSum(b), bounds, false)
  {
    var low, high := Times(a.sum, a.gates), Times(b.sum, b.gates);
    TimesMonotone(a.sum, b.sum, a.gates, b.gates);
    assert low <= high;
    assert GatedSum(a) == Clamp01(low) <= Clamp01(high) == GatedSum(b);
    PostprocessMonotone(GatedSum(a), GatedSum(b), bounds);
  }

  lemma {:induction false} ExplainMonotone(
    definition: Definition, entries: seq<Applied>, others: seq<Applied>, profile: Profile, exp: real -> real
  )
    requires SameButValues(entries, others)
    requires Explain(definition, entries, profile, exp).Ok? && Explain(definition, others, profile, exp).Ok?
    requires Below(NormalizeAll(entries, profile, exp).value, NormalizeAll(others, profile, exp).value)
    ensures Explain(definition, entries, profile, exp).value.score <= Explain(definition, others, profile, exp).value.score
  {
    var low, high := NormalizeAll(entries, profile, exp).value, NormalizeAll(others, profile, exp).value;
    CombineMonotone(entries, others, low, high);
    ScoreMonotone(CombineAll(entries, low), CombineAll(others, high), definition.postprocess);
  }

  /** Raising any feature's normalised value, limiting features included, never lowers the score. */
  lemma {:induction false} RaisingAFeatureNeverLowers(
    definition: Definition, low: Values, high: Values, profile: Profile, exp: real -> real
  )
    requires SoundDefinition(definition) && SoundProfile(profile)
    requires ScoresHigher(definition.features, low, high, profile, exp)
    requires Decide(definition, low, profile, exp).Ok? && Decide(definition, high, profile, exp).Ok?
    requires var a := Decide(definition, low, profile, exp).value; a.Ranked? && a.constraintViolated.None?
    requires var b := Decide(definition, high, profile, exp).value; b.Ranked? && b.constraintViolated.None?
    ensures Decide(definition, low, profile, exp).value.score <= Decide(definition, high, profile, exp).value.score
  {
    RankedIsExplained(definition, low, profile, exp);
    RankedIsExplained(definition, high, profile, exp);
    AppliedScoresHigher(definition.features, low, high, profile, exp);
    ExplainMonotone(definition, ApplyNullPolicy(definition.features, low).value,
      ApplyNullPolicy(definition.features, high).value, profile, exp);
  }

  lemma {:induction false} AppliedScoresHigher(
    features: seq<Feature>, low: Values, high: Values, profile: Profile, exp: real -> real
  )
    requires forall i :: 0 <= i < |features| ==> SoundFeature(features[i])
    requires SoundProfile(profile) && ScoresHigher(features, low, high, profile, exp)
    requires ApplyNullPolicy(features, low).Ok? && ApplyNullPolicy(features, high).Ok?
    requires NormalizeAll(ApplyNullPolicy(features, low).value, profile, exp).Ok?
    requires NormalizeAll(ApplyNullPolicy(features, high).value, profile, exp).Ok?
    ensures SameButValues(ApplyNullPolicy(features, low).value, ApplyNullPolicy(features, high).value)
    ensures Below(NormalizeAll(ApplyNullPolicy(features, low).value, profile, exp).value,
      NormalizeAll(ApplyNullPolicy(features, high).value, profile, exp).value)
  {
    AppliedDiffersInValues(features, low, high);
    NormalizedBelow(ApplyNullPolicy(features, low).value, ApplyNullPolicy(features, high).value, profile, exp);
  }
}
