/** Evidence about a place, the verdict of each rule on it, and what one more probe does to it. */
module LocationProfiles {
  import opened Prelude
  import opened Definitions

  /** A UTC date; only order and identity matter. */
  type Day = nat

  datatype SnowEvidence =
    | Archive(coldSeasonSnowfallCm: real)
    | Elevation(seasonLikely: bool, elevationMetres: real, latitude: real, attemptedOn: Day)

  /** The probe record: days with an all-null answer, the last day tried, and coverage once seen. */
  datatype MarineEvidence = MarineEvidence(allNullDates: seq<Day>, lastProbedOn: Day, covered: bool)

  datatype LocationProfile = LocationProfile(
    rulesVersion: nat,
    computedAt: int,
    snow: Option<SnowEvidence>,
    marine: Option<MarineEvidence>
  )

  datatype RuleVerdict = Possible | Impossible(reason: ReasonCode) | Undecided(reason: ReasonCode)

  datatype ProbeOutcome = Covered | AllNull | Failed

  const DEFAULT_CONFIRMATIONS := 2

  function SnowVerdict(evidence: Option<SnowEvidence>, params: RuleParams): RuleVerdict {
    if evidence.None? then Undecided(ProviderUnavailable)
    else
      var season := match evidence.value
        case Elevation(likely, _, _, _) => likely
        case Archive(snowfall) =>
          snowfall >= (if params.minColdMonthSnowfallCm.Some? then params.minColdMonthSnowfallCm.value else 0.0);
      if season then Possible else Impossible(NoSnowSeason)
  }

  function MarineVerdict(evidence: Option<MarineEvidence>, confirmations: Option<int>): RuleVerdict {
    if evidence.None? then Undecided(MarineUnavailable)
    else if evidence.value.covered then Possible
    else if |ToSet(evidence.value.allNullDates)| >=
        (if confirmations.Some? then confirmations.value else DEFAULT_CONFIRMATIONS) then
      Impossible(NoCoastlineNearby)
    else Undecided(MarineUnavailable)
  }

  function Verdict(profile: LocationProfile, rule: RuleRef): RuleVerdict {
    if rule.rule == "snowSeason" then SnowVerdict(profile.snow, rule.params)
    else if rule.rule == "marineCoverage" then MarineVerdict(profile.marine, rule.params.confirmations)
    else Undecided(ProviderUnavailable)
  }

  /** The first impossibility, or else the first undecided rule, or else possible. */
  function Applicability(profile: LocationProfile, rules: seq<RuleRef>): RuleVerdict {
    var impossible := FirstImpossible(profile, rules);
    if impossible.Some? then impossible.value
    else
      var undecided := FirstUndecided(profile, rules);
      if undecided.Some? then undecided.value else Possible
  }

  function FirstImpossible(profile: LocationProfile, rules: seq<RuleRef>): Option<RuleVerdict> {
    if rules == [] then None
    else if Verdict(profile, rules[0]).Impossible? then Some(Verdict(profile, rules[0]))
    else FirstImpossible(profile, rules[1..])
  }

  function FirstUndecided(profile: LocationProfile, rules: seq<RuleRef>): Option<RuleVerdict> {
    if rules == [] then None
    else if Verdict(profile, rules[0]).Undecided? then Some(Verdict(profile, rules[0]))
    else FirstUndecided(profile, rules[1..])
  }

  lemma {:induction false} FirstImpossibleExact(profile: LocationProfile, rules: seq<RuleRef>)
    ensures FirstImpossible(profile, rules).Some? <==> exists i :: 0 <= i < |rules| && Verdict(profile, rules[i]).Impossible?
    ensures FirstImpossible(profile, rules).Some? ==> FirstImpossible(profile, rules).value.Impossible?
  {
    if rules != [] {
      FirstImpossibleExact(profile, rules[1..]);
      assert forall i :: 0 < i < |rules| ==> rules[1..][i - 1] == rules[i];
    }
  }

  lemma {:induction false} FirstUndecidedExact(profile: LocationProfile, rules: seq<RuleRef>)
    ensures FirstUndecided(profile, rules).Some? <==> exists i :: 0 <= i < |rules| && Verdict(profile, rules[i]).Undecided?
    ensures FirstUndecided(profile, rules).Some? ==> FirstUndecided(profile, rules).value.Undecided?
  {
    if rules != [] {
      FirstUndecidedExact(profile, rules[1..]);
      assert forall i :: 0 < i < |rules| ==> rules[1..][i - 1] == rules[i];
    }
  }

  /** Possible only where every rule is; impossible as soon as one rule is. */
  lemma {:induction false} ApplicabilityPrecedence(profile: LocationProfile, rules: seq<RuleRef>)
    ensures Applicability(profile, rules).Possible? <==>
      forall i :: 0 <= i < |rules| ==> Verdict(profile, rules[i]).Possible?
    ensures Applicability(profile, rules).Impossible? <==>
      exists i :: 0 <= i < |rules| && Verdict(profile, rules[i]).Impossible?
  {
    FirstImpossibleExact(profile, rules);
    FirstUndecidedExact(profile, rules);
  }

  /* ---- what each rule asks of the evidence ---- */

  /** A snow rule as the load lets it through: with a threshold of its own, above zero. */
  predicate SnowRule(rule: RuleRef) {
    rule.rule == "snowSeason" && rule.params.minColdMonthSnowfallCm.Some? && rule.params.minColdMonthSnowfallCm.value > 0.0
  }

  /**
   * A reading of the archive at the threshold is enough, more never is too
   * much, and any less, down to none at all, rules the season out.
   */
  lemma {:induction false} SnowDecides(profile: LocationProfile, rule: RuleRef, less: real, more: real)
    requires SnowRule(rule) && less < rule.params.minColdMonthSnowfallCm.value && more >= 0.0
    ensures var threshold := rule.params.minColdMonthSnowfallCm.value;
      && Verdict(profile.(snow := Some(Archive(threshold + more))), rule) == Possible
      && Verdict(profile.(snow := Some(Archive(less))), rule) == Impossible(NoSnowSeason)
      && Verdict(profile.(snow := Some(Archive(0.0))), rule) == Impossible(NoSnowSeason)
  {
  }

  /** A guess decides by its own mark whatever the threshold, and without evidence nothing is decided. */
  lemma {:induction false} GuessDecides(profile: LocationProfile, rule: RuleRef, guess: SnowEvidence)
    requires SnowRule(rule) && guess.Elevation?
    ensures Verdict(profile.(snow := Some(guess)), rule).Possible? <==> guess.seasonLikely
    ensures !guess.seasonLikely ==> Verdict(profile.(snow := Some(guess)), rule) == Impossible(NoSnowSeason)
    ensures Verdict(profile.(snow := None), rule) == Undecided(ProviderUnavailable)
  {
  }

  /**
   * Coverage decides for the coast, so many distinct all-null days against it,
   * two where the rule does not say, and anything less not at all.
   */
  lemma {:induction false} CoastDecides(profile: LocationProfile, rule: RuleRef)
    requires rule.rule == "marineCoverage" && (rule.params.confirmations.Some? ==> rule.params.confirmations.value > 0)
    ensures var verdict := Verdict(profile, rule);
      var enough := if rule.params.confirmations.Some? then rule.params.confirmations.value else 2;
      && (verdict.Possible? <==> profile.marine.Some? && profile.marine.value.covered)
      && (verdict.Impossible? <==>
            (profile.marine.Some? && !profile.marine.value.covered
              && |ToSet(profile.marine.value.allNullDates)| >= enough))
      && (verdict.Impossible? ==> verdict.reason == NoCoastlineNearby)
      && (verdict.Undecided? ==> verdict.reason == MarineUnavailable)
  {
  }

  /** What an activity is told is the verdict of its first impossible rule, or else of its first undecided one. */
  lemma {:induction false} ApplicabilityNamesTheFirst(profile: LocationProfile, rules: seq<RuleRef>, i: nat)
    requires i < |rules| && forall j :: 0 <= j < i ==> !Verdict(profile, rules[j]).Impossible?
    ensures Verdict(profile, rules[i]).Impossible? ==> Applicability(profile, rules) == Verdict(profile, rules[i])
    ensures Verdict(profile, rules[i]).Undecided?
      && (forall j :: 0 <= j < |rules| ==> !Verdict(profile, rules[j]).Impossible?)
      && (forall j :: 0 <= j < i ==> Verdict(profile, rules[j]).Possible?)
      ==> Applicability(profile, rules) == Verdict(profile, rules[i])
  {
    FirstImpossibleExact(profile, rules);
    FirstsAt(profile, rules, i);
  }

  lemma {:induction false} FirstsAt(profile: LocationProfile, rules: seq<RuleRef>, i: nat)
    requires i < |rules|
    ensures Verdict(profile, rules[i]).Impossible? && (forall j :: 0 <= j < i ==> !Verdict(profile, rules[j]).Impossible?)
      ==> FirstImpossible(profile, rules) == Some(Verdict(profile, rules[i]))
    ensures Verdict(profile, rules[i]).Undecided? && (forall j :: 0 <= j < i ==> !Verdict(profile, rules[j]).Undecided?)
      ==> FirstUndecided(profile, rules) == Some(Verdict(profile, rules[i]))
  {
    if i > 0 {
      FirstsAt(profile, rules[1..], i - 1);
      assert forall j :: 0 < j < |rules| ==> rules[j] == rules[1..][j - 1];
    }
  }

  /* ---- sorted lists of days ---- */

  predicate Ascending(days: seq<Day>) {
    forall i, j :: 0 <= i < j < |days| ==> days[i] < days[j]
  }

  /** Puts a day in its place, once. */
  function Insert(days: seq<Day>, day: Day): seq<Day> {
    if days == [] || day < days[0] then [day] + days
    else if day == days[0] then days
    else [days[0]] + Insert(days[1..], day)
  }

  /** The days of a list, each once, ascending. */
  function Sorted(days: seq<Day>): seq<Day> {
    if days == [] then [] else Insert(Sorted(days[..|days| - 1]), days[|days| - 1])
  }

  lemma {:induction false} InsertExact(days: seq<Day>, day: Day)
    requires Ascending(days)
    ensures Ascending(Insert(days, day))
    ensures forall d :: d in Insert(days, day) <==> d == day || d in days
  {
    if days != [] && day > days[0] {
      InsertExact(days[1..], day);
      assert days == [days[0]] + days[1..];
      forall d | d in Insert(days[1..], day) ensures days[0] < d {
        if d != day {
          assert d in days[1..];
        }
      }
    }
  }

  lemma {:induction false} SortedExact(days: seq<Day>)
    ensures Ascending(Sorted(days))
    ensures forall d :: d in Sorted(days) <==> d in days
  {
    if days != [] {
      var n := |days| - 1;
      SortedExact(days[..n]);
      InsertExact(Sorted(days[..n]), days[n]);
      assert days == days[..n] + [days[n]];
    }
  }

  lemma {:induction false} TailMembers(days: seq<Day>)
    requires Ascending(days) && days != []
    ensures forall d :: d in days[1..] <==> d in days && d != days[0]
  {
    assert days == [days[0]] + days[1..];
  }

  /** An ascending list is determined by its members. */
  lemma {:induction false} AscendingUnique(some: seq<Day>, others: seq<Day>)
    requires Ascending(some) && Ascending(others) && forall d :: d in some <==> d in others
    ensures some == others
  {
    if others != [] {
      assert others[0] in others;
    }
    if some != [] {
      assert some[0] in some;
      var j :| 0 <= j < |others| && others[j] == some[0];
      var k :| 0 <= k < |some| && some[k] == others[0];
      assert some[0] == others[0];
      TailMembers(some);
      TailMembers(others);
      AscendingUnique(some[1..], others[1..]);
    }
  }

  /* ---- the probe record ---- */

  /** The record after one probe. A failure adds no date, but it does advance the last day tried. */
  function RecordProbe(previous: Option<MarineEvidence>, outcome: ProbeOutcome, today: Day): MarineEvidence {
    match outcome
    case Failed =>
      if previous.None? then MarineEvidence([], today, false)
      else previous.value.(lastProbedOn := today)
    case Covered => MarineEvidence([], today, true)
    case AllNull =>
      MarineEvidence(Sorted((if previous.Some? then previous.value.allNullDates else []) + [today]), today, false)
  }

  /** Whether to spend a probe today: never once settled, and at most once a day before. */
  predicate NeedsProbe(evidence: Option<MarineEvidence>, today: Day, confirmations: int) {
    evidence.None? ||
    (MarineVerdict(evidence, Some(confirmations)).Undecided? && evidence.value.lastProbedOn != today)
  }

  /** A rule of the marine kind with a count of its own. */
  function MarineCount(rule: RuleRef): seq<int> {
    if rule.rule == "marineCoverage" && rule.params.confirmations.Some? then [rule.params.confirmations.value] else []
  }

  function CountsIn(definition: Definition): seq<int> {
    Collect(definition.applicability, MarineCount)
  }

  function Largest(counts: seq<int>): int
    requires counts != []
  {
    if |counts| == 1 then counts[0]
    else
      var before := Largest(counts[..|counts| - 1]);
      if before >= counts[|counts| - 1] then before else counts[|counts| - 1]
  }

  /** The strictest count any activity asks for. */
  function ConfirmationsRequired(declared: seq<Definition>): int {
    var counts := Collect(declared, CountsIn);
    if counts == [] then DEFAULT_CONFIRMATIONS else Largest(counts)
  }

  lemma {:induction false} LargestExact(counts: seq<int>)
    requires counts != []
    ensures Largest(counts) in counts && forall c :: c in counts ==> c <= Largest(counts)
  {
    if |counts| > 1 {
      LargestExact(counts[..|counts| - 1]);
      assert counts == counts[..|counts| - 1] + [counts[|counts| - 1]];
    }
  }

  /** The count probing goes by is one that some marine rule asks for, and two where none does. */
  lemma {:induction false} RequiredIsDeclared(declared: seq<Definition>)
    ensures (exists i, j :: AsksForTheCoast(declared, i, j)) ==>
      exists i, j :: AsksForTheCoast(declared, i, j)
        && declared[i].applicability[j].params.confirmations.value == ConfirmationsRequired(declared)
    ensures (forall i, j :: !AsksForTheCoast(declared, i, j)) ==> ConfirmationsRequired(declared) == 2
  {
    var counts := Collect(declared, CountsIn);
    if counts != [] {
      var largest := Largest(counts);
      LargestExact(counts);
      CollectedFrom(declared, CountsIn, largest);
      var i :| 0 <= i < |declared| && largest in CountsIn(declared[i]);
      CollectedFrom(declared[i].applicability, MarineCount, largest);
      var j :| 0 <= j < |declared[i].applicability| && largest in MarineCount(declared[i].applicability[j]);
      assert AsksForTheCoast(declared, i, j);
    } else {
      forall i, j ensures !AsksForTheCoast(declared, i, j) {
        if AsksForTheCoast(declared, i, j) {
          var count := declared[i].applicability[j].params.confirmations.value;
          assert count in MarineCount(declared[i].applicability[j]);
          CollectedFrom(declared[i].applicability, MarineCount, count);
          CollectedFrom(declared, CountsIn, count);
          assert false;
        }
      }
    }
  }

  predicate AsksForTheCoast(declared: seq<Definition>, i: int, j: int) {
    0 <= i < |declared| && 0 <= j < |declared[i].applicability| && MarineRule(declared[i].applicability[j])
  }

  /** A declared marine rule as the load lets it through: with a count of its own. */
  predicate MarineRule(rule: RuleRef) {
    rule.rule == "marineCoverage" && rule.params.confirmations.Some?
  }

  /**
   * Once probing has stopped for good, no declared activity is left undecided
   * about the coast: the strictest count settles the looser ones.
   */
  lemma {:induction false} SettledSettlesEveryRule(
    declared: seq<Definition>, evidence: MarineEvidence, i: nat, j: nat
  )
    requires i < |declared| && j < |declared[i].applicability| && MarineRule(declared[i].applicability[j])
    requires forall today :: !NeedsProbe(Some(evidence), today, ConfirmationsRequired(declared))
    ensures !MarineVerdict(Some(evidence), declared[i].applicability[j].params.confirmations).Undecided?
  {
    var rule := declared[i].applicability[j];
    var count := rule.params.confirmations.value;
    assert count in MarineCount(rule);
    CollectedFrom(declared[i].applicability, MarineCount, count);
    CollectedFrom(declared, CountsIn, count);
    LargestExact(Collect(declared, CountsIn));
    assert !NeedsProbe(Some(evidence), evidence.lastProbedOn + 1, ConfirmationsRequired(declared));
  }
}
