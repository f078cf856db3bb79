/**
 * The two-phase probe as a protocol: any number of instances find, probe and
 * save in any interleaving, through outages, failed saves and restarts.
 */
module ProbeProtocol {
  import opened Prelude
  import opened LocationProfiles
  import opened ProbeRows
  import opened ProbeRuns
  import opened ProfileStore

  datatype Phase =
    | Idle
    | Found(stored: Option<LocationProfile>)
    | Saving(before: Option<LocationProfile>, profile: LocationProfile)

  /** One process: what it mirrors of the place, and how far its current request is. */
  datatype Instance = Instance(mirror: Option<LocationProfile>, phase: Phase)

  /** The shared place, the instances, every probe made with what it was told, and every answer given. */
  datatype System = System(
    place: Place,
    instances: map<nat, Instance>,
    history: set<(Day, ProbeOutcome)>,
    answers: seq<LocationProfile>
  )

  const START := System(NOTHING, map[], {}, [])

  function At(system: System, i: nat): Instance {
    if i in system.instances then system.instances[i] else Instance(None, Idle)
  }

  /** What one request gathers besides the probe, and under which catalogue and day. */
  datatype Circumstances = Circumstances(
    today: Day, marineDeclared: bool, confirmations: int,
    snow: Option<SnowEvidence>, snowChanged: bool, rulesVersion: nat, computedAt: int
  )

  datatype Event =
    | Find(i: nat, reaction: Reaction)
    | Gather(i: nat, around: Circumstances, outcome: ProbeOutcome)
    | Save(i: nat, commits: bool, readBack: Reaction)
    | Abandon(i: nat)
    | Restart(i: nat)

  function MarineOf(profile: Option<LocationProfile>): Option<MarineEvidence> {
    if profile.Some? then profile.value.marine else None
  }

  predicate Probes(known: Option<MarineEvidence>, around: Circumstances) {
    around.marineDeclared && NeedsProbe(known, around.today, around.confirmations)
  }

  /** The marine half of a request: dropped, kept, or probed anew. */
  function Gathered(known: Option<MarineEvidence>, around: Circumstances, outcome: ProbeOutcome): Option<MarineEvidence> {
    if !around.marineDeclared then None
    else if Probes(known, around) then Some(RecordProbe(known, outcome, around.today))
    else known
  }

  predicate Changed(known: Option<MarineEvidence>, around: Circumstances) {
    around.snowChanged || Probes(known, around) || (!around.marineDeclared && known.Some?)
  }

  /** A find that is refused, and a place that cannot be saved, end the request without an answer. */
  ghost function Next(system: System, event: Event): System {
    var instance := At(system, event.i);
    match event
    case Restart(i) => system.(instances := system.instances[i := Instance(None, Idle)])
    case Abandon(i) =>
      if !instance.phase.Found? || instance.phase.stored.Some? then system
      else system.(instances := system.instances[i := instance.(phase := Idle)])
    case Find(i, reaction) =>
      if !instance.phase.Idle? || reaction.Refuses? then system
      else if reaction.Answers? then
        var stored := ReadPlace(system.place);
        system.(instances := system.instances[i := Instance(stored, Found(stored))])
      else system.(instances := system.instances[i := Instance(instance.mirror, Found(instance.mirror))])
    case Gather(i, around, outcome) =>
      if !instance.phase.Found? then system
      else
        var stored := instance.phase.stored;
        var known := MarineOf(stored);
        var history := if Probes(known, around) then system.history + {(around.today, outcome)} else system.history;
        if stored.Some? && stored.value.rulesVersion == around.rulesVersion && !Changed(known, around) then
          system.(instances := system.instances[i := instance.(phase := Idle)], answers := system.answers + [stored.value])
        else
          var profile := LocationProfile(around.rulesVersion,
            if !Changed(known, around) && stored.Some? then stored.value.computedAt else around.computedAt,
            around.snow, Gathered(known, around, outcome));
          system.(instances := system.instances[i := instance.(phase := Saving(stored, profile))], history := history)
    case Save(i, commits, readBack) =>
      if !instance.phase.Saving? then system
      else
        var profile := instance.phase.profile;
        if commits then
          var place := SavePlace(system.place, profile);
          var mirror := if readBack.Answers? then ReadPlace(place) else Some(profile);
          system.(place := place, instances := system.instances[i := Instance(mirror, Idle)], answers := system.answers + [profile])
        else
          system.(
            instances := system.instances[i := instance.(phase := Idle)],
            answers := system.answers + if instance.phase.before.Some? then [instance.phase.before.value] else [])
  }

  ghost function After(events: seq<Event>): System {
    if events == [] then START else Next(After(events[..|events| - 1]), events[|events| - 1])
  }

  /* ---- the invariant ---- */

  /** Every all-null day and every claim of coverage goes back to a probe that was told so. */
  ghost predicate Real(evidence: MarineEvidence, history: set<(Day, ProbeOutcome)>) {
    && (forall d :: d in evidence.allNullDates ==> (d, AllNull) in history)
    && (evidence.covered ==> exists d :: (d, Covered) in history)
  }

  /** Real, and with a last day that is either recorded already or was probed with that outcome. */
  ghost predicate Honest(evidence: MarineEvidence, table: Table, history: set<(Day, ProbeOutcome)>) {
    && Real(evidence, history)
    && (evidence.lastProbedOn !in table && evidence.lastProbedOn !in evidence.allNullDates ==>
          (evidence.lastProbedOn, if evidence.covered then Covered else Failed) in history)
  }

  function OutcomeOf(allNull: Option<bool>): ProbeOutcome {
    if allNull.None? then Failed else if allNull.value then AllNull else Covered
  }

  /** Every row stands for a probe made for its day, with that outcome. */
  ghost predicate RowsReal(table: Table, history: set<(Day, ProbeOutcome)>) {
    forall d :: d in table ==> (d, OutcomeOf(table[d])) in history
  }

  ghost predicate HonestProfile(profile: Option<LocationProfile>, table: Table, history: set<(Day, ProbeOutcome)>) {
    MarineOf(profile).Some? ==> Honest(MarineOf(profile).value, table, history)
  }

  ghost predicate HonestInstance(instance: Instance, table: Table, history: set<(Day, ProbeOutcome)>) {
    && HonestProfile(instance.mirror, table, history)
    && (instance.phase.Found? ==> HonestProfile(instance.phase.stored, table, history))
    && (instance.phase.Saving? ==>
          HonestProfile(instance.phase.before, table, history) && HonestProfile(Some(instance.phase.profile), table, history))
  }

  ghost predicate Invariant(system: System) {
    && RowsReal(system.place.probes, system.history)
    && (forall i :: i in system.instances ==> HonestInstance(system.instances[i], system.place.probes, system.history))
    && (forall k :: 0 <= k < |system.answers| ==> HonestProfile(Some(system.answers[k]), system.place.probes, system.history))
  }

  /** What is read from real rows is honest. */
  lemma {:induction false} ReadIsHonest(place: Place, history: set<(Day, ProbeOutcome)>)
    requires RowsReal(place.probes, history)
    ensures HonestProfile(ReadPlace(place), place.probes, history)
  {
    var evidence := EvidenceIn(place.probes);
    if evidence.Some? {
      RealRowsAreHonest(evidence.value, place.probes, history);
    }
  }

  lemma {:induction false} RealRowsAreHonest(evidence: MarineEvidence, table: Table, history: set<(Day, ProbeOutcome)>)
    requires Reads(evidence, table) && RowsReal(table, history)
    ensures Honest(evidence, table, history)
  {
    if evidence.covered {
      var d :| d in table && table[d] == Some(false);
      assert (d, Covered) in history;
    }
  }

  /** What a probe adds to an honest record is honest once the probe is in the history. */
  lemma {:induction false} ProbeIsHonest(
    known: Option<MarineEvidence>, outcome: ProbeOutcome, around: Circumstances,
    table: Table, history: set<(Day, ProbeOutcome)>
  )
    requires (known.Some? ==> Honest(known.value, table, history)) && Probes(known, around)
    ensures Honest(RecordProbe(known, outcome, around.today), table, history + {(around.today, outcome)})
  {
    var longer := history + {(around.today, outcome)};
    SortedExact((if known.Some? then known.value.allNullDates else []) + [around.today]);
    if outcome.Covered? {
      assert (around.today, Covered) in longer;
    }
  }

  /** Saving honest evidence leaves every row real. */
  lemma {:induction false} SaveKeepsRowsReal(place: Place, profile: LocationProfile, history: set<(Day, ProbeOutcome)>)
    requires RowsReal(place.probes, history) && HonestProfile(Some(profile), place.probes, history)
    ensures RowsReal(SavePlace(place, profile).probes, history)
    ensures place.probes.Keys <= SavePlace(place, profile).probes.Keys
  {
    if profile.marine.Some? {
      var after := SavePlace(place, profile).probes;
      forall d ensures (d in place.probes ==> d in after) && (d in after ==> (d, OutcomeOf(after[d])) in history) {
        SavedRows(place.probes, profile.marine.value, d);
      }
    }
  }

  ghost predicate Grows(system: System, next: System) {
    system.place.probes.Keys <= next.place.probes.Keys && system.history <= next.history
  }

  /** Growth alone disturbs neither the instances nor the answers. */
  lemma {:induction false} HonestInstanceGrows(instance: Instance, system: System, next: System)
    requires Grows(system, next) && HonestInstance(instance, system.place.probes, system.history)
    ensures HonestInstance(instance, next.place.probes, next.history)
  {
  }

  lemma {:induction false} AtIsHonest(system: System, i: nat)
    requires Invariant(system)
    ensures HonestInstance(At(system, i), system.place.probes, system.history)
  {
  }

  /** An invariant survives a step that changes one instance honestly and gives honest answers. */
  lemma {:induction false} StepKeeps(system: System, next: System, i: nat, more: seq<LocationProfile>)
    requires Invariant(system) && Grows(system, next) && RowsReal(next.place.probes, next.history)
    requires i in next.instances && next.instances == system.instances[i := next.instances[i]]
    requires HonestInstance(next.instances[i], next.place.probes, next.history)
    requires next.answers == system.answers + more
    requires forall k :: 0 <= k < |more| ==> HonestProfile(Some(more[k]), next.place.probes, next.history)
    ensures Invariant(next)
  {
    forall j | j in next.instances ensures HonestInstance(next.instances[j], next.place.probes, next.history) {
      if j != i {
        HonestInstanceGrows(system.instances[j], system, next);
      }
    }
  }

  lemma {:induction false} FindKeeps(system: System, event: Event)
    requires Invariant(system) && event.Find?
    ensures Invariant(Next(system, event))
  {
    AtIsHonest(system, event.i);
    ReadIsHonest(system.place, system.history);
    var next := Next(system, event);
    if next != system {
      StepKeeps(system, next, event.i, []);
    }
  }

  lemma {:induction false} GatherKeeps(system: System, event: Event)
    requires Invariant(system) && event.Gather?
    ensures Invariant(Next(system, event))
  {
    var instance := At(system, event.i);
    AtIsHonest(system, event.i);
    if instance.phase.Found? {
      var stored := instance.phase.stored;
      var known := MarineOf(stored);
      var next := Next(system, event);
      if Probes(known, event.around) {
        ProbeIsHonest(known, event.outcome, event.around, system.place.probes, system.history);
      }
      HonestInstanceGrows(instance, system, next);
      StepKeeps(system, next, event.i,
        if next.instances[event.i].phase.Idle? then [stored.value] else []);
    }
  }

  lemma {:induction false} SaveKeeps(system: System, event: Event)
    requires Invariant(system) && event.Save?
    ensures Invariant(Next(system, event))
  {
    var instance := At(system, event.i);
    AtIsHonest(system, event.i);
    if instance.phase.Saving? {
      var next := Next(system, event);
      SaveKeepsRowsReal(system.place, instance.phase.profile, system.history);
      HonestInstanceGrows(instance, system, next);
      ReadIsHonest(next.place, next.history);
      StepKeeps(system, next, event.i,
        if event.commits then [instance.phase.profile]
        else if instance.phase.before.Some? then [instance.phase.before.value] else []);
    }
  }

  lemma {:induction false} NextKeeps(system: System, event: Event)
    requires Invariant(system)
    ensures Invariant(Next(system, event))
  {
    match event
    case Find(_, _) => FindKeeps(system, event);
    case Gather(_, _, _) => GatherKeeps(system, event);
    case Save(_, _, _) => SaveKeeps(system, event);
    case Abandon(i) =>
      AtIsHonest(system, i);
      if Next(system, event) != system {
        StepKeeps(system, Next(system, event), i, []);
      }
    case Restart(i) => StepKeeps(system, Next(system, event), i, []);
  }

  lemma {:induction false} AlwaysInvariant(events: seq<Event>)
    ensures Invariant(After(events))
  {
    if events != [] {
      AlwaysInvariant(events[..|events| - 1]);
      NextKeeps(After(events[..|events| - 1]), events[|events| - 1]);
    }
  }

  /* ---- what it means ---- */

  /** The days for which some instance's probe was told nothing but empty slots. */
  ghost function AllNullDays(history: set<(Day, ProbeOutcome)>): set<Day> {
    set p | p in history && p.1.AllNull? :: p.0
  }

  lemma {:induction false} SubsetSmaller<T>(some: set<T>, others: set<T>)
    requires some <= others
    ensures |some| <= |others|
  {
    assert others == some + (others - some);
  }

  /** An answer that says there is no coastline rests on at least that many distinct days read as all-null. */
  lemma {:induction false} NoCoastlineNeedsDays(system: System, k: nat, confirmations: Option<int>)
    requires Invariant(system) && k < |system.answers|
    requires MarineVerdict(system.answers[k].marine, confirmations).Impossible?
    ensures |AllNullDays(system.history)| >= if confirmations.Some? then confirmations.value else DEFAULT_CONFIRMATIONS
  {
    var evidence := system.answers[k].marine.value;
    assert HonestProfile(Some(system.answers[k]), system.place.probes, system.history);
    forall d | d in evidence.allNullDates ensures d in AllNullDays(system.history) {
      assert (d, AllNull) in system.history;
    }
    SubsetSmaller(ToSet(evidence.allNullDates), AllNullDays(system.history));
  }

  /**
   * In every interleaving of every number of instances, an answer that says
   * there is no coastline rests on at least that many distinct days for which a
   * probe was made and was told nothing but empty slots. When the source said
   * so is another matter: the probe asks through a cache.
   */
  lemma {:induction false} NoCoastlineIsEarned(events: seq<Event>, k: nat, confirmations: Option<int>)
    requires k < |After(events).answers|
    requires MarineVerdict(After(events).answers[k].marine, confirmations).Impossible?
    ensures |AllNullDays(After(events).history)| >=
      if confirmations.Some? then confirmations.value else DEFAULT_CONFIRMATIONS
  {
    AlwaysInvariant(events);
    NoCoastlineNeedsDays(After(events), k, confirmations);
  }

  /** Every recorded row stands for a probe made for its day and told that; failures record no all-null day. */
  lemma {:induction false} EveryRowWasProbed(events: seq<Event>, day: Day)
    requires day in After(events).place.probes
    ensures (day, OutcomeOf(After(events).place.probes[day])) in After(events).history
  {
    AlwaysInvariant(events);
  }

  /** An outage alone settles nothing: without an all-null reading no answer rules the coast out. */
  lemma {:induction false} FailuresNeverSettle(events: seq<Event>, k: nat, confirmations: int)
    requires k < |After(events).answers| && confirmations >= 1
    requires AllNullDays(After(events).history) == {}
    ensures !MarineVerdict(After(events).answers[k].marine, Some(confirmations)).Impossible?
  {
    if MarineVerdict(After(events).answers[k].marine, Some(confirmations)).Impossible? {
      NoCoastlineIsEarned(events, k, Some(confirmations));
    }
  }

  /* ---- recorded coverage, and coverage that lost a race ---- */

  lemma {:induction false} RowsStay(system: System, event: Event, day: Day)
    requires day in system.place.probes
    ensures day in Next(system, event).place.probes && Next(system, event).place.probes[day] == system.place.probes[day]
  {
    var instance := At(system, event.i);
    if event.Save? && instance.phase.Saving? && instance.phase.profile.marine.Some? {
      SavedRows(system.place.probes, instance.phase.profile.marine.value, day);
    }
  }

  lemma {:induction false} RowsStayForever(events: seq<Event>, more: seq<Event>, day: Day)
    requires day in After(events).place.probes
    ensures day in After(events + more).place.probes
    ensures After(events + more).place.probes[day] == After(events).place.probes[day]
  {
    if more == [] {
      assert events + more == events;
    } else {
      var n := |more| - 1;
      RowsStayForever(events, more[..n], day);
      assert (events + more)[..|events + more| - 1] == events + more[..n];
      RowsStay(After(events + more[..n]), more[n], day);
    }
  }

  /** Coverage once recorded is read as coverage in every later state, and is never probed again. */
  lemma {:induction false} RecordedCoverageIsSettled(
    events: seq<Event>, more: seq<Event>, day: Day, today: Day, confirmations: Option<int>
  )
    requires day in After(events).place.probes && After(events).place.probes[day] == Some(false)
    ensures var evidence := EvidenceIn(After(events + more).place.probes);
      && MarineVerdict(evidence, confirmations).Possible?
      && (confirmations.Some? ==> !NeedsProbe(evidence, today, confirmations.value))
  {
    RowsStayForever(events, more, day);
    assert CoveredIn(After(events + more).place.probes);
  }

  /** Coverage a probe saw is recorded exactly when its day has no row yet, or one that says so already. */
  lemma {:induction false} CoverageIsRecordedUnlessTheDayIsTaken(
    place: Place, known: Option<MarineEvidence>, today: Day, profile: LocationProfile
  )
    requires profile.marine == Some(RecordProbe(known, Covered, today))
    ensures var after := SavePlace(place, profile).probes;
      today in after && (after[today] == Some(false) <==> today !in place.probes || place.probes[today] == Some(false))
  {
    SavedRows(place.probes, profile.marine.value, today);
  }

  lemma {:induction false} Then(events: seq<Event>, event: Event) returns (longer: seq<Event>)
    ensures After(longer) == Next(After(events), event)
  {
    longer := events + [event];
    assert longer[..|longer| - 1] == events;
  }

  /** Both instances have found that nothing is known of the place, and have probed it on day 1. */
  lemma {:induction false} TwoInstancesProbe(around: Circumstances) returns (events: seq<Event>)
    requires around.today == 1 && around.marineDeclared
    ensures var system := After(events);
      && system.place == NOTHING && (1, Covered) in system.history
      && At(system, 0).phase.Saving? && At(system, 0).phase.profile.marine == Some(RecordProbe(None, AllNull, 1))
      && At(system, 1).phase.Saving? && At(system, 1).phase.profile.marine == Some(RecordProbe(None, Covered, 1))
  {
    events := Then([], Find(0, Answers));
    events := Then(events, Find(1, Answers));
    assert At(After(events), 0).phase == Found(None) && At(After(events), 1).phase == Found(None);
    events := Then(events, Gather(0, around, AllNull));
    events := Then(events, Gather(1, around, Covered));
  }

  /** The all-null reading is saved first. */
  lemma {:induction false} EmptyIsSavedFirst(around: Circumstances) returns (events: seq<Event>)
    requires around.today == 1 && around.marineDeclared
    ensures var system := After(events);
      && (1, Covered) in system.history && system.place.probes == map[1 := Some(true)] && At(system, 0).phase.Idle?
      && At(system, 1).phase.Saving? && At(system, 1).phase.profile.marine == Some(RecordProbe(None, Covered, 1))
  {
    events := TwoInstancesProbe(around);
    var probing := After(events);
    events := Then(events, Save(0, true, Answers));
    AllNullIsSaved(After(events).place.probes);
    assert At(After(events), 1) == At(probing, 1);
  }

  /**
   * A run of two instances: both probe on one day, the all-null reading is
   * saved first, and the coverage the other one saw is in no row when all is done.
   */
  lemma {:induction false} LostRaceDropsCoverage(around: Circumstances) returns (events: seq<Event>)
    requires around.today == 1 && around.marineDeclared
    ensures var system := After(events);
      && (1, Covered) in system.history && !CoveredIn(system.place.probes)
      && At(system, 0).phase.Idle? && At(system, 1).phase.Idle?
  {
    events := EmptyIsSavedFirst(around);
    var first := After(events);
    CoverageComesTooLate(first.place.probes);
    events := Then(events, Save(1, true, Answers));
    assert At(After(events), 0) == At(first, 0);
  }

  lemma {:induction false} AllNullIsSaved(probes: Table)
    requires probes == InsertOrIgnore(map[], ProbeRowsFrom(RecordProbe(None, AllNull, 1)))
    ensures probes == map[1 := Some(true)]
  {
    SortedExact([] + [1]);
    InsertedRow(map[], RecordProbe(None, AllNull, 1));
  }

  lemma {:induction false} CoverageComesTooLate(probes: Table)
    requires probes == map[1 := Some(true)]
    ensures !CoveredIn(InsertOrIgnore(probes, ProbeRowsFrom(RecordProbe(None, Covered, 1))))
  {
    var record := RecordProbe(None, Covered, 1);
    var after := InsertOrIgnore(probes, ProbeRowsFrom(record));
    forall d | d in after ensures after[d] != Some(false) {
      SavedRows(probes, record, d);
    }
  }
}
