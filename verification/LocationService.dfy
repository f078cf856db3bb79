/** One request for a profile, step by step: find, gather what is missing, save, answer. */
module LocationService {
  import opened Prelude
  import opened Definitions
  import opened LocationProfiles
  import opened ProfileStore
  import opened ProbeProtocol

  /** What was gathered about the season, and whether reaching it changed the profile. */
  datatype SnowGathered = SnowGathered(evidence: Option<SnowEvidence>, changed: bool)

  /** Whether a gathering looks for a reading: with none yet, or with a guess of another day. */
  predicate NeedsSnow(known: Option<SnowEvidence>, today: Day) {
    known.None? || (known.value.Elevation? && known.value.attemptedOn != today)
  }

  function GatherSnow(known: Option<SnowEvidence>, declared: bool, today: Day, reading: Option<SnowEvidence>): SnowGathered {
    if !declared then SnowGathered(None, known.Some?)
    else if !NeedsSnow(known, today) then SnowGathered(known, false)
    else if reading.None? then SnowGathered(None, known.Some?)
    else SnowGathered(reading, true)
  }

  predicate DeclaresRule(declared: seq<Definition>, name: string) {
    exists i, j :: 0 <= i < |declared| && 0 <= j < |declared[i].applicability| && declared[i].applicability[j].rule == name
  }

  // ---- How long a reading of the season stands ----

  /** Where no new reading is looked for, the known one is handed on unchanged. */
  lemma {:induction false} StandingIsKept(known: SnowEvidence, today: Day, reading: Option<SnowEvidence>)
    requires !NeedsSnow(Some(known), today)
    ensures GatherSnow(Some(known), true, today, reading) == SnowGathered(Some(known), false)
  {
  }

  /** When nothing better is found, a guess is kept exactly by gatherings of its own day, and dropped by any other. */
  lemma {:induction false} GuessIsKeptForItsDay(known: SnowEvidence, today: Day)
    requires known.Elevation?
    ensures GatherSnow(Some(known), true, today, None).evidence == Some(known) <==> known.attemptedOn == today
  {
  }

  function SnowOf(profile: Option<LocationProfile>): Option<SnowEvidence> {
    if profile.Some? then profile.value.snow else None
  }

  function RowSnow(system: System): Option<SnowEvidence> {
    if system.place.row.Some? then system.place.row.value.snow else None
  }

  /** The snow half of a gathering is what a request makes of what it found, the rule being declared. */
  ghost predicate GathersSnow(system: System, event: Event) {
    event.Gather? && At(system, event.i).phase.Found? ==>
      exists reading :: SnowGathered(event.around.snow, event.around.snowChanged)
        == GatherSnow(SnowOf(At(system, event.i).phase.stored), true, event.around.today, reading)
  }

  ghost predicate SnowRun(events: seq<Event>) {
    events == [] ||
    (SnowRun(events[..|events| - 1]) && GathersSnow(After(events[..|events| - 1]), events[|events| - 1]))
  }

  /** The event writes a profile to the row. */
  ghost predicate Commits(system: System, event: Event) {
    event.Save? && event.commits && At(system, event.i).phase.Saving?
  }

  /** What is stored after so much of a run. */
  ghost function StoredAt(events: seq<Event>, more: seq<Event>, n: nat): Option<SnowEvidence>
    requires n <= |more|
  {
    RowSnow(After(events + more[..n]))
  }

  /** The profile an event writes, if it writes one, carries the reading. */
  ghost predicate CarriedAt(events: seq<Event>, more: seq<Event>, n: nat, known: SnowEvidence)
    requires n < |more|
  {
    var system := After(events + more[..n]);
    Commits(system, more[n]) ==> At(system, more[n].i).phase.profile.snow == Some(known)
  }

  lemma {:induction false} SaveKeepsExactly(system: System, event: Event, known: SnowEvidence)
    requires RowSnow(system) == Some(known)
    ensures RowSnow(Next(system, event)) == Some(known) <==>
      (Commits(system, event) ==> At(system, event.i).phase.profile.snow == Some(known))
  {
  }

  lemma {:induction false} OneMoreEvent(events: seq<Event>, more: seq<Event>)
    requires more != []
    ensures var n := |more| - 1;
      After(events + more) == Next(After(events + more[..n]), more[n])
  {
    var n := |more| - 1;
    assert (events + more)[..|events + more| - 1] == events + more[..n];
  }

  lemma {:induction false} StoredNext(events: seq<Event>, more: seq<Event>, n: nat, known: SnowEvidence)
    requires n < |more| && StoredAt(events, more, n) == Some(known)
    ensures StoredAt(events, more, n + 1) == Some(known) <==> CarriedAt(events, more, n, known)
  {
    assert more[..n + 1][..n] == more[..n];
    OneMoreEvent(events, more[..n + 1]);
    SaveKeepsExactly(After(events + more[..n]), more[n], known);
  }

  /** A stored reading stays, at every moment of a run of any number of instances, exactly while every profile written carries it. */
  lemma {:induction false} StaysExactlyWhileCarried(events: seq<Event>, more: seq<Event>, known: SnowEvidence)
    requires RowSnow(After(events)) == Some(known)
    ensures (forall n :: 0 <= n <= |more| ==> StoredAt(events, more, n) == Some(known))
      <==> (forall n :: 0 <= n < |more| ==> CarriedAt(events, more, n, known))
  {
    if forall n :: 0 <= n <= |more| ==> StoredAt(events, more, n) == Some(known) {
      forall n | 0 <= n < |more| ensures CarriedAt(events, more, n, known) {
        assert StoredAt(events, more, n + 1) == Some(known);
        StoredNext(events, more, n, known);
      }
    }
    if forall n :: 0 <= n < |more| ==> CarriedAt(events, more, n, known) {
      forall n | 0 <= n <= |more| ensures StoredAt(events, more, n) == Some(known) {
        StaysWhileCarried(events, more, known, n);
      }
    }
  }

  lemma {:induction false} StaysWhileCarried(events: seq<Event>, more: seq<Event>, known: SnowEvidence, n: nat)
    requires RowSnow(After(events)) == Some(known) && n <= |more|
    requires forall m :: 0 <= m < n ==> CarriedAt(events, more, m, known)
    ensures StoredAt(events, more, n) == Some(known)
  {
    if n == 0 {
      assert events + more[..0] == events;
    } else {
      StaysWhileCarried(events, more, known, n - 1);
      StoredNext(events, more, n - 1, known);
    }
  }

  /** The gathering a profile about to be saved comes from: the last one its instance made. */
  ghost function LastGather(events: seq<Event>, i: nat): (r: nat)
    requires At(After(events), i).phase.Saving?
    ensures r < |events| && events[r].Gather? && events[r].i == i && At(After(events[..r]), i).phase.Found?
    ensures At(After(events), i).phase.profile.snow == events[r].around.snow
    decreases |events|
  {
    var n := |events| - 1;
    if At(After(events[..n]), i).phase.Saving? then
      var r := LastGather(events[..n], i);
      assert events[..n][..r] == events[..r];
      r
    else n
  }

  /**
   * A gathering hands the reading on: it found it and had no need to look for
   * another, or it looked, and what it came back with is that reading.
   */
  predicate HandsOn(stored: Option<LocationProfile>, around: Circumstances, known: SnowEvidence) {
    if NeedsSnow(SnowOf(stored), around.today) then around.snow == Some(known) else SnowOf(stored) == Some(known)
  }

  /** The gathering behind the profile an event writes, if it writes one, handed the reading on. */
  ghost predicate HandedOnAt(events: seq<Event>, more: seq<Event>, n: nat, known: SnowEvidence)
    requires n < |more|
  {
    var run := events + more[..n];
    Commits(After(run), more[n]) ==>
      var g := LastGather(run, more[n].i);
      HandsOn(At(After(run[..g]), more[n].i).phase.stored, run[g].around, known)
  }

  lemma {:induction false} SnowRunGathers(events: seq<Event>, n: nat)
    requires SnowRun(events) && n < |events|
    ensures GathersSnow(After(events[..n]), events[n])
    decreases |events|
  {
    var m := |events| - 1;
    if n < m {
      SnowRunGathers(events[..m], n);
      assert events[..m][..n] == events[..n];
    }
  }

  lemma {:induction false} HandedOnIsCarried(stored: Option<LocationProfile>, around: Circumstances, known: SnowEvidence)
    requires exists reading :: (SnowGathered(around.snow, around.snowChanged)
      == GatherSnow(SnowOf(stored), true, around.today, reading))
    ensures around.snow == Some(known) <==> HandsOn(stored, around, known)
  {
  }

  lemma {:induction false} CarriedExactly(events: seq<Event>, more: seq<Event>, n: nat, known: SnowEvidence)
    requires n < |more| && SnowRun(events + more)
    ensures CarriedAt(events, more, n, known) <==> HandedOnAt(events, more, n, known)
  {
    var run := events + more[..n];
    if Commits(After(run), more[n]) {
      var g := LastGather(run, more[n].i);
      assert (events + more)[..g] == run[..g] && (events + more)[g] == run[g];
      SnowRunGathers(events + more, g);
      HandedOnIsCarried(At(After(run[..g]), more[n].i).phase.stored, run[g].around, known);
    }
  }

  /**
   * A stored reading stays, at every moment of a run of any number of
   * instances, exactly when every gathering whose profile is written found it
   * with no need of another, or came back with that very reading.
   */
  lemma {:induction false} ReadingStaysExactly(events: seq<Event>, more: seq<Event>, known: SnowEvidence)
    requires RowSnow(After(events)) == Some(known) && SnowRun(events + more)
    ensures (forall n :: 0 <= n <= |more| ==> StoredAt(events, more, n) == Some(known))
      <==> (forall n :: 0 <= n < |more| ==> HandedOnAt(events, more, n, known))
  {
    StaysExactlyWhileCarried(events, more, known);
    forall n | 0 <= n < |more| ensures CarriedAt(events, more, n, known) <==> HandedOnAt(events, more, n, known) {
      CarriedExactly(events, more, n, known);
    }
  }

  // ---- One process ----

  /** Everything happens in one process that is never restarted. */
  predicate OneProcess(events: seq<Event>) {
    forall n :: 0 <= n < |events| ==> events[n].i == 0 && !events[n].Restart?
  }

  /** What the process has in hand about the season is what is stored, and it writes back what it need not look for. */
  ghost predicate InStep(system: System) {
    var instance := At(system, 0);
    system.place.row.Some? ==>
      && SnowOf(instance.mirror) == RowSnow(system)
      && (instance.phase.Found? ==> SnowOf(instance.phase.stored) == RowSnow(system))
      && (instance.phase.Saving? && RowSnow(system).Some? && RowSnow(system).value.Archive? ==>
            instance.phase.profile.snow == RowSnow(system))
  }

  lemma {:induction false} StepKeepsInStep(system: System, event: Event)
    requires InStep(system) && GathersSnow(system, event) && event.i == 0 && !event.Restart?
    ensures InStep(Next(system, event))
  {
    var instance := At(system, 0);
    if event.Gather? && instance.phase.Found? && RowSnow(system).Some? && RowSnow(system).value.Archive? {
      var reading :| SnowGathered(event.around.snow, event.around.snowChanged)
        == GatherSnow(SnowOf(instance.phase.stored), true, event.around.today, reading);
      StandingIsKept(RowSnow(system).value, event.around.today, reading);
    }
  }

  lemma {:induction false} AlwaysInStep(events: seq<Event>)
    requires OneProcess(events) && SnowRun(events)
    ensures InStep(After(events))
  {
    if events != [] {
      AlwaysInStep(events[..|events| - 1]);
      StepKeepsInStep(After(events[..|events| - 1]), events[|events| - 1]);
    }
  }

  /**
   * In a run of one process, through outages and failed saves, a reading of the
   * archive once stored is stored for ever.
   */
  lemma {:induction false} ArchiveIsPermanent(events: seq<Event>, more: seq<Event>, known: SnowEvidence)
    requires OneProcess(events + more) && SnowRun(events + more)
    requires known.Archive? && RowSnow(After(events)) == Some(known)
    ensures RowSnow(After(events + more)) == Some(known)
  {
    if more == [] {
      assert events + more == events;
    } else {
      var n := |more| - 1;
      var init := events + more[..n];
      assert (events + more)[..|events + more| - 1] == init;
      forall m | 0 <= m < |init| ensures init[m].i == 0 && !init[m].Restart? {
        assert init[m] == (events + more)[m];
      }
      ArchiveIsPermanent(events, more[..n], known);
      AlwaysInStep(init);
      assert (events + more)[|init|] == more[n];
      OneMoreEvent(events, more);
      SaveKeepsExactly(After(init), more[n], known);
    }
  }

  // ---- Several processes ----

  /** Every instance under way with the place has the reading in hand. */
  ghost predicate AllCarry(system: System, known: SnowEvidence) {
    && RowSnow(system) == Some(known)
    && forall i :: i in system.instances ==>
         && (system.instances[i].phase.Found? ==> SnowOf(system.instances[i].phase.stored) == Some(known))
         && (system.instances[i].phase.Saving? ==> system.instances[i].phase.profile.snow == Some(known))
  }

  /** Whoever is answered from memory remembers the reading, and nobody gathers on a day it is looked for again. */
  ghost predicate Undisturbed(system: System, event: Event, known: SnowEvidence) {
    && (event.Find? && event.reaction.Unavailable? ==> SnowOf(At(system, event.i).mirror) == Some(known))
    && (event.Gather? ==> !NeedsSnow(Some(known), event.around.today))
  }

  ghost predicate UndisturbedRun(events: seq<Event>, more: seq<Event>, known: SnowEvidence) {
    forall n :: 0 <= n < |more| ==> Undisturbed(After(events + more[..n]), more[n], known)
  }

  lemma {:induction false} StepCarries(system: System, event: Event, known: SnowEvidence)
    requires AllCarry(system, known) && GathersSnow(system, event) && Undisturbed(system, event, known)
    ensures AllCarry(Next(system, event), known)
  {
    if event.Gather? && At(system, event.i).phase.Found? {
      var reading :| SnowGathered(event.around.snow, event.around.snowChanged)
        == GatherSnow(SnowOf(At(system, event.i).phase.stored), true, event.around.today, reading);
      StandingIsKept(known, event.around.today, reading);
    }
  }

  /**
   * With any number of instances and restarts, a reading all of them have in
   * hand stands: one of the archive for ever, a guess as long as gatherings are
   * of the day it was made on.
   */
  lemma {:induction false} ReadingStands(events: seq<Event>, more: seq<Event>, known: SnowEvidence)
    requires AllCarry(After(events), known) && SnowRun(events + more) && UndisturbedRun(events, more, known)
    ensures AllCarry(After(events + more), known)
  {
    if more == [] {
      assert events + more == events;
    } else {
      var n := |more| - 1;
      assert (events + more)[..|events + more| - 1] == events + more[..n];
      forall m | 0 <= m < n ensures Undisturbed(After(events + more[..n][..m]), more[..n][m], known) {
        assert more[..n][..m] == more[..m];
      }
      ReadingStands(events, more[..n], known);
      OneMoreEvent(events, more);
      StepCarries(After(events + more[..n]), more[n], known);
    }
  }

  lemma {:induction false} ThenGathers(events: seq<Event>, event: Event) returns (longer: seq<Event>)
    requires SnowRun(events) && GathersSnow(After(events), event)
    ensures longer == events + [event] && SnowRun(longer) && After(longer) == Next(After(events), event)
  {
    longer := events + [event];
    assert longer[..|longer| - 1] == events;
  }

  /** A day of two gatherings: one reads the archive, the other falls back on a guess. */
  function Reads(snow: SnowEvidence): Circumstances {
    Circumstances(1, false, 2, Some(snow), true, 1, 0)
  }

  lemma {:induction false} NothingKnownIsGathered(system: System, i: nat, snow: SnowEvidence)
    requires At(system, i).phase == Found(None)
    ensures GathersSnow(system, Gather(i, Reads(snow), Failed))
  {
    assert GatherSnow(SnowOf(At(system, i).phase.stored), true, Reads(snow).today, Some(snow)) == SnowGathered(Some(snow), true);
  }

  /** Two instances have found nothing known of the place, and one has stored a reading of the archive. */
  lemma {:induction false} ArchiveIsStored(archive: SnowEvidence) returns (events: seq<Event>)
    requires archive.Archive?
    ensures SnowRun(events) && RowSnow(After(events)) == Some(archive)
    ensures At(After(events), 1).phase == Found(None)
  {
    events := ThenGathers([], Find(0, Answers));
    events := ThenGathers(events, Find(1, Answers));
    assert At(After(events), 0).phase == Found(None);
    NothingKnownIsGathered(After(events), 0, archive);
    events := ThenGathers(events, Gather(0, Reads(archive), Failed));
    events := ThenGathers(events, Save(0, true, Answers));
  }

  /** With two instances the reading can be lost: the other one writes its guess over it. */
  lemma {:induction false} AGuessCanOverwriteTheArchive(archive: SnowEvidence, guess: SnowEvidence)
    returns (events: seq<Event>, more: seq<Event>)
    requires archive.Archive? && guess.Elevation?
    ensures SnowRun(events + more) && RowSnow(After(events)) == Some(archive)
    ensures RowSnow(After(events + more)) == Some(guess)
  {
    events := ArchiveIsStored(archive);
    NothingKnownIsGathered(After(events), 1, guess);
    var longer := ThenGathers(events, Gather(1, Reads(guess), Failed));
    assert At(After(longer), 1).phase.Saving? && At(After(longer), 1).phase.profile.snow == Some(guess);
    more := [Gather(1, Reads(guess), Failed), Save(1, true, Answers)];
    var all := ThenGathers(longer, Save(1, true, Answers));
    assert all == events + more;
  }

  /** Everything the outside world decides during one request. */
  datatype World = World(
    found: Reaction, placeSaved: bool, today: Day, instant: int,
    snowReading: Option<SnowEvidence>, probe: ProbeOutcome, commits: bool, readBack: Reaction
  )

  function Around(world: World, declared: seq<Definition>, stored: Option<LocationProfile>, rulesVersion: nat): Circumstances {
    var snow := GatherSnow(if stored.Some? then stored.value.snow else None,
      DeclaresRule(declared, "snowSeason"), world.today, world.snowReading);
    Circumstances(world.today, DeclaresRule(declared, "marineCoverage"), ConfirmationsRequired(declared),
      snow.evidence, snow.changed, rulesVersion, world.instant)
  }

  /**
   * What a request gathers follows the rules that are declared: the coast is
   * probed for a marine rule, to the strictest count; a season is read for a
   * snow rule, when none is known or a guess of another day is; and what no
   * rule asks for is dropped.
   */
  lemma {:induction false} GatheringFollowsTheRules(
    world: World, declared: seq<Definition>, stored: Option<LocationProfile>, rulesVersion: nat
  )
    ensures var around, known := Around(world, declared, stored, rulesVersion), SnowOf(stored);
      var coast := exists d, rule :: d in declared && rule in d.applicability && rule.rule == "marineCoverage";
      var season := exists d, rule :: d in declared && rule in d.applicability && rule.rule == "snowSeason";
      && around.marineDeclared == coast && around.confirmations == ConfirmationsRequired(declared)
      && around.today == world.today && around.computedAt == world.instant && around.rulesVersion == rulesVersion
      && if !season then around.snow.None? && (around.snowChanged <==> known.Some?)
         else if known.Some? && (known.value.Archive? || known.value.attemptedOn == world.today) then
           around.snow == known && !around.snowChanged
         else around.snow == world.snowReading && (around.snowChanged <==> known.Some? || world.snowReading.Some?)
  {
    DeclaredIsNamed(declared, "marineCoverage");
    DeclaredIsNamed(declared, "snowSeason");
  }

  lemma {:induction false} DeclaredIsNamed(declared: seq<Definition>, name: string)
    ensures DeclaresRule(declared, name) <==> exists d, rule :: d in declared && rule in d.applicability && rule.rule == name
  {
    if exists d, rule :: d in declared && rule in d.applicability && rule.rule == name {
      var d, rule :| d in declared && rule in d.applicability && rule.rule == name;
      var i :| 0 <= i < |declared| && declared[i] == d;
      var j :| 0 <= j < |d.applicability| && d.applicability[j] == rule;
      assert declared[i].applicability[j].rule == name;
    }
    if DeclaresRule(declared, name) {
      var i, j :| 0 <= i < |declared| && 0 <= j < |declared[i].applicability| && declared[i].applicability[j].rule == name;
      assert declared[i] in declared && declared[i].applicability[j] in declared[i].applicability;
    }
  }

  /** What a request finds, unless it is refused. */
  ghost function FoundBy(system: System, i: nat, world: World): Option<LocationProfile> {
    if world.found.Answers? then ReadPlace(system.place) else At(system, i).mirror
  }

  /** The events of one request nothing else interleaves with: refused, given up because the place is not saved, or whole. */
  function EventsOf(i: nat, world: World, stored: Option<LocationProfile>, around: Circumstances): seq<Event> {
    if world.found.Refuses? then [Find(i, world.found)]
    else if stored.None? && !world.placeSaved then [Find(i, world.found), Abandon(i)]
    else [Find(i, world.found), Gather(i, around, world.probe), Save(i, world.commits, world.readBack)]
  }

  ghost function Follow(system: System, events: seq<Event>): System
    decreases |events|
  {
    if events == [] then system else Follow(Next(system, events[0]), events[1..])
  }

  /** Whether the stored profile is answered as it is. */
  predicate Current(stored: Option<LocationProfile>, around: Circumstances) {
    stored.Some? && stored.value.rulesVersion == around.rulesVersion && !Changed(MarineOf(stored), around)
  }

  function NewProfile(stored: Option<LocationProfile>, around: Circumstances, probe: ProbeOutcome): LocationProfile {
    LocationProfile(around.rulesVersion,
      if !Changed(MarineOf(stored), around) && stored.Some? then stored.value.computedAt else around.computedAt,
      around.snow, Gathered(MarineOf(stored), around, probe))
  }

  /** What a request answers, given what it found. */
  function Answer(stored: Option<LocationProfile>, world: World, around: Circumstances): Result<LocationProfile, ReasonCode> {
    if stored.None? && !world.placeSaved then Err(ProfileUnavailable)
    else if Current(stored, around) then Ok(stored.value)
    else if world.commits then Ok(NewProfile(stored, around, world.probe))
    else if stored.Some? then Ok(stored.value)
    else Err(ProfileUnavailable)
  }

  class LocationProfileService {
    const store: DbProfileStore
    const declared: seq<Definition>
    const rulesVersion: nat

    constructor (store: DbProfileStore, declared: seq<Definition>, rulesVersion: nat)
      ensures this.store == store && this.declared == declared && this.rulesVersion == rulesVersion
    {
      this.store := store;
      this.declared := declared;
      this.rulesVersion := rulesVersion;
    }

    /**
     * A refused find answers nothing. Otherwise the answer follows from what
     * was found, and the database changes exactly when a new profile commits.
     */
    method Compute(id: string, world: World) returns (r: Result<LocationProfile, ReasonCode>)
      modifies store`mirror, store.db
      ensures world.found.Refuses? ==> r == Err(ProfileUnavailable)
      ensures !world.found.Refuses? ==>
        var stored := if world.found.Answers? then ReadPlace(old(store.db.At(id))) else old(store.Mirrored(id));
        var around := Around(world, declared, stored, rulesVersion);
        && r == Answer(stored, world, around)
        && store.db.places ==
             (if r.Ok? && !Current(stored, around) && world.commits then
                old(store.db.places)[id := SavePlace(old(store.db.At(id)), NewProfile(stored, around, world.probe))]
              else old(store.db.places))
    {
      var found := store.Find(id, world.found);
      if found.Err? {
        return Err(ProfileUnavailable);
      }
      var stored := found.value;
      if stored.None? && !world.placeSaved {
        return Err(ProfileUnavailable);
      }
      var around := Around(world, declared, stored, rulesVersion);
      if Current(stored, around) {
        return Ok(stored.value);
      }
      var profile := NewProfile(stored, around, world.probe);
      var saved := store.Save(id, profile, world.commits, world.readBack);
      r := if saved then Ok(profile) else if stored.Some? then Ok(stored.value) else Err(ProfileUnavailable);
    }
  }

  lemma {:induction false} FollowOn(system: System, event: Event, more: seq<Event>)
    ensures Follow(system, [event] + more) == Follow(Next(system, event), more)
  {
    assert ([event] + more)[1..] == more;
  }

  lemma {:induction false} FollowOne(system: System, a: Event)
    ensures Follow(system, [a]) == Next(system, a)
  {
    FollowOn(system, a, []);
    assert [a] + [] == [a];
  }

  lemma {:induction false} FollowTwo(system: System, a: Event, b: Event)
    ensures Follow(system, [a, b]) == Next(Next(system, a), b)
  {
    FollowOn(system, a, [b]);
    FollowOne(Next(system, a), b);
    assert [a] + [b] == [a, b];
  }

  lemma {:induction false} FollowThree(system: System, a: Event, b: Event, c: Event)
    ensures Follow(system, [a, b, c]) == Next(Next(Next(system, a), b), c)
  {
    FollowOn(system, a, [b, c]);
    FollowTwo(Next(system, a), b, c);
    assert [a] + [b, c] == [a, b, c];
  }

  /** What a request answers, a refused find included. */
  function AnswerOf(stored: Option<LocationProfile>, world: World, around: Circumstances): Result<LocationProfile, ReasonCode> {
    if world.found.Refuses? then Err(ProfileUnavailable) else Answer(stored, world, around)
  }

  /** Whether a request has to look for anything: a season not read, or a coast still to be probed, or what no rule asks for any more. */
  predicate LooksFor(stored: Option<LocationProfile>, around: Circumstances) {
    || around.snowChanged || (!around.marineDeclared && MarineOf(stored).Some?)
    || (around.marineDeclared && NeedsProbe(MarineOf(stored), around.today, around.confirmations))
  }

  /**
   * A place that is known is always answered, short of a refused find, and one
   * that is new exactly when both it and its profile could be stored. What is
   * answered is the stored profile, unless a newer one was stored in its place;
   * and that one is of this moment exactly when something had to be looked for.
   */
  lemma {:induction false} AnswersAreExact(stored: Option<LocationProfile>, world: World, around: Circumstances)
    ensures var answer := AnswerOf(stored, world, around);
      && (answer.Ok? <==> !world.found.Refuses? && (stored.Some? || (world.placeSaved && world.commits)))
      && (answer.Err? ==> answer.error == ProfileUnavailable)
      && var current := stored.Some? && stored.value.rulesVersion == around.rulesVersion && !LooksFor(stored, around);
         (answer.Ok? ==>
           if current || !world.commits then stored.Some? && answer.value == stored.value
           else
             && answer.value.rulesVersion == around.rulesVersion && answer.value.snow == around.snow
             && answer.value.computedAt ==
                  (if stored.Some? && !LooksFor(stored, around) then stored.value.computedAt else around.computedAt)
             && (around.marineDeclared ==>
                   if NeedsProbe(MarineOf(stored), around.today, around.confirmations) then
                     answer.value.marine == Some(RecordProbe(MarineOf(stored), world.probe, around.today))
                   else answer.value.marine == MarineOf(stored))
             && (!around.marineDeclared ==> answer.value.marine.None?))
  {
  }

  /** The effect of one request on the answers given, on the table, and on nobody else. */
  ghost predicate Requested(system: System, end: System, i: nat, world: World, around: Circumstances) {
    var stored := FoundBy(system, i, world);
    var answer := AnswerOf(stored, world, around);
    && end.answers == system.answers + (if answer.Ok? then [answer.value] else [])
    && end.place == (if answer.Ok? && !Current(stored, around) && world.commits
                     then SavePlace(system.place, NewProfile(stored, around, world.probe)) else system.place)
    && At(end, i).phase.Idle?
    && forall j :: j != i ==> At(end, j) == At(system, j)
  }

  lemma {:induction false} WholeRequest(system: System, i: nat, world: World, around: Circumstances)
    requires At(system, i).phase.Idle? && !world.found.Refuses?
    requires FoundBy(system, i, world).None? ==> world.placeSaved
    ensures var found := Next(system, Find(i, world.found));
      var gathered := Next(found, Gather(i, around, world.probe));
      Requested(system, Next(gathered, Save(i, world.commits, world.readBack)), i, world, around)
  {
    var stored := FoundBy(system, i, world);
    var found := Next(system, Find(i, world.found));
    assert At(found, i).phase == Found(stored);
    var gathered := Next(found, Gather(i, around, world.probe));
    if !Current(stored, around) {
      assert At(gathered, i).phase == Saving(stored, NewProfile(stored, around, world.probe));
    }
  }

  lemma {:induction false} AbandonedRequest(system: System, i: nat, world: World, around: Circumstances)
    requires At(system, i).phase.Idle? && !world.found.Refuses?
    requires FoundBy(system, i, world).None? && !world.placeSaved
    ensures Requested(system, Next(Next(system, Find(i, world.found)), Abandon(i)), i, world, around)
  {
    var found := Next(system, Find(i, world.found));
    assert At(found, i).phase == Found(None);
  }

  lemma {:induction false} RefusedRequest(system: System, i: nat, world: World, around: Circumstances)
    requires At(system, i).phase.Idle? && world.found.Refuses?
    ensures Requested(system, Next(system, Find(i, world.found)), i, world, around)
  {
  }

  /**
   * Every request is a run of the protocol, one that is refused or cannot save
   * its place included: its events give its answer and no other, change the
   * table as it does, and leave its instance free for the next.
   */
  lemma {:induction false} RequestIsAProtocolRun(system: System, i: nat, world: World, around: Circumstances)
    requires At(system, i).phase.Idle?
    ensures Requested(system, Follow(system, EventsOf(i, world, FoundBy(system, i, world), around)), i, world, around)
  {
    var stored := FoundBy(system, i, world);
    if world.found.Refuses? {
      FollowOne(system, Find(i, world.found));
      RefusedRequest(system, i, world, around);
    } else if stored.None? && !world.placeSaved {
      FollowTwo(system, Find(i, world.found), Abandon(i));
      AbandonedRequest(system, i, world, around);
    } else {
      FollowThree(system, Find(i, world.found), Gather(i, around, world.probe), Save(i, world.commits, world.readBack));
      WholeRequest(system, i, world, around);
    }
  }
}
