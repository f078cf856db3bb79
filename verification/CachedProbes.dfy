/**
 * The marine probe as it is wired: it asks through the cache in front of the
 * source, so what it is told on one day the source may have said on the day
 * before. The protocol of the probe and the machine of the cache run here
 * together, one cache to each instance.
 */
module CachedProbes {
  import opened Prelude
  import opened Metrics
  import opened Series
  import opened LocationProfiles
  import opened CacheKeys
  import C = CacheMachine
  import P = ProbeProtocol
  import R = ProbeRuns
  import S = ProfileStore

  const DAY_MS := 86_400_000

  /** The UTC date of an instant. */
  function DayOf(instant: int): Day {
    if instant < 0 then 0 else instant / DAY_MS
  }

  /** The place that is probed, and the cache it is probed through. */
  datatype Setting = Setting(cache: C.Config, location: Coordinates, timezone: string)

  /** One variable over one day. */
  function ProbeRequest(setting: Setting): SeriesRequest {
    SeriesRequest(Marine, setting.location, [WaveHeight], Rolling(1, None), setting.timezone)
  }

  /** A channel without the metric, or with nothing in any of its slots. */
  predicate SaysNothing(channel: Channel) {
    WaveHeight in channel.values ==>
      forall i :: 0 <= i < |channel.values[WaveHeight]| ==> channel.values[WaveHeight][i].None?
  }

  /** A metric left out altogether is no answer; one that is there and empty everywhere is an all-null one. */
  function Reading(series: WeatherSeries): ProbeOutcome {
    if WaveHeight !in series.hourly.values && WaveHeight !in series.daily.values then Failed
    else if SaysNothing(series.hourly) && SaysNothing(series.daily) then AllNull
    else Covered
  }

  predicate WavesAt(channel: Channel) {
    exists i: nat :: i < |ValuesIn(channel)| && SlotAt(channel, WaveHeight, i).Some?
  }

  function ValuesIn(channel: Channel): seq<Slot> {
    if WaveHeight in channel.values then channel.values[WaveHeight] else []
  }

  /**
   * A probe is covered by a single wave on either channel, and failed where
   * neither carries waves at all; all null is what is left.
   */
  lemma {:induction false} ProbeReadsTheWaves(series: WeatherSeries)
    ensures Reading(series).Covered? <==> WavesAt(series.hourly) || WavesAt(series.daily)
    ensures Reading(series).Failed? <==>
      WaveHeight !in series.hourly.values.Keys + series.daily.values.Keys
  {
    forall channel: Channel ensures SaysNothing(channel) <==> !WavesAt(channel) {
      if WavesAt(channel) {
        var i: nat :| i < |ValuesIn(channel)| && SlotAt(channel, WaveHeight, i).Some?;
      }
      if !SaysNothing(channel) {
        var i :| 0 <= i < |channel.values[WaveHeight]| && channel.values[WaveHeight][i].Some?;
        assert SlotAt(channel, WaveHeight, i).Some?;
      }
    }
  }

  function Outcome(result: C.SeriesResult): ProbeOutcome {
    if result.Ok? then Reading(result.value) else Failed
  }

  /** What an ask meets at the moment it is decided: a response the source has given already, or none as yet. */
  datatype Met = Pending | NoResponse | Response(at: int)

  /** A probe under way: when the day was read off the clock, which ask it is, and what that ask met. */
  datatype Probing = Probing(instant: int, ask: Option<nat>, met: Met)

  datatype Node = Node(port: C.System, probing: Option<Probing>)

  /** A probe made: by which instance, for which day, what it met when it asked, and what it was told. */
  datatype Probed = Probed(i: nat, day: Day, answer: C.Answer, met: Met)

  datatype World = World(places: P.System, nodes: map<nat, Node>, probed: seq<Probed>)

  const BEGINNING := World(P.START, map[], [])

  function NodeAt(world: World, i: nat): Node {
    if i in world.nodes then world.nodes[i] else Node(C.EMPTY, None)
  }

  datatype Event =
    | Port(i: nat, event: C.Event)
    | Stored(step: P.Event)
    | ReadClock(i: nat)
    | Ask(i: nat, ask: nat, cacheAnswers: bool)
    | Conclude(i: nat, k: nat, around: P.Circumstances)

  /** A process that starts anew has an empty cache and no calls out; what was said before stays said. */
  function Restarted(port: C.System): C.System {
    C.EMPTY.(now := port.now, log := port.log, answers := port.answers,
      asks := map id | id in port.asks :: port.asks[id].(phase := C.Served))
  }

  /**
   * What an ask is about to be given: what is stored, while that can be served;
   * otherwise what the call in flight has brought back, if it is back.
   */
  function MetBy(port: C.System, ask: nat, config: C.Config): Met
    requires ask in port.asks && port.asks[ask].phase.Looking?
  {
    var request, found := port.asks[ask].request, port.asks[ask].phase.found;
    if C.Live(found, port.now).Some? then Response(found.value.storedAt)
    else
      var key := C.KeyFor(request, config);
      if key in port.running && port.running[key] in port.calls then Brought(port.calls[port.running[key]].phase)
      else NoResponse
  }

  function Brought(phase: C.CallPhase): Met {
    match phase
    case Outbound => NoResponse
    case Storing(_, at) => Response(at)
    case Settling(_, at) => Response(at)
    case Settled(_, at) => Response(at)
  }

  /** An event that decides an ask. */
  predicate Decides(port: C.System, event: C.Event, ask: nat) {
    event.Decide? && event.ask == ask && ask in port.asks && port.asks[ask].phase.Looking? && event.unused !in port.calls
  }

  /** The moment the ask of a probe is decided, what it meets is noted. */
  function Meeting(node: Node, event: C.Event, config: C.Config): Option<Probing> {
    if node.probing.None? then None
    else
      var probing := node.probing.value;
      if probing.ask.Some? && Decides(node.port, event, probing.ask.value)
      then Some(probing.(met := MetBy(node.port, probing.ask.value, config)))
      else Some(probing)
  }

  function PortNext(node: Node, event: C.Event, setting: Setting): Node
    requires setting.cache.Valid()
  {
    Node(C.Next(node.port, event, setting.cache), Meeting(node, event, setting.cache))
  }

  ghost function Next(world: World, event: Event, setting: Setting): World
    requires setting.cache.Valid()
  {
    match event
    case Port(i, step) => world.(nodes := world.nodes[i := PortNext(NodeAt(world, i), step, setting)])
    case Stored(step) =>
      if step.Gather? || (step.Abandon? && NodeAt(world, step.i).probing.Some?) then world
      else if step.Restart? then
        world.(places := P.Next(world.places, step),
          nodes := world.nodes[step.i := Node(Restarted(NodeAt(world, step.i).port), None)])
      else world.(places := P.Next(world.places, step))
    case ReadClock(i) =>
      var node := NodeAt(world, i);
      if node.probing.Some? || !P.At(world.places, i).phase.Found? then world
      else world.(nodes := world.nodes[i := node.(probing := Some(Probing(node.port.now, None, Pending)))])
    case Ask(i, ask, cacheAnswers) =>
      var node := NodeAt(world, i);
      if node.probing.None? || node.probing.value.ask.Some? || ask in node.port.asks then world
      else
        var port := C.Next(node.port, C.Lookup(ask, ProbeRequest(setting), cacheAnswers), setting.cache);
        world.(nodes := world.nodes[i := Node(port, Some(node.probing.value.(ask := Some(ask))))])
    case Conclude(i, k, around) => ConcludeNext(world, i, k, around)
  }

  /** A request that found it needs no probe goes on without; one that probes waits for its answer. */
  ghost function ConcludeNext(world: World, i: nat, k: nat, around: P.Circumstances): World {
    var node, instance := NodeAt(world, i), P.At(world.places, i);
    if node.probing.None? || !instance.phase.Found? || around.today != DayOf(node.probing.value.instant) then world
    else
      var probing := node.probing.value;
      var idle := world.nodes[i := node.(probing := None)];
      if !P.Probes(P.MarineOf(instance.phase.stored), around) then
        world.(places := P.Next(world.places, P.Gather(i, around, Failed)), nodes := idle)
      else if k < |node.port.answers| && probing.ask == Some(node.port.answers[k].ask) then
        var answer := node.port.answers[k];
        World(P.Next(world.places, P.Gather(i, around, Outcome(answer.Result()))), idle,
          world.probed + [Probed(i, around.today, answer, probing.met)])
      else world
  }

  ghost function Run(world: World, events: seq<Event>, setting: Setting): World
    requires setting.cache.Valid()
    decreases |events|
  {
    if events == [] then world else Run(Next(world, events[0], setting), events[1..], setting)
  }

  ghost function After(events: seq<Event>, setting: Setting): World
    requires setting.cache.Valid()
  {
    Run(BEGINNING, events, setting)
  }

  // ---- The invariant ----

  /** Only an ask that was served has an answer. */
  ghost predicate AnswersServed(port: C.System) {
    forall k :: 0 <= k < |port.answers| ==> port.answers[k].ask in port.asks && port.asks[port.answers[k].ask].phase.Served?
  }

  /** When the source can have said what an ask is given, after what the ask met at some moment. */
  predicate Allows(met: Met, at: int, moment: int) {
    match met
    case Pending => false
    case NoResponse => at >= moment
    case Response(given) => at == given
  }

  ghost predicate CallAllowed(phase: C.CallPhase, met: Met, moment: int) {
    match phase
    case Outbound => met.NoResponse?
    case Storing(_, at) => Allows(met, at, moment)
    case Settling(_, at) => Allows(met, at, moment)
    case Settled(_, at) => Allows(met, at, moment)
  }

  /** What an ask met is what it is given, or will be. */
  ghost predicate MetSound(port: C.System, ask: nat, met: Met, moment: int) {
    ask in port.asks &&
    match port.asks[ask].phase
    case Looking(_) => met.Pending?
    case Waiting(call) => call in port.calls && CallAllowed(port.calls[call].phase, met, moment)
    case Served => forall k :: 0 <= k < |port.answers| && port.answers[k].ask == ask ==> Allows(met, port.answers[k].obtainedAt, moment)
  }

  ghost predicate ProbingSound(probing: Probing, port: C.System) {
    && 0 <= probing.instant <= port.now
    && (probing.ask.None? ==> probing.met.Pending?)
    && (probing.ask.Some? ==>
          && MetSound(port, probing.ask.value, probing.met, probing.instant)
          && forall k :: 0 <= k < |port.answers| && port.answers[k].ask == probing.ask.value ==>
               port.answers[k].at >= probing.instant)
  }

  ghost predicate NodeSound(node: Node, setting: Setting)
    requires setting.cache.Valid()
  {
    && C.Invariant(node.port, setting.cache) && AnswersServed(node.port) && node.port.now >= 0
    && (node.probing.Some? ==> ProbingSound(node.probing.value, node.port))
  }

  /** The response behind a probe: what the source said, when, and that the probe was told just that. */
  ghost predicate Behind(probed: Probed, entry: C.Logged, setting: Setting)
    requires setting.cache.Valid()
  {
    && entry.key == C.KeyFor(probed.answer.request, setting.cache)
    && entry.at == probed.answer.obtainedAt <= probed.answer.at
    && (probed.answer.FromCache? ==> probed.answer.at - entry.at < setting.cache.lifetime.maxStaleSeconds * 1000)
    && probed.answer.Result() ==
         Ok(C.AnswerFor(entry.series, probed.answer.request, probed.answer.FromCache? && probed.answer.stale))
  }

  ghost predicate Told(probed: Probed, log: set<C.Logged>, setting: Setting)
    requires setting.cache.Valid()
  {
    && (probed.answer.Result().Ok? ==> exists entry :: entry in log && Behind(probed, entry, setting))
    && probed.answer.at >= probed.day * DAY_MS
    && Allows(probed.met, probed.answer.obtainedAt, probed.day * DAY_MS)
  }

  ghost predicate Sound(world: World, setting: Setting)
    requires setting.cache.Valid()
  {
    && P.Invariant(world.places)
    && (forall i :: i in world.nodes ==> NodeSound(world.nodes[i], setting))
    && (forall n :: 0 <= n < |world.probed| ==>
          Told(world.probed[n], NodeAt(world, world.probed[n].i).port.log, setting))
    && (forall d, o :: (d, o) in world.places.history ==> ProbedAs(world.probed, d, o))
  }

  /** Some probe was made on the day and read that way. */
  ghost predicate ProbedAs(probed: seq<Probed>, day: Day, outcome: ProbeOutcome) {
    exists n :: 0 <= n < |probed| && probed[n].day == day && Outcome(probed[n].answer.Result()) == outcome
  }

  // ---- The cache keeps its part ----

  lemma {:induction false} AnswersStayServed(port: C.System, after: C.System)
    requires C.Follows(port, after) && AnswersServed(port)
    ensures AnswersServed(after)
  {
  }

  /** Once an ask is decided, what it met stays what it is given. */
  lemma {:induction false} MetStaysSound(port: C.System, after: C.System, ask: nat, met: Met, moment: int)
    requires C.Follows(port, after) && AnswersServed(port) && MetSound(port, ask, met, moment) && port.now >= moment
    requires !port.asks[ask].phase.Looking?
    ensures MetSound(after, ask, met, moment)
  {
  }

  /** An ask goes on looking until it is decided. */
  lemma {:induction false} LookingStays(port: C.System, event: C.Event, ask: nat, config: C.Config)
    requires config.Valid() && ask in port.asks && port.asks[ask].phase.Looking? && !Decides(port, event, ask)
    ensures ask in C.Next(port, event, config).asks && C.Next(port, event, config).asks[ask] == port.asks[ask]
  {
  }

  /** What an ask meets is what the machine will give it. */
  lemma {:induction false} DecidingMeets(port: C.System, ask: nat, unused: nat, moment: int, config: C.Config)
    requires config.Valid() && C.Registered(port) && AnswersServed(port) && port.now >= moment
    requires Decides(port, C.Decide(ask, unused), ask)
    ensures MetSound(C.Next(port, C.Decide(ask, unused), config), ask, MetBy(port, ask, config), moment)
  {
    var found := port.asks[ask].phase.found;
    if C.Live(found, port.now).Some? {
      ServedAtOnce(port, ask, unused, config);
    } else {
      WaitsForItsCall(port, ask, unused, moment, config);
    }
  }

  lemma {:induction false} ServedAtOnce(port: C.System, ask: nat, unused: nat, config: C.Config)
    requires config.Valid() && AnswersServed(port) && Decides(port, C.Decide(ask, unused), ask)
    requires C.Live(port.asks[ask].phase.found, port.now).Some?
    ensures var after, met := C.Next(port, C.Decide(ask, unused), config), MetBy(port, ask, config);
      && ask in after.asks && after.asks[ask].phase.Served?
      && forall k :: 0 <= k < |after.answers| && after.answers[k].ask == ask ==> met == Response(after.answers[k].obtainedAt)
  {
  }

  lemma {:induction false} WaitsForItsCall(port: C.System, ask: nat, unused: nat, moment: int, config: C.Config)
    requires config.Valid() && C.Registered(port) && port.now >= moment && Decides(port, C.Decide(ask, unused), ask)
    requires C.Live(port.asks[ask].phase.found, port.now).None?
    ensures MetSound(C.Next(port, C.Decide(ask, unused), config), ask, MetBy(port, ask, config), moment)
  {
  }

  /** What is answered after an ask was made is answered at a later moment than the ask. */
  lemma {:induction false} AnswersComeLater(port: C.System, after: C.System, ask: nat, moment: int)
    requires C.Follows(port, after) && port.now >= moment
    requires forall k :: 0 <= k < |port.answers| && port.answers[k].ask == ask ==> port.answers[k].at >= moment
    ensures forall k :: 0 <= k < |after.answers| && after.answers[k].ask == ask ==> after.answers[k].at >= moment
  {
  }

  /** A probe under way stays sound while its cache goes on. */
  lemma {:induction false} ProbingStaysSound(node: Node, event: C.Event, after: C.System, setting: Setting)
    requires setting.cache.Valid() && NodeSound(node, setting) && node.probing.Some?
    requires after == C.Next(node.port, event, setting.cache) && C.Follows(node.port, after)
    ensures ProbingSound(Meeting(node, event, setting.cache).value, after)
  {
    var port, probing := node.port, node.probing.value;
    if probing.ask.Some? {
      var ask := probing.ask.value;
      AnswersComeLater(port, after, ask, probing.instant);
      if Decides(port, event, ask) {
        DecidingMeets(port, ask, event.unused, probing.instant, setting.cache);
      } else if port.asks[ask].phase.Looking? {
        LookingStays(port, event, ask, setting.cache);
      } else {
        MetStaysSound(port, after, ask, probing.met, probing.instant);
      }
    }
  }

  lemma {:induction false} PortKeepsNode(node: Node, event: C.Event, setting: Setting)
    requires setting.cache.Valid() && NodeSound(node, setting)
    ensures NodeSound(PortNext(node, event, setting), setting)
    ensures node.port.log <= PortNext(node, event, setting).port.log
  {
    var after := C.Next(node.port, event, setting.cache);
    C.NextKeeps(node.port, event, setting.cache);
    C.NextFollows(node.port, event, setting.cache);
    AnswersStayServed(node.port, after);
    if node.probing.Some? {
      ProbingStaysSound(node, event, after, setting);
    }
  }

  lemma {:induction false} AskKeepsNode(node: Node, ask: nat, cacheAnswers: bool, setting: Setting)
    requires setting.cache.Valid() && NodeSound(node, setting)
    requires node.probing.Some? && node.probing.value.ask.None? && ask !in node.port.asks
    ensures var port := C.Next(node.port, C.Lookup(ask, ProbeRequest(setting), cacheAnswers), setting.cache);
      NodeSound(Node(port, Some(node.probing.value.(ask := Some(ask)))), setting) && node.port.log <= port.log
  {
    var event := C.Lookup(ask, ProbeRequest(setting), cacheAnswers);
    C.NextKeeps(node.port, event, setting.cache);
    C.NextFollows(node.port, event, setting.cache);
    var port := C.Next(node.port, event, setting.cache);
    AnswersStayServed(node.port, port);
    NoAnswerYet(node.port, ask);
    assert port.answers == node.port.answers && ask in port.asks;
  }

  lemma {:induction false} NoAnswerYet(port: C.System, ask: nat)
    requires AnswersServed(port) && ask !in port.asks
    ensures forall k :: 0 <= k < |port.answers| ==> port.answers[k].ask != ask
  {
  }

  lemma {:induction false} RestartKeepsNode(node: Node, setting: Setting)
    requires setting.cache.Valid() && NodeSound(node, setting)
    ensures NodeSound(Node(Restarted(node.port), None), setting)
  {
    var port := Restarted(node.port);
    forall k | 0 <= k < |port.answers| ensures C.AnswerSound(port.answers[k], port.log, setting.cache) {
      assert C.AnswerSound(node.port.answers[k], node.port.log, setting.cache);
    }
  }

  // ---- The world keeps the invariant ----

  lemma {:induction false} ToldStays(probed: Probed, log: set<C.Logged>, more: set<C.Logged>, setting: Setting)
    requires setting.cache.Valid() && Told(probed, log, setting) && log <= more
    ensures Told(probed, more, setting)
  {
    if probed.answer.Result().Ok? {
      var entry :| entry in log && Behind(probed, entry, setting);
      assert entry in more;
    }
  }

  /** A step that touches one node, and makes no probe. */
  lemma {:induction false} NodeStepKeeps(world: World, i: nat, node: Node, setting: Setting)
    requires setting.cache.Valid() && Sound(world, setting) && NodeSound(node, setting)
    requires NodeAt(world, i).port.log <= node.port.log
    ensures Sound(world.(nodes := world.nodes[i := node]), setting)
  {
    var next := world.(nodes := world.nodes[i := node]);
    forall n | 0 <= n < |next.probed|
      ensures Told(next.probed[n], NodeAt(next, next.probed[n].i).port.log, setting)
    {
      var j := world.probed[n].i;
      ToldStays(world.probed[n], NodeAt(world, j).port.log, NodeAt(next, j).port.log, setting);
    }
  }

  lemma {:induction false} NodeAtSound(world: World, i: nat, setting: Setting)
    requires setting.cache.Valid() && Sound(world, setting)
    ensures NodeSound(NodeAt(world, i), setting)
  {
  }

  lemma {:induction false} PlacesKeep(world: World, step: P.Event, setting: Setting)
    requires setting.cache.Valid() && Sound(world, setting) && !step.Gather?
    ensures Sound(world.(places := P.Next(world.places, step)), setting)
  {
    P.NextKeeps(world.places, step);
    assert P.Next(world.places, step).history == world.places.history;
  }

  lemma {:induction false} StoredKeeps(world: World, step: P.Event, setting: Setting)
    requires setting.cache.Valid() && Sound(world, setting)
    ensures Sound(Next(world, Stored(step), setting), setting)
  {
    if !step.Gather? {
      PlacesKeep(world, step, setting);
      var next := world.(places := P.Next(world.places, step));
      if step.Restart? {
        NodeAtSound(world, step.i, setting);
        RestartKeepsNode(NodeAt(world, step.i), setting);
        NodeStepKeeps(next, step.i, Node(Restarted(NodeAt(world, step.i).port), None), setting);
      }
    }
  }

  /** What an answer to the ask of a probe rests on. */
  lemma {:induction false} AnswerIsTold(node: Node, i: nat, k: nat, setting: Setting)
    requires setting.cache.Valid() && NodeSound(node, setting) && node.probing.Some? && k < |node.port.answers|
    requires node.probing.value.ask == Some(node.port.answers[k].ask)
    ensures var probing := node.probing.value;
      Told(Probed(i, DayOf(probing.instant), node.port.answers[k], probing.met), node.port.log, setting)
  {
    var probing, answer := node.probing.value, node.port.answers[k];
    var probed := Probed(i, DayOf(probing.instant), answer, probing.met);
    assert C.AnswerSound(answer, node.port.log, setting.cache);
    if answer.FromCache? {
      var entry :| entry in node.port.log && C.CachedFrom(answer, entry, setting.cache);
      assert Behind(probed, entry, setting);
    } else if answer.result.Ok? {
      var entry :| entry in node.port.log && C.CalledFrom(answer, entry, setting.cache);
      assert Behind(probed, entry, setting);
    }
    StartOfDay(probing.instant);
  }

  lemma {:induction false} StartOfDay(instant: int)
    requires instant >= 0
    ensures DayOf(instant) * DAY_MS <= instant < (DayOf(instant) + 1) * DAY_MS
  {
  }

  lemma {:induction false} ProbedAsStays(probed: seq<Probed>, more: Probed, day: Day, outcome: ProbeOutcome)
    requires ProbedAs(probed, day, outcome) || (more.day == day && Outcome(more.answer.Result()) == outcome)
    ensures ProbedAs(probed + [more], day, outcome)
  {
    var longer := probed + [more];
    if ProbedAs(probed, day, outcome) {
      var n :| 0 <= n < |probed| && probed[n].day == day && Outcome(probed[n].answer.Result()) == outcome;
      assert longer[n] == probed[n];
    } else {
      assert longer[|probed|] == more;
    }
  }

  lemma {:induction false} ConcludeKeeps(world: World, i: nat, k: nat, around: P.Circumstances, setting: Setting)
    requires setting.cache.Valid() && Sound(world, setting)
    ensures Sound(ConcludeNext(world, i, k, around), setting)
  {
    var node, instance := NodeAt(world, i), P.At(world.places, i);
    NodeAtSound(world, i, setting);
    var next := ConcludeNext(world, i, k, around);
    if next != world {
      var idle := world.(nodes := world.nodes[i := node.(probing := None)]);
      NodeStepKeeps(world, i, node.(probing := None), setting);
      if !P.Probes(P.MarineOf(instance.phase.stored), around) {
        P.NextKeeps(world.places, P.Gather(i, around, Failed));
        assert next == idle.(places := P.Next(world.places, P.Gather(i, around, Failed)));
      } else {
        ProbeKeeps(world, idle, i, k, around, setting);
      }
    }
  }

  lemma {:induction false} ProbeKeeps(world: World, idle: World, i: nat, k: nat, around: P.Circumstances, setting: Setting)
    requires setting.cache.Valid() && Sound(world, setting) && Sound(idle, setting)
    requires var node := NodeAt(world, i);
      && idle == world.(nodes := world.nodes[i := node.(probing := None)])
      && NodeSound(node, setting) && node.probing.Some? && k < |node.port.answers|
      && node.probing.value.ask == Some(node.port.answers[k].ask)
      && around.today == DayOf(node.probing.value.instant)
    requires P.At(world.places, i).phase.Found?
    requires P.Probes(P.MarineOf(P.At(world.places, i).phase.stored), around)
    ensures Sound(ConcludeNext(world, i, k, around), setting)
  {
    var node := NodeAt(world, i);
    var answer := node.port.answers[k];
    var outcome := Outcome(answer.Result());
    var made := Probed(i, around.today, answer, node.probing.value.met);
    var next := ConcludeNext(world, i, k, around);
    P.NextKeeps(world.places, P.Gather(i, around, outcome));
    AnswerIsTold(node, i, k, setting);
    assert next.places.history == world.places.history + {(around.today, outcome)};
    forall d, o | (d, o) in next.places.history ensures ProbedAs(next.probed, d, o) {
      ProbedAsStays(world.probed, made, d, o);
    }
    forall n | 0 <= n < |next.probed|
      ensures Told(next.probed[n], NodeAt(next, next.probed[n].i).port.log, setting)
    {
      if n < |world.probed| {
        assert Told(idle.probed[n], NodeAt(idle, idle.probed[n].i).port.log, setting);
      }
    }
  }

  lemma {:induction false} NextKeeps(world: World, event: Event, setting: Setting)
    requires setting.cache.Valid() && Sound(world, setting)
    ensures Sound(Next(world, event, setting), setting)
  {
    match event
    case Port(i, step) =>
      NodeAtSound(world, i, setting);
      PortKeepsNode(NodeAt(world, i), step, setting);
      NodeStepKeeps(world, i, PortNext(NodeAt(world, i), step, setting), setting);
    case Stored(step) => StoredKeeps(world, step, setting);
    case ReadClock(i) =>
      NodeAtSound(world, i, setting);
      var node := NodeAt(world, i);
      NodeStepKeeps(world, i, node.(probing := Some(Probing(node.port.now, None, Pending))), setting);
    case Ask(i, ask, cacheAnswers) =>
      NodeAtSound(world, i, setting);
      var node := NodeAt(world, i);
      if node.probing.Some? && node.probing.value.ask.None? && ask !in node.port.asks {
        AskKeepsNode(node, ask, cacheAnswers, setting);
        var port := C.Next(node.port, C.Lookup(ask, ProbeRequest(setting), cacheAnswers), setting.cache);
        NodeStepKeeps(world, i, Node(port, Some(node.probing.value.(ask := Some(ask)))), setting);
      }
    case Conclude(i, k, around) => ConcludeKeeps(world, i, k, around, setting);
  }

  lemma {:induction false} RunKeeps(world: World, events: seq<Event>, setting: Setting)
    requires setting.cache.Valid() && Sound(world, setting)
    ensures Sound(Run(world, events, setting), setting)
    decreases |events|
  {
    if events != [] {
      NextKeeps(world, events[0], setting);
      RunKeeps(Next(world, events[0], setting), events[1..], setting);
    }
  }

  lemma {:induction false} AlwaysSound(events: seq<Event>, setting: Setting)
    requires setting.cache.Valid()
    ensures Sound(After(events, setting), setting)
  {
    RunKeeps(BEGINNING, events, setting);
  }

  // ---- What a recorded day rests on ----

  predicate AllNullProbe(probed: Probed) {
    Outcome(probed.answer.Result()).AllNull?
  }

  ghost function LogOf(world: World, i: nat): set<C.Logged> {
    NodeAt(world, i).port.log
  }

  /**
   * Whether a probe rests on its own day, as far as it can be told when the ask
   * is decided: a response met has to be of that day, and otherwise the one
   * that is awaited has to come before the day is over.
   */
  predicate Fresh(met: Met, obtainedAt: int, day: Day) {
    match met
    case Pending => false
    case NoResponse => obtainedAt < (day + 1) * DAY_MS
    case Response(at) => DayOf(at) == day
  }

  /** An answer is of the day exactly when the ask met a response of the day, or none and gets one in time. */
  lemma {:induction false} FreshIsExact(met: Met, obtainedAt: int, day: Day)
    requires Allows(met, obtainedAt, day * DAY_MS)
    ensures DayOf(obtainedAt) == day <==> Fresh(met, obtainedAt, day)
    ensures obtainedAt < day * DAY_MS <==> met.Response? && met.at < day * DAY_MS
  {
    if met.NoResponse? {
      DayOfExact(obtainedAt, day);
    }
  }

  lemma {:induction false} DayOfExact(instant: int, day: Day)
    requires instant >= 0
    ensures DayOf(instant) == day <==> day * DAY_MS <= instant < (day + 1) * DAY_MS
  {
  }

  function RunPort(port: C.System, steps: seq<C.Event>, config: C.Config): C.System
    requires config.Valid()
    decreases |steps|
  {
    if steps == [] then port else RunPort(C.Next(port, steps[0], config), steps[1..], config)
  }

  lemma {:induction false} MetThroughRun(
      port: C.System, ask: nat, met: Met, moment: int, steps: seq<C.Event>, config: C.Config)
    requires config.Valid() && AnswersServed(port) && port.now >= moment
    requires MetSound(port, ask, met, moment) && !port.asks[ask].phase.Looking?
    ensures MetSound(RunPort(port, steps, config), ask, met, moment) && AnswersServed(RunPort(port, steps, config))
    decreases |steps|
  {
    if steps != [] {
      var after := C.Next(port, steps[0], config);
      C.NextFollows(port, steps[0], config);
      AnswersStayServed(port, after);
      MetStaysSound(port, after, ask, met, moment);
      MetThroughRun(after, ask, met, moment, steps[1..], config);
    }
  }

  /**
   * Of any ask that is decided no sooner than its day began, in whatever way
   * the cache goes on: the day of the response it is given, and whether that is
   * one of before the day, follow from what it meets when it is decided.
   */
  lemma {:induction false} WhatIsMetDecides(
      port: C.System, ask: nat, unused: nat, steps: seq<C.Event>, k: nat, day: Day, config: C.Config)
    requires config.Valid() && C.Invariant(port, config) && AnswersServed(port) && port.now >= day * DAY_MS
    requires Decides(port, C.Decide(ask, unused), ask)
    requires var after := RunPort(C.Next(port, C.Decide(ask, unused), config), steps, config);
      k < |after.answers| && after.answers[k].ask == ask
    ensures var met := MetBy(port, ask, config);
      var obtainedAt := RunPort(C.Next(port, C.Decide(ask, unused), config), steps, config).answers[k].obtainedAt;
      && (DayOf(obtainedAt) == day <==>
            if met.Response? then DayOf(met.at) == day else obtainedAt < (day + 1) * DAY_MS)
      && (obtainedAt < day * DAY_MS <==> met.Response? && met.at < day * DAY_MS)
  {
    var met, decided := MetBy(port, ask, config), C.Next(port, C.Decide(ask, unused), config);
    DecidingMeets(port, ask, unused, day * DAY_MS, config);
    C.NextFollows(port, C.Decide(ask, unused), config);
    AnswersStayServed(port, decided);
    DecidedIsOver(port, ask, unused, config);
    MetThroughRun(decided, ask, met, day * DAY_MS, steps, config);
    FreshIsExact(met, RunPort(decided, steps, config).answers[k].obtainedAt, day);
  }

  lemma {:induction false} DecidedIsOver(port: C.System, ask: nat, unused: nat, config: C.Config)
    requires config.Valid() && Decides(port, C.Decide(ask, unused), ask)
    ensures var after := C.Next(port, C.Decide(ask, unused), config);
      ask in after.asks && !after.asks[ask].phase.Looking?
  {
  }

  /**
   * Every answered probe has a response the source gave behind it, and one of
   * the day it is recorded for exactly when its ask met a response of that day,
   * or met none and was given one before the day was over. It is one of before
   * the day exactly when the ask met such a response.
   */
  lemma {:induction false} OwnDayExactly(events: seq<Event>, n: nat, setting: Setting)
    requires setting.cache.Valid() && n < |After(events, setting).probed|
    requires After(events, setting).probed[n].answer.Result().Ok?
    ensures var world := After(events, setting);
      var probed := world.probed[n];
      && (exists entry :: entry in LogOf(world, probed.i) && Behind(probed, entry, setting))
      && ((exists entry :: entry in LogOf(world, probed.i) && Behind(probed, entry, setting) && DayOf(entry.at) == probed.day)
           <==> FreshProbe(probed))
      && ((exists entry :: entry in LogOf(world, probed.i) && Behind(probed, entry, setting) && entry.at < probed.day * DAY_MS)
           <==> probed.met.Response? && probed.met.at < probed.day * DAY_MS)
  {
    AlwaysSound(events, setting);
    var world := After(events, setting);
    var probed := world.probed[n];
    assert Told(probed, LogOf(world, probed.i), setting);
    var entry :| entry in LogOf(world, probed.i) && Behind(probed, entry, setting);
    FreshIsExact(probed.met, probed.answer.obtainedAt, probed.day);
  }

  predicate FreshProbe(probed: Probed) {
    Fresh(probed.met, probed.answer.obtainedAt, probed.day)
  }

  /**
   * Sure to be so: a probe that met no response, or was answered from the cache
   * no sooner after midnight than a record may be old, when the day was not
   * over by the time it was answered.
   */
  lemma {:induction false} LateEnoughIsFresh(events: seq<Event>, n: nat, setting: Setting)
    requires setting.cache.Valid() && n < |After(events, setting).probed|
    requires var probed := After(events, setting).probed[n];
      && probed.answer.Result().Ok? && probed.answer.at < (probed.day + 1) * DAY_MS
      && (probed.met.NoResponse? || (probed.answer.FromCache? &&
            probed.answer.at >= probed.day * DAY_MS + setting.cache.lifetime.maxStaleSeconds * 1000))
    ensures FreshProbe(After(events, setting).probed[n])
  {
    AlwaysSound(events, setting);
    var world := After(events, setting);
    var probed := world.probed[n];
    assert Told(probed, LogOf(world, probed.i), setting);
    var entry :| entry in LogOf(world, probed.i) && Behind(probed, entry, setting);
    if probed.met.Response? {
      DayOfExact(entry.at, probed.day);
    }
  }

  /** An all-null probe of the day rests on its own day, by what it met. */
  ghost predicate FreshOn(probed: seq<Probed>, day: Day) {
    exists n :: 0 <= n < |probed| && probed[n].day == day && AllNullProbe(probed[n]) && FreshProbe(probed[n])
  }

  /** The source said on a day what is recorded for it exactly when some all-null probe of the day is fresh. */
  lemma {:induction false} SourceSaidSoExactly(events: seq<Event>, day: Day, setting: Setting)
    requires setting.cache.Valid()
    ensures SourceSaidSo(After(events, setting), day, setting) <==> FreshOn(After(events, setting).probed, day)
  {
    var world := After(events, setting);
    if SourceSaidSo(world, day, setting) {
      var n :| 0 <= n < |world.probed| && SaidOn(world, n, day, setting);
      OwnDayExactly(events, n, setting);
    }
    if FreshOn(world.probed, day) {
      var n :| 0 <= n < |world.probed| && world.probed[n].day == day && AllNullProbe(world.probed[n]) && FreshProbe(world.probed[n]);
      OwnDayExactly(events, n, setting);
      assert SaidOn(world, n, day, setting);
    }
  }

  /** The recorded days on which the source itself said that there is nothing. */
  ghost function ConfirmedDays(world: World, setting: Setting): set<Day>
    requires setting.cache.Valid()
  {
    set d | d in P.AllNullDays(world.places.history) && SourceSaidSo(world, d, setting)
  }

  /** Of the days recorded as all-null the source confirmed all exactly when each has a fresh probe. */
  lemma {:induction false} AllConfirmedExactly(events: seq<Event>, setting: Setting)
    requires setting.cache.Valid()
    ensures var world := After(events, setting);
      (ConfirmedDays(world, setting) == P.AllNullDays(world.places.history))
      <==> (forall d :: d in P.AllNullDays(world.places.history) ==> FreshOn(world.probed, d))
  {
    var world := After(events, setting);
    forall d | d in P.AllNullDays(world.places.history)
      ensures d in ConfirmedDays(world, setting) <==> FreshOn(world.probed, d)
    {
      SourceSaidSoExactly(events, d, setting);
    }
  }

  /**
   * Where each day recorded as all-null has a fresh probe, a verdict of no
   * coastline rests on that many days on which the source said so.
   */
  lemma {:induction false} NoCoastlineIsConfirmed(events: seq<Event>, k: nat, confirmations: Option<int>, setting: Setting)
    requires setting.cache.Valid() && k < |After(events, setting).places.answers|
    requires MarineVerdict(After(events, setting).places.answers[k].marine, confirmations).Impossible?
    requires var world := After(events, setting);
      forall d :: d in P.AllNullDays(world.places.history) ==> FreshOn(world.probed, d)
    ensures |ConfirmedDays(After(events, setting), setting)| >=
      if confirmations.Some? then confirmations.value else DEFAULT_CONFIRMATIONS
  {
    AlwaysSound(events, setting);
    AllConfirmedExactly(events, setting);
    P.NoCoastlineNeedsDays(After(events, setting).places, k, confirmations);
  }

  ghost predicate SourceSaidSo(world: World, day: Day, setting: Setting)
    requires setting.cache.Valid()
  {
    exists n :: 0 <= n < |world.probed| && SaidOn(world, n, day, setting)
  }

  /** A probe of that day was told all-null, out of a response obtained that day. */
  ghost predicate SaidOn(world: World, n: nat, day: Day, setting: Setting)
    requires setting.cache.Valid() && n < |world.probed|
  {
    var probed := world.probed[n];
    && probed.day == day && AllNullProbe(probed)
    && exists entry :: entry in LogOf(world, probed.i) && Behind(probed, entry, setting) && DayOf(entry.at) == day
  }

  // ---- One response, two days ----

  /** What the source says about a place far inland. */
  predicate Inland(series: WeatherSeries) {
    Reading(series).AllNull?
  }

  /** Cutting a series short or marking it stale does not change how it reads, inland. */
  lemma {:induction false} InlandStaysInland(series: WeatherSeries, request: SeriesRequest, stale: bool)
    requires Inland(series)
    ensures Inland(C.AnswerFor(series, request, stale))
  {
  }

  lemma {:induction false} DeliveredInland(series: WeatherSeries, request: SeriesRequest)
    requires Inland(series)
    ensures Outcome(C.Delivered(Ok(series), request)).AllNull?
  {
    InlandStaysInland(series, request, false);
  }

  lemma {:induction false} RunSnoc(world: World, events: seq<Event>, event: Event, setting: Setting)
    requires setting.cache.Valid()
    ensures Run(world, events + [event], setting) == Next(Run(world, events, setting), event, setting)
    decreases |events|
  {
    var longer := events + [event];
    if events == [] {
      assert longer[1..] == [];
      assert Run(Next(world, event, setting), [], setting) == Next(world, event, setting);
    } else {
      assert longer[0] == events[0] && longer[1..] == events[1..] + [event];
      RunSnoc(Next(world, events[0], setting), events[1..], event, setting);
    }
  }

  /** Ten minutes before midnight and five minutes after, UTC. */
  const EVENING := 85_800_000
  const NIGHT := 86_700_000

  /** Freshness of an hour, and answers up to three hours old. */
  const MARINE_LIFETIME := Lifetime(3600, 10800)

  function Around(today: Day): P.Circumstances {
    P.Circumstances(today, true, 2, None, false, 1, 0)
  }

  /** A cache that has seen one call and one ask. */
  function OneCall(
    now: int, call: C.Call, ask: C.Ask, cache: map<SeriesKey, C.Record>, running: map<SeriesKey, nat>,
    log: set<C.Logged>, answers: seq<C.Answer>
  ): C.System {
    C.System(now, cache, running, map[0 := call], map[0 := ask], log, answers)
  }

  lemma {:induction false} Replaced<K, V>(key: K, old0: V, new0: V)
    ensures map[key := old0][key := new0] == map[key := new0]
    ensures map[key := old0] - {key} == map[]
  {
  }

  /** The source answers the call. */
  lemma {:induction false} SourceSettlesCall(call: C.Call, ask: C.Ask, series: WeatherSeries, config: C.Config)
    requires config.Valid() && call.phase.Outbound?
    ensures C.Next(OneCall(EVENING, call, ask, map[], map[call.key := 0], {}, []), C.SourceAnswers(0, Ok(series)), config)
      == OneCall(EVENING, call.(phase := C.Storing(series, EVENING)), ask, map[], map[call.key := 0],
           {C.Logged(call.key, call.outbound, series, EVENING)}, [])
  {
    Replaced(0, call, call.(phase := C.Storing(series, EVENING)));
    var entry := C.Logged(call.key, call.outbound, series, EVENING);
    assert {} + {entry} == {entry};
  }

  /** The answer is written, and the call leaves the registry. */
  lemma {:induction false} CallIsStored(
      call: C.Call, ask: C.Ask, series: WeatherSeries, record: C.Record, log: set<C.Logged>, config: C.Config)
    requires config.Valid() && call.phase == C.Storing(series, EVENING)
    requires record == C.RecordOf(series, EVENING, config)
    ensures var storing := OneCall(EVENING, call, ask, map[], map[call.key := 0], log, []);
      C.Next(C.Next(storing, C.Store(0, true), config), C.Finish(0), config)
        == OneCall(EVENING, call.(phase := C.Settled(Ok(series), EVENING)), ask, map[call.key := record], map[], log, [])
  {
    var settling := call.(phase := C.Settling(Ok(series), EVENING));
    Replaced(0, call, settling);
    Replaced(0, settling, call.(phase := C.Settled(Ok(series), EVENING)));
    Replaced(call.key, 0, 0);
    var storing := OneCall(EVENING, call, ask, map[], map[call.key := 0], log, []);
    assert C.Next(storing, C.Store(0, true), config)
      == OneCall(EVENING, settling, ask, map[call.key := record], map[call.key := 0], log, []);
  }

  function OutboundCall(setting: Setting): C.Call {
    C.Call(C.KeyFor(ProbeRequest(setting), setting.cache), C.Widened(ProbeRequest(setting), setting.cache), C.Outbound)
  }

  /** The first ask misses and goes out. */
  lemma {:induction false} FirstAskGoesOut(setting: Setting)
    requires setting.cache.Valid()
    ensures var request, call := ProbeRequest(setting), OutboundCall(setting);
      var looking := C.Next(C.EMPTY.(now := EVENING), C.Lookup(0, request, true), setting.cache);
      && looking == C.EMPTY.(now := EVENING, asks := map[0 := C.Ask(request, C.Looking(None))])
      && C.Next(looking, C.Decide(0, 0), setting.cache)
        == OneCall(EVENING, call, C.Ask(request, C.Waiting(0)), map[], map[call.key := 0], {}, [])
  {
    Replaced(0, C.Ask(ProbeRequest(setting), C.Looking(None)), C.Ask(ProbeRequest(setting), C.Waiting(0)));
  }

  /** A settled call is delivered to the ask that waits for it. */
  lemma {:induction false} AskIsServed(
      call: C.Call, request: SeriesRequest, result: C.SeriesResult, cache: map<SeriesKey, C.Record>,
      log: set<C.Logged>, config: C.Config)
    requires config.Valid() && call.phase == C.Settled(result, EVENING)
    ensures C.Next(OneCall(EVENING, call, C.Ask(request, C.Waiting(0)), cache, map[], log, []), C.Deliver(0), config)
      == OneCall(EVENING, call, C.Ask(request, C.Served), cache, map[], log,
           [C.FromCall(0, request, C.Delivered(result, request), EVENING, EVENING)])
  {
    Replaced(0, C.Ask(request, C.Waiting(0)), C.Ask(request, C.Served));
  }

  /** A record that at night is no longer fresh, and still gives the series that was stored in the evening. */
  predicate StillServed(record: C.Record, series: WeatherSeries) {
    && record.storedAt == EVENING && record.freshUntil <= NIGHT
    && C.Live(Some(record), NIGHT) == Some(series)
  }

  lemma {:induction false} RecordAtNight(series: WeatherSeries, config: C.Config)
    requires config.Valid() && config.lifetime == MARINE_LIFETIME && Aligned(series) && series.provenance != []
    ensures StillServed(C.RecordOf(series, EVENING, config), series)
  {
    CodecRoundTrip(series);
    StaleAtNight();
  }

  /** A lookup finds the record of its key. */
  lemma {:induction false} NightLookup(late: C.System, request: SeriesRequest, record: C.Record, config: C.Config)
    requires config.Valid() && 1 !in late.asks
    requires C.KeyFor(request, config) in late.cache && late.cache[C.KeyFor(request, config)] == record
    ensures C.Next(late, C.Lookup(1, request, true), config)
      == late.(asks := late.asks[1 := C.Ask(request, C.Looking(Some(record)))])
  {
  }

  /** A record past its freshness is still served; the refresh is only begun. */
  lemma {:induction false} NightDecide(
      looking: C.System, request: SeriesRequest, record: C.Record, series: WeatherSeries, config: C.Config)
    requires config.Valid() && looking.now == NIGHT && StillServed(record, series) && 1 !in looking.calls
    requires 1 in looking.asks && looking.asks[1] == C.Ask(request, C.Looking(Some(record)))
    ensures var after := C.Next(looking, C.Decide(1, 1), config);
      && after.log == looking.log && after.answers == looking.answers +
           [C.FromCache(1, request, C.AnswerFor(series, request, true), true, NIGHT, EVENING)]
  {
    assert C.Next(looking, C.Decide(1, 1), config)
      == C.ServeNext(looking, 1, request, series, true, EVENING, 1, config);
  }

  lemma {:induction false} StaleAtNight()
    ensures FreshUntil(EVENING, 3600) == 86_400_000 && NIGHT < ExpiresAt(EVENING, MARINE_LIFETIME)
  {
  }

  lemma {:induction false} Then(events: seq<Event>, event: Event, setting: Setting) returns (longer: seq<Event>)
    requires setting.cache.Valid()
    ensures After(longer, setting) == Next(After(events, setting), event, setting)
  {
    longer := events + [event];
    RunSnoc(BEGINNING, events, event, setting);
  }

  /** A world of one instance. */
  function OneNode(places: P.System, node: Node, probed: seq<Probed>): World {
    World(places, map[0 := node], probed)
  }

  lemma {:induction false} ThenPort(
      events: seq<Event>, step: C.Event, places: P.System, node: Node, probed: seq<Probed>, setting: Setting)
    returns (longer: seq<Event>)
    requires setting.cache.Valid() && After(events, setting) == OneNode(places, node, probed)
    ensures After(longer, setting) == OneNode(places, PortNext(node, step, setting), probed)
  {
    longer := Then(events, Port(0, step), setting);
    Replaced(0, node, PortNext(node, step, setting));
  }

  lemma {:induction false} ThenStored(
      events: seq<Event>, step: P.Event, places: P.System, node: Node, probed: seq<Probed>, setting: Setting)
    returns (longer: seq<Event>)
    requires setting.cache.Valid() && After(events, setting) == OneNode(places, node, probed)
    requires step.Find? || step.Save?
    ensures After(longer, setting) == OneNode(P.Next(places, step), node, probed)
  {
    longer := Then(events, Stored(step), setting);
  }

  /** The day is read off the clock, and the probe is asked for. */
  lemma {:induction false} ThenAsk(
      events: seq<Event>, ask: nat, places: P.System, port: C.System, probed: seq<Probed>, setting: Setting)
    returns (longer: seq<Event>)
    requires setting.cache.Valid() && After(events, setting) == OneNode(places, Node(port, None), probed)
    requires P.At(places, 0).phase.Found? && ask !in port.asks
    ensures var looking := C.Next(port, C.Lookup(ask, ProbeRequest(setting), true), setting.cache);
      After(longer, setting) == OneNode(places, Node(looking, Some(Probing(port.now, Some(ask), Pending))), probed)
  {
    var node := Node(port, None);
    var clock := Node(port, Some(Probing(port.now, None, Pending)));
    longer := Then(events, ReadClock(0), setting);
    Replaced(0, node, clock);
    assert After(longer, setting) == OneNode(places, clock, probed);
    var looking := C.Next(port, C.Lookup(ask, ProbeRequest(setting), true), setting.cache);
    longer := Then(longer, Ask(0, ask, true), setting);
    Replaced(0, clock, Node(looking, Some(Probing(port.now, Some(ask), Pending))));
  }

  /** The answer to the ask is taken. */
  lemma {:induction false} ThenConclude(
      events: seq<Event>, k: nat, day: Day, places: P.System, node: Node, probed: seq<Probed>, setting: Setting)
    returns (longer: seq<Event>)
    requires setting.cache.Valid() && After(events, setting) == OneNode(places, node, probed)
    requires P.At(places, 0).phase.Found? && P.Probes(P.MarineOf(P.At(places, 0).phase.stored), Around(day))
    requires node.probing.Some? && DayOf(node.probing.value.instant) == day
    requires k < |node.port.answers| && node.probing.value.ask == Some(node.port.answers[k].ask)
    requires Outcome(node.port.answers[k].Result()).AllNull?
    ensures After(longer, setting) == OneNode(P.Next(places, P.Gather(0, Around(day), AllNull)), Node(node.port, None),
      probed + [Probed(0, day, node.port.answers[k], node.probing.value.met)])
  {
    longer := Then(events, Conclude(0, k, Around(day)), setting);
    Replaced(0, node, Node(node.port, None));
  }

  /** The protocol after one all-null probe on day 0. */
  ghost predicate OneDayRecorded(places: P.System) {
    && places.place.row.Some? && places.place.row.value.rulesVersion == 1
    && places.place.probes == map[0 := Some(true)]
    && P.At(places, 0).phase.Idle?
  }

  lemma {:induction false} FirstProbeIsRecorded()
    ensures var found := P.Next(P.START, P.Find(0, S.Answers));
      var gathered := P.Next(found, P.Gather(0, Around(0), AllNull));
      && P.At(found, 0).phase == P.Found(None)
      && OneDayRecorded(P.Next(gathered, P.Save(0, true, S.Answers)))
  {
    var record := RecordProbe(None, AllNull, 0);
    SortedExact([] + [0]);
    R.InsertedRow(map[], record);
  }

  /** The last answer given says that no coastline is near, with two confirmations asked for. */
  ghost predicate Settled(places: P.System) {
    places.answers != [] && MarineVerdict(places.answers[|places.answers| - 1].marine, None).Impossible?
  }

  lemma {:induction false} OneDayKnown(table: map<Day, Option<bool>>)
    requires table == map[0 := Some(true)]
    ensures var known := R.EvidenceIn(table);
      && known.Some? && ToSet(known.value.allNullDates) == {0} && !known.value.covered && known.value.lastProbedOn == 0
  {
    assert 0 in table;
    var known := R.EvidenceIn(table).value;
    assert forall d :: d in known.allNullDates <==> d == 0;
    assert forall d :: d in table ==> d == 0;
  }

  lemma {:induction false} TwoDaysSettle(known: Option<MarineEvidence>)
    requires known.Some? && ToSet(known.value.allNullDates) == {0} && !known.value.covered && known.value.lastProbedOn == 0
    ensures NeedsProbe(known, 1, 2) && MarineVerdict(Some(RecordProbe(known, AllNull, 1)), None).Impossible?
  {
    var record := RecordProbe(known, AllNull, 1);
    SortedExact(known.value.allNullDates + [1]);
    assert ToSet(record.allNullDates) == {0, 1};
  }

  /** A second all-null reading, for the next day, settles the place. */
  lemma {:induction false} SecondProbeSettles(places: P.System)
    requires OneDayRecorded(places)
    ensures var found := P.Next(places, P.Find(0, S.Answers));
      var gathered := P.Next(found, P.Gather(0, Around(1), AllNull));
      && P.At(found, 0).phase.Found? && P.Probes(P.MarineOf(P.At(found, 0).phase.stored), Around(1))
      && Settled(P.Next(gathered, P.Save(0, true, S.Answers)))
  {
    OneDayKnown(places.place.probes);
    TwoDaysSettle(R.EvidenceIn(places.place.probes));
    var found := P.Next(places, P.Find(0, S.Answers));
    var gathered := P.Next(found, P.Gather(0, Around(1), AllNull));
    assert P.At(gathered, 0).phase.Saving?;
  }

  /** The cache after the first evening: the record and the one response it was made of, and nothing out. */
  ghost predicate AfterEvening(port: C.System, record: C.Record, setting: Setting) {
    var key := C.KeyFor(ProbeRequest(setting), setting.cache);
    && port.now == EVENING && port.asks.Keys == {0} && port.calls.Keys == {0}
    && key in port.cache && port.cache[key] == record
    && |port.log| == 1 && |port.answers| == 1 && port.answers[0].ask == 0
  }

  /** Steps of the cache that leave a probe as it is. */
  lemma {:induction false} PortOnly(port: C.System, probing: Probing, step: C.Event, setting: Setting)
    requires setting.cache.Valid() && !step.Decide?
    ensures PortNext(Node(port, Some(probing)), step, setting)
      == Node(C.Next(port, step, setting.cache), Some(probing))
  {
  }

  /** The ask joins the call it starts. */
  lemma {:induction false} FirstAskJoins(setting: Setting)
    requires setting.cache.Valid()
    ensures var request, call := ProbeRequest(setting), OutboundCall(setting);
      var looking := C.Next(C.EMPTY.(now := EVENING), C.Lookup(0, request, true), setting.cache);
      PortNext(Node(looking, Some(Probing(EVENING, Some(0), Pending))), C.Decide(0, 0), setting)
        == Node(OneCall(EVENING, call, C.Ask(request, C.Waiting(0)), map[], map[call.key := 0], {}, []),
             Some(Probing(EVENING, Some(0), NoResponse)))
  {
    FirstAskGoesOut(setting);
  }

  lemma {:induction false} EveningStep(
      before: seq<Event>, step: C.Event, port: C.System, places: P.System, probing: Probing, setting: Setting)
    returns (events: seq<Event>, after: C.System)
    requires setting.cache.Valid() && !step.Decide?
    requires After(before, setting) == OneNode(places, Node(port, Some(probing)), [])
    ensures after == C.Next(port, step, setting.cache)
    ensures After(events, setting) == OneNode(places, Node(after, Some(probing)), [])
  {
    PortOnly(port, probing, step, setting);
    after := C.Next(port, step, setting.cache);
    events := ThenPort(before, step, places, Node(port, Some(probing)), [], setting);
  }

  lemma {:induction false} SourceStep(
      before: seq<Event>, call: C.Call, ask: C.Ask, series: WeatherSeries, places: P.System, probing: Probing, setting: Setting)
    returns (events: seq<Event>)
    requires setting.cache.Valid() && call.phase.Outbound?
    requires After(before, setting) ==
      OneNode(places, Node(OneCall(EVENING, call, ask, map[], map[call.key := 0], {}, []), Some(probing)), [])
    ensures After(events, setting) == OneNode(places,
      Node(OneCall(EVENING, call.(phase := C.Storing(series, EVENING)), ask, map[], map[call.key := 0],
        {C.Logged(call.key, call.outbound, series, EVENING)}, []), Some(probing)), [])
  {
    SourceSettlesCall(call, ask, series, setting.cache);
    var port;
    events, port := EveningStep(before, C.SourceAnswers(0, Ok(series)),
      OneCall(EVENING, call, ask, map[], map[call.key := 0], {}, []), places, probing, setting);
  }

  lemma {:induction false} StoreSteps(
      before: seq<Event>, call: C.Call, ask: C.Ask, series: WeatherSeries, record: C.Record, log: set<C.Logged>,
      places: P.System, probing: Probing, setting: Setting)
    returns (events: seq<Event>)
    requires setting.cache.Valid() && call.phase == C.Storing(series, EVENING)
    requires record == C.RecordOf(series, EVENING, setting.cache)
    requires After(before, setting) ==
      OneNode(places, Node(OneCall(EVENING, call, ask, map[], map[call.key := 0], log, []), Some(probing)), [])
    ensures After(events, setting) == OneNode(places,
      Node(OneCall(EVENING, call.(phase := C.Settled(Ok(series), EVENING)), ask, map[call.key := record], map[], log, []),
        Some(probing)), [])
  {
    CallIsStored(call, ask, series, record, log, setting.cache);
    var port;
    events, port := EveningStep(before, C.Store(0, true),
      OneCall(EVENING, call, ask, map[], map[call.key := 0], log, []), places, probing, setting);
    events, port := EveningStep(events, C.Finish(0), port, places, probing, setting);
  }

  lemma {:induction false} DeliverStep(
      before: seq<Event>, call: C.Call, request: SeriesRequest, result: C.SeriesResult, cache: map<SeriesKey, C.Record>,
      log: set<C.Logged>, places: P.System, probing: Probing, setting: Setting)
    returns (events: seq<Event>)
    requires setting.cache.Valid() && call.phase == C.Settled(result, EVENING)
    requires After(before, setting) == OneNode(places,
      Node(OneCall(EVENING, call, C.Ask(request, C.Waiting(0)), cache, map[], log, []), Some(probing)), [])
    ensures After(events, setting) == OneNode(places,
      Node(OneCall(EVENING, call, C.Ask(request, C.Served), cache, map[], log,
        [C.FromCall(0, request, C.Delivered(result, request), EVENING, EVENING)]), Some(probing)), [])
  {
    AskIsServed(call, request, result, cache, log, setting.cache);
    var port;
    events, port := EveningStep(before, C.Deliver(0),
      OneCall(EVENING, call, C.Ask(request, C.Waiting(0)), cache, map[], log, []), places, probing, setting);
  }

  /** The call goes out, comes back, is stored and delivered. */
  lemma {:induction false} EveningCall(
      before: seq<Event>, call: C.Call, request: SeriesRequest, series: WeatherSeries, record: C.Record,
      places: P.System, probing: Probing, setting: Setting)
    returns (events: seq<Event>, port: C.System)
    requires setting.cache.Valid() && call.phase.Outbound? && record == C.RecordOf(series, EVENING, setting.cache)
    requires After(before, setting) == OneNode(places,
        Node(OneCall(EVENING, call, C.Ask(request, C.Waiting(0)), map[], map[call.key := 0], {}, []), Some(probing)), [])
    ensures After(events, setting) == OneNode(places, Node(port, Some(probing)), [])
    ensures port == OneCall(EVENING, call.(phase := C.Settled(Ok(series), EVENING)), C.Ask(request, C.Served),
      map[call.key := record], map[], {C.Logged(call.key, call.outbound, series, EVENING)},
      [C.FromCall(0, request, C.Delivered(Ok(series), request), EVENING, EVENING)])
  {
    var waiting := C.Ask(request, C.Waiting(0));
    var log := {C.Logged(call.key, call.outbound, series, EVENING)};
    var storing := call.(phase := C.Storing(series, EVENING));
    var settled := call.(phase := C.Settled(Ok(series), EVENING));
    events := SourceStep(before, call, waiting, series, places, probing, setting);
    events := StoreSteps(events, storing, waiting, series, record, log, places, probing, setting);
    events := DeliverStep(events, settled, request, Ok(series), map[call.key := record], log, places, probing, setting);
    port := OneCall(EVENING, settled, C.Ask(request, C.Served), map[call.key := record], map[], log,
      [C.FromCall(0, request, C.Delivered(Ok(series), request), EVENING, EVENING)]);
  }

  /** The first ask of a run goes out. */
  lemma {:induction false} EveningAsk(setting: Setting) returns (events: seq<Event>)
    requires setting.cache.Valid()
    ensures After(events, setting) == OneNode(P.Next(P.START, P.Find(0, S.Answers)),
      Node(OneCall(EVENING, OutboundCall(setting), C.Ask(ProbeRequest(setting), C.Waiting(0)), map[],
        map[OutboundCall(setting).key := 0], {}, []), Some(Probing(EVENING, Some(0), NoResponse))), [])
  {
    var port := C.EMPTY.(now := EVENING);
    events := Then([], Port(0, C.Tick(EVENING)), setting);
    assert After(events, setting) == OneNode(P.START, Node(port, None), []);
    events := ThenStored(events, P.Find(0, S.Answers), P.START, Node(port, None), [], setting);
    FirstProbeIsRecorded();
    events := EveningJoin(events, P.Next(P.START, P.Find(0, S.Answers)), setting);
  }

  lemma {:induction false} EveningJoin(before: seq<Event>, found: P.System, setting: Setting) returns (events: seq<Event>)
    requires setting.cache.Valid() && P.At(found, 0).phase.Found?
    requires After(before, setting) == OneNode(found, Node(C.EMPTY.(now := EVENING), None), [])
    ensures After(events, setting) == OneNode(found,
      Node(OneCall(EVENING, OutboundCall(setting), C.Ask(ProbeRequest(setting), C.Waiting(0)), map[],
        map[OutboundCall(setting).key := 0], {}, []), Some(Probing(EVENING, Some(0), NoResponse))), [])
  {
    var port := C.EMPTY.(now := EVENING);
    events := ThenAsk(before, 0, found, port, [], setting);
    var looking := C.Next(port, C.Lookup(0, ProbeRequest(setting), true), setting.cache);
    FirstAskJoins(setting);
    events := ThenPort(events, C.Decide(0, 0), found, Node(looking, Some(Probing(EVENING, Some(0), Pending))), [], setting);
  }

  lemma {:induction false} EveningConclude(
      before: seq<Event>, found: P.System, port: C.System, probing: Probing, setting: Setting)
    returns (events: seq<Event>, probed: seq<Probed>)
    requires setting.cache.Valid() && After(before, setting) == OneNode(found, Node(port, Some(probing)), [])
    requires P.At(found, 0).phase.Found? && P.Probes(P.MarineOf(P.At(found, 0).phase.stored), Around(0))
    requires |port.answers| == 1 && probing.ask == Some(port.answers[0].ask) && probing.instant == EVENING
    requires Outcome(port.answers[0].Result()).AllNull?
    ensures After(events, setting) == OneNode(
      P.Next(P.Next(found, P.Gather(0, Around(0), AllNull)), P.Save(0, true, S.Answers)), Node(port, None), probed)
  {
    events := ThenConclude(before, 0, 0, found, Node(port, Some(probing)), [], setting);
    probed := [] + [Probed(0, 0, port.answers[0], probing.met)];
    events := ThenStored(events, P.Save(0, true, S.Answers), P.Next(found, P.Gather(0, Around(0), AllNull)),
      Node(port, None), probed, setting);
  }

  lemma {:induction false} CallLeaves(
      call: C.Call, series: WeatherSeries, record: C.Record, answer: C.Answer, log: set<C.Logged>, setting: Setting)
    requires setting.cache.Valid() && call.key == C.KeyFor(ProbeRequest(setting), setting.cache)
    requires answer.ask == 0 && |log| == 1
    ensures AfterEvening(
      OneCall(EVENING, call, C.Ask(ProbeRequest(setting), C.Served), map[call.key := record], map[], log, [answer]),
      record, setting)
  {
  }

  lemma {:induction false} EveningAnswer(
      before: seq<Event>, call: C.Call, series: WeatherSeries, record: C.Record, found: P.System, probing: Probing,
      setting: Setting)
    returns (events: seq<Event>, port: C.System)
    requires setting.cache.Valid() && Inland(series) && record == C.RecordOf(series, EVENING, setting.cache)
    requires call.phase.Outbound? && call.key == C.KeyFor(ProbeRequest(setting), setting.cache)
    requires After(before, setting) == OneNode(found,
      Node(OneCall(EVENING, call, C.Ask(ProbeRequest(setting), C.Waiting(0)), map[], map[call.key := 0], {}, []),
        Some(probing)), [])
    ensures After(events, setting) == OneNode(found, Node(port, Some(probing)), [])
    ensures AfterEvening(port, record, setting) && Outcome(port.answers[0].Result()).AllNull?
  {
    events, port := EveningCall(before, call, ProbeRequest(setting), series, record, found, probing, setting);
    var answer := C.FromCall(0, ProbeRequest(setting), C.Delivered(Ok(series), ProbeRequest(setting)), EVENING, EVENING);
    CallLeaves(call.(phase := C.Settled(Ok(series), EVENING)), series, record, answer,
      {C.Logged(call.key, call.outbound, series, EVENING)}, setting);
    DeliveredInland(series, ProbeRequest(setting));
  }

  /** The first evening of a run: one probe, one response, one day recorded. */
  lemma {:induction false} Evening(series: WeatherSeries, record: C.Record, setting: Setting)
    returns (events: seq<Event>, places: P.System, port: C.System, probed: seq<Probed>)
    requires setting.cache.Valid() && Inland(series) && record == C.RecordOf(series, EVENING, setting.cache)
    ensures After(events, setting) == OneNode(places, Node(port, None), probed)
    ensures OneDayRecorded(places) && AfterEvening(port, record, setting)
  {
    FirstProbeIsRecorded();
    var found := P.Next(P.START, P.Find(0, S.Answers));
    events := EveningAsk(setting);
    var probing := Probing(EVENING, Some(0), NoResponse);
    events, port := EveningAnswer(events, OutboundCall(setting), series, record, found, probing, setting);
    events, probed := EveningConclude(events, found, port, probing, setting);
    places := P.Next(P.Next(found, P.Gather(0, Around(0), AllNull)), P.Save(0, true, S.Answers));
  }

  /** The night after, the probe is asked for again, and told what the source said the evening before. */
  lemma {:induction false} NightAsk(
      before: seq<Event>, series: WeatherSeries, record: C.Record, places: P.System, evening: C.System,
      probed: seq<Probed>, setting: Setting)
    returns (events: seq<Event>, served: Node)
    requires setting.cache.Valid() && Inland(series) && StillServed(record, series)
    requires P.At(places, 0).phase.Found? && AfterEvening(evening, record, setting)
    requires After(before, setting) == OneNode(places, Node(evening.(now := NIGHT), None), probed)
    ensures After(events, setting) == OneNode(places, served, probed) && ToldAtNight(served)
    ensures served.port.log == evening.log
  {
    var request, late := ProbeRequest(setting), evening.(now := NIGHT);
    events := ThenAsk(before, 1, places, late, probed, setting);
    var looking := late.(asks := late.asks[1 := C.Ask(request, C.Looking(Some(record)))]);
    NightLookup(late, request, record, setting.cache);
    var node := Node(looking, Some(Probing(NIGHT, Some(1), Pending)));
    events := ThenPort(events, C.Decide(1, 1), places, node, probed, setting);
    served := PortNext(node, C.Decide(1, 1), setting);
    NightAnswer(looking, record, series, setting);
  }

  /** The second probe has its answer, and it says again that there is nothing. */
  ghost predicate ToldAtNight(served: Node) {
    && |served.port.answers| == 2 && served.port.answers[1].ask == 1
    && served.probing.Some? && served.probing.value.instant == NIGHT && served.probing.value.ask == Some(1)
    && Outcome(served.port.answers[1].Result()).AllNull?
  }

  lemma {:induction false} NightAnswer(looking: C.System, record: C.Record, series: WeatherSeries, setting: Setting)
    requires setting.cache.Valid() && Inland(series) && StillServed(record, series)
    requires looking.now == NIGHT && 1 !in looking.calls && |looking.answers| == 1
    requires 1 in looking.asks && looking.asks[1] == C.Ask(ProbeRequest(setting), C.Looking(Some(record)))
    ensures var served := PortNext(Node(looking, Some(Probing(NIGHT, Some(1), Pending))), C.Decide(1, 1), setting);
      ToldAtNight(served) && served.port.log == looking.log
  {
    InlandStaysInland(series, ProbeRequest(setting), true);
    NightDecide(looking, ProbeRequest(setting), record, series, setting.cache);
  }

  /** The clock passes midnight, and the next request reads what is stored. */
  lemma {:induction false} NightFalls(
      before: seq<Event>, places: P.System, evening: C.System, probed: seq<Probed>, setting: Setting)
    returns (events: seq<Event>)
    requires setting.cache.Valid() && evening.now == EVENING
    requires After(before, setting) == OneNode(places, Node(evening, None), probed)
    ensures After(events, setting)
      == OneNode(P.Next(places, P.Find(0, S.Answers)), Node(evening.(now := NIGHT), None), probed)
  {
    var late := Node(evening.(now := NIGHT), None);
    events := ThenPort(before, C.Tick(NIGHT), places, Node(evening, None), probed, setting);
    assert PortNext(Node(evening, None), C.Tick(NIGHT), setting) == late;
    events := ThenStored(events, P.Find(0, S.Answers), places, late, probed, setting);
  }

  lemma {:induction false} NightProbe(
      before: seq<Event>, series: WeatherSeries, record: C.Record, found: P.System, evening: C.System,
      probed: seq<Probed>, setting: Setting)
    returns (events: seq<Event>)
    requires setting.cache.Valid() && Inland(series) && StillServed(record, series)
    requires P.At(found, 0).phase.Found? && P.Probes(P.MarineOf(P.At(found, 0).phase.stored), Around(1))
    requires AfterEvening(evening, record, setting)
    requires After(before, setting) == OneNode(found, Node(evening.(now := NIGHT), None), probed)
    ensures var world := After(events, setting);
      && world.nodes.Keys == {0} && world.nodes[0].port.log == evening.log
      && world.places == P.Next(P.Next(found, P.Gather(0, Around(1), AllNull)), P.Save(0, true, S.Answers))
  {
    var served;
    events, served := NightAsk(before, series, record, found, evening, probed, setting);
    events := NightConclude(events, found, served, probed, setting);
  }

  /** So the day has changed and the response has not. */
  lemma {:induction false} Night(
      before: seq<Event>, series: WeatherSeries, record: C.Record, places: P.System, evening: C.System,
      probed: seq<Probed>, setting: Setting)
    returns (events: seq<Event>)
    requires setting.cache.Valid() && Inland(series) && StillServed(record, series)
    requires After(before, setting) == OneNode(places, Node(evening, None), probed)
    requires OneDayRecorded(places) && AfterEvening(evening, record, setting)
    ensures var world := After(events, setting);
      world.nodes.Keys == {0} && world.nodes[0].port.log == evening.log && Settled(world.places)
  {
    SecondProbeSettles(places);
    events := NightFalls(before, places, evening, probed, setting);
    events := NightProbe(events, series, record, P.Next(places, P.Find(0, S.Answers)), evening, probed, setting);
  }

  lemma {:induction false} NightConclude(
      before: seq<Event>, found: P.System, served: Node, probed: seq<Probed>, setting: Setting)
    returns (events: seq<Event>)
    requires setting.cache.Valid() && After(before, setting) == OneNode(found, served, probed)
    requires P.At(found, 0).phase.Found? && P.Probes(P.MarineOf(P.At(found, 0).phase.stored), Around(1))
    requires ToldAtNight(served)
    ensures After(events, setting) == OneNode(
      P.Next(P.Next(found, P.Gather(0, Around(1), AllNull)), P.Save(0, true, S.Answers)), Node(served.port, None),
      probed + [Probed(0, 1, served.port.answers[1], served.probing.value.met)])
  {
    events := ThenConclude(before, 1, 1, found, served, probed, setting);
    var gathered := P.Next(found, P.Gather(0, Around(1), AllNull));
    events := ThenStored(events, P.Save(0, true, S.Answers), gathered, Node(served.port, None),
      probed + [Probed(0, 1, served.port.answers[1], served.probing.value.met)], setting);
  }

  /**
   * With the lifetimes the service ships with, and a place inland: the source
   * says one thing once, ten minutes before midnight, and a quarter of an hour
   * later the place is settled as having no coastline on two days of evidence.
   */
  lemma {:induction false} OneResponseCanSettle(series: WeatherSeries, setting: Setting) returns (events: seq<Event>)
    requires setting.cache.Valid() && setting.cache.lifetime == MARINE_LIFETIME
    requires Inland(series) && Aligned(series) && series.provenance != []
    ensures var world := After(events, setting);
      Settled(world.places) && |LogOf(world, 0)| == 1 && forall i :: i != 0 ==> LogOf(world, i) == {}
  {
    var record := C.RecordOf(series, EVENING, setting.cache);
    RecordAtNight(series, setting.cache);
    var places, port, probed;
    events, places, port, probed := Evening(series, record, setting);
    events := Night(events, series, record, places, port, probed, setting);
  }

  /** There are such places. */
  lemma {:induction false} SomewhereInland() returns (series: WeatherSeries)
    ensures Inland(series) && Aligned(series) && series.provenance != []
  {
    series := WeatherSeries(Channel(["2026-09-07T00:00"], map[WaveHeight := [None]]), Channel([], map[]),
      [Provenance("open-meteo", Marine, GridPoint(48.0, 16.0, 170.0), "2026-09-07T00:00", false, [WaveHeight], None)]);
  }
}
