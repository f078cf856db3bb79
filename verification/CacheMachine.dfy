/**
 * A cached capability as a transition system: lookups, decisions, outbound
 * calls, settlements, evictions and ticks interleave in any order.
 */
module CacheMachine {
  import opened Prelude
  import opened Series
  import opened Slicing
  import opened CacheKeys

  datatype Config = Config(lifetime: Lifetime, wanted: int, declared: int) {
    predicate Valid() {
      lifetime.ttlSeconds > 0
    }
  }

  datatype Record = Record(payload: Payload, storedAt: int, freshUntil: int, expiresAt: int)

  /** One answer the source really gave: to which call, with what, and when. */
  datatype Logged = Logged(key: SeriesKey, outbound: SeriesRequest, series: WeatherSeries, at: int)

  type SeriesResult = Result<WeatherSeries, string>

  datatype CallPhase =
    | Outbound
    | Storing(series: WeatherSeries, at: int)
    | Settling(result: SeriesResult, at: int)
    | Settled(outcome: SeriesResult, at: int)

  datatype Call = Call(key: SeriesKey, outbound: SeriesRequest, phase: CallPhase)

  datatype AskPhase = Looking(found: Option<Record>) | Waiting(call: nat) | Served

  datatype Ask = Ask(request: SeriesRequest, phase: AskPhase)

  /** What an ask was told, when, and when the source had said it. */
  datatype Answer =
    | FromCache(ask: nat, request: SeriesRequest, series: WeatherSeries, stale: bool, at: int, obtainedAt: int)
    | FromCall(ask: nat, request: SeriesRequest, result: SeriesResult, at: int, obtainedAt: int)
  {
    function Result(): SeriesResult {
      if FromCache? then Ok(series) else result
    }
  }

  datatype System = System(
    now: int,
    cache: map<SeriesKey, Record>,
    running: map<SeriesKey, nat>,
    calls: map<nat, Call>,
    asks: map<nat, Ask>,
    log: set<Logged>,
    answers: seq<Answer>
  )

  const EMPTY := System(0, map[], map[], map[], map[], {}, [])

  datatype Event =
    | Tick(to: int)
    | Lookup(ask: nat, request: SeriesRequest, cacheAnswers: bool)
    | Decide(ask: nat, unused: nat)
    | SourceAnswers(call: nat, result: SeriesResult)
    | Store(call: nat, kept: bool)
    | Finish(call: nat)
    | Deliver(ask: nat)
    | Evict(key: SeriesKey)

  function RecordOf(series: WeatherSeries, at: int, config: Config): Record
    requires config.Valid()
  {
    Record(Encode(series), at, FreshUntil(at, config.lifetime.ttlSeconds), ExpiresAt(at, config.lifetime))
  }

  function Widened(request: SeriesRequest, config: Config): SeriesRequest {
    Widen(request, config.wanted, config.declared)
  }

  function KeyFor(request: SeriesRequest, config: Config): SeriesKey {
    KeyOf(Widened(request, config))
  }

  /** The days of a fetched series that a request is about, marked with its age. */
  function AnswerFor(series: WeatherSeries, request: SeriesRequest, stale: bool): WeatherSeries {
    MarkStale(
      if SpanOf(request.horizon).Forward? then SliceToDays(series, request.horizon.forecastDays) else series, stale)
  }

  /* ---- one step ---- */

  /** The call that answers a key: the one in flight, or a new one. */
  function Flight(system: System, key: SeriesKey, unused: nat): nat {
    if key in system.running then system.running[key] else unused
  }

  function Joined(system: System, key: SeriesKey, outbound: SeriesRequest, unused: nat): System {
    if key in system.running then system
    else system.(running := system.running[key := unused], calls := system.calls[unused := Call(key, outbound, Outbound)])
  }

  /** The record a lookup found, if it is still servable and readable. */
  function Live(found: Option<Record>, now: int): Option<WeatherSeries> {
    if found.Some? && now < found.value.expiresAt then Decode(found.value.payload) else None
  }

  function LookupNext(system: System, id: nat, request: SeriesRequest, cacheAnswers: bool, config: Config): System {
    var key := KeyFor(request, config);
    var found := if cacheAnswers && key in system.cache then Some(system.cache[key]) else None;
    system.(asks := system.asks[id := Ask(request, Looking(found))])
  }

  /** A miss waits for the call of its key. */
  function MissNext(system: System, id: nat, request: SeriesRequest, unused: nat, config: Config): System {
    var key := KeyFor(request, config);
    var joined := Joined(system, key, Widened(request, config), unused);
    joined.(asks := joined.asks[id := Ask(request, Waiting(Flight(system, key, unused)))])
  }

  /** A servable record is answered at once; past its freshness it also starts a refresh nobody waits for. */
  function ServeNext(
    system: System, id: nat, request: SeriesRequest, series: WeatherSeries, stale: bool, obtainedAt: int,
    unused: nat, config: Config
  ): System {
    var after := if stale then Joined(system, KeyFor(request, config), Widened(request, config), unused) else system;
    after.(
      asks := after.asks[id := Ask(request, Served)],
      answers := after.answers +
        [FromCache(id, request, AnswerFor(series, request, stale), stale, system.now, obtainedAt)])
  }

  function DecideNext(system: System, id: nat, unused: nat, config: Config): System
    requires id in system.asks && system.asks[id].phase.Looking?
  {
    var request, found := system.asks[id].request, system.asks[id].phase.found;
    var live := Live(found, system.now);
    if live.None? then MissNext(system, id, request, unused, config)
    else
      ServeNext(system, id, request, live.value, system.now >= found.value.freshUntil, found.value.storedAt, unused, config)
  }

  function SourceNext(system: System, id: nat, result: SeriesResult): System
    requires id in system.calls && system.calls[id].phase.Outbound?
  {
    var call := system.calls[id];
    if result.Err? then system.(calls := system.calls[id := call.(phase := Settling(result, system.now))])
    else system.(
      calls := system.calls[id := call.(phase := Storing(result.value, system.now))],
      log := system.log + {Logged(call.key, call.outbound, result.value, system.now)})
  }

  function StoreNext(system: System, id: nat, kept: bool, config: Config): System
    requires id in system.calls && system.calls[id].phase.Storing? && config.Valid()
  {
    var call := system.calls[id];
    system.(
      cache := if kept then system.cache[call.key := RecordOf(call.phase.series, call.phase.at, config)] else system.cache,
      calls := system.calls[id := call.(phase := Settling(Ok(call.phase.series), call.phase.at))])
  }

  function FinishNext(system: System, id: nat): System
    requires id in system.calls && system.calls[id].phase.Settling?
  {
    var call := system.calls[id];
    system.(running := system.running - {call.key}, calls := system.calls[id := call.(phase := Settled(call.phase.result, call.phase.at))])
  }

  function Delivered(outcome: SeriesResult, request: SeriesRequest): SeriesResult {
    if outcome.Ok? then Ok(AnswerFor(outcome.value, request, false)) else outcome
  }

  function DeliverNext(system: System, id: nat): System
    requires id in system.asks && system.asks[id].phase.Waiting?
    requires system.asks[id].phase.call in system.calls && system.calls[system.asks[id].phase.call].phase.Settled?
  {
    var request := system.asks[id].request;
    var settled := system.calls[system.asks[id].phase.call].phase;
    system.(
      asks := system.asks[id := Ask(request, Served)],
      answers := system.answers +
        [FromCall(id, request, Delivered(settled.outcome, request), system.now, settled.at)])
  }

  /** A step that is not enabled leaves everything as it was. */
  function Next(system: System, event: Event, config: Config): System
    requires config.Valid()
  {
    match event
    case Tick(to) => if to >= system.now then system.(now := to) else system
    case Evict(key) => system.(cache := system.cache - {key})
    case Lookup(id, request, cacheAnswers) =>
      if id in system.asks then system else LookupNext(system, id, request, cacheAnswers, config)
    case Decide(id, unused) =>
      if id in system.asks && system.asks[id].phase.Looking? && unused !in system.calls
      then DecideNext(system, id, unused, config) else system
    case SourceAnswers(id, result) =>
      if id in system.calls && system.calls[id].phase.Outbound? then SourceNext(system, id, result) else system
    case Store(id, kept) =>
      if id in system.calls && system.calls[id].phase.Storing? then StoreNext(system, id, kept, config) else system
    case Finish(id) =>
      if id in system.calls && system.calls[id].phase.Settling? then FinishNext(system, id) else system
    case Deliver(id) =>
      if id in system.asks && system.asks[id].phase.Waiting?
        && system.asks[id].phase.call in system.calls && system.calls[system.asks[id].phase.call].phase.Settled?
      then DeliverNext(system, id) else system
  }

  function After(events: seq<Event>, config: Config): System
    requires config.Valid()
  {
    if events == [] then EMPTY else Next(After(events[..|events| - 1], config), events[|events| - 1], config)
  }

  /* ---- the invariant ---- */

  /** A record that was made of an answer the source gave to this key. */
  ghost predicate Backed(record: Record, key: SeriesKey, log: set<Logged>, config: Config)
    requires config.Valid()
  {
    exists entry :: entry in log && entry.key == key && record == RecordOf(entry.series, entry.at, config)
  }

  ghost predicate Answered(series: WeatherSeries, key: SeriesKey, at: int, log: set<Logged>) {
    exists entry :: entry in log && entry.key == key && entry.series == series && entry.at == at
  }

  ghost predicate CacheBacked(system: System, config: Config)
    requires config.Valid()
  {
    forall key :: key in system.cache ==> Backed(system.cache[key], key, system.log, config)
  }

  ghost predicate AskSound(ask: Ask, system: System, config: Config)
    requires config.Valid()
  {
    match ask.phase
    case Looking(found) => found.Some? ==> Backed(found.value, KeyFor(ask.request, config), system.log, config)
    case Waiting(call) => call in system.calls && system.calls[call].key == KeyFor(ask.request, config)
    case Served => true
  }

  ghost predicate AsksSound(system: System, config: Config)
    requires config.Valid()
  {
    forall id :: id in system.asks ==> AskSound(system.asks[id], system, config)
  }

  ghost predicate CallSound(call: Call, log: set<Logged>) {
    match call.phase
    case Outbound => true
    case Storing(series, at) => Logged(call.key, call.outbound, series, at) in log
    case Settling(result, at) => result.Ok? ==> Answered(result.value, call.key, at, log)
    case Settled(outcome, at) => outcome.Ok? ==> Answered(outcome.value, call.key, at, log)
  }

  ghost predicate CallsSound(system: System) {
    forall id :: id in system.calls ==> CallSound(system.calls[id], system.log)
  }

  /** The registry of running calls is exact: a key is registered exactly while its call is unsettled. */
  ghost predicate Registered(system: System) {
    && (forall key :: key in system.running ==>
          system.running[key] in system.calls && system.calls[system.running[key]].key == key
          && !system.calls[system.running[key]].phase.Settled?)
    && (forall id :: id in system.calls && !system.calls[id].phase.Settled? ==>
          system.calls[id].key in system.running && system.running[system.calls[id].key] == id)
  }

  /** What an answer claims, in terms of what the source really said. */
  ghost predicate AnswerSound(answer: Answer, log: set<Logged>, config: Config)
    requires config.Valid()
  {
    match answer
    case FromCache(_, _, _, _, _, _) => exists entry :: entry in log && CachedFrom(answer, entry, config)
    case FromCall(_, _, result, _, _) => result.Ok? ==> exists entry :: entry in log && CalledFrom(answer, entry, config)
  }

  ghost predicate CachedFrom(answer: Answer, entry: Logged, config: Config)
    requires config.Valid() && answer.FromCache?
  {
    && entry.key == KeyFor(answer.request, config)
    && answer.series == AnswerFor(entry.series, answer.request, answer.stale)
    && answer.obtainedAt == entry.at <= answer.at
    && answer.at - entry.at < config.lifetime.maxStaleSeconds * 1000
    && (answer.stale <==> answer.at >= FreshUntil(entry.at, config.lifetime.ttlSeconds))
  }

  ghost predicate CalledFrom(answer: Answer, entry: Logged, config: Config)
    requires answer.FromCall? && answer.result.Ok?
  {
    && entry.key == KeyFor(answer.request, config)
    && answer.result == Ok(AnswerFor(entry.series, answer.request, false))
    && answer.obtainedAt == entry.at <= answer.at
  }

  ghost predicate AnswersSound(system: System, config: Config)
    requires config.Valid()
  {
    forall k :: 0 <= k < |system.answers| ==> AnswerSound(system.answers[k], system.log, config)
  }

  ghost predicate LoggedInThePast(system: System) {
    forall entry :: entry in system.log ==> entry.at <= system.now
  }

  ghost predicate Invariant(system: System, config: Config)
    requires config.Valid()
  {
    && CacheBacked(system, config) && AsksSound(system, config) && CallsSound(system)
    && Registered(system) && AnswersSound(system, config) && LoggedInThePast(system)
  }

  /* ---- every step keeps it ---- */

  lemma {:induction false} BackedGrows(record: Record, key: SeriesKey, log: set<Logged>, more: set<Logged>, config: Config)
    requires config.Valid() && Backed(record, key, log, config) && log <= more
    ensures Backed(record, key, more, config)
  {
    var entry :| entry in log && entry.key == key && record == RecordOf(entry.series, entry.at, config);
    assert entry in more;
  }

  lemma {:induction false} AnsweredGrows(series: WeatherSeries, key: SeriesKey, at: int, log: set<Logged>, more: set<Logged>)
    requires Answered(series, key, at, log) && log <= more
    ensures Answered(series, key, at, more)
  {
    var entry :| entry in log && entry.key == key && entry.series == series && entry.at == at;
    assert entry in more;
  }

  lemma {:induction false} AnswerGrows(answer: Answer, log: set<Logged>, more: set<Logged>, config: Config)
    requires config.Valid() && AnswerSound(answer, log, config) && log <= more
    ensures AnswerSound(answer, more, config)
  {
    if answer.FromCache? {
      var entry :| entry in log && CachedFrom(answer, entry, config);
      assert entry in more;
    } else if answer.result.Ok? {
      var entry :| entry in log && CalledFrom(answer, entry, config);
      assert entry in more;
    }
  }

  /** A live record serves what the source said, within its age, and knows whether it is stale. */
  lemma {:induction false} LiveIsReal(id: nat, request: SeriesRequest, found: Record, system: System, config: Config)
    requires config.Valid() && Backed(found, KeyFor(request, config), system.log, config)
    requires LoggedInThePast(system) && Live(Some(found), system.now).Some?
    ensures var stale := system.now >= found.freshUntil;
      var series := AnswerFor(Live(Some(found), system.now).value, request, stale);
      AnswerSound(FromCache(id, request, series, stale, system.now, found.storedAt), system.log, config)
  {
    var entry :| entry in system.log && entry.key == KeyFor(request, config) && found == RecordOf(entry.series, entry.at, config);
    CodecRoundTrip(entry.series);
    var stale := system.now >= found.freshUntil;
    var series := AnswerFor(Live(Some(found), system.now).value, request, stale);
    assert CachedFrom(FromCache(id, request, series, stale, system.now, found.storedAt), entry, config);
  }

  lemma {:induction false} NewCallRegisters(system: System, key: SeriesKey, outbound: SeriesRequest, unused: nat)
    requires Registered(system) && CallsSound(system) && unused !in system.calls && key !in system.running
    ensures Registered(Joined(system, key, outbound, unused)) && CallsSound(Joined(system, key, outbound, unused))
  {
  }

  lemma {:induction false} JoinKeeps(system: System, key: SeriesKey, outbound: SeriesRequest, unused: nat, config: Config)
    requires config.Valid() && Invariant(system, config) && unused !in system.calls
    ensures var joined := Joined(system, key, outbound, unused);
      && Invariant(joined, config)
      && Flight(system, key, unused) in joined.calls && joined.calls[Flight(system, key, unused)].key == key
      && joined.asks == system.asks && joined.answers == system.answers && joined.log == system.log
  {
    if key !in system.running {
      NewCallRegisters(system, key, outbound, unused);
      var joined := Joined(system, key, outbound, unused);
      forall id | id in joined.asks ensures AskSound(joined.asks[id], joined, config) {
        assert AskSound(system.asks[id], system, config);
      }
    }
  }

  lemma {:induction false} AskMovesOn(system: System, id: nat, ask: Ask, more: seq<Answer>, config: Config)
    requires config.Valid() && Invariant(system, config) && AskSound(ask, system, config)
    requires forall k :: 0 <= k < |more| ==> AnswerSound(more[k], system.log, config)
    ensures Invariant(system.(asks := system.asks[id := ask], answers := system.answers + more), config)
  {
  }

  lemma {:induction false} MissKeeps(system: System, id: nat, request: SeriesRequest, unused: nat, config: Config)
    requires config.Valid() && Invariant(system, config) && unused !in system.calls
    ensures Invariant(MissNext(system, id, request, unused, config), config)
  {
    var key := KeyFor(request, config);
    JoinKeeps(system, key, Widened(request, config), unused, config);
    var joined := Joined(system, key, Widened(request, config), unused);
    AskMovesOn(joined, id, Ask(request, Waiting(Flight(system, key, unused))), [], config);
    assert joined.answers + [] == joined.answers;
  }

  lemma {:induction false} ServeKeeps(
    system: System, id: nat, request: SeriesRequest, series: WeatherSeries, stale: bool, obtainedAt: int,
    unused: nat, config: Config
  )
    requires config.Valid() && Invariant(system, config) && unused !in system.calls
    requires AnswerSound(
      FromCache(id, request, AnswerFor(series, request, stale), stale, system.now, obtainedAt), system.log, config)
    ensures Invariant(ServeNext(system, id, request, series, stale, obtainedAt, unused, config), config)
  {
    JoinKeeps(system, KeyFor(request, config), Widened(request, config), unused, config);
    var after := if stale then Joined(system, KeyFor(request, config), Widened(request, config), unused) else system;
    AskMovesOn(after, id, Ask(request, Served),
      [FromCache(id, request, AnswerFor(series, request, stale), stale, system.now, obtainedAt)], config);
  }

  lemma {:induction false} DecideKeeps(system: System, id: nat, unused: nat, config: Config)
    requires config.Valid() && Invariant(system, config) && unused !in system.calls
    requires id in system.asks && system.asks[id].phase.Looking?
    ensures Invariant(DecideNext(system, id, unused, config), config)
  {
    var request, found := system.asks[id].request, system.asks[id].phase.found;
    var live := Live(found, system.now);
    if live.None? {
      MissKeeps(system, id, request, unused, config);
    } else {
      assert AskSound(system.asks[id], system, config);
      HitKeeps(system, id, request, found.value, unused, config);
    }
  }

  lemma {:induction false} HitKeeps(system: System, id: nat, request: SeriesRequest, found: Record, unused: nat, config: Config)
    requires config.Valid() && Invariant(system, config) && unused !in system.calls
    requires Backed(found, KeyFor(request, config), system.log, config) && Live(Some(found), system.now).Some?
    ensures Invariant(ServeNext(system, id, request, Live(Some(found), system.now).value, system.now >= found.freshUntil,
      found.storedAt, unused, config), config)
  {
    LiveIsReal(id, request, found, system, config);
    ServeKeeps(system, id, request, Live(Some(found), system.now).value, system.now >= found.freshUntil, found.storedAt,
      unused, config);
  }

  lemma {:induction false} LogGrows(system: System, entry: Logged, config: Config)
    requires config.Valid() && Invariant(system, config) && entry.at <= system.now
    ensures Invariant(system.(log := system.log + {entry}), config)
  {
    var more := system.log + {entry};
    forall key | key in system.cache ensures Backed(system.cache[key], key, more, config) {
      BackedGrows(system.cache[key], key, system.log, more, config);
    }
    var next := system.(log := more);
    forall id | id in system.asks ensures AskSound(system.asks[id], next, config) {
      var ask := system.asks[id];
      assert AskSound(ask, system, config);
      if ask.phase.Looking? && ask.phase.found.Some? {
        BackedGrows(ask.phase.found.value, KeyFor(ask.request, config), system.log, more, config);
      }
    }
    forall id | id in system.calls ensures CallSound(system.calls[id], more) {
      CallGrows(system.calls[id], system.log, more);
    }
    forall k | 0 <= k < |system.answers| ensures AnswerSound(system.answers[k], more, config) {
      AnswerGrows(system.answers[k], system.log, more, config);
    }
  }

  lemma {:induction false} CallGrows(call: Call, log: set<Logged>, more: set<Logged>)
    requires CallSound(call, log) && log <= more
    ensures CallSound(call, more)
  {
    match call.phase
    case Outbound =>
    case Storing(_, _) =>
    case Settling(result, at) => if result.Ok? { AnsweredGrows(result.value, call.key, at, log, more); }
    case Settled(outcome, at) => if outcome.Ok? { AnsweredGrows(outcome.value, call.key, at, log, more); }
  }

  /** A call that moves on without settling stays registered. */
  lemma {:induction false} CallMovesOn(system: System, id: nat, phase: CallPhase, config: Config)
    requires config.Valid() && Invariant(system, config)
    requires id in system.calls && !system.calls[id].phase.Settled? && !phase.Settled?
    requires CallSound(system.calls[id].(phase := phase), system.log)
    ensures Invariant(system.(calls := system.calls[id := system.calls[id].(phase := phase)]), config)
  {
    var next := system.(calls := system.calls[id := system.calls[id].(phase := phase)]);
    forall a | a in next.asks ensures AskSound(next.asks[a], next, config) {
      assert AskSound(system.asks[a], system, config);
    }
  }

  lemma {:induction false} SourceKeeps(system: System, id: nat, result: SeriesResult, config: Config)
    requires config.Valid() && Invariant(system, config)
    requires id in system.calls && system.calls[id].phase.Outbound?
    ensures Invariant(SourceNext(system, id, result), config)
  {
    var call := system.calls[id];
    if result.Err? {
      CallMovesOn(system, id, Settling(result, system.now), config);
    } else {
      var entry := Logged(call.key, call.outbound, result.value, system.now);
      LogGrows(system, entry, config);
      CallMovesOn(system.(log := system.log + {entry}), id, Storing(result.value, system.now), config);
    }
  }

  lemma {:induction false} StoreKeeps(system: System, id: nat, kept: bool, config: Config)
    requires config.Valid() && Invariant(system, config)
    requires id in system.calls && system.calls[id].phase.Storing?
    ensures Invariant(StoreNext(system, id, kept, config), config)
  {
    var call := system.calls[id];
    var entry := Logged(call.key, call.outbound, call.phase.series, call.phase.at);
    assert CallSound(call, system.log);
    assert entry in system.log;
    CallMovesOn(system, id, Settling(Ok(call.phase.series), call.phase.at), config);
  }

  lemma {:induction false} FinishKeeps(system: System, id: nat, config: Config)
    requires config.Valid() && Invariant(system, config)
    requires id in system.calls && system.calls[id].phase.Settling?
    ensures Invariant(FinishNext(system, id), config)
  {
    var next := FinishNext(system, id);
    assert CallSound(system.calls[id], system.log);
    forall a | a in next.asks ensures AskSound(next.asks[a], next, config) {
      assert AskSound(system.asks[a], system, config);
    }
  }

  lemma {:induction false} DeliverKeeps(system: System, id: nat, config: Config)
    requires config.Valid() && Invariant(system, config)
    requires id in system.asks && system.asks[id].phase.Waiting?
    requires system.asks[id].phase.call in system.calls && system.calls[system.asks[id].phase.call].phase.Settled?
    ensures Invariant(DeliverNext(system, id), config)
  {
    var request := system.asks[id].request;
    var call := system.calls[system.asks[id].phase.call];
    assert AskSound(system.asks[id], system, config) && CallSound(call, system.log);
    var outcome, at := call.phase.outcome, call.phase.at;
    var answer := FromCall(id, request, Delivered(outcome, request), system.now, at);
    if outcome.Ok? {
      var entry :| entry in system.log && entry.key == call.key && entry.series == outcome.value && entry.at == at;
      assert CalledFrom(answer, entry, config);
    }
    AskMovesOn(system, id, Ask(request, Served), [answer], config);
  }

  lemma {:induction false} LookupKeeps(system: System, event: Event, config: Config)
    requires config.Valid() && Invariant(system, config) && event.Lookup?
    ensures Invariant(Next(system, event, config), config)
  {
    if event.ask !in system.asks {
      var key := KeyFor(event.request, config);
      var found := if event.cacheAnswers && key in system.cache then Some(system.cache[key]) else None;
      AskMovesOn(system, event.ask, Ask(event.request, Looking(found)), [], config);
      assert system.answers + [] == system.answers;
    }
  }

  lemma {:induction false} NextKeeps(system: System, event: Event, config: Config)
    requires config.Valid() && Invariant(system, config)
    ensures Invariant(Next(system, event, config), config)
  {
    match event
    case Tick(_) =>
    case Evict(_) =>
    case Lookup(_, _, _) => LookupKeeps(system, event, config);
    case Decide(id, unused) =>
      if id in system.asks && system.asks[id].phase.Looking? && unused !in system.calls {
        DecideKeeps(system, id, unused, config);
      }
    case SourceAnswers(id, result) =>
      if id in system.calls && system.calls[id].phase.Outbound? {
        SourceKeeps(system, id, result, config);
      }
    case Store(id, kept) =>
      if id in system.calls && system.calls[id].phase.Storing? {
        StoreKeeps(system, id, kept, config);
      }
    case Finish(id) =>
      if id in system.calls && system.calls[id].phase.Settling? {
        FinishKeeps(system, id, config);
      }
    case Deliver(id) =>
      if id in system.asks && system.asks[id].phase.Waiting?
        && system.asks[id].phase.call in system.calls && system.calls[system.asks[id].phase.call].phase.Settled?
      {
        DeliverKeeps(system, id, config);
      }
  }

  lemma {:induction false} AlwaysInvariant(events: seq<Event>, config: Config)
    requires config.Valid()
    ensures Invariant(After(events, config), config)
  {
    if events != [] {
      AlwaysInvariant(events[..|events| - 1], config);
      NextKeeps(After(events[..|events| - 1], config), events[|events| - 1], config);
    }
  }

  /* ---- what it means ---- */

  /**
   * In every interleaving, an answer is what the source really returned for
   * that key, sliced to the request. One from the cache is younger than the
   * greatest age at which it may be served, and says "stale" exactly when it
   * is past the boundary its freshness ended on.
   */
  lemma {:induction false} EveryAnswerIsTheSourcesOwn(events: seq<Event>, k: nat, config: Config)
    requires config.Valid() && k < |After(events, config).answers|
    ensures AnswerSound(After(events, config).answers[k], After(events, config).log, config)
  {
    AlwaysInvariant(events, config);
  }

  /** Nothing is in the cache but what a call that succeeded brought back; a failure is never remembered. */
  lemma {:induction false} OnlySuccessIsRemembered(events: seq<Event>, key: SeriesKey, config: Config)
    requires config.Valid() && key in After(events, config).cache
    ensures Backed(After(events, config).cache[key], key, After(events, config).log, config)
  {
    AlwaysInvariant(events, config);
  }

  /** At most one unsettled call per key, background refreshes included. */
  lemma {:induction false} OneCallPerKey(events: seq<Event>, a: nat, b: nat, config: Config)
    requires config.Valid()
    requires var calls := After(events, config).calls;
      a in calls && b in calls && !calls[a].phase.Settled? && !calls[b].phase.Settled? && calls[a].key == calls[b].key
    ensures a == b
  {
    AlwaysInvariant(events, config);
  }

  /** With staleness outlasting freshness, no record that is still fresh is refused as expired. */
  lemma {:induction false} FreshRecordsAreServable(events: seq<Event>, key: SeriesKey, now: int, config: Config)
    requires config.Valid() && config.lifetime.ttlSeconds <= config.lifetime.maxStaleSeconds
    requires key in After(events, config).cache && now < After(events, config).cache[key].freshUntil
    ensures now < After(events, config).cache[key].expiresAt
  {
    OnlySuccessIsRemembered(events, key, config);
    var record := After(events, config).cache[key];
    var entry :| entry in After(events, config).log && entry.key == key && record == RecordOf(entry.series, entry.at, config);
    FreshIsNeverExpired(entry.at, config.lifetime);
  }

  /* ---- which question an answer is an answer to ---- */

  /** What a call asks is what its key was made of. */
  ghost predicate Keyed(system: System) {
    && (forall id :: id in system.calls ==> system.calls[id].key == KeyOf(system.calls[id].outbound))
    && (forall entry :: entry in system.log ==> entry.key == KeyOf(entry.outbound))
  }

  lemma {:induction false} JoinKeepsKeyed(system: System, request: SeriesRequest, unused: nat, config: Config)
    requires config.Valid() && Keyed(system)
    ensures Keyed(Joined(system, KeyFor(request, config), Widened(request, config), unused))
  {
  }

  lemma {:induction false} DecideKeepsKeyed(system: System, id: nat, unused: nat, config: Config)
    requires config.Valid() && Keyed(system) && id in system.asks && system.asks[id].phase.Looking?
    ensures Keyed(DecideNext(system, id, unused, config))
  {
    JoinKeepsKeyed(system, system.asks[id].request, unused, config);
  }

  lemma {:induction false} CallStepsKeepKeyed(system: System, id: nat, config: Config)
    requires config.Valid() && Keyed(system) && id in system.calls
    ensures forall result :: system.calls[id].phase.Outbound? ==> Keyed(SourceNext(system, id, result))
    ensures forall kept :: system.calls[id].phase.Storing? ==> Keyed(StoreNext(system, id, kept, config))
    ensures system.calls[id].phase.Settling? ==> Keyed(FinishNext(system, id))
  {
  }

  lemma {:induction false} NextKeepsKeyed(system: System, event: Event, config: Config)
    requires config.Valid() && Keyed(system)
    ensures Keyed(Next(system, event, config))
  {
    match event
    case Decide(id, unused) =>
      if id in system.asks && system.asks[id].phase.Looking? {
        DecideKeepsKeyed(system, id, unused, config);
      }
    case SourceAnswers(id, _) => if id in system.calls { CallStepsKeepKeyed(system, id, config); }
    case Store(id, _) => if id in system.calls { CallStepsKeepKeyed(system, id, config); }
    case Finish(id) => if id in system.calls { CallStepsKeepKeyed(system, id, config); }
    case _ =>
  }

  lemma {:induction false} AlwaysKeyed(events: seq<Event>, config: Config)
    requires config.Valid()
    ensures Keyed(After(events, config))
  {
    if events != [] {
      AlwaysKeyed(events[..|events| - 1], config);
      NextKeepsKeyed(After(events[..|events| - 1], config), events[|events| - 1], config);
    }
  }

  /** A request no longer than what requests are widened to, which is what the configuration allows. */
  predicate Within(request: SeriesRequest, config: Config) {
    request.horizon.Rolling? ==> request.horizon.forecastDays <= Cap(config.wanted, config.declared)
  }

  /** A request as it leaves: within the limit, and not to be widened any further. */
  predicate Full(outbound: SeriesRequest, config: Config) {
    Within(outbound, config) && Widened(outbound, config) == outbound
  }

  ghost predicate LookupsWithin(events: seq<Event>, config: Config) {
    forall i :: 0 <= i < |events| && events[i].Lookup? ==> Within(events[i].request, config)
  }

  ghost predicate InRange(system: System, config: Config) {
    && (forall id :: id in system.asks ==> Within(system.asks[id].request, config))
    && (forall id :: id in system.calls ==> Full(system.calls[id].outbound, config))
    && (forall entry :: entry in system.log ==> Full(entry.outbound, config))
    && (forall k :: 0 <= k < |system.answers| ==> Within(system.answers[k].request, config))
  }

  lemma {:induction false} WidenedIsFull(request: SeriesRequest, config: Config)
    requires Within(request, config)
    ensures Full(Widened(request, config), config)
  {
  }

  lemma {:induction false} JoinKeepsInRange(system: System, key: SeriesKey, outbound: SeriesRequest, unused: nat, config: Config)
    requires InRange(system, config) && Full(outbound, config)
    ensures InRange(Joined(system, key, outbound, unused), config)
  {
  }

  lemma {:induction false} AskKeepsInRange(system: System, id: nat, ask: Ask, more: seq<Answer>, config: Config)
    requires InRange(system, config) && Within(ask.request, config)
    requires forall k :: 0 <= k < |more| ==> Within(more[k].request, config)
    ensures InRange(system.(asks := system.asks[id := ask], answers := system.answers + more), config)
  {
  }

  lemma {:induction false} DecideKeepsInRange(system: System, id: nat, unused: nat, config: Config)
    requires config.Valid() && InRange(system, config) && id in system.asks && system.asks[id].phase.Looking?
    ensures InRange(DecideNext(system, id, unused, config), config)
  {
    var request, found := system.asks[id].request, system.asks[id].phase.found;
    var key, outbound := KeyFor(request, config), Widened(request, config);
    WidenedIsFull(request, config);
    JoinKeepsInRange(system, key, outbound, unused, config);
    var live := Live(found, system.now);
    var joined := Joined(system, key, outbound, unused);
    if live.None? {
      AskKeepsInRange(joined, id, Ask(request, Waiting(Flight(system, key, unused))), [], config);
      assert joined.answers + [] == joined.answers;
    } else {
      var stale := system.now >= found.value.freshUntil;
      AskKeepsInRange(if stale then joined else system, id, Ask(request, Served),
        [FromCache(id, request, AnswerFor(live.value, request, stale), stale, system.now, found.value.storedAt)], config);
    }
  }

  lemma {:induction false} SourceKeepsInRange(system: System, id: nat, result: SeriesResult, config: Config)
    requires InRange(system, config) && id in system.calls && system.calls[id].phase.Outbound?
    ensures InRange(SourceNext(system, id, result), config)
  {
  }

  lemma {:induction false} NextKeepsInRange(system: System, event: Event, config: Config)
    requires config.Valid() && InRange(system, config) && (event.Lookup? ==> Within(event.request, config))
    ensures InRange(Next(system, event, config), config)
  {
    match event
    case Decide(id, unused) =>
      if id in system.asks && system.asks[id].phase.Looking? && unused !in system.calls {
        DecideKeepsInRange(system, id, unused, config);
      }
    case SourceAnswers(id, result) =>
      if id in system.calls && system.calls[id].phase.Outbound? {
        SourceKeepsInRange(system, id, result, config);
      }
    case _ =>
  }

  lemma {:induction false} AlwaysInRange(events: seq<Event>, config: Config)
    requires config.Valid() && LookupsWithin(events, config)
    ensures InRange(After(events, config), config)
  {
    if events != [] {
      AlwaysInRange(events[..|events| - 1], config);
      NextKeepsInRange(After(events[..|events| - 1], config), events[|events| - 1], config);
    }
  }

  /** The entry an answer was made of, and the question that was put for it. */
  ghost predicate AnswersTheQuestion(answer: Answer, entry: Logged, config: Config) {
    && entry.at == answer.obtainedAt
    && answer.Result() == Ok(AnswerFor(entry.series, answer.request, answer.FromCache? && answer.stale))
    && QuestionOf(entry.outbound) == QuestionOf(Widened(answer.request, config))
  }

  /**
   * While no request exceeds what requests are widened to, every answer is made
   * of a call that put the very question of its own request, whoever made it.
   */
  lemma {:induction false} EveryAnswerPutItsQuestion(events: seq<Event>, k: nat, config: Config)
    requires config.Valid() && LookupsWithin(events, config)
    requires k < |After(events, config).answers| && After(events, config).answers[k].Result().Ok?
    ensures var system := After(events, config);
      exists entry :: entry in system.log && AnswersTheQuestion(system.answers[k], entry, config)
  {
    var system := After(events, config);
    var answer := system.answers[k];
    AlwaysInvariant(events, config);
    AlwaysKeyed(events, config);
    AlwaysInRange(events, config);
    assert AnswerSound(answer, system.log, config);
    var entry :| entry in system.log &&
      if answer.FromCache? then CachedFrom(answer, entry, config) else CalledFrom(answer, entry, config);
    assert Full(entry.outbound, config) && entry.key == KeyOf(entry.outbound);
    SharedEntriesAreTransparent(entry.outbound, answer.request, config.wanted, config.declared);
    assert AnswersTheQuestion(answer, entry, config);
  }

  /* ---- what a decision sets going ---- */

  predicate CanDecide(system: System, id: nat, unused: nat) {
    id in system.asks && system.asks[id].phase.Looking? && unused !in system.calls
  }

  /**
   * A call for the request is under way afterwards: the one in flight before,
   * with nothing else begun, or a new one that takes the widened request out.
   */
  ghost predicate CallUnderWay(before: System, after: System, request: SeriesRequest, unused: nat, config: Config) {
    var key := KeyFor(request, config);
    && key in after.running && after.running[key] in after.calls
    && after.calls[after.running[key]].key == key && !after.calls[after.running[key]].phase.Settled?
    && if key in before.running then after.running == before.running && after.calls == before.calls
       else
         && after.running == before.running[key := unused]
         && after.calls == before.calls[unused := Call(key, Widened(request, config), Outbound)]
  }

  /** A record is answered from as long as it has not expired and can still be read. */
  predicate Servable(found: Option<Record>, now: int) {
    found.Some? && now < found.value.expiresAt && Decode(found.value.payload).Some?
  }

  /** The record found is the answer; stale, it also sets a call going that nobody waits for, and fresh it does not. */
  ghost predicate ServedAndRefreshed(before: System, after: System, id: nat, found: Record, unused: nat, config: Config)
    requires id in before.asks && Servable(Some(found), before.now)
  {
    var request, stale := before.asks[id].request, before.now >= found.freshUntil;
    var series := AnswerFor(Decode(found.payload).value, request, stale);
    && after.asks == before.asks[id := Ask(request, Served)]
    && after.answers == before.answers + [FromCache(id, request, series, stale, before.now, found.storedAt)]
    && (stale ==> CallUnderWay(before, after, request, unused, config))
    && (!stale ==> after.calls == before.calls && after.running == before.running)
  }

  /** Nothing is answered, and the ask waits for the call under way for its key. */
  ghost predicate WaitsForTheCall(before: System, after: System, id: nat, unused: nat, config: Config)
    requires id in before.asks
  {
    var request := before.asks[id].request;
    && after.answers == before.answers && CallUnderWay(before, after, request, unused, config)
    && after.asks == before.asks[id := Ask(request, Waiting(after.running[KeyFor(request, config)]))]
  }

  lemma {:induction false} JoinIsUnderWay(system: System, request: SeriesRequest, unused: nat, config: Config)
    requires config.Valid() && Invariant(system, config) && unused !in system.calls
    ensures var joined := Joined(system, KeyFor(request, config), Widened(request, config), unused);
      && CallUnderWay(system, joined, request, unused, config)
      && joined.running[KeyFor(request, config)] == Flight(system, KeyFor(request, config), unused)
  {
  }

  lemma {:induction false} ServedIsExact(system: System, id: nat, unused: nat, config: Config)
    requires config.Valid() && Invariant(system, config) && CanDecide(system, id, unused)
    requires Servable(system.asks[id].phase.found, system.now)
    ensures ServedAndRefreshed(
      system, DecideNext(system, id, unused, config), id, system.asks[id].phase.found.value, unused, config)
  {
    JoinIsUnderWay(system, system.asks[id].request, unused, config);
  }

  lemma {:induction false} WaitingIsExact(system: System, id: nat, unused: nat, config: Config)
    requires config.Valid() && Invariant(system, config) && CanDecide(system, id, unused)
    requires !Servable(system.asks[id].phase.found, system.now)
    ensures WaitsForTheCall(system, DecideNext(system, id, unused, config), id, unused, config)
  {
    JoinIsUnderWay(system, system.asks[id].request, unused, config);
  }

  /**
   * A decision in any run: what can be served is served at once, and once it is
   * past its freshness a call for it is under way afterwards; while it is fresh
   * nothing goes out. What cannot be served waits for the call of its key.
   */
  lemma {:induction false} DecisionsAreExact(events: seq<Event>, id: nat, unused: nat, config: Config)
    requires config.Valid() && CanDecide(After(events, config), id, unused)
    ensures var before, after := After(events, config), Next(After(events, config), Decide(id, unused), config);
      var found := before.asks[id].phase.found;
      if Servable(found, before.now) then ServedAndRefreshed(before, after, id, found.value, unused, config)
      else WaitsForTheCall(before, after, id, unused, config)
  {
    var before := After(events, config);
    AlwaysInvariant(events, config);
    assert Next(before, Decide(id, unused), config) == DecideNext(before, id, unused, config);
    if Servable(before.asks[id].phase.found, before.now) {
      ServedIsExact(before, id, unused, config);
    } else {
      WaitingIsExact(before, id, unused, config);
    }
  }

  /* ---- what was said is heard, and what was stored is found ---- */

  lemma {:induction false} AfterOneMore(events: seq<Event>, event: Event, config: Config)
    requires config.Valid()
    ensures After(events + [event], config) == Next(After(events, config), event, config)
  {
    assert (events + [event])[..|events|] == events;
  }

  /** What a call has heard from its source, and when; nothing while it is out. */
  function Heard(phase: CallPhase): Option<(SeriesResult, int)> {
    match phase
    case Outbound => None
    case Storing(series, at) => Some((Ok(series), at))
    case Settling(result, at) => Some((result, at))
    case Settled(outcome, at) => Some((outcome, at))
  }

  lemma {:induction false} HeardIsKept(system: System, event: Event, id: nat, config: Config)
    requires config.Valid() && id in system.calls && !system.calls[id].phase.Outbound?
    ensures id in Next(system, event, config).calls
    ensures Heard(Next(system, event, config).calls[id].phase) == Heard(system.calls[id].phase)
  {
    if event.Decide? {
      DecideLeavesCalls(system, event.ask, event.unused, id, config);
    }
  }

  lemma {:induction false} DecideLeavesCalls(system: System, ask: nat, unused: nat, id: nat, config: Config)
    requires config.Valid() && id in system.calls
    ensures var after := Next(system, Decide(ask, unused), config); id in after.calls && after.calls[id] == system.calls[id]
  {
  }

  lemma {:induction false} HeardForGood(events: seq<Event>, more: seq<Event>, id: nat, config: Config)
    requires config.Valid() && id in After(events, config).calls && !After(events, config).calls[id].phase.Outbound?
    ensures id in After(events + more, config).calls
    ensures Heard(After(events + more, config).calls[id].phase) == Heard(After(events, config).calls[id].phase)
  {
    if more == [] {
      assert events + more == events;
    } else {
      var n := |more| - 1;
      HeardForGood(events, more[..n], id, config);
      assert events + more == events + more[..n] + [more[n]];
      AfterOneMore(events + more[..n], more[n], config);
      HeardIsKept(After(events + more[..n], config), more[n], id, config);
    }
  }

  /** A step in which the source answers the call, and one in which the call settles with it. */
  predicate SourceTold(system: System, id: nat) {
    id in system.calls && system.calls[id].phase.Outbound?
  }

  predicate Arrived(system: System, ask: nat, call: nat) {
    ask in system.asks && system.asks[ask].phase == Waiting(call) && call in system.calls && system.calls[call].phase.Settled?
  }

  /**
   * Whoever waits for a call hears what its source said, a failure as it was
   * told and a success cut to the request, however much happens in between.
   */
  lemma {:induction false} EveryWaiterHearsTheSource(
    events: seq<Event>, call: nat, result: SeriesResult, more: seq<Event>, ask: nat, config: Config
  )
    requires config.Valid() && SourceTold(After(events, config), call)
    requires Arrived(After(events + [SourceAnswers(call, result)] + more, config), ask, call)
    ensures var run := events + [SourceAnswers(call, result)] + more;
      var before, after := After(run, config), After(run + [Deliver(ask)], config);
      var request := before.asks[ask].request;
      var heard := if result.Ok? then Ok(AnswerFor(result.value, request, false)) else result;
      && after.answers == before.answers + [FromCall(ask, request, heard, before.now, After(events, config).now)]
      && after.asks == before.asks[ask := Ask(request, Served)]
  {
    var told := events + [SourceAnswers(call, result)];
    AfterOneMore(events, SourceAnswers(call, result), config);
    assert Heard(After(told, config).calls[call].phase) == Some((result, After(events, config).now));
    HeardForGood(told, more, call, config);
    AfterOneMore(told + more, Deliver(ask), config);
  }

  /** The five steps from an answer of the source to a later ask under the same key. */
  function Remembering(call: nat, series: WeatherSeries, to: int, ask: nat, request: SeriesRequest, unused: nat): seq<Event> {
    [SourceAnswers(call, Ok(series)), Store(call, true), Tick(to), Lookup(ask, request, true), Decide(ask, unused)]
  }

  lemma {:induction false} FiveSteps(events: seq<Event>, a: Event, b: Event, c: Event, d: Event, e: Event, config: Config)
    requires config.Valid()
    ensures After(events + [a, b, c, d, e], config)
      == Next(Next(Next(Next(Next(After(events, config), a, config), b, config), c, config), d, config), e, config)
  {
    AfterOneMore(events, a, config);
    AfterOneMore(events + [a], b, config);
    AfterOneMore(events + [a] + [b], c, config);
    AfterOneMore(events + [a] + [b] + [c], d, config);
    AfterOneMore(events + [a] + [b] + [c] + [d], e, config);
    assert events + [a, b, c, d, e] == events + [a] + [b] + [c] + [d] + [e];
  }

  lemma {:induction false} ToldIsAboutToBeStored(system: System, call: nat, series: WeatherSeries, config: Config)
    requires config.Valid() && SourceTold(system, call)
    ensures var after := Next(system, SourceAnswers(call, Ok(series)), config);
      && after.now == system.now && after.answers == system.answers && after.asks == system.asks
      && after.calls.Keys == system.calls.Keys
      && after.calls[call] == Call(system.calls[call].key, system.calls[call].outbound, Storing(series, system.now))
  {
  }

  lemma {:induction false} StoredIsInTheCache(system: System, call: nat, config: Config)
    requires config.Valid() && call in system.calls && system.calls[call].phase.Storing?
    ensures var after, phase := Next(system, Store(call, true), config), system.calls[call].phase;
      && after.now == system.now && after.answers == system.answers && after.asks == system.asks
      && after.calls.Keys == system.calls.Keys
      && after.cache == system.cache[system.calls[call].key := RecordOf(phase.series, phase.at, config)]
  {
  }

  lemma {:induction false} CachedIsFound(system: System, to: int, ask: nat, request: SeriesRequest, record: Record, config: Config)
    requires config.Valid() && ask !in system.asks && to >= system.now
    requires KeyFor(request, config) in system.cache && system.cache[KeyFor(request, config)] == record
    ensures var after := Next(Next(system, Tick(to), config), Lookup(ask, request, true), config);
      && after.now == to && after.answers == system.answers && after.calls == system.calls
      && after.asks == system.asks[ask := Ask(request, Looking(Some(record)))]
  {
  }

  lemma {:induction false} FoundIsServed(
    system: System, ask: nat, request: SeriesRequest, record: Record, series: WeatherSeries, unused: nat, config: Config
  )
    requires config.Valid() && ask in system.asks && system.asks[ask] == Ask(request, Looking(Some(record)))
    requires unused !in system.calls && Decode(record.payload) == Some(series)
    ensures var after, stale := Next(system, Decide(ask, unused), config), system.now >= record.freshUntil;
      if system.now < record.expiresAt then
        after.answers == system.answers +
          [FromCache(ask, request, AnswerFor(series, request, stale), stale, system.now, record.storedAt)]
      else after.answers == system.answers && ask in after.asks && after.asks[ask].phase.Waiting?
  {
    assert Live(Some(record), system.now) == if system.now < record.expiresAt then Some(series) else None;
  }

  /**
   * What was stored is answered from: a request with the key of an answer the
   * source gave and the cache took is served with it until it expires, as
   * stale from the boundary of its freshness on, and after that waits for a call.
   */
  lemma {:induction false} WhatWasStoredIsServed(
    events: seq<Event>, call: nat, series: WeatherSeries, to: int, ask: nat, request: SeriesRequest, unused: nat, config: Config
  )
    requires config.Valid() && Aligned(series) && series.provenance != []
    requires SourceTold(After(events, config), call) && After(events, config).calls[call].key == KeyFor(request, config)
    requires ask !in After(events, config).asks && unused !in After(events, config).calls && to >= After(events, config).now
    ensures var before, after :=
        After(events, config), After(events + Remembering(call, series, to, ask, request, unused), config);
      var stale := to >= FreshUntil(before.now, config.lifetime.ttlSeconds);
      if to - before.now < config.lifetime.maxStaleSeconds * 1000 then
        after.answers == before.answers +
          [FromCache(ask, request, AnswerFor(series, request, stale), stale, to, before.now)]
      else
        after.answers == before.answers && ask in after.asks && after.asks[ask].phase.Waiting?
  {
    var before := After(events, config);
    FiveSteps(events, SourceAnswers(call, Ok(series)), Store(call, true), Tick(to), Lookup(ask, request, true),
      Decide(ask, unused), config);
    var told := Next(before, SourceAnswers(call, Ok(series)), config);
    ToldIsAboutToBeStored(before, call, series, config);
    var stored, record := Next(told, Store(call, true), config), RecordOf(series, before.now, config);
    StoredIsInTheCache(told, call, config);
    CachedIsFound(stored, to, ask, request, record, config);
    CodecRoundTrip(series);
    FoundIsServed(Next(Next(stored, Tick(to), config), Lookup(ask, request, true), config),
      ask, request, record, series, unused, config);
  }

  /* ---- what a step can do to what was there before ---- */

  /** A call keeps its question, and the moment the source answered it. */
  ghost predicate CallFollows(call: Call, after: Call, now: int) {
    && after.key == call.key && after.outbound == call.outbound
    && match call.phase
       case Outbound => after.phase.Outbound? || ((after.phase.Storing? || after.phase.Settling?) && after.phase.at == now)
       case Storing(_, at) => after.phase == call.phase || (after.phase.Settling? && after.phase.at == at)
       case Settling(_, at) => after.phase == call.phase || (after.phase.Settled? && after.phase.at == at)
       case Settled(_, _) => after.phase == call.phase
  }

  /** An answer is given to an ask that was open and is served now, and says when it was given and when obtained. */
  ghost predicate AnswerFollows(system: System, after: System, answer: Answer) {
    && answer.ask in system.asks && answer.ask in after.asks && after.asks[answer.ask].phase.Served?
    && answer.at == system.now
    && match system.asks[answer.ask].phase
       case Looking(_) => true
       case Waiting(call) => call in system.calls && system.calls[call].phase.Settled? && answer.obtainedAt == system.calls[call].phase.at
       case Served => false
  }

  ghost predicate Follows(system: System, after: System) {
    && after.now >= system.now && system.log <= after.log
    && (forall id :: id in system.calls ==> id in after.calls && CallFollows(system.calls[id], after.calls[id], system.now))
    && (forall id :: id in system.asks ==> id in after.asks && AskFollows(system, after, id))
    && (after.answers == system.answers ||
         (|after.answers| == |system.answers| + 1 && system.answers <= after.answers &&
           AnswerFollows(system, after, after.answers[|system.answers|])))
  }

  /** An ask that waits goes on waiting for the same call until it is served; one that was served stays so. */
  ghost predicate AskFollows(system: System, after: System, id: nat)
    requires id in system.asks && id in after.asks
  {
    match system.asks[id].phase
    case Looking(_) => true
    case Waiting(_) => after.asks[id].phase == system.asks[id].phase || after.asks[id].phase.Served?
    case Served => after.asks[id].phase.Served?
  }

  lemma {:induction false} LookupFollows(system: System, id: nat, request: SeriesRequest, cacheAnswers: bool, config: Config)
    requires id !in system.asks
    ensures Follows(system, LookupNext(system, id, request, cacheAnswers, config))
  {
  }

  lemma {:induction false} JoinFollows(system: System, key: SeriesKey, outbound: SeriesRequest, unused: nat)
    requires unused !in system.calls
    ensures Follows(system, Joined(system, key, outbound, unused))
  {
  }

  /** Only one open ask changes, and at most one answer to it is added. */
  lemma {:induction false} AskStepFollows(system: System, joined: System, id: nat, ask: Ask, more: seq<Answer>)
    requires Follows(system, joined) && joined.asks == system.asks && joined.answers == system.answers
    requires id in system.asks && system.asks[id].phase.Looking? && |more| <= 1
    requires more != [] ==> more[0].ask == id && more[0].at == system.now && ask.phase.Served?
    ensures Follows(system, joined.(asks := joined.asks[id := ask], answers := joined.answers + more))
  {
  }

  lemma {:induction false} DecideFollows(system: System, id: nat, unused: nat, config: Config)
    requires config.Valid() && unused !in system.calls && id in system.asks && system.asks[id].phase.Looking?
    ensures Follows(system, DecideNext(system, id, unused, config))
  {
    var request, found := system.asks[id].request, system.asks[id].phase.found;
    var key, outbound := KeyFor(request, config), Widened(request, config);
    var joined := Joined(system, key, outbound, unused);
    JoinFollows(system, key, outbound, unused);
    var live := Live(found, system.now);
    if live.None? {
      AskStepFollows(system, joined, id, Ask(request, Waiting(Flight(system, key, unused))), []);
      assert joined.answers + [] == joined.answers;
    } else {
      var stale := system.now >= found.value.freshUntil;
      AskStepFollows(system, if stale then joined else system, id, Ask(request, Served),
        [FromCache(id, request, AnswerFor(live.value, request, stale), stale, system.now, found.value.storedAt)]);
    }
  }

  /** A call takes its next phase, and nothing that is there already is lost. */
  lemma {:induction false} CallStepFollows(system: System, after: System, id: nat, phase: CallPhase)
    requires id in system.calls && CallFollows(system.calls[id], system.calls[id].(phase := phase), system.now)
    requires after.now == system.now && system.log <= after.log
    requires after.asks == system.asks && after.answers == system.answers
    requires after.calls == system.calls[id := system.calls[id].(phase := phase)]
    ensures Follows(system, after)
  {
    assert forall other :: other in system.calls && other != id ==> after.calls[other] == system.calls[other];
  }

  lemma {:induction false} SourceFollows(system: System, id: nat, result: SeriesResult)
    requires id in system.calls && system.calls[id].phase.Outbound?
    ensures Follows(system, SourceNext(system, id, result))
  {
    CallStepFollows(system, SourceNext(system, id, result), id,
      if result.Err? then Settling(result, system.now) else Storing(result.value, system.now));
  }

  lemma {:induction false} StoreFollows(system: System, id: nat, kept: bool, config: Config)
    requires config.Valid() && id in system.calls && system.calls[id].phase.Storing?
    ensures Follows(system, StoreNext(system, id, kept, config))
  {
    var was := system.calls[id].phase;
    CallStepFollows(system, StoreNext(system, id, kept, config), id, Settling(Ok(was.series), was.at));
  }

  lemma {:induction false} FinishFollows(system: System, id: nat)
    requires id in system.calls && system.calls[id].phase.Settling?
    ensures Follows(system, FinishNext(system, id))
  {
    var was := system.calls[id].phase;
    CallStepFollows(system, FinishNext(system, id), id, Settled(was.result, was.at));
  }

  lemma {:induction false} DeliverFollows(system: System, id: nat)
    requires id in system.asks && system.asks[id].phase.Waiting?
    requires system.asks[id].phase.call in system.calls && system.calls[system.asks[id].phase.call].phase.Settled?
    ensures Follows(system, DeliverNext(system, id))
  {
  }

  lemma {:induction false} NextFollows(system: System, event: Event, config: Config)
    requires config.Valid()
    ensures Follows(system, Next(system, event, config))
  {
    match event
    case Tick(_) =>
    case Evict(_) =>
    case Lookup(id, request, cacheAnswers) =>
      if id !in system.asks {
        LookupFollows(system, id, request, cacheAnswers, config);
      }
    case Decide(id, unused) =>
      if id in system.asks && system.asks[id].phase.Looking? && unused !in system.calls {
        DecideFollows(system, id, unused, config);
      }
    case SourceAnswers(id, result) =>
      if id in system.calls && system.calls[id].phase.Outbound? {
        SourceFollows(system, id, result);
      }
    case Store(id, kept) =>
      if id in system.calls && system.calls[id].phase.Storing? {
        StoreFollows(system, id, kept, config);
      }
    case Finish(id) =>
      if id in system.calls && system.calls[id].phase.Settling? {
        FinishFollows(system, id);
      }
    case Deliver(id) =>
      if id in system.asks && system.asks[id].phase.Waiting?
        && system.asks[id].phase.call in system.calls && system.calls[system.asks[id].phase.call].phase.Settled?
      {
        DeliverFollows(system, id);
      }
  }
}
