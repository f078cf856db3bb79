/** The cache decorator as it runs: its fields are the machine's state, its methods the machine's steps. */
module CachedSeries {
  import opened Prelude
  import opened Definitions
  import opened Series
  import opened DayWindows
  import opened Slicing
  import opened Engine
  import opened SliceTheorem
  import opened CacheKeys
  import opened CacheMachine

  /** The registry of calls in flight: whoever needs a key that is being fetched waits for that fetch. */
  class SingleFlight {
    var running: map<SeriesKey, nat>

    constructor ()
      ensures running == map[]
    {
      running := map[];
    }

    /** Joins the call in flight, or registers the one that was started. */
    method Run(key: SeriesKey, started: nat) returns (flight: nat, joined: bool)
      modifies this
      ensures joined == (key in old(running))
      ensures flight == (if joined then old(running)[key] else started)
      ensures running == old(running)[key := flight]
    {
      joined := key in running;
      flight := if joined then running[key] else started;
      running := running[key := flight];
    }

    method Settle(key: SeriesKey)
      modifies this
      ensures running == old(running) - {key}
    {
      running := running - {key};
    }
  }

  class CachedSeriesPort {
    const config: Config
    const flight: SingleFlight
    var now: int
    var cache: map<SeriesKey, Record>
    var calls: map<nat, Call>
    var asks: map<nat, Ask>
    var answers: seq<Answer>
    ghost var log: set<Logged>

    ghost function State(): System
      reads this, flight
    {
      System(now, cache, flight.running, calls, asks, log, answers)
    }

    constructor (config: Config)
      requires config.Valid()
      ensures this.config == config && fresh(flight) && State() == EMPTY
    {
      this.config := config;
      flight := new SingleFlight();
      now, cache, calls, asks, answers, log := 0, map[], map[], map[], [], {};
    }

    /** Joins or starts the call of a request; the call that starts goes out at once. */
    method Join(request: SeriesRequest, unused: nat) returns (call: nat)
      requires unused !in calls
      modifies this`calls, flight
      ensures State() == Joined(old(State()), KeyFor(request, config), Widened(request, config), unused)
      ensures call == Flight(old(State()), KeyFor(request, config), unused)
    {
      var key := KeyFor(request, config);
      ghost var before := flight.running;
      var joined;
      call, joined := flight.Run(key, unused);
      if joined {
        assert flight.running == before;
      } else {
        calls := calls[unused := Call(key, Widened(request, config), Outbound)];
      }
    }

    /** A fetch begins with a lookup; a cache that fails is a miss. */
    method Look(ask: nat, request: SeriesRequest, cacheAnswers: bool)
      requires ask !in asks && config.Valid()
      modifies this`asks
      ensures State() == Next(old(State()), Lookup(ask, request, cacheAnswers), config)
    {
      var key := KeyFor(request, config);
      asks := asks[ask := Ask(request, Looking(if cacheAnswers && key in cache then Some(cache[key]) else None))];
    }

    /** What is stored is the answer; when it is stale, a refresh is begun that nobody waits for. */
    method Serve(ask: nat, request: SeriesRequest, series: WeatherSeries, stale: bool, obtainedAt: int, unused: nat)
      requires unused !in calls
      modifies this`asks, this`answers, this`calls, flight
      ensures State() == ServeNext(old(State()), ask, request, series, stale, obtainedAt, unused, config)
    {
      if stale {
        var _ := Join(request, unused);
      }
      asks := asks[ask := Ask(request, Served)];
      answers := answers + [FromCache(ask, request, AnswerFor(series, request, stale), stale, now, obtainedAt)];
    }

    /** Nothing can be served: the fetch waits for the call of its key. */
    method Miss(ask: nat, request: SeriesRequest, unused: nat)
      requires unused !in calls
      modifies this`asks, this`calls, flight
      ensures State() == MissNext(old(State()), ask, request, unused, config)
    {
      var call := Join(request, unused);
      asks := asks[ask := Ask(request, Waiting(call))];
    }

    /** Fresh is a hit, stale is an answer and a refresh, anything else is a miss. */
    method DecideFetch(ask: nat, unused: nat)
      requires ask in asks && asks[ask].phase.Looking? && unused !in calls && config.Valid()
      modifies this`asks, this`answers, this`calls, flight
      ensures State() == Next(old(State()), Decide(ask, unused), config)
    {
      var request, found := asks[ask].request, asks[ask].phase.found;
      var live := Live(found, now);
      if live.Some? {
        Serve(ask, request, live.value, now >= found.value.freshUntil, found.value.storedAt, unused);
      } else {
        Miss(ask, request, unused);
      }
    }

    /** The source settles a call; a success is about to be written, a failure is not. */
    method Obtain(call: nat, result: SeriesResult)
      requires call in calls && calls[call].phase.Outbound? && config.Valid()
      modifies this`calls, this`log
      ensures State() == Next(old(State()), SourceAnswers(call, result), config)
    {
      var made := calls[call];
      if result.Ok? {
        log := log + {Logged(made.key, made.outbound, result.value, now)};
        calls := calls[call := made.(phase := Storing(result.value, now))];
      } else {
        calls := calls[call := made.(phase := Settling(result, now))];
      }
    }

    method Write(call: nat, kept: bool)
      requires call in calls && calls[call].phase.Storing? && config.Valid()
      modifies this`cache, this`calls
      ensures State() == Next(old(State()), Store(call, kept), config)
    {
      ghost var before := State();
      var made := calls[call];
      if kept {
        cache := cache[made.key := RecordOf(made.phase.series, made.phase.at, config)];
      }
      calls := calls[call := made.(phase := Settling(Ok(made.phase.series), made.phase.at))];
      assert State() == StoreNext(before, call, kept, config);
    }

    method Settle(call: nat)
      requires call in calls && calls[call].phase.Settling? && config.Valid()
      modifies this`calls, flight
      ensures State() == Next(old(State()), Finish(call), config)
    {
      var made := calls[call];
      flight.Settle(made.key);
      calls := calls[call := made.(phase := Settled(made.phase.result, made.phase.at))];
    }

    /** A waiting caller receives what its call settled with, sliced to its own request. */
    method Resolve(ask: nat)
      requires ask in asks && asks[ask].phase.Waiting? && config.Valid()
      requires asks[ask].phase.call in calls && calls[asks[ask].phase.call].phase.Settled?
      modifies this`asks, this`answers
      ensures State() == Next(old(State()), Deliver(ask), config)
    {
      var request := asks[ask].request;
      var settled := calls[asks[ask].phase.call].phase;
      answers := answers + [FromCall(ask, request, Delivered(settled.outcome, request), now, settled.at)];
      asks := asks[ask := Ask(request, Served)];
    }
  }

  /**
   * From the cache or from a call, stale or fresh, sliced or whole: an answer
   * scores, on every day it answers for, exactly as what the source returned.
   */
  lemma {:induction false} AnswersScoreAsTheSource(
    definition: Definition, series: WeatherSeries, request: SeriesRequest, stale: bool, date: string,
    profile: Profile, exp: real -> real
  )
    requires Aligned(series) && NoDerivedDaily(definition)
    requires date in DistinctDates(AnswerFor(series, request, stale).hourly.time)
    ensures var answer := AnswerFor(series, request, stale);
      ScoreActivity(definition, answer, WindowOn(answer, date), profile, exp)
        == ScoreActivity(definition, series, WindowOn(series, date), profile, exp)
  {
    if SpanOf(request.horizon).Forward? {
      var sliced := SliceToDays(series, request.horizon.forecastDays);
      ScoringIgnoresStaleness(definition, sliced, stale, date, profile, exp);
      ScoringCommutesWithSlicing(definition, series, request.horizon.forecastDays, date, profile, exp);
    } else {
      ScoringIgnoresStaleness(definition, series, stale, date, profile, exp);
    }
  }

  /**
   * An answer holds the days that were asked for and says how old it is: of a
   * horizon that only reaches forward the first so many days, in order, of any
   * other the whole, and every part of it marked alike.
   */
  lemma {:induction false} AnswersAreCutAndMarked(series: WeatherSeries, request: SeriesRequest, stale: bool)
    requires Aligned(series)
    requires |series.daily.time| > 0 ==> DistinctDates(series.daily.time) == DistinctDates(series.hourly.time)
    ensures var answer := AnswerFor(series, request, stale);
      && |answer.provenance| == |series.provenance|
      && (forall i :: 0 <= i < |answer.provenance| ==> answer.provenance[i].stale == stale)
      && (SpanOf(request.horizon).Forward? && request.horizon.forecastDays > 0 ==>
            var all, days := DistinctDates(series.hourly.time), request.horizon.forecastDays;
            DistinctDates(answer.hourly.time) == if days < |all| then all[..days] else all)
      && (!SpanOf(request.horizon).Forward? ==> answer.hourly == series.hourly && answer.daily == series.daily)
  {
    if SpanOf(request.horizon).Forward? {
      var sliced := SliceToDays(series, request.horizon.forecastDays);
      MarkedIsMarked(sliced, stale);
      if request.horizon.forecastDays > 0 {
        SliceAnswersTheFirstDays(series, request.horizon.forecastDays);
      }
    } else {
      MarkedIsMarked(series, stale);
    }
  }
}
