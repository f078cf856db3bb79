/** Which requests share a cache entry, how long it lives, and how it crosses the process boundary. */
module CacheKeys {
  import opened Prelude
  import opened Metrics
  import opened Series

  datatype Coordinates = Coordinates(latitude: real, longitude: real)

  datatype Horizon =
    | Rolling(forecastDays: int, pastDays: Option<int>)
    | Window(startDate: string, endDate: string)

  datatype SeriesRequest = SeriesRequest(
    capability: Capability,
    location: Coordinates,
    metrics: seq<MetricCode>,
    horizon: Horizon,
    timezone: string
  )

  /* ---- keys ---- */

  /** A coordinate on the grid of two decimals; the negative zero is folded away. */
  function RoundToGrid(x: real): int {
    if x < 0.0 then -((-x * 100.0 + 0.5).Floor) else (x * 100.0 + 0.5).Floor
  }

  /** A point falls in the cell whose centre is nearest, half a hundredth away at most, on either side of zero alike. */
  lemma {:induction false} CellIsNearest(x: real)
    ensures -0.5 <= x * 100.0 - RoundToGrid(x) as real <= 0.5
    ensures RoundToGrid(-x) == -RoundToGrid(x)
  {
  }

  /** Points that share a cell lie within a hundredth of each other, and cells keep the order of points. */
  lemma {:induction false} CellsAreSmall(x: real, y: real)
    ensures RoundToGrid(x) == RoundToGrid(y) ==> -0.01 <= x - y <= 0.01
    ensures x <= y ==> RoundToGrid(x) <= RoundToGrid(y)
  {
    CellIsNearest(x);
    CellIsNearest(y);
  }

  datatype HorizonKey = DatedKey(startDate: string, endDate: string) | RollingKey | HistoryKey(forecastDays: int, pastDays: int)

  function HorizonKeyOf(horizon: Horizon): HorizonKey {
    match horizon
    case Window(startDate, endDate) => DatedKey(startDate, endDate)
    case Rolling(days, past) =>
      if past.None? || past.value == 0 then RollingKey else HistoryKey(days, past.value)
  }

  /** The metric list enters as the digest of its sorted, deduplicated names: a set, up to the digest. */
  datatype SeriesKey = SeriesKey(
    capability: Capability, latitude: int, longitude: int, metrics: set<MetricCode>, timezone: string, horizon: HorizonKey
  )

  function KeyOf(request: SeriesRequest): SeriesKey {
    SeriesKey(request.capability, RoundToGrid(request.location.latitude), RoundToGrid(request.location.longitude),
      ToSet(request.metrics), request.timezone, HorizonKeyOf(request.horizon))
  }

  /** A horizon that only reaches forward can be widened and sliced; history moves the origin. */
  predicate Sliceable(horizon: Horizon) {
    horizon.Rolling? && (horizon.pastDays.None? || horizon.pastDays.value <= 0)
  }

  function Larger(x: int, y: int): int {
    if x >= y then x else y
  }

  function Cap(wanted: int, declared: int): int {
    if wanted <= declared then wanted else declared
  }

  /** A request that only reaches forward is stretched to the configured horizon, or as far as its source goes. */
  function Widen(request: SeriesRequest, wanted: int, declared: int): SeriesRequest {
    if !Sliceable(request.horizon) then request
    else request.(horizon := request.horizon.(forecastDays := Larger(request.horizon.forecastDays, Cap(wanted, declared))))
  }

  /**
   * Widening only ever reaches further forward, up to what is wanted and the
   * source declares; it changes nothing else, and no request with days of
   * history or between two dates.
   */
  lemma {:induction false} WideningReachesForward(request: SeriesRequest, wanted: int, declared: int)
    ensures var wide := Widen(request, wanted, declared);
      && wide.(horizon := request.horizon) == request
      && match request.horizon
         case Window(_, _) => wide == request
         case Rolling(days, past) =>
           if past.Some? && past.value > 0 then wide == request
           else
             && wide.horizon.Rolling? && wide.horizon.pastDays == past
             && days <= wide.horizon.forecastDays && (wanted <= wide.horizon.forecastDays || declared <= wide.horizon.forecastDays)
             && (wide.horizon.forecastDays != days ==>
                   wide.horizon.forecastDays <= wanted && wide.horizon.forecastDays <= declared)
  {
  }

  /** The question a request puts to a source that answers by grid cell and by set of metrics. */
  datatype Question = Question(
    capability: Capability, latitude: int, longitude: int, metrics: set<MetricCode>, timezone: string, span: Span
  )

  datatype Span = Between(startDate: string, endDate: string) | Forward(days: int) | Around(days: int, pastDays: int)

  function SpanOf(horizon: Horizon): Span {
    match horizon
    case Window(startDate, endDate) => Between(startDate, endDate)
    case Rolling(days, past) => if past.None? || past.value == 0 then Forward(days) else Around(days, past.value)
  }

  function QuestionOf(request: SeriesRequest): Question {
    Question(request.capability, RoundToGrid(request.location.latitude), RoundToGrid(request.location.longitude),
      ToSet(request.metrics), request.timezone, SpanOf(request.horizon))
  }

  /** The days a request would be widened to, where its horizon only reaches forward. */
  function WidenedDays(request: SeriesRequest, wanted: int, declared: int): int {
    if SpanOf(request.horizon).Forward? then Larger(request.horizon.forecastDays, Cap(wanted, declared)) else 0
  }

  /**
   * Two requests that share an entry put the same question, exactly when they
   * are widened to the same number of days.
   */
  lemma {:induction false} SameKeySameQuestion(some: SeriesRequest, other: SeriesRequest, wanted: int, declared: int)
    requires KeyOf(Widen(some, wanted, declared)) == KeyOf(Widen(other, wanted, declared))
    ensures QuestionOf(Widen(some, wanted, declared)) == QuestionOf(Widen(other, wanted, declared))
      <==> WidenedDays(some, wanted, declared) == WidenedDays(other, wanted, declared)
  {
  }

  /** Within the configured maximum and the declared limit that is always so. */
  lemma {:induction false} SharedEntriesAreTransparent(some: SeriesRequest, other: SeriesRequest, wanted: int, declared: int)
    requires KeyOf(Widen(some, wanted, declared)) == KeyOf(Widen(other, wanted, declared))
    requires some.horizon.Rolling? ==> some.horizon.forecastDays <= Cap(wanted, declared)
    requires other.horizon.Rolling? ==> other.horizon.forecastDays <= Cap(wanted, declared)
    ensures QuestionOf(Widen(some, wanted, declared)) == QuestionOf(Widen(other, wanted, declared))
  {
    SameKeySameQuestion(some, other, wanted, declared);
  }

  /** Requests that differ only in how far forward they reach share one entry. */
  lemma {:induction false} LengthIsNotInTheKey(request: SeriesRequest, days: int, wanted: int, declared: int)
    requires SpanOf(request.horizon).Forward?
    ensures KeyOf(Widen(request.(horizon := request.horizon.(forecastDays := days)), wanted, declared))
      == KeyOf(Widen(request, wanted, declared))
  {
  }

  /** Past the maximum it can fail: a ten-day answer would be served for a sixteen-day question. */
  lemma {:induction false} LongRequestsShareTooMuch(request: SeriesRequest)
    requires request.horizon == Rolling(10, None)
    ensures var longer := request.(horizon := Rolling(16, None));
      && KeyOf(Widen(longer, 7, 16)) == KeyOf(Widen(request, 7, 16))
      && QuestionOf(Widen(longer, 7, 16)) != QuestionOf(Widen(request, 7, 16))
  {
    assert SpanOf(Widen(request, 7, 16).horizon) == Forward(10);
    assert SpanOf(Widen(request.(horizon := Rolling(16, None)), 7, 16).horizon) == Forward(16);
  }

  /* ---- lifetimes, in milliseconds ---- */

  datatype Lifetime = Lifetime(ttlSeconds: int, maxStaleSeconds: int)

  /** The next multiple of the lifetime after a moment. */
  function FreshUntil(now: int, ttlSeconds: int): int
    requires ttlSeconds > 0
  {
    var interval := ttlSeconds * 1000;
    now / interval * interval + interval
  }

  function ExpiresAt(obtainedAt: int, lifetime: Lifetime): int {
    obtainedAt + lifetime.maxStaleSeconds * 1000
  }

  /** Freshness ends on a boundary of the source's own interval, ahead of now and within one interval of it. */
  lemma {:induction false} FreshnessEndsOnTheBoundary(now: int, ttlSeconds: int)
    requires ttlSeconds > 0
    ensures now < FreshUntil(now, ttlSeconds) <= now + ttlSeconds * 1000
    ensures FreshUntil(now, ttlSeconds) % (ttlSeconds * 1000) == 0
  {
    var interval := ttlSeconds * 1000;
    var k := now / interval;
    assert now == k * interval + now % interval;
    assert FreshUntil(now, ttlSeconds) == (k + 1) * interval;
    MultipleOf(k + 1, interval);
  }

  lemma {:induction false} MultipleOf(k: int, interval: int)
    requires interval > 0
    ensures (k * interval) % interval == 0
  {
    var q := (k * interval) / interval;
    assert (k - q) * interval == (k * interval) % interval;
    NoMultipleBetween(k - q, interval);
  }

  lemma {:induction false} NoMultipleBetween(m: int, interval: int)
    requires interval > 0 && 0 <= m * interval < interval
    ensures m * interval == 0
  {
  }

  /** With staleness outlasting freshness, nothing fresh is ever expired. */
  lemma {:induction false} FreshIsNeverExpired(now: int, lifetime: Lifetime)
    requires 0 < lifetime.ttlSeconds <= lifetime.maxStaleSeconds
    ensures FreshUntil(now, lifetime.ttlSeconds) <= ExpiresAt(now, lifetime)
  {
    FreshnessEndsOnTheBoundary(now, lifetime.ttlSeconds);
  }

  /* ---- the codec ---- */

  /** A metric name as it comes back from text: one we know, or one we no longer do. */
  datatype RawCode = Known(code: MetricCode) | Foreign(name: string)

  datatype RawChannel = RawChannel(time: seq<string>, values: map<RawCode, seq<Slot>>)

  datatype RawProvenance = RawProvenance(entry: Provenance, metrics: seq<RawCode>)

  datatype Payload = Payload(hourly: RawChannel, daily: RawChannel, provenance: seq<RawProvenance>)

  function EncodeChannel(channel: Channel): RawChannel {
    RawChannel(channel.time, map raw: RawCode | raw in RawNames(channel.values.Keys) :: channel.values[raw.code])
  }

  function RawNames(codes: set<MetricCode>): (r: set<RawCode>)
    ensures forall raw :: raw in r <==> raw.Known? && raw.code in codes
  {
    set code | code in codes :: Known(code)
  }

  function EncodeProvenance(entry: Provenance): RawProvenance {
    RawProvenance(entry.(metrics := []), KnownNames(entry.metrics))
  }

  function KnownNames(codes: seq<MetricCode>): seq<RawCode> {
    seq(|codes|, i requires 0 <= i < |codes| => Known(codes[i]))
  }

  function Encode(series: WeatherSeries): Payload {
    Payload(EncodeChannel(series.hourly), EncodeChannel(series.daily),
      seq(|series.provenance|, i requires 0 <= i < |series.provenance| => EncodeProvenance(series.provenance[i])))
  }

  /** Unknown metrics are dropped; a known one that does not line up refuses the payload. */
  function DecodeChannel(raw: RawChannel): Option<Channel> {
    if exists name :: name in raw.values && name.Known? && |raw.values[name]| != |raw.time| then None
    else Some(Channel(raw.time, map code: MetricCode | Known(code) in raw.values :: raw.values[Known(code)]))
  }

  function KnownCode(raw: RawCode): seq<MetricCode> {
    if raw.Known? then [raw.code] else []
  }

  function DecodeProvenance(raw: RawProvenance): Provenance {
    raw.entry.(metrics := Collect(raw.metrics, KnownCode))
  }

  function Decode(payload: Payload): Option<WeatherSeries> {
    var hourly, daily := DecodeChannel(payload.hourly), DecodeChannel(payload.daily);
    if payload.provenance == [] || hourly.None? || daily.None? then None
    else Some(WeatherSeries(hourly.value, daily.value,
      seq(|payload.provenance|, i requires 0 <= i < |payload.provenance| => DecodeProvenance(payload.provenance[i]))))
  }

  lemma {:induction false} ChannelRoundTrip(channel: Channel)
    ensures DecodeChannel(EncodeChannel(channel)) == if AlignedChannel(channel) then Some(channel) else None
  {
    var raw := EncodeChannel(channel);
    forall m: MetricCode ensures Known(m) in raw.values <==> m in channel.values {
    }
    if AlignedChannel(channel) {
      var decoded := DecodeChannel(raw).value;
      assert decoded.values.Keys == channel.values.Keys;
      forall m | m in channel.values ensures decoded.values[m] == channel.values[m] {
        assert Known(m) in raw.values;
      }
      assert decoded.values == channel.values;
    } else {
      var m :| m in channel.values && |channel.values[m]| != |channel.time|;
      assert Known(m) in raw.values;
    }
  }

  lemma {:induction false} CodesRoundTrip(codes: seq<MetricCode>)
    ensures Collect(KnownNames(codes), KnownCode) == codes
  {
    if codes != [] {
      var n := |codes| - 1;
      CodesRoundTrip(codes[..n]);
      assert KnownNames(codes)[..n] == KnownNames(codes[..n]);
    }
  }

  /** What is read back is what was written, or a miss: and a miss exactly for what should never have been written. */
  lemma {:induction false} CodecRoundTrip(series: WeatherSeries)
    ensures Decode(Encode(series)) == if Aligned(series) && series.provenance != [] then Some(series) else None
  {
    ChannelRoundTrip(series.hourly);
    ChannelRoundTrip(series.daily);
    var payload := Encode(series);
    if Aligned(series) && series.provenance != [] {
      forall i | 0 <= i < |series.provenance|
        ensures DecodeProvenance(payload.provenance[i]) == series.provenance[i]
      {
        CodesRoundTrip(series.provenance[i].metrics);
      }
      assert Decode(payload).value.provenance == series.provenance;
    }
  }
}
