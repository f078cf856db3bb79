/** From the slots a metric has on a day to a number: which slots a strategy reads, and what it makes of them. */
module Aggregation {
  import opened Prelude
  import opened Metrics
  import opened Predicates
  import opened Definitions
  import opened Series
  import opened DayWindows
  import opened DerivedMetrics

  datatype AggregatedValue = AggregatedValue(value: real, unit: Unit, sampleCount: nat, missingCount: nat)

  /** What the program does not recover from: a lookup that throws, or a number that is not one. */
  datatype EngineFault =
    | NoAggregation(name: string)
    | UnreadableParams
    | NoNormalizer(name: string)
    | NotANumber

  predicate Registered(code: AggregationCode) {
    !code.UnknownAggregation?
  }

  /** Which channel a strategy reads. */
  function GranularityOf(code: AggregationCode): Granularity {
    if code.Identity? then Daily else Hourly
  }

  /** `None` keeps the metric's own unit. */
  function OutputUnit(code: AggregationCode): Option<Unit> {
    match code
    case ShareOfHours => Some(Ratio)
    case CountIf => Some(Hour)
    case _ => None
  }

  /** Whether the parameter schema of a strategy accepts what was written. */
  predicate ParamsAccepted(spec: AggregationSpec) {
    match spec.code
    case DaylightWindow => spec.params.reduce.Some?
    case ShareOfHours => CountingParamsAccepted(spec.params)
    case CountIf => CountingParamsAccepted(spec.params)
    case _ => true
  }

  predicate CountingParamsAccepted(params: AggregationParams) {
    params.test.Some? && WellShaped(params.test.value) && params.window.Some?
  }

  /** The values among the slots read, in order. */
  function Present(slots: seq<Slot>): (r: seq<real>)
    ensures |r| <= |slots|
  {
    if slots == [] then []
    else
      var n := |slots| - 1;
      Present(slots[..n]) + if slots[n].Some? then [slots[n].value] else []
  }

  function Greatest(xs: seq<real>): real
    requires xs != []
  {
    if |xs| == 1 then xs[0] else MaxReal(Greatest(xs[..|xs| - 1]), xs[|xs| - 1])
  }

  function Least(xs: seq<real>): real
    requires xs != []
  {
    if |xs| == 1 then xs[0] else MinReal(Least(xs[..|xs| - 1]), xs[|xs| - 1])
  }

  function Reduce(xs: seq<real>, reducer: Reducer): real
    requires xs != []
  {
    match reducer
    case MeanOf => Sum(xs) / |xs| as real
    case MaxOf => Greatest(xs)
    case MinOf => Least(xs)
    case SumOf => Sum(xs)
  }

  function ReduceOver(slots: seq<Slot>, unit: Unit, reducer: Reducer): Option<AggregatedValue> {
    var present := Present(slots);
    if present == [] then None
    else Some(AggregatedValue(Reduce(present, reducer), unit, |present|, |slots| - |present|))
  }

  /** How many of the values satisfy a predicate. */
  function Matching(xs: seq<real>, p: Predicate): (r: nat)
    ensures r <= |xs|
  {
    if xs == [] then 0
    else Matching(xs[..|xs| - 1], p) + if Evaluate(p, xs[|xs| - 1]) then 1 else 0
  }

  /** Which slots of its day a strategy reads. */
  datatype Reading = HourSlots | DaylightSlots | DailySlot

  function ReadingOf(spec: AggregationSpec): Reading {
    match spec.code
    case Identity => DailySlot
    case DaylightWindow => DaylightSlots
    case ShareOfHours => if spec.params.window == Some(Daylight) then DaylightSlots else HourSlots
    case CountIf => if spec.params.window == Some(Daylight) then DaylightSlots else HourSlots
    case _ => HourSlots
  }

  function IndexesRead(reading: Reading, window: DayWindow): seq<nat> {
    match reading
    case HourSlots => window.hourIndexes
    case DaylightSlots => window.daylightIndexes
    case DailySlot => if window.dailyIndex.Some? then [window.dailyIndex.value] else []
  }

  /** How many of the values found match, and of how many slots. */
  function CountOver(slots: seq<Slot>, test: Predicate, asShare: bool): Option<AggregatedValue> {
    var present := Present(slots);
    if present == [] then None
    else
      var matching := Matching(present, test) as real;
      Some(AggregatedValue(
        if asShare then matching / |present| as real else matching,
        if asShare then Ratio else Hour,
        |present|,
        |slots| - |present|))
  }

  /** The number a strategy makes of the slots it read. */
  function Collapse(spec: AggregationSpec, slots: seq<Slot>, unit: Unit): Result<Option<AggregatedValue>, EngineFault> {
    if !ParamsAccepted(spec) then Err(UnreadableParams)
    else
      match spec.code
      case Plain(reducer) => Ok(ReduceOver(slots, unit, reducer))
      case Identity => Ok(ReduceOver(slots, unit, MeanOf))
      case DaylightWindow => Ok(ReduceOver(slots, unit, spec.params.reduce.value))
      case ShareOfHours => Ok(CountOver(slots, spec.params.test.value, true))
      case CountIf => Ok(CountOver(slots, spec.params.test.value, false))
      case UnknownAggregation(name) => Err(NoAggregation(name))
  }

  /** The channel a metric is read from: derived metrics always come off the hourly one. */
  function ChannelFor(metric: Requirable, granularity: Granularity, series: WeatherSeries): Option<seq<Slot>> {
    match metric
    case Derived(derived) => DerivedChannel(derived, series)
    case Source(code) =>
      var channel := if granularity.Daily? then series.daily else series.hourly;
      if code in channel.values then Some(channel.values[code]) else None
  }

  function UnitOf(metric: Requirable): Unit {
    match metric
    case Source(code) => DictionaryEntry(code).unit
    case Derived(derived) => DerivedUnit(derived)
  }

  /** All that a strategy sees of a series: the slots of its day, or no channel at all. */
  function View(key: Key, series: WeatherSeries, window: DayWindow): Option<seq<Slot>> {
    var channel := ChannelFor(key.metric, GranularityOf(key.aggregation.code), series);
    if channel.None? then None
    else Some(Reads(channel.value, IndexesRead(ReadingOf(key.aggregation), window)))
  }

  /**
   * One aggregated quantity of one day. An absent channel is an absent value
   * before the parameters are looked at.
   */
  function Aggregate(key: Key, series: WeatherSeries, window: DayWindow): Result<Option<AggregatedValue>, EngineFault> {
    if key.aggregation.code.UnknownAggregation? then Err(NoAggregation(key.aggregation.code.name))
    else
      var view := View(key, series, window);
      if view.None? then Ok(None)
      else Collapse(key.aggregation, view.value, UnitOf(key.metric))
  }

  /** A derived metric read as if the daily axis carried it: what the load refuses. */
  predicate ReadsDerivedDaily(key: Key) {
    key.metric.Derived? && key.aggregation.code.Identity?
  }

  /** What no strategy but a sum can leave: the range its samples lie in. */
  lemma {:induction false} ReducedWithinRange(xs: seq<real>, reducer: Reducer, range: Range)
    requires xs != [] && !reducer.SumOf?
    requires forall i :: 0 <= i < |xs| ==> range.Holds(xs[i])
    ensures range.Holds(Reduce(xs, reducer))
  {
    SumWithin(xs, range);
    if reducer.MeanOf? {
      MeanWithin(Sum(xs), |xs| as real, range);
    }
  }

  lemma {:induction false} SumWithin(xs: seq<real>, range: Range)
    requires forall i :: 0 <= i < |xs| ==> range.Holds(xs[i])
    ensures range.low * |xs| as real <= Sum(xs) <= range.high * |xs| as real
    ensures xs != [] ==> range.Holds(Greatest(xs)) && range.Holds(Least(xs))
  {
    if xs != [] {
      var n := |xs| - 1;
      SumWithin(xs[..n], range);
    }
  }

  lemma {:induction false} MeanWithin(sum: real, n: real, range: Range)
    requires n >= 1.0 && range.low * n <= sum <= range.high * n
    ensures range.Holds(sum / n)
  {
    var mean := sum / n;
    assert mean * n == sum;
  }

  /** One pass over the slots of a window tells values from holes. */
  method SlotsOf(values: seq<Slot>, indexes: seq<nat>) returns (present: seq<real>, missingCount: nat)
    ensures present == Present(Reads(values, indexes))
    ensures |present| + missingCount == |indexes|
  {
    present, missingCount := [], 0;
    ghost var slots := Reads(values, indexes);
    for i := 0 to |indexes|
      invariant present == Present(slots[..i])
      invariant |present| + missingCount == i
    {
      assert slots[..i + 1][..i] == slots[..i];
      var value := ReadAt(values, indexes[i]);
      if value.None? {
        missingCount := missingCount + 1;
      } else {
        present := present + [value.value];
      }
    }
    assert slots[..|indexes|] == slots;
  }
}
