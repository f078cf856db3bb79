/**
 * The cache always fetches the longest horizon and answers shorter questions
 * from it. These lemmas say that no score can tell.
 */
module SliceTheorem {
  import opened Prelude
  import opened Metrics
  import opened Series
  import opened DayWindows
  import opened DerivedMetrics
  import opened Definitions
  import opened Aggregation
  import opened Slicing
  import opened Engine

  /** No quantity of a definition reads a derived metric as a daily one; the load guarantees it. */
  ghost predicate NoDerivedDaily(definition: Definition) {
    forall key :: key in KeysOf(definition) ==> !ReadsDerivedDaily(key)
  }

  /** Two days on which every quantity aggregates alike are extracted alike. */
  lemma {:induction false} ExtractionAgrees(
    keys: seq<Key>, series: WeatherSeries, window: DayWindow, other: WeatherSeries, otherWindow: DayWindow
  )
    requires forall key :: key in keys ==> Aggregate(key, series, window) == Aggregate(key, other, otherWindow)
    ensures Extract(keys, series, window) == Extract(keys, other, otherWindow)
  {
    if keys != [] {
      var n := |keys| - 1;
      ExtractionAgrees(keys[..n], series, window, other, otherWindow);
      assert keys[n] in keys;
    }
  }

  /** On every day a slice answers for, it scores exactly as the whole series does, breakdown included. */
  lemma {:induction false} ScoringCommutesWithSlicing(
    definition: Definition, series: WeatherSeries, days: int, date: string, profile: Profile, exp: real -> real
  )
    requires Aligned(series) && NoDerivedDaily(definition)
    requires date in DistinctDates(SliceToDays(series, days).hourly.time)
    ensures var sliced := SliceToDays(series, days);
      ScoreActivity(definition, sliced, WindowOn(sliced, date), profile, exp)
        == ScoreActivity(definition, series, WindowOn(series, date), profile, exp)
  {
    var sliced := SliceToDays(series, days);
    if sliced != series {
      var kept := ToSet(DistinctDates(CountedAxis(series))[..days]);
      KeepDatesUniformly(series.hourly, kept);
      DistinctDatesOfKept(series.hourly.time, kept);
      DatesInExact(DistinctDates(series.hourly.time), kept);
      forall key | key in KeysOf(definition)
        ensures Aggregate(key, sliced, WindowOn(sliced, date)) == Aggregate(key, series, WindowOn(series, date))
      {
        ViewSurvivesRestriction(key, series, kept, date);
      }
      ExtractionAgrees(KeysOf(definition), sliced, WindowOn(sliced, date), series, WindowOn(series, date));
    }
  }

  /* ---- staleness ---- */

  lemma {:induction false} CarrierIgnoresStaleness(provenance: seq<Provenance>, other: seq<Provenance>, base: MetricCode)
    requires |provenance| == |other|
    requires forall i :: 0 <= i < |other| ==>
      other[i].metrics == provenance[i].metrics && other[i].gridPoint == provenance[i].gridPoint
    ensures ElevationFor(provenance, base) == ElevationFor(other, base)
    ensures FirstCarrier(provenance, base).Some? == FirstCarrier(other, base).Some?
    ensures FirstCarrier(other, base).Some? ==>
      FirstCarrier(provenance, base).value.gridPoint == FirstCarrier(other, base).value.gridPoint
  {
    if provenance != [] && base !in provenance[0].metrics {
      CarrierIgnoresStaleness(provenance[1..], other[1..], base);
    }
  }

  lemma {:induction false} DerivingIgnoresStaleness(code: DerivedCode, series: WeatherSeries, stale: bool)
    ensures DerivedChannel(code, MarkStale(series, stale)) == DerivedChannel(code, series)
  {
    var marked := MarkStale(series, stale);
    CarrierIgnoresStaleness(series.provenance, marked.provenance, Requires(code)[0]);
    if HasBases(code, series) {
      assert BaseChannels(code, marked) == BaseChannels(code, series);
    }
  }

  /** Marking an answer stale changes what it says about its age and nothing it scores. */
  lemma {:induction false} ScoringIgnoresStaleness(
    definition: Definition, series: WeatherSeries, stale: bool, date: string, profile: Profile, exp: real -> real
  )
    ensures var marked := MarkStale(series, stale);
      ScoreActivity(definition, marked, WindowOn(marked, date), profile, exp)
        == ScoreActivity(definition, series, WindowOn(series, date), profile, exp)
  {
    var marked := MarkStale(series, stale);
    forall key | key in KeysOf(definition)
      ensures Aggregate(key, marked, WindowOn(marked, date)) == Aggregate(key, series, WindowOn(series, date))
    {
      if key.metric.Derived? {
        DerivingIgnoresStaleness(key.metric.derived, series, stale);
      }
    }
    ExtractionAgrees(KeysOf(definition), marked, WindowOn(marked, date), series, WindowOn(series, date));
  }

  /* ---- why the load refuses derived metrics on the daily axis ---- */

  /** Hours of a first and a second day; daily values of the second day and a third. */
  function Misread(first: string, second: string, third: string): WeatherSeries {
    WeatherSeries(
      Channel([first, second], map[FreezingLevelHeight := [Some(1000.0), Some(2000.0)]]),
      Channel([DateOf(second), third], map[]),
      AtSeaLevel(first))
  }

  function AtSeaLevel(fetchedAt: string): seq<Provenance> {
    [Provenance("open-meteo", Forecast, GridPoint(46.0, 7.0, 0.0), fetchedAt, false, [FreezingLevelHeight], None)]
  }

  function MisreadKey(): Key {
    Key(Derived(FreezingLevelMargin), AggregationSpec(Identity, AggregationParams(None, None, None)))
  }

  lemma {:induction false} DateOfDate(stamp: string)
    ensures DateOf(DateOf(stamp)) == DateOf(stamp)
  {
  }

  lemma {:induction false} TwoDays(a: string, b: string)
    requires DateOf(a) != DateOf(b)
    ensures DistinctDates([a]) == [DateOf(a)] && FirstOn([a], DateOf(a)) == Some(0)
    ensures DistinctDates([a, b]) == [DateOf(a), DateOf(b)] && FirstOn([a, b], DateOf(a)) == Some(0)
  {
    assert [a][..0] == [] && [a, b][..1] == [a];
    assert DistinctDates([a]) == [DateOf(a)];
  }

  lemma {:induction false} KeptOfTwo(a: string, b: string)
    requires DateOf(a) != DateOf(b)
    ensures KeptIndexes([a, b], {DateOf(b)}) == [1] && KeptIndexes([a, b], {DateOf(a)}) == [0]
  {
    assert [a][..0] == [] && [a, b][..1] == [a];
    assert KeptIndexes([a], {DateOf(b)}) == [] && KeptIndexes([a], {DateOf(a)}) == [0];
  }

  /** What is left of it when it is cut to one day. */
  function MisreadSliced(first: string, second: string): WeatherSeries {
    WeatherSeries(Channel([second], map[FreezingLevelHeight := [Some(2000.0)]]), Channel([DateOf(second)], map[]),
      AtSeaLevel(first))
  }

  lemma {:induction false} OneKept(channel: Channel, kept: set<string>, i: nat)
    requires i < |channel.time| == 2 && KeptIndexes(channel.time, kept) == [i]
    ensures KeepDates(channel, kept)
      == Channel([channel.time[i]], map m | m in channel.values :: Reads(channel.values[m], [i]))
  {
    assert Stamps(channel.time, [i]) == [channel.time[i]];
  }

  lemma {:induction false} MisreadIsKept(first: string, second: string, third: string)
    requires DateOf(first) != DateOf(second) && DateOf(second) != DateOf(third)
    ensures Restrict(Misread(first, second, third), {DateOf(second)}) == MisreadSliced(first, second)
  {
    var series := Misread(first, second, third);
    DateOfDate(second);
    KeptOfTwo(first, second);
    KeptOfTwo(DateOf(second), third);
    OneKept(series.hourly, {DateOf(second)}, 1);
    OneKept(series.daily, {DateOf(second)}, 0);
    assert Reads([Some(1000.0), Some(2000.0)], [1]) == [Some(2000.0)];
  }

  lemma {:induction false} MisreadIsSliced(first: string, second: string, third: string)
    requires DateOf(first) != DateOf(second) && DateOf(second) != DateOf(third)
    ensures SliceToDays(Misread(first, second, third), 1) == MisreadSliced(first, second)
  {
    DateOfDate(second);
    TwoDays(DateOf(second), third);
    MisreadIsKept(first, second, third);
    assert [DateOf(second), DateOf(third)][..1] == [DateOf(second)];
    assert ToSet([DateOf(second)]) == {DateOf(second)};
  }

  /** The margin above a node at sea level is the level itself. */
  lemma {:induction false} MarginAtSeaLevel(series: WeatherSeries, x: real)
    requires ElevationFor(series.provenance, FreezingLevelHeight) == 0.0 && FreezingLevelHeight in series.hourly.values
    requires |series.hourly.values[FreezingLevelHeight]| > 0 && series.hourly.values[FreezingLevelHeight][0] == Some(x)
    ensures var channel := DerivedChannel(FreezingLevelMargin, series);
      channel.Some? && |channel.value| > 0 && channel.value[0] == Some(x)
  {
    var inputs := BaseChannels(FreezingLevelMargin, series);
    assert inputs[0] == series.hourly.values[FreezingLevelHeight];
    assert ReadAt(inputs[0], 0) == Some(x);
    assert DerivedSlot(FreezingLevelMargin, inputs, 0, 0.0) == Some(x - 0.0);
  }

  lemma {:induction false} MisreadView(series: WeatherSeries, date: string, x: real)
    requires ElevationFor(series.provenance, FreezingLevelHeight) == 0.0 && FreezingLevelHeight in series.hourly.values
    requires |series.hourly.values[FreezingLevelHeight]| > 0 && series.hourly.values[FreezingLevelHeight][0] == Some(x)
    requires FirstOn(series.daily.time, date) == Some(0)
    ensures View(MisreadKey(), series, WindowOn(series, date)) == Some([Some(x)])
  {
    MarginAtSeaLevel(series, x);
    FirstIsRead(series, WindowOn(series, date), DerivedChannel(FreezingLevelMargin, series).value, x);
  }

  lemma {:induction false} FirstIsRead(series: WeatherSeries, window: DayWindow, channel: seq<Slot>, x: real)
    requires window.dailyIndex == Some(0) && DerivedChannel(FreezingLevelMargin, series) == Some(channel)
    requires |channel| > 0 && channel[0] == Some(x)
    ensures View(MisreadKey(), series, window) == Some([Some(x)])
  {
    assert IndexesRead(DailySlot, window) == [0];
    assert Reads(channel, [0]) == [Some(x)];
  }

  lemma {:induction false} MisreadViews(first: string, second: string, third: string)
    requires DateOf(first) != DateOf(second) && DateOf(second) != DateOf(third)
    ensures var series, date := Misread(first, second, third), DateOf(second);
      && View(MisreadKey(), series, WindowOn(series, date)) == Some([Some(1000.0)])
      && View(MisreadKey(), SliceToDays(series, 1), WindowOn(SliceToDays(series, 1), date)) == Some([Some(2000.0)])
      && date in DistinctDates(SliceToDays(series, 1).hourly.time)
  {
    DateOfDate(second);
    TwoDays(DateOf(second), third);
    TwoDays(second, first);
    MisreadIsSliced(first, second, third);
    assert ElevationFor(AtSeaLevel(first), FreezingLevelHeight) == 0.0;
    MisreadView(Misread(first, second, third), DateOf(second), 1000.0);
    MisreadView(MisreadSliced(first, second), DateOf(second), 2000.0);
  }

  /** Read on the daily axis, a derived metric would change with the slice. */
  lemma {:induction false} DerivedDailyWouldNotCommute() returns (series: WeatherSeries, key: Key, date: string)
    ensures Aligned(series) && series.provenance != [] && ReadsDerivedDaily(key)
    ensures date in DistinctDates(SliceToDays(series, 1).hourly.time)
    ensures View(key, SliceToDays(series, 1), WindowOn(SliceToDays(series, 1), date))
      != View(key, series, WindowOn(series, date))
  {
    var first, second, third := "2026-09-07T00:00", "2026-09-08T00:00", "2026-09-09";
    assert DateOf(first)[9] == '7' && DateOf(second)[9] == '8' && DateOf(third)[9] == '9';
    series, key, date := Misread(first, second, third), MisreadKey(), DateOf(second);
    MisreadViews(first, second, third);
    assert [Some(1000.0)][0] != [Some(2000.0)][0];
  }
}
