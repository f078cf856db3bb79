/**
 * Narrowing a series to its first local days, and why nothing downstream can
 * tell: every index is renumbered, and every day is read exactly as before.
 */
module Slicing {
  import opened Prelude
  import opened Metrics
  import opened Series
  import opened DayWindows
  import opened DerivedMetrics
  import opened Definitions
  import opened Aggregation

  /** The indexes of an axis whose date is kept, ascending. */
  function KeptIndexes(axis: seq<string>, kept: set<string>): (r: seq<nat>)
    ensures |r| <= |axis|
    ensures forall k :: 0 <= k < |r| ==> r[k] < |axis|
  {
    if axis == [] then []
    else
      var n := |axis| - 1;
      KeptIndexes(axis[..n], kept) + if DateOf(axis[n]) in kept then [n] else []
  }

  /** The stamps found at a list of indexes. */
  function Stamps(axis: seq<string>, indexes: seq<nat>): (r: seq<string>)
    requires forall k :: 0 <= k < |indexes| ==> indexes[k] < |axis|
    ensures |r| == |indexes|
    ensures forall k :: 0 <= k < |r| ==> r[k] == axis[indexes[k]]
  {
    seq(|indexes|, k requires 0 <= k < |indexes| => axis[indexes[k]])
  }

  /** A channel with only the kept dates on its axis; the channel itself when nothing is dropped. */
  function KeepDates(channel: Channel, kept: set<string>): Channel {
    var indexes := KeptIndexes(channel.time, kept);
    if |indexes| == |channel.time| then channel
    else Channel(
      Stamps(channel.time, indexes),
      map m | m in channel.values :: Reads(channel.values[m], indexes))
  }

  function Restrict(series: WeatherSeries, kept: set<string>): WeatherSeries {
    WeatherSeries(KeepDates(series.hourly, kept), KeepDates(series.daily, kept), series.provenance)
  }

  /** The axis whose dates count: the daily one, unless it is empty. */
  function CountedAxis(series: WeatherSeries): seq<string> {
    if |series.daily.time| > 0 then series.daily.time else series.hourly.time
  }

  function SliceToDays(series: WeatherSeries, days: int): WeatherSeries {
    if days <= 0 then series
    else
      var dates := DistinctDates(CountedAxis(series));
      if dates == [] || days >= |dates| then series
      else Restrict(series, ToSet(dates[..days]))
  }

  /** The loop behind a kept channel: every metric is read again at the kept indexes. */
  method KeepDatesInChannel(channel: Channel, kept: set<string>) returns (r: Channel)
    ensures r == KeepDates(channel, kept)
  {
    var indexes := KeptIndexes(channel.time, kept);
    if |indexes| == |channel.time| {
      return channel;
    }
    var values: map<MetricCode, seq<Slot>> := map[];
    var todo := channel.values.Keys;
    while todo != {}
      invariant todo <= channel.values.Keys
      invariant values.Keys == channel.values.Keys - todo
      invariant forall m :: m in values ==> values[m] == Reads(channel.values[m], indexes)
      decreases todo
    {
      var m :| m in todo;
      values := values[m := Reads(channel.values[m], indexes)];
      todo := todo - {m};
    }
    r := Channel(Stamps(channel.time, indexes), values);
  }

  /* ---- renumbering ---- */

  /** Indexes into the kept axis, as indexes into the axis they were kept from. */
  function Renumber(indexes: seq<nat>, keptAt: seq<nat>): (r: seq<nat>)
    requires forall k :: 0 <= k < |indexes| ==> indexes[k] < |keptAt|
    ensures |r| == |indexes|
    ensures forall k :: 0 <= k < |r| ==> r[k] == keptAt[indexes[k]]
  {
    seq(|indexes|, k requires 0 <= k < |indexes| => keptAt[indexes[k]])
  }

  lemma {:induction false} RenumberExtended(indexes: seq<nat>, keptAt: seq<nat>, last: nat)
    requires forall k :: 0 <= k < |indexes| ==> indexes[k] < |keptAt|
    ensures Renumber(indexes, keptAt + [last]) == Renumber(indexes, keptAt)
    ensures Renumber(indexes + [|keptAt|], keptAt + [last]) == Renumber(indexes, keptAt) + [last]
  {
  }

  lemma {:induction false} IndexesOnSnoc(axis: seq<string>, stamp: string, date: string)
    ensures IndexesOn(axis + [stamp], date) == IndexesOn(axis, date) + if DateOf(stamp) == date then [|axis|] else []
  {
    assert (axis + [stamp])[..|axis|] == axis;
  }

  lemma {:induction false} StampsSnoc(axis: seq<string>, stamp: string, at: seq<nat>)
    requires forall k :: 0 <= k < |at| ==> at[k] < |axis|
    ensures Stamps(axis + [stamp], at) == Stamps(axis, at)
    ensures Stamps(axis + [stamp], at + [|axis|]) == Stamps(axis, at) + [stamp]
  {
  }

  lemma {:induction false} KeptDayRenumbersStep(axis: seq<string>, stamp: string, at: seq<nat>, date: string)
    requires forall k :: 0 <= k < |at| ==> at[k] < |axis|
    requires Renumber(IndexesOn(Stamps(axis, at), date), at) == IndexesOn(axis, date)
    ensures var longer := at + [|axis|];
      Renumber(IndexesOn(Stamps(axis + [stamp], longer), date), longer) == IndexesOn(axis + [stamp], date)
    ensures Stamps(axis + [stamp], at) == Stamps(axis, at)
  {
    var short := Stamps(axis, at);
    StampsSnoc(axis, stamp, at);
    IndexesOnSnoc(short, stamp, date);
    IndexesOnSnoc(axis, stamp, date);
    RenumberExtended(IndexesOn(short, date), at, |axis|);
  }

  ghost predicate Renumbers(axis: seq<string>, at: seq<nat>, date: string) {
    && (forall k :: 0 <= k < |at| ==> at[k] < |axis|)
    && Renumber(IndexesOn(Stamps(axis, at), date), at) == IndexesOn(axis, date)
  }

  lemma {:induction false} KeptIndexesSnoc(axis: seq<string>, stamp: string, kept: set<string>)
    ensures KeptIndexes(axis + [stamp], kept) == KeptIndexes(axis, kept) + if DateOf(stamp) in kept then [|axis|] else []
  {
    assert (axis + [stamp])[..|axis|] == axis;
  }

  lemma {:induction false} KeptDayRenumbersSnoc(axis: seq<string>, stamp: string, kept: set<string>, date: string)
    requires date in kept && Renumbers(axis, KeptIndexes(axis, kept), date)
    ensures Renumbers(axis + [stamp], KeptIndexes(axis + [stamp], kept), date)
  {
    var at := KeptIndexes(axis, kept);
    KeptIndexesSnoc(axis, stamp, kept);
    KeptDayRenumbersStep(axis, stamp, at, date);
    if DateOf(stamp) !in kept {
      IndexesOnSnoc(axis, stamp, date);
      assert at + [] == at;
      assert IndexesOn(axis, date) + [] == IndexesOn(axis, date);
    }
  }

  /** On a kept date the renumbered indexes are the original ones, each and in order. */
  lemma {:induction false} KeptDayRenumbers(axis: seq<string>, kept: set<string>, date: string)
    requires date in kept
    ensures Renumbers(axis, KeptIndexes(axis, kept), date)
  {
    if axis != [] {
      var n := |axis| - 1;
      KeptDayRenumbers(axis[..n], kept, date);
      KeptDayRenumbersSnoc(axis[..n], axis[n], kept, date);
      assert axis[..n] + [axis[n]] == axis;
    }
  }

  /** Reading what was kept at an index is reading the original at the renumbered index. */
  lemma {:induction false} ReadsRenumber(values: seq<Slot>, keptAt: seq<nat>, indexes: seq<nat>)
    requires forall k :: 0 <= k < |indexes| ==> indexes[k] < |keptAt|
    ensures Reads(Reads(values, keptAt), indexes) == Reads(values, Renumber(indexes, keptAt))
  {
  }

  lemma {:induction false} DaylightRenumbers(isDay: seq<Slot>, keptAt: seq<nat>, indexes: seq<nat>)
    requires forall k :: 0 <= k < |indexes| ==> indexes[k] < |keptAt|
    ensures DaylightAmong(isDay, Renumber(indexes, keptAt)) ==
      Renumber(DaylightAmong(Reads(isDay, keptAt), indexes), keptAt)
  {
    if indexes != [] {
      var n := |indexes| - 1;
      DaylightRenumbers(isDay, keptAt, indexes[..n]);
      assert Renumber(indexes, keptAt)[..n] == Renumber(indexes[..n], keptAt);
      var init := DaylightAmong(Reads(isDay, keptAt), indexes[..n]);
      assert Renumber(init + [indexes[n]], keptAt) == Renumber(init, keptAt) + [keptAt[indexes[n]]];
    }
  }

  /** A channel that drops nothing keeps every index where it was. */
  lemma {:induction false} NothingDropped(axis: seq<string>, kept: set<string>)
    requires |KeptIndexes(axis, kept)| == |axis|
    ensures forall k :: 0 <= k < |axis| ==> KeptIndexes(axis, kept)[k] == k
  {
    if axis != [] {
      var n := |axis| - 1;
      assert |KeptIndexes(axis[..n], kept)| <= n;
      NothingDropped(axis[..n], kept);
    }
  }

  /** On an aligned channel, dropping nothing and dropping something are one rule. */
  lemma {:induction false} KeepDatesUniformly(channel: Channel, kept: set<string>)
    requires AlignedChannel(channel)
    ensures var at := KeptIndexes(channel.time, kept);
      KeepDates(channel, kept) ==
        Channel(Stamps(channel.time, at), map m | m in channel.values :: Reads(channel.values[m], at))
  {
    var at := KeptIndexes(channel.time, kept);
    if |at| == |channel.time| {
      NothingDropped(channel.time, kept);
      assert Stamps(channel.time, at) == channel.time;
      forall m | m in channel.values ensures Reads(channel.values[m], at) == channel.values[m] {
      }
    }
  }

  lemma {:induction false} BasesRestrict(code: DerivedCode, series: WeatherSeries, kept: set<string>)
    requires Aligned(series) && HasBases(code, series)
    ensures HasBases(code, Restrict(series, kept))
    ensures var at := KeptIndexes(series.hourly.time, kept);
      var inputs, fewer := BaseChannels(code, series), BaseChannels(code, Restrict(series, kept));
      forall k :: 0 <= k < |inputs| ==> |inputs[k]| == |series.hourly.time| && fewer[k] == Reads(inputs[k], at)
  {
    KeepDatesUniformly(series.hourly, kept);
    forall k | 0 <= k < |Requires(code)| ensures Requires(code)[k] in Restrict(series, kept).hourly.values {
      assert Requires(code)[k] in series.hourly.values;
    }
  }

  lemma {:induction false} DerivedOverReads(code: DerivedCode, inputs: seq<seq<Slot>>, fewer: seq<seq<Slot>>, at: seq<nat>, elevation: real)
    requires |inputs| == |fewer| == |Requires(code)|
    requires forall k :: 0 <= k < |inputs| ==> fewer[k] == Reads(inputs[k], at)
    requires forall j :: 0 <= j < |at| ==> at[j] < |inputs[0]|
    ensures DerivedOver(code, fewer, elevation) == Reads(DerivedOver(code, inputs, elevation), at)
  {
    forall j | 0 <= j < |at|
      ensures DerivedOver(code, fewer, elevation)[j] == DerivedOver(code, inputs, elevation)[at[j]]
    {
      DerivedSlotFrom(code, fewer, j, inputs, at[j], elevation);
    }
  }

  /** A derived channel of the kept slots is the kept slots of the derived channel. */
  lemma {:induction false} DerivedChannelRestricts(code: DerivedCode, series: WeatherSeries, kept: set<string>)
    requires Aligned(series)
    ensures var whole := DerivedChannel(code, series);
      DerivedChannel(code, Restrict(series, kept)) ==
        if whole.None? then None else Some(Reads(whole.value, KeptIndexes(series.hourly.time, kept)))
  {
    if HasBases(code, series) {
      BasesRestrict(code, series, kept);
      DerivedOverReads(code, BaseChannels(code, series), BaseChannels(code, Restrict(series, kept)),
        KeptIndexes(series.hourly.time, kept), ElevationFor(series.provenance, Requires(code)[0]));
    } else {
      KeepDatesUniformly(series.hourly, kept);
      var k :| 0 <= k < |Requires(code)| && Requires(code)[k] !in series.hourly.values;
      assert Requires(code)[k] !in Restrict(series, kept).hourly.values;
    }
  }

  /** A derived slot depends on nothing but the slots of its inputs. */
  lemma {:induction false} DerivedSlotFrom(code: DerivedCode, some: seq<seq<Slot>>, i: nat, others: seq<seq<Slot>>, j: nat, elevation: real)
    requires |some| == |others| == |Requires(code)|
    requires forall k :: 0 <= k < |some| ==> ReadAt(some[k], i) == ReadAt(others[k], j)
    ensures DerivedSlot(code, some, i, elevation) == DerivedSlot(code, others, j, elevation)
  {
    if forall k :: 0 <= k < |some| ==> ReadAt(some[k], i).Some? {
      assert seq(|some|, k requires 0 <= k < |some| => ReadAt(some[k], i).value)
        == seq(|others|, k requires 0 <= k < |others| => ReadAt(others[k], j).value);
    }
  }

  /** The window of a kept day, index by index, is the original window renumbered. */
  lemma {:induction false} WindowRenumbers(series: WeatherSeries, kept: set<string>, date: string)
    requires Aligned(series) && date in kept
    ensures var at := KeptIndexes(series.hourly.time, kept);
      var small, large := WindowOn(Restrict(series, kept), date), WindowOn(series, date);
      && (forall k :: 0 <= k < |small.hourIndexes| ==> small.hourIndexes[k] < |at|)
      && (forall k :: 0 <= k < |small.daylightIndexes| ==> small.daylightIndexes[k] < |at|)
      && Renumber(small.hourIndexes, at) == large.hourIndexes
      && Renumber(small.daylightIndexes, at) == large.daylightIndexes
    ensures var at := KeptIndexes(series.daily.time, kept);
      var small, large := WindowOn(Restrict(series, kept), date), WindowOn(series, date);
      && small.dailyIndex.Some? == large.dailyIndex.Some?
      && (small.dailyIndex.Some? ==> small.dailyIndex.value < |at| && at[small.dailyIndex.value] == large.dailyIndex.value)
  {
    var at := KeptIndexes(series.hourly.time, kept);
    KeepDatesUniformly(series.hourly, kept);
    KeepDatesUniformly(series.daily, kept);
    KeptDayRenumbers(series.hourly.time, kept, date);
    KeptDayRenumbers(series.daily.time, kept, date);
    var hours := IndexesOn(Stamps(series.hourly.time, at), date);
    var isDay := ValuesOf(series.hourly, IsDay);
    DaylightRenumbers(isDay, at, hours);
    var isDaySmall := ValuesOf(Restrict(series, kept).hourly, IsDay);
    if IsDay in series.hourly.values {
      assert isDaySmall == Reads(isDay, at);
    } else {
      NoDaylight(hours);
      NoDaylight(Renumber(hours, at));
    }
  }

  lemma {:induction false} NoDaylight(indexes: seq<nat>)
    ensures DaylightAmong([], indexes) == []
  {
    if indexes != [] {
      NoDaylight(indexes[..|indexes| - 1]);
    }
  }

  lemma {:induction false} ChannelSurvives(key: Key, series: WeatherSeries, kept: set<string>)
    requires Aligned(series)
    ensures var granularity := if key.metric.Derived? then Hourly else GranularityOf(key.aggregation.code);
      var at := KeptIndexes(if granularity.Daily? then series.daily.time else series.hourly.time, kept);
      var whole := ChannelFor(key.metric, GranularityOf(key.aggregation.code), series);
      ChannelFor(key.metric, GranularityOf(key.aggregation.code), Restrict(series, kept)) ==
        if whole.None? then None else Some(Reads(whole.value, at))
  {
    if key.metric.Derived? {
      DerivedChannelRestricts(key.metric.derived, series, kept);
    } else {
      KeepDatesUniformly(series.hourly, kept);
      KeepDatesUniformly(series.daily, kept);
    }
  }

  lemma {:induction false} IndexesReadRenumber(reading: Reading, series: WeatherSeries, kept: set<string>, date: string)
    requires Aligned(series) && date in kept
    ensures var at := KeptIndexes(if reading.DailySlot? then series.daily.time else series.hourly.time, kept);
      var few := IndexesRead(reading, WindowOn(Restrict(series, kept), date));
      && (forall k :: 0 <= k < |few| ==> few[k] < |at|)
      && Renumber(few, at) == IndexesRead(reading, WindowOn(series, date))
  {
    WindowRenumbers(series, kept, date);
    ReadingRenumbers(reading, WindowOn(Restrict(series, kept), date), WindowOn(series, date),
      KeptIndexes(series.hourly.time, kept), KeptIndexes(series.daily.time, kept));
  }

  lemma {:induction false} ReadingRenumbers(reading: Reading, small: DayWindow, large: DayWindow, hours: seq<nat>, days: seq<nat>)
    requires forall k :: 0 <= k < |small.hourIndexes| ==> small.hourIndexes[k] < |hours|
    requires forall k :: 0 <= k < |small.daylightIndexes| ==> small.daylightIndexes[k] < |hours|
    requires Renumber(small.hourIndexes, hours) == large.hourIndexes
    requires Renumber(small.daylightIndexes, hours) == large.daylightIndexes
    requires small.dailyIndex.Some? == large.dailyIndex.Some?
    requires small.dailyIndex.Some? ==>
      small.dailyIndex.value < |days| && days[small.dailyIndex.value] == large.dailyIndex.value
    ensures var at, few := if reading.DailySlot? then days else hours, IndexesRead(reading, small);
      (forall k :: 0 <= k < |few| ==> few[k] < |at|) && Renumber(few, at) == IndexesRead(reading, large)
  {
  }

  /**
   * Whatever a strategy looks at on a kept day is the same before and after the
   * renumbering, derived channels included.
   */
  lemma {:induction false} ViewSurvivesRestriction(key: Key, series: WeatherSeries, kept: set<string>, date: string)
    requires Aligned(series) && date in kept && !ReadsDerivedDaily(key)
    ensures View(key, Restrict(series, kept), WindowOn(Restrict(series, kept), date))
      == View(key, series, WindowOn(series, date))
  {
    var reading := ReadingOf(key.aggregation);
    var at := KeptIndexes(if reading.DailySlot? then series.daily.time else series.hourly.time, kept);
    ChannelSurvives(key, series, kept);
    IndexesReadRenumber(reading, series, kept, date);
    var whole := ChannelFor(key.metric, GranularityOf(key.aggregation.code), series);
    if whole.Some? {
      ReadsRenumber(whole.value, at, IndexesRead(reading, WindowOn(Restrict(series, kept), date)));
    }
  }

  /* ---- which days a slice answers for ---- */

  function DatesIn(dates: seq<string>, kept: set<string>): seq<string> {
    if dates == [] then []
    else
      var n := |dates| - 1;
      DatesIn(dates[..n], kept) + if dates[n] in kept then [dates[n]] else []
  }

  lemma {:induction false} DistinctDatesSnoc(axis: seq<string>, stamp: string)
    ensures var seen := DistinctDates(axis);
      DistinctDates(axis + [stamp]) == if DateOf(stamp) in seen then seen else seen + [DateOf(stamp)]
  {
    assert (axis + [stamp])[..|axis|] == axis;
  }

  lemma {:induction false} DatesInSnoc(dates: seq<string>, date: string, kept: set<string>)
    ensures DatesIn(dates + [date], kept) == if date in kept then DatesIn(dates, kept) + [date] else DatesIn(dates, kept)
  {
    assert (dates + [date])[..|dates|] == dates;
  }

  lemma {:induction false} DatesInExact(dates: seq<string>, kept: set<string>)
    ensures forall d :: d in DatesIn(dates, kept) <==> d in dates && d in kept
  {
    if dates != [] {
      var n := |dates| - 1;
      DatesInExact(dates[..n], kept);
      assert dates == dates[..n] + [dates[n]];
    }
  }

  /** A slice answers for exactly the kept days of the original, in the original order. */
  lemma {:induction false} DistinctDatesOfKept(axis: seq<string>, kept: set<string>)
    ensures DistinctDates(Stamps(axis, KeptIndexes(axis, kept))) == DatesIn(DistinctDates(axis), kept)
  {
    if axis != [] {
      var n := |axis| - 1;
      DistinctDatesOfKept(axis[..n], kept);
      DistinctDatesOfKeptSnoc(axis[..n], axis[n], axis, kept);
    }
  }

  lemma {:induction false} KeptStampsSnoc(axis: seq<string>, stamp: string, kept: set<string>)
    ensures var short := Stamps(axis, KeptIndexes(axis, kept));
      Stamps(axis + [stamp], KeptIndexes(axis + [stamp], kept)) ==
        if DateOf(stamp) in kept then short + [stamp] else short
  {
    KeptIndexesSnoc(axis, stamp, kept);
  }

  lemma {:induction false} DistinctDatesOfKeptSnoc(axis: seq<string>, stamp: string, longer: seq<string>, kept: set<string>)
    requires longer == axis + [stamp]
    requires DistinctDates(Stamps(axis, KeptIndexes(axis, kept))) == DatesIn(DistinctDates(axis), kept)
    ensures DistinctDates(Stamps(longer, KeptIndexes(longer, kept))) == DatesIn(DistinctDates(longer), kept)
  {
    KeptStampsSnoc(axis, stamp, kept);
    DistinctDatesSnoc(axis, stamp);
    DistinctDatesSnoc(Stamps(axis, KeptIndexes(axis, kept)), stamp);
    DatesInSnoc(DistinctDates(axis), DateOf(stamp), kept);
    DatesInExact(DistinctDates(axis), kept);
  }

  lemma {:induction false} DatesInPrefix(dates: seq<string>, n: nat)
    requires n <= |dates|
    requires forall j, k :: 0 <= j < k < |dates| ==> dates[j] != dates[k]
    ensures DatesIn(dates, ToSet(dates[..n])) == dates[..n]
  {
    PrefixOfKept(dates, ToSet(dates[..n]), n, |dates|);
    assert dates[..|dates|] == dates;
  }

  /** Of the first so many dates, a set of the first n keeps those among them. */
  lemma {:induction false} PrefixOfKept(dates: seq<string>, kept: set<string>, n: nat, length: nat)
    requires n <= |dates| && length <= |dates|
    requires forall k :: 0 <= k < |dates| ==> (dates[k] in kept <==> k < n)
    ensures DatesIn(dates[..length], kept) == dates[..if n <= length then n else length]
  {
    if length > 0 {
      PrefixOfKept(dates, kept, n, length - 1);
      DatesInSnoc(dates[..length - 1], dates[length - 1], kept);
      assert dates[..length] == dates[..length - 1] + [dates[length - 1]];
    }
  }

  /** The first so many of the dates, or all of them when there are no more. */
  function FirstOf(dates: seq<string>, days: int): seq<string> {
    if 0 < days < |dates| then dates[..days] else dates
  }

  lemma {:induction false} FirstDatesOfKept(channel: Channel, days: int)
    requires AlignedChannel(channel) && 0 < days <= |DistinctDates(channel.time)|
    ensures var dates := DistinctDates(channel.time);
      DistinctDates(KeepDates(channel, ToSet(dates[..days])).time) == dates[..days]
  {
    var dates := DistinctDates(channel.time);
    KeepDatesUniformly(channel, ToSet(dates[..days]));
    DistinctDatesOfKept(channel.time, ToSet(dates[..days]));
    DistinctDatesExact(channel.time);
    DatesInPrefix(dates, days);
  }

  /**
   * Days are counted on the daily axis, and on the hourly one where that is
   * empty: the slice has the first so many of them, and no hour of another.
   * Asked for none or for more than there are, it is the series itself.
   */
  lemma {:induction false} SliceCountsTheDays(series: WeatherSeries, days: int)
    requires Aligned(series)
    ensures var sliced := SliceToDays(series, days);
      if series.daily.time == [] then
        DistinctDates(sliced.hourly.time) == FirstOf(DistinctDates(series.hourly.time), days) && sliced.daily.time == []
      else
        var all := DistinctDates(series.daily.time);
        DistinctDates(sliced.daily.time) == FirstOf(all, days) &&
        if 0 < days < |all| then
          forall k :: 0 <= k < |sliced.hourly.time| ==> DateOf(sliced.hourly.time[k]) in all[..days]
        else sliced == series
  {
    var all := DistinctDates(CountedAxis(series));
    if 0 < days < |all| {
      FirstDatesOfKept(if series.daily.time == [] then series.hourly else series.daily, days);
      KeptHoursAreOfTheDates(series.hourly, ToSet(all[..days]));
    }
  }

  lemma {:induction false} KeptHoursAreOfTheDates(channel: Channel, kept: set<string>)
    requires AlignedChannel(channel)
    ensures forall k :: 0 <= k < |KeepDates(channel, kept).time| ==> DateOf(KeepDates(channel, kept).time[k]) in kept
  {
    KeepDatesUniformly(channel, kept);
    KeptAreOfTheDates(channel.time, kept);
  }

  lemma {:induction false} KeptAreOfTheDates(axis: seq<string>, kept: set<string>)
    ensures forall k :: 0 <= k < |KeptIndexes(axis, kept)| ==> DateOf(axis[KeptIndexes(axis, kept)[k]]) in kept
  {
    if axis != [] {
      KeptAreOfTheDates(axis[..|axis| - 1], kept);
    }
  }

  /**
   * When the two axes of a series carry the same days, a slice to `days`
   * answers for the first `days` of them and for no other.
   */
  lemma {:induction false} SliceAnswersTheFirstDays(series: WeatherSeries, days: int)
    requires Aligned(series) && days > 0
    requires |series.daily.time| > 0 ==> DistinctDates(series.daily.time) == DistinctDates(series.hourly.time)
    ensures var all := DistinctDates(series.hourly.time);
      DistinctDates(SliceToDays(series, days).hourly.time) == if days < |all| then all[..days] else all
  {
    var all := DistinctDates(series.hourly.time);
    if 0 < |all| && days < |all| {
      var kept := ToSet(all[..days]);
      KeepDatesUniformly(series.hourly, kept);
      DistinctDatesOfKept(series.hourly.time, kept);
      DistinctDatesExact(series.hourly.time);
      DatesInPrefix(all, days);
    }
  }
}
