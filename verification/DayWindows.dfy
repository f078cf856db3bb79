/** Local days as lists of indexes into a series, which between them use up the hourly axis. */
module DayWindows {
  import opened Prelude
  import opened Metrics
  import opened Series

  datatype DayWindow = DayWindow(
    date: string,
    hourIndexes: seq<nat>,
    daylightIndexes: seq<nat>,
    hoursInDay: nat,
    daylightSeconds: real,
    dailyIndex: Option<nat>,
    partialDay: bool
  )

  /** The dates of an axis, each once, in the order they are first seen. */
  function DistinctDates(axis: seq<string>): seq<string> {
    if axis == [] then []
    else
      var n := |axis| - 1;
      var seen := DistinctDates(axis[..n]);
      if DateOf(axis[n]) in seen then seen else seen + [DateOf(axis[n])]
  }

  /** The indexes of an axis that fall on a date, ascending. */
  function IndexesOn(axis: seq<string>, date: string): (r: seq<nat>)
    ensures forall k :: 0 <= k < |r| ==> r[k] < |axis|
  {
    if axis == [] then []
    else
      var n := |axis| - 1;
      IndexesOn(axis[..n], date) + if DateOf(axis[n]) == date then [n] else []
  }

  /** The indexes among those given whose slot the source flagged as daylight. */
  function DaylightAmong(isDay: seq<Slot>, indexes: seq<nat>): (r: seq<nat>)
    ensures forall k :: 0 <= k < |r| ==> r[k] in indexes
  {
    if indexes == [] then []
    else
      var n := |indexes| - 1;
      DaylightAmong(isDay, indexes[..n]) +
      if ReadAt(isDay, indexes[n]) == Some(1.0) then [indexes[n]] else []
  }

  /** The slots of a metric, none when the channel does not carry it. */
  function ValuesOf(channel: Channel, code: MetricCode): seq<Slot> {
    if code in channel.values then channel.values[code] else []
  }

  /** The first slot of a daily axis that carries a date. */
  function FirstOn(axis: seq<string>, date: string): Option<nat> {
    var all := IndexesOn(axis, date);
    if all == [] then None else Some(all[0])
  }

  function SecondsAt(daily: Channel, index: nat): real {
    var slot := ReadAt(ValuesOf(daily, DaylightDuration), index);
    if slot.None? then 0.0 else slot.value
  }

  /** The window of a date, once its hours have been gathered. */
  function WindowFrom(series: WeatherSeries, date: string, hours: seq<nat>): DayWindow {
    var daily := FirstOn(series.daily.time, date);
    DayWindow(
      date,
      hours,
      DaylightAmong(ValuesOf(series.hourly, IsDay), hours),
      |hours|,
      if daily.None? then 0.0 else SecondsAt(series.daily, daily.value),
      daily,
      false
    )
  }

  function WindowOn(series: WeatherSeries, date: string): DayWindow {
    WindowFrom(series, date, IndexesOn(series.hourly.time, date))
  }

  /** Every day on the hourly axis, in order of first appearance. */
  function WindowsOf(series: WeatherSeries): (r: seq<DayWindow>)
    ensures |r| == |DistinctDates(series.hourly.time)|
    ensures forall i :: 0 <= i < |r| ==> r[i] == WindowOn(series, DistinctDates(series.hourly.time)[i])
  {
    var dates := DistinctDates(series.hourly.time);
    seq(|dates|, i requires 0 <= i < |dates| => WindowOn(series, dates[i]))
  }

  lemma {:induction false} IndexesOnExact(axis: seq<string>, date: string)
    ensures forall i: nat :: i in IndexesOn(axis, date) <==> i < |axis| && DateOf(axis[i]) == date
    ensures forall j, k :: 0 <= j < k < |IndexesOn(axis, date)| ==> IndexesOn(axis, date)[j] < IndexesOn(axis, date)[k]
  {
    if axis != [] {
      var n := |axis| - 1;
      IndexesOnExact(axis[..n], date);
      var init := IndexesOn(axis[..n], date);
      forall i: nat ensures i in IndexesOn(axis, date) <==> i < |axis| && DateOf(axis[i]) == date {
        if i < n { assert axis[..n][i] == axis[i]; }
        assert i in IndexesOn(axis, date) <==> i in init || (i == n && DateOf(axis[n]) == date);
      }
    }
  }

  predicate AscendingIndexes(indexes: seq<nat>) {
    forall j, k :: 0 <= j < k < |indexes| ==> indexes[j] < indexes[k]
  }

  lemma {:induction false} DaylightExact(isDay: seq<Slot>, indexes: seq<nat>)
    ensures forall i: nat :: i in DaylightAmong(isDay, indexes) <==> i in indexes && ReadAt(isDay, i) == Some(1.0)
  {
    if indexes != [] {
      var n := |indexes| - 1;
      DaylightExact(isDay, indexes[..n]);
      assert indexes == indexes[..n] + [indexes[n]];
    }
  }

  lemma {:induction false} DaylightAscends(isDay: seq<Slot>, indexes: seq<nat>)
    requires AscendingIndexes(indexes)
    ensures AscendingIndexes(DaylightAmong(isDay, indexes))
  {
    if indexes != [] {
      var n := |indexes| - 1;
      DaylightAscends(isDay, indexes[..n]);
      var init := DaylightAmong(isDay, indexes[..n]);
      forall k | 0 <= k < |init| ensures init[k] < indexes[n] {
        assert init[k] in indexes[..n];
      }
    }
  }

  lemma {:induction false} FirstOnExact(axis: seq<string>, date: string)
    ensures FirstOn(axis, date).None? ==> forall i :: 0 <= i < |axis| ==> DateOf(axis[i]) != date
    ensures FirstOn(axis, date).Some? ==>
      var first := FirstOn(axis, date).value;
      first < |axis| && DateOf(axis[first]) == date && forall i :: 0 <= i < first ==> DateOf(axis[i]) != date
  {
    IndexesOnExact(axis, date);
    var all := IndexesOn(axis, date);
    if all != [] {
      assert all[0] in all;
    }
    forall i: nat | i < |axis| && DateOf(axis[i]) == date ensures all != [] && all[0] <= i {
      assert i in all;
      var k :| 0 <= k < |all| && all[k] == i;
    }
  }

  /** The window of one day, in terms of the series alone. */
  ghost predicate WindowOf(window: DayWindow, series: WeatherSeries) {
    && (forall i: nat :: i in window.hourIndexes <==>
          i < |series.hourly.time| && DateOf(series.hourly.time[i]) == window.date)
    && (forall i: nat :: i in window.daylightIndexes <==>
          i in window.hourIndexes && SlotAt(series.hourly, IsDay, i) == Some(1.0))
    && AscendingIndexes(window.hourIndexes) && AscendingIndexes(window.daylightIndexes)
    && window.hoursInDay == |window.hourIndexes| && !window.partialDay
    && DailySlotOf(window, series)
  }

  /** The first daily slot of the date and its seconds of daylight, and neither where the date is not on the daily axis. */
  ghost predicate DailySlotOf(window: DayWindow, series: WeatherSeries) {
    if window.dailyIndex.None? then
      (forall i :: 0 <= i < |series.daily.time| ==> DateOf(series.daily.time[i]) != window.date) && window.daylightSeconds == 0.0
    else
      var first := window.dailyIndex.value;
      && first < |series.daily.time| && DateOf(series.daily.time[first]) == window.date
      && (forall i :: 0 <= i < first ==> DateOf(series.daily.time[i]) != window.date)
      && var seconds := SlotAt(series.daily, DaylightDuration, first);
        window.daylightSeconds == if seconds.Some? then seconds.value else 0.0
  }

  lemma {:induction false} WindowOnExact(series: WeatherSeries, date: string)
    ensures WindowOf(WindowOn(series, date), series) && WindowOn(series, date).date == date
  {
    IndexesOnExact(series.hourly.time, date);
    DaylightExact(ValuesOf(series.hourly, IsDay), IndexesOn(series.hourly.time, date));
    DaylightAscends(ValuesOf(series.hourly, IsDay), IndexesOn(series.hourly.time, date));
    FirstOnExact(series.daily.time, date);
  }

  lemma {:induction false} DateHasHours(axis: seq<string>, date: string)
    requires date in DistinctDates(axis)
    ensures IndexesOn(axis, date) != []
  {
    DistinctDatesExact(axis);
    IndexesOnExact(axis, date);
    var i :| 0 <= i < |axis| && DateOf(axis[i]) == date;
    assert i in IndexesOn(axis, date);
  }

  /** Each window holds the hours of its date, those the source flagged as day, and its daily slot. */
  lemma {:induction false} WindowsAreExact(series: WeatherSeries, w: nat)
    requires w < |WindowsOf(series)|
    ensures WindowOf(WindowsOf(series)[w], series) && WindowsOf(series)[w].hourIndexes != []
  {
    var date := DistinctDates(series.hourly.time)[w];
    assert WindowsOf(series)[w] == WindowOn(series, date);
    DateHasHours(series.hourly.time, date);
    WindowOnExact(series, date);
  }

  lemma {:induction false} DistinctDatesExact(axis: seq<string>)
    ensures forall i :: 0 <= i < |axis| ==> DateOf(axis[i]) in DistinctDates(axis)
    ensures forall d :: d in DistinctDates(axis) ==> exists i :: 0 <= i < |axis| && DateOf(axis[i]) == d
    ensures forall j, k :: 0 <= j < k < |DistinctDates(axis)| ==> DistinctDates(axis)[j] != DistinctDates(axis)[k]
  {
    if axis != [] {
      var n := |axis| - 1;
      DistinctDatesExact(axis[..n]);
      forall i | 0 <= i < |axis| ensures DateOf(axis[i]) in DistinctDates(axis) {
        if i < n { assert axis[..n][i] == axis[i]; }
      }
      forall d | d in DistinctDates(axis) ensures exists i :: 0 <= i < |axis| && DateOf(axis[i]) == d {
        if d in DistinctDates(axis[..n]) {
          var i :| 0 <= i < |axis[..n]| && DateOf(axis[..n][i]) == d;
          assert DateOf(axis[i]) == d;
        } else {
          assert DateOf(axis[n]) == d;
        }
      }
    }
  }

  /** A date first seen later is listed later. */
  lemma {:induction false} DatesInOrder(axis: seq<string>, i: nat, j: nat, a: nat, b: nat)
    requires i < j < |axis| && forall k :: 0 <= k < j ==> DateOf(axis[k]) != DateOf(axis[j])
    requires a < |DistinctDates(axis)| && DistinctDates(axis)[a] == DateOf(axis[i])
    requires b < |DistinctDates(axis)| && DistinctDates(axis)[b] == DateOf(axis[j])
    ensures a < b
  {
    var n := |axis| - 1;
    var before := DistinctDates(axis[..n]);
    DistinctDatesExact(axis);
    DistinctDatesExact(axis[..n]);
    assert axis[..n][i] == axis[i];
    assert DateOf(axis[i]) in before;
    var c :| 0 <= c < |before| && before[c] == DateOf(axis[i]);
    assert DistinctDates(axis)[c] == DateOf(axis[i]);
    if j < n {
      assert axis[..n][j] == axis[j];
      assert DateOf(axis[j]) in before;
      var d :| 0 <= d < |before| && before[d] == DateOf(axis[j]);
      assert DistinctDates(axis)[d] == DateOf(axis[j]);
      DatesInOrder(axis[..n], i, j, c, d);
    }
  }

  /**
   * The windows partition the hourly axis: every slot belongs to the window of
   * its own date and to no other.
   */
  lemma {:induction false} WindowsPartitionTheAxis(series: WeatherSeries, slot: nat)
    requires slot < |series.hourly.time|
    ensures exists w :: 0 <= w < |WindowsOf(series)| && WindowsOf(series)[w].date == DateOf(series.hourly.time[slot])
    ensures forall w :: 0 <= w < |WindowsOf(series)| ==>
      (slot in WindowsOf(series)[w].hourIndexes <==> WindowsOf(series)[w].date == DateOf(series.hourly.time[slot]))
    ensures forall v, w :: 0 <= v < w < |WindowsOf(series)| ==> WindowsOf(series)[v].date != WindowsOf(series)[w].date
  {
    var axis := series.hourly.time;
    var windows := WindowsOf(series);
    DistinctDatesExact(axis);
    forall w | 0 <= w < |windows|
      ensures slot in windows[w].hourIndexes <==> windows[w].date == DateOf(axis[slot])
    {
      IndexesOnExact(axis, windows[w].date);
    }
    var w :| 0 <= w < |DistinctDates(axis)| && DistinctDates(axis)[w] == DateOf(axis[slot]);
    assert windows[w].date == DateOf(axis[slot]);
  }

  /** The dates of an axis, gathered by one pass over it. */
  method CollectDates(axis: seq<string>) returns (seen: seq<string>)
    ensures seen == DistinctDates(axis)
  {
    seen := [];
    for i := 0 to |axis|
      invariant seen == DistinctDates(axis[..i])
    {
      assert axis[..i + 1][..i] == axis[..i];
      var date := DateOf(axis[i]);
      if date !in seen {
        seen := seen + [date];
      }
    }
    assert axis[..|axis|] == axis;
  }

  lemma {:induction false} DistinctDatesStep(axis: seq<string>, n: nat)
    requires n < |axis|
    ensures var seen, date := DistinctDates(axis[..n]), DateOf(axis[n]);
      DistinctDates(axis[..n + 1]) == if date in seen then seen else seen + [date]
  {
    assert axis[..n + 1][..n] == axis[..n];
  }

  lemma {:induction false} IndexesOnStep(axis: seq<string>, n: nat, date: string)
    requires n < |axis|
    ensures IndexesOn(axis[..n + 1], date) ==
      IndexesOn(axis[..n], date) + if DateOf(axis[n]) == date then [n] else []
  {
    assert axis[..n + 1][..n] == axis[..n];
  }

  /** Each date has its list of indexes, and a date without a list has none. */
  ghost predicate ListsUpTo(byDate: map<string, seq<nat>>, axis: seq<string>, n: nat)
    requires n <= |axis|
  {
    forall d :: IndexesOn(axis[..n], d) == if d in byDate then byDate[d] else []
  }

  lemma {:induction false} OneMoreGrouped(byDate: map<string, seq<nat>>, axis: seq<string>, n: nat)
    requires n < |axis| && ListsUpTo(byDate, axis, n)
    ensures var date := DateOf(axis[n]);
      ListsUpTo(byDate[date := (if date in byDate then byDate[date] else []) + [n]], axis, n + 1)
  {
    forall d { IndexesOnStep(axis, n, d); }
  }

  /** The dates seen among the first n stamps, and under each its indexes. */
  ghost predicate GroupedUpTo(order: seq<string>, byDate: map<string, seq<nat>>, axis: seq<string>, n: nat)
    requires n <= |axis|
  {
    && order == DistinctDates(axis[..n])
    && (forall d :: d in byDate <==> d in order)
    && ListsUpTo(byDate, axis, n)
  }

  lemma {:induction false} GroupedNext(order: seq<string>, byDate: map<string, seq<nat>>, axis: seq<string>, n: nat)
    requires n < |axis| && GroupedUpTo(order, byDate, axis, n)
    ensures var date := DateOf(axis[n]);
      GroupedUpTo(if date in byDate then order else order + [date],
        byDate[date := (if date in byDate then byDate[date] else []) + [n]], axis, n + 1)
  {
    DistinctDatesStep(axis, n);
    OneMoreGrouped(byDate, axis, n);
  }

  lemma {:induction false} GroupedAll(order: seq<string>, byDate: map<string, seq<nat>>, axis: seq<string>)
    requires GroupedUpTo(order, byDate, axis, |axis|)
    ensures order == DistinctDates(axis)
    ensures forall d :: d in byDate <==> d in order
    ensures forall d :: d in byDate ==> byDate[d] == IndexesOn(axis, d)
  {
    assert axis[..|axis|] == axis;
  }

  /** One pass over an axis fills a list of indexes per date, dates in order of first appearance. */
  method GroupByDate(axis: seq<string>) returns (order: seq<string>, byDate: map<string, seq<nat>>)
    ensures order == DistinctDates(axis)
    ensures forall d :: d in byDate <==> d in order
    ensures forall d :: d in byDate ==> byDate[d] == IndexesOn(axis, d)
  {
    order, byDate := [], map[];
    for i := 0 to |axis|
      invariant GroupedUpTo(order, byDate, axis, i)
    {
      GroupedNext(order, byDate, axis, i);
      var date := DateOf(axis[i]);
      if date in byDate {
        byDate := byDate[date := byDate[date] + [i]];
      } else {
        assert [] + [i] == [i];
        byDate := byDate[date := [i]];
        order := order + [date];
      }
    }
    GroupedAll(order, byDate, axis);
  }

  /** The indexes are grouped first; each group then becomes a window. */
  method BuildDayWindows(series: WeatherSeries) returns (windows: seq<DayWindow>)
    ensures windows == WindowsOf(series)
  {
    var order, byDate := GroupByDate(series.hourly.time);
    windows := [];
    for k := 0 to |order|
      invariant |windows| == k
      invariant forall j :: 0 <= j < k ==> windows[j] == WindowOn(series, order[j])
    {
      windows := windows + [WindowFrom(series, order[k], byDate[order[k]])];
    }
  }
}
