/** What the number of each aggregation says about the slots it was made of, by position. */
module AggregationMeaning {
  import opened Prelude
  import opened Metrics
  import opened Predicates
  import opened Definitions
  import opened Series
  import opened DayWindows
  import opened DerivedMetrics
  import opened Aggregation
  import R = Requirements

  // ---- The slots themselves ----

  function PresentAt(slots: seq<Slot>): set<nat> {
    set i: nat | i < |slots| && slots[i].Some?
  }

  function HolesAt(slots: seq<Slot>): set<nat> {
    set i: nat | i < |slots| && slots[i].None?
  }

  function MatchingAt(slots: seq<Slot>, test: Predicate): set<nat> {
    set i: nat | i < |slots| && slots[i].Some? && Evaluate(test, slots[i].value)
  }

  /** What the slots add up to, holes adding nothing, counted from the left. */
  function Total(slots: seq<Slot>): real {
    if slots == [] then 0.0 else (if slots[0].Some? then slots[0].value else 0.0) + Total(slots[1..])
  }

  predicate IsAmong(slots: seq<Slot>, x: real) {
    exists i :: 0 <= i < |slots| && slots[i] == Some(x)
  }

  /** One of the values there, and none of them above it. */
  predicate IsGreatest(slots: seq<Slot>, x: real) {
    IsAmong(slots, x) && forall i :: 0 <= i < |slots| && slots[i].Some? ==> slots[i].value <= x
  }

  predicate IsLeast(slots: seq<Slot>, x: real) {
    IsAmong(slots, x) && forall i :: 0 <= i < |slots| && slots[i].Some? ==> x <= slots[i].value
  }

  /** Totals add up: the whole is its parts, a value is itself, and a hole is nothing. */
  lemma {:induction false} TotalsAdd(left: seq<Slot>, right: seq<Slot>, x: real)
    ensures Total(left + right) == Total(left) + Total(right)
    ensures Total([Some(x)]) == x && Total([None]) == 0.0
  {
    if left == [] {
      assert left + right == right;
    } else {
      assert (left + right)[1..] == left[1..] + right;
      TotalsAdd(left[1..], right, x);
    }
  }

  // ---- What a reduction means ----

  predicate ReducesTo(reducer: Reducer, slots: seq<Slot>, x: real) {
    match reducer
    case MaxOf => IsGreatest(slots, x)
    case MinOf => IsLeast(slots, x)
    case SumOf => x == Total(slots)
    case MeanOf => x * |PresentAt(slots)| as real == Total(slots)
  }

  predicate Says(spec: AggregationSpec, slots: seq<Slot>, x: real) {
    match spec.code
    case Plain(reducer) => ReducesTo(reducer, slots, x)
    case Identity => |slots| == 1 ==> slots[0] == Some(x)
    case DaylightWindow => spec.params.reduce.Some? && ReducesTo(spec.params.reduce.value, slots, x)
    case ShareOfHours => spec.params.test.Some? &&
      x * |PresentAt(slots)| as real == |MatchingAt(slots, spec.params.test.value)| as real
    case CountIf => spec.params.test.Some? && x == |MatchingAt(slots, spec.params.test.value)| as real
    case UnknownAggregation(_) => false
  }

  function UnitAfter(spec: AggregationSpec, unit: Unit): Unit {
    if spec.code.ShareOfHours? then Ratio else if spec.code.CountIf? then Hour else unit
  }

  lemma {:induction false} OneMore(some: set<nat>, more: set<nat>, n: nat, added: bool)
    requires n !in some && more == some + (if added then {n} else {})
    ensures |more| == |some| + if added then 1 else 0
  {
  }

  lemma {:induction false} PresentCounted(slots: seq<Slot>)
    ensures |Present(slots)| == |PresentAt(slots)|
  {
    if slots != [] {
      var n := |slots| - 1;
      PresentCounted(slots[..n]);
      assert PresentAt(slots) == PresentAt(slots[..n]) + (if slots[n].Some? then {n} else {});
      OneMore(PresentAt(slots[..n]), PresentAt(slots), n, slots[n].Some?);
    }
  }

  lemma {:induction false} HolesCounted(slots: seq<Slot>)
    ensures |slots| - |Present(slots)| == |HolesAt(slots)|
  {
    if slots != [] {
      var n := |slots| - 1;
      HolesCounted(slots[..n]);
      assert HolesAt(slots) == HolesAt(slots[..n]) + (if slots[n].None? then {n} else {});
      OneMore(HolesAt(slots[..n]), HolesAt(slots), n, slots[n].None?);
    }
  }

  lemma {:induction false} PresentNext(slots: seq<Slot>)
    requires slots != []
    ensures var n := |slots| - 1;
      Present(slots) == if slots[n].Some? then Present(slots[..n]) + [slots[n].value] else Present(slots[..n])
  {
  }

  lemma {:induction false} MatchingNext(xs: seq<real>, x: real, longer: seq<real>, test: Predicate)
    requires longer == xs + [x]
    ensures Matching(longer, test) == Matching(xs, test) + if Evaluate(test, x) then 1 else 0
  {
    assert longer[..|xs|] == xs;
  }

  lemma {:induction false} MatchingCounted(slots: seq<Slot>, test: Predicate)
    ensures Matching(Present(slots), test) == |MatchingAt(slots, test)|
  {
    if slots != [] {
      var n := |slots| - 1;
      var added := slots[n].Some? && Evaluate(test, slots[n].value);
      MatchingCounted(slots[..n], test);
      PresentNext(slots);
      if slots[n].Some? {
        MatchingNext(Present(slots[..n]), slots[n].value, Present(slots), test);
      }
      MatchingAtNext(slots, test, n, added);
      OneMore(MatchingAt(slots[..n], test), MatchingAt(slots, test), n, added);
    }
  }

  lemma {:induction false} MatchingAtNext(slots: seq<Slot>, test: Predicate, n: nat, added: bool)
    requires n + 1 == |slots| && added == (slots[n].Some? && Evaluate(test, slots[n].value))
    ensures MatchingAt(slots, test) == MatchingAt(slots[..n], test) + if added then {n} else {}
  {
  }

  lemma {:induction false} TotalNext(slots: seq<Slot>)
    requires slots != []
    ensures var n := |slots| - 1;
      Total(slots) == Total(slots[..n]) + if slots[n].Some? then slots[n].value else 0.0
  {
    var n := |slots| - 1;
    assert slots == slots[..n] + [slots[n]];
    TotalsAdd(slots[..n], [slots[n]], if slots[n].Some? then slots[n].value else 0.0);
  }

  lemma {:induction false} SumNext(xs: seq<real>, x: real, longer: seq<real>)
    requires longer == xs + [x]
    ensures Sum(longer) == Sum(xs) + x
  {
    SumSnoc(xs, x);
  }

  lemma {:induction false} TotalIsTheSum(slots: seq<Slot>)
    ensures Sum(Present(slots)) == Total(slots)
  {
    if slots != [] {
      var n := |slots| - 1;
      TotalIsTheSum(slots[..n]);
      PresentNext(slots);
      TotalNext(slots);
      if slots[n].Some? {
        SumNext(Present(slots[..n]), slots[n].value, Present(slots));
      }
    }
  }

  lemma {:induction false} AmongSnoc(slots: seq<Slot>, last: Slot, longer: seq<Slot>, x: real)
    requires longer == slots + [last]
    ensures IsAmong(longer, x) <==> IsAmong(slots, x) || last == Some(x)
  {
    if IsAmong(slots, x) {
      var i :| 0 <= i < |slots| && slots[i] == Some(x);
      assert longer[i] == Some(x);
    }
    if last == Some(x) {
      assert longer[|slots|] == Some(x);
    }
  }

  lemma {:induction false} PresentExactly(slots: seq<Slot>, x: real)
    ensures x in Present(slots) <==> IsAmong(slots, x)
  {
    if slots != [] {
      var n := |slots| - 1;
      PresentExactly(slots[..n], x);
      AmongSnoc(slots[..n], slots[n], slots, x);
    }
  }

  lemma {:induction false} ExtremesExactly(xs: seq<real>)
    requires xs != []
    ensures Greatest(xs) in xs && forall x :: x in xs ==> x <= Greatest(xs)
    ensures Least(xs) in xs && forall x :: x in xs ==> Least(xs) <= x
  {
    if |xs| > 1 {
      var n := |xs| - 1;
      ExtremesExactly(xs[..n]);
      assert xs == xs[..n] + [xs[n]];
    }
  }

  lemma {:induction false} QuotientTimes(whole: real, count: real, share: real)
    requires count != 0.0 && share == whole / count
    ensures share * count == whole
  {
  }

  lemma {:induction false} ExtremeOf(slots: seq<Slot>)
    requires Present(slots) != []
    ensures IsGreatest(slots, Greatest(Present(slots))) && IsLeast(slots, Least(Present(slots)))
  {
    ExtremesExactly(Present(slots));
    PresentExactly(slots, Greatest(Present(slots)));
    PresentExactly(slots, Least(Present(slots)));
    forall i | 0 <= i < |slots| && slots[i].Some? ensures slots[i].value in Present(slots) {
      assert IsAmong(slots, slots[i].value);
      PresentExactly(slots, slots[i].value);
    }
  }

  lemma {:induction false} MeanExactly(slots: seq<Slot>)
    requires Present(slots) != []
    ensures ReducesTo(MeanOf, slots, Reduce(Present(slots), MeanOf))
  {
    TotalIsTheSum(slots);
    PresentCounted(slots);
    QuotientTimes(Total(slots), |PresentAt(slots)| as real, Reduce(Present(slots), MeanOf));
  }

  lemma {:induction false} ReducedExactly(reducer: Reducer, slots: seq<Slot>)
    requires Present(slots) != []
    ensures ReducesTo(reducer, slots, Reduce(Present(slots), reducer))
  {
    match reducer
    case MaxOf => ExtremeOf(slots);
    case MinOf => ExtremeOf(slots);
    case SumOf => TotalIsTheSum(slots);
    case MeanOf => MeanExactly(slots);
  }

  // ---- What an aggregation means ----

  /** The answer there is: a number that says of the slots what its strategy says, and both counts. */
  predicate Accounts(spec: AggregationSpec, slots: seq<Slot>, unit: Unit, answer: Option<AggregatedValue>) {
    && (answer.None? <==> PresentAt(slots) == {})
    && (answer.Some? ==>
          && Says(spec, slots, answer.value.value) && answer.value.unit == UnitAfter(spec, unit)
          && answer.value.sampleCount == |PresentAt(slots)| && answer.value.missingCount == |HolesAt(slots)|)
  }

  lemma {:induction false} OnlySlotIsTheMean(slots: seq<Slot>)
    requires |slots| == 1 && Present(slots) != []
    ensures slots[0] == Some(Reduce(Present(slots), MeanOf))
  {
    PresentNext(slots);
    assert slots[..0] == [];
    assert Present(slots) == [slots[0].value];
    SumNext([], slots[0].value, [slots[0].value]);
  }

  lemma {:induction false} ReducedAccounts(spec: AggregationSpec, slots: seq<Slot>, unit: Unit, reducer: Reducer)
    requires Present(slots) != [] ==> Says(spec, slots, Reduce(Present(slots), reducer))
    requires UnitAfter(spec, unit) == unit
    ensures Accounts(spec, slots, unit, ReduceOver(slots, unit, reducer))
  {
    PresentCounted(slots);
    HolesCounted(slots);
  }

  lemma {:induction false} CountSays(spec: AggregationSpec, slots: seq<Slot>, test: Predicate)
    requires spec.params.test == Some(test) && spec.code.CountIf?
    ensures Says(spec, slots, Matching(Present(slots), test) as real)
  {
    MatchingCounted(slots, test);
  }

  lemma {:induction false} ShareSays(spec: AggregationSpec, slots: seq<Slot>, test: Predicate, share: real)
    requires spec.params.test == Some(test) && spec.code.ShareOfHours? && Present(slots) != []
    requires share == Matching(Present(slots), test) as real / |Present(slots)| as real
    ensures Says(spec, slots, share)
  {
    PresentCounted(slots);
    MatchingCounted(slots, test);
    QuotientTimes(|MatchingAt(slots, test)| as real, |PresentAt(slots)| as real, share);
  }

  lemma {:induction false} CountAccounts(spec: AggregationSpec, slots: seq<Slot>, unit: Unit, test: Predicate)
    requires spec.params.test == Some(test) && (spec.code.ShareOfHours? || spec.code.CountIf?)
    ensures Accounts(spec, slots, unit, CountOver(slots, test, spec.code.ShareOfHours?))
  {
    PresentCounted(slots);
    HolesCounted(slots);
    if Present(slots) != [] {
      if spec.code.CountIf? {
        CountSays(spec, slots, test);
      } else {
        ShareSays(spec, slots, test, Matching(Present(slots), test) as real / |Present(slots)| as real);
      }
    }
  }

  /** Every strategy answers, exactly when there is a value at all, with what it says. */
  lemma {:induction false} CollapsedExactly(spec: AggregationSpec, slots: seq<Slot>, unit: Unit)
    requires Registered(spec.code) && ParamsAccepted(spec)
    ensures Collapse(spec, slots, unit).Ok? && Accounts(spec, slots, unit, Collapse(spec, slots, unit).value)
  {
    match spec.code
    case Plain(reducer) =>
      if Present(slots) != [] {
        ReducedExactly(reducer, slots);
      }
      ReducedAccounts(spec, slots, unit, reducer);
    case Identity =>
      if Present(slots) != [] {
        if |slots| == 1 {
          OnlySlotIsTheMean(slots);
        }
      }
      ReducedAccounts(spec, slots, unit, MeanOf);
    case DaylightWindow =>
      var reducer := spec.params.reduce.value;
      if Present(slots) != [] {
        ReducedExactly(reducer, slots);
      }
      ReducedAccounts(spec, slots, unit, reducer);
    case ShareOfHours => CountAccounts(spec, slots, unit, spec.params.test.value);
    case CountIf => CountAccounts(spec, slots, unit, spec.params.test.value);
  }

  // ---- Which slots ----

  /** The positions a strategy reads: the hours of the day, its daylight hours, or its daily slot. */
  function PositionsOf(spec: AggregationSpec, window: DayWindow): seq<nat> {
    match spec.code
    case Plain(_) => window.hourIndexes
    case Identity => if window.dailyIndex.Some? then [window.dailyIndex.value] else []
    case DaylightWindow => window.daylightIndexes
    case ShareOfHours => if spec.params.window == Some(WholeDay) then window.hourIndexes else window.daylightIndexes
    case CountIf => if spec.params.window == Some(WholeDay) then window.hourIndexes else window.daylightIndexes
    case UnknownAggregation(_) => []
  }

  predicate Carried(key: Key, series: WeatherSeries) {
    match key.metric
    case Derived(derived) => DerivedChannel(derived, series).Some?
    case Source(code) => if key.aggregation.code.Identity? then code in series.daily.values else code in series.hourly.values
  }

  /** The slot of a metric at a position: a daily one for the daily strategy, a computed one for a derived metric. */
  function MetricAt(key: Key, series: WeatherSeries, i: nat): Slot {
    match key.metric
    case Derived(derived) =>
      var channel := DerivedChannel(derived, series);
      if channel.Some? && i < |channel.value| then channel.value[i] else None
    case Source(code) => SlotAt(if key.aggregation.code.Identity? then series.daily else series.hourly, code, i)
  }

  /** The slots a quantity is made of, in the order of the positions. */
  function SlotsFor(key: Key, series: WeatherSeries, window: DayWindow): (r: seq<Slot>)
    ensures |r| == |PositionsOf(key.aggregation, window)|
    ensures forall k :: 0 <= k < |r| ==> r[k] == MetricAt(key, series, PositionsOf(key.aggregation, window)[k])
  {
    var positions := PositionsOf(key.aggregation, window);
    seq(|positions|, k requires 0 <= k < |positions| => MetricAt(key, series, positions[k]))
  }

  lemma {:induction false} SameChannel(key: Key, series: WeatherSeries)
    ensures var channel := ChannelFor(key.metric, GranularityOf(key.aggregation.code), series);
      && channel.Some? == Carried(key, series)
      && (channel.Some? ==> forall i: nat :: ReadAt(channel.value, i) == MetricAt(key, series, i))
  {
  }

  lemma {:induction false} SamePositions(spec: AggregationSpec, window: DayWindow)
    requires Registered(spec.code) && ParamsAccepted(spec)
    ensures IndexesRead(ReadingOf(spec), window) == PositionsOf(spec, window)
  {
    if spec.code.ShareOfHours? || spec.code.CountIf? {
      assert spec.params.window.value.WholeDay? || spec.params.window.value.Daylight?;
    }
  }

  lemma {:induction false} ViewIsTheSlots(key: Key, series: WeatherSeries, window: DayWindow)
    requires Registered(key.aggregation.code) && ParamsAccepted(key.aggregation)
    ensures View(key, series, window) == if Carried(key, series) then Some(SlotsFor(key, series, window)) else None
  {
    SameChannel(key, series);
    SamePositions(key.aggregation, window);
    if Carried(key, series) {
      var channel := ChannelFor(key.metric, GranularityOf(key.aggregation.code), series).value;
      var read := Reads(channel, PositionsOf(key.aggregation, window));
      forall k | 0 <= k < |read| ensures read[k] == SlotsFor(key, series, window)[k] {
        assert ReadAt(channel, PositionsOf(key.aggregation, window)[k])
          == MetricAt(key, series, PositionsOf(key.aggregation, window)[k]);
      }
      assert read == SlotsFor(key, series, window);
    }
  }

  /**
   * One quantity of one day, end to end: no value where the series does not
   * carry the metric, and otherwise what its strategy says of the slots it reads.
   */
  lemma {:induction false} AggregatedExactly(key: Key, series: WeatherSeries, window: DayWindow)
    requires Registered(key.aggregation.code) && ParamsAccepted(key.aggregation)
    ensures Aggregate(key, series, window).Ok?
    ensures var answer := Aggregate(key, series, window).value;
      if Carried(key, series) then Accounts(key.aggregation, SlotsFor(key, series, window), UnitOf(key.metric), answer)
      else answer.None?
  {
    ViewIsTheSlots(key, series, window);
    if Carried(key, series) {
      CollapsedExactly(key.aggregation, SlotsFor(key, series, window), UnitOf(key.metric));
    }
  }

  // ---- Which quantities need daylight ----

  /** The daylight flag is required besides the metric exactly of what reads the daylight hours, whatever the day. */
  lemma {:induction false} DaylightIsAskedWhereRead(key: Key, metric: Requirable)
    requires Registered(key.aggregation.code) && ParamsAccepted(key.aggregation)
    requires key.aggregation.params.window.Some? ==> key.aggregation.code.ShareOfHours? || key.aggregation.code.CountIf?
    ensures metric in R.Mentions(key) <==>
      metric == key.metric ||
      (metric == Source(IsDay) && forall window :: PositionsOf(key.aggregation, window) == window.daylightIndexes)
  {
    var night := DayWindow("", [0], [], 1, 0.0, Some(0), false);
    if R.ReadsDaylight(key.aggregation) {
      assert forall window :: PositionsOf(key.aggregation, window) == window.daylightIndexes;
    } else {
      var window := key.aggregation.params.window;
      assert window.None? || window.value.WholeDay?;
      assert |PositionsOf(key.aggregation, night)| == 1 && |night.daylightIndexes| == 0;
    }
  }
}
