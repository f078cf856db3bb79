/** Partial failure: what was gathered, what was lost, and for which activities it matters. */
module Containment {
  import opened Prelude
  import opened Metrics
  import opened Definitions
  import opened Series
  import opened DayWindows
  import opened DerivedMetrics
  import opened Aggregation
  import opened Engine
  import opened Merge
  import opened Requirements
  import opened Planning
  import opened SliceTheorem

  // ---- Gathering ----

  datatype Failure = Busy | SchemaMismatch | TransportFailure | Unsupported | OtherFailure(code: string)

  /** How one planned call ended: with the port's answer, or with an adapter that threw. */
  datatype Settlement = Fulfilled(result: Result<WeatherSeries, Failure>) | Rejected

  datatype Settled = Settled(capability: Capability, settlement: Settlement) {
    function Answer(): Result<WeatherSeries, Failure> {
      if settlement.Rejected? then Err(TransportFailure) else settlement.result
    }
  }

  datatype GatheredData = GatheredData(series: Option<WeatherSeries>, failures: map<Capability, Failure>)

  /** A series that does not line up with what came before is a failure of its own capability. */
  function Take(data: GatheredData, next: Settled): GatheredData {
    var answer := next.Answer();
    if answer.Err? then data.(failures := data.failures[next.capability := answer.error])
    else if data.series.None? then data.(series := Some(answer.value))
    else
      var merged := MergedPair(data.series.value, answer.value);
      if merged.Some? then data.(series := merged)
      else data.(failures := data.failures[next.capability := SchemaMismatch])
  }

  function Gathered(settled: seq<Settled>): GatheredData {
    if settled == [] then GatheredData(None, map[])
    else Take(Gathered(settled[..|settled| - 1]), settled[|settled| - 1])
  }

  /** A plan that could not be made fails every capability. */
  function GatheredFor(plan: Result<MetricPlan, PlanError>, settled: seq<Settled>): GatheredData {
    if plan.Err? then GatheredData(None, map c: Capability | c in CAPABILITIES :: Unsupported)
    else Gathered(settled)
  }

  /** The answers are taken one by one, in the order they were planned. */
  method Gather(plan: Result<MetricPlan, PlanError>, settled: seq<Settled>) returns (data: GatheredData)
    ensures data == GatheredFor(plan, settled)
  {
    if plan.Err? {
      return GatheredData(None, map c: Capability | c in CAPABILITIES :: Unsupported);
    }
    var failures: map<Capability, Failure> := map[];
    var series: Option<WeatherSeries> := None;
    for i := 0 to |settled|
      invariant GatheredData(series, failures) == Gathered(settled[..i])
    {
      assert settled[..i + 1][..i] == settled[..i];
      var capability := settled[i].capability;
      if settled[i].settlement.Rejected? {
        failures := failures[capability := TransportFailure];
        continue;
      }
      var result := settled[i].settlement.result;
      if result.Err? {
        failures := failures[capability := result.error];
        continue;
      }
      if series.None? {
        series := Some(result.value);
        continue;
      }
      var merged := MergeSeries([series.value, result.value]);
      MergedTwo(series.value, result.value);
      if merged.Ok? {
        series := Some(merged.value);
      } else {
        failures := failures[capability := SchemaMismatch];
      }
    }
    assert settled[..|settled|] == settled;
    data := GatheredData(series, failures);
  }

  lemma {:induction false} MergedTwo(left: WeatherSeries, right: WeatherSeries)
    ensures Merged([left, right]) == MergedPair(left, right)
  {
    assert [left, right][..1] == [left];
  }

  // ---- Which answers are kept ----

  predicate Fit(left: WeatherSeries, right: WeatherSeries) {
    Compatible(left.hourly, right.hourly) && Compatible(left.daily, right.daily)
  }

  /** An answer is kept when it is a series and fits every series kept before it. */
  predicate KeptAt(settled: seq<Settled>, i: nat)
    requires i < |settled|
  {
    settled[i].Answer().Ok? &&
    forall j: nat :: j < i && KeptAt(settled, j) ==> Fit(settled[j].Answer().value, settled[i].Answer().value)
  }

  function Kept(settled: seq<Settled>): seq<WeatherSeries> {
    if settled == [] then []
    else
      var n := |settled| - 1;
      Kept(settled[..n]) + if KeptAt(settled, n) then [settled[n].Answer().value] else []
  }

  lemma {:induction false} KeptAtPrefix(settled: seq<Settled>, n: nat, i: nat)
    requires i < n <= |settled|
    ensures KeptAt(settled[..n], i) <==> KeptAt(settled, i)
    decreases i
  {
    forall j: nat | j < i ensures KeptAt(settled[..n], j) <==> KeptAt(settled, j) {
      KeptAtPrefix(settled, n, j);
    }
  }

  lemma {:induction false} KeptExactly(settled: seq<Settled>, s: WeatherSeries)
    ensures s in Kept(settled) <==>
      exists i :: 0 <= i < |settled| && KeptAt(settled, i) && settled[i].Answer().value == s
  {
    if settled != [] {
      var n := |settled| - 1;
      KeptExactly(settled[..n], s);
      if s in Kept(settled[..n]) {
        var i :| 0 <= i < n && KeptAt(settled[..n], i) && settled[..n][i].Answer().value == s;
        KeptAtPrefix(settled, n, i);
      }
      if i :| 0 <= i < |settled| && KeptAt(settled, i) && settled[i].Answer().value == s {
        if i < n {
          KeptAtPrefix(settled, n, i);
          assert settled[..n][i].Answer().value == s;
        }
      }
    }
  }

  ghost predicate OnePerCapability(settled: seq<Settled>) {
    forall i, j :: 0 <= i < j < |settled| ==> settled[i].capability != settled[j].capability
  }

  lemma {:induction false} AllCompatible(kept: seq<WeatherSeries>, f: WeatherSeries -> seq<Channel>, next: Channel)
    ensures (forall c :: c in multiset(Collect(kept, f)) ==> Compatible(c, next)) <==>
      forall s, c :: s in kept && c in f(s) ==> Compatible(c, next)
  {
    var all := Collect(kept, f);
    if forall c :: c in multiset(all) ==> Compatible(c, next) {
      forall s, c | s in kept && c in f(s) ensures Compatible(c, next) {
        CollectedFrom(kept, f, c);
        assert c in multiset(all);
      }
    }
    if forall s, c :: s in kept && c in f(s) ==> Compatible(c, next) {
      forall c | c in multiset(all) ensures Compatible(c, next) {
        assert c in all;
        CollectedFrom(kept, f, c);
      }
    }
  }

  /** A series fits a merge exactly when it fits each of the series merged. */
  lemma {:induction false} FitsAllOrNone(kept: seq<WeatherSeries>, next: WeatherSeries)
    requires kept != [] && Merged(kept).Some?
    ensures MergedPair(Merged(kept).value, next).Some? <==> forall s :: s in kept ==> Fit(s, next)
  {
    var whole := Merged(kept).value;
    MergedStandsFor(kept);
    CombinedExactly(multiset(Collect(kept, HourlyOf)), whole.hourly, next.hourly);
    CombinedExactly(multiset(Collect(kept, DailyOf)), whole.daily, next.daily);
    AllCompatible(kept, HourlyOf, next.hourly);
    AllCompatible(kept, DailyOf, next.daily);
    FitBothChannels(kept, next);
  }

  lemma {:induction false} FitBothChannels(kept: seq<WeatherSeries>, next: WeatherSeries)
    ensures (forall s :: s in kept ==> Fit(s, next)) <==>
      ((forall s, c :: s in kept && c in HourlyOf(s) ==> Compatible(c, next.hourly)) &&
       (forall s, c :: s in kept && c in DailyOf(s) ==> Compatible(c, next.daily)))
  {
    forall s: WeatherSeries ensures s.hourly in HourlyOf(s) && s.daily in DailyOf(s) {
    }
  }

  /** The series gathered is the merge of the answers kept, and there is none when none was kept. */
  lemma {:induction false} GatheredSeries(settled: seq<Settled>)
    ensures Kept(settled) == [] ==> Gathered(settled).series.None?
    ensures Kept(settled) != [] ==> Merged(Kept(settled)).Some? && Gathered(settled).series == Merged(Kept(settled))
  {
    if settled != [] {
      var n := |settled| - 1;
      var init := settled[..n];
      GatheredSeries(init);
      KeptLast(settled);
      if KeptAt(settled, n) {
        KeptIsTaken(Kept(init), Gathered(init), settled[n]);
      } else {
        assert Kept(settled) == Kept(init);
      }
    }
  }

  lemma {:induction false} KeptIsTaken(kept: seq<WeatherSeries>, data: GatheredData, next: Settled)
    requires kept == [] ==> data.series.None?
    requires kept != [] ==> Merged(kept).Some? && data.series == Merged(kept)
    requires next.Answer().Ok? && (kept == [] || MergedPair(Merged(kept).value, next.Answer().value).Some?)
    ensures var longer := kept + [next.Answer().value];
      Merged(longer).Some? && Take(data, next).series == Merged(longer)
  {
    var series := next.Answer().value;
    if kept == [] {
      assert kept + [series] == [series];
    } else {
      MergedSnoc(kept, series);
    }
  }

  /** A capability fails exactly when its answer was not kept. */
  lemma {:induction false} GatheredFailures(settled: seq<Settled>, i: nat)
    requires OnePerCapability(settled) && i < |settled|
    ensures settled[i].capability in Gathered(settled).failures <==> !KeptAt(settled, i)
    ensures settled[i].capability in Gathered(settled).failures ==>
      Gathered(settled).failures[settled[i].capability] ==
        if settled[i].Answer().Err? then settled[i].Answer().error else SchemaMismatch
  {
    var n := |settled| - 1;
    var init := settled[..n];
    GatheredSeries(init);
    if i < n {
      GatheredFailures(init, i);
      KeptAtPrefix(settled, n, i);
      TakeLeavesOthers(Gathered(init), settled[n], settled[i].capability);
    } else {
      KeptLast(settled);
      OnlyOwnFailures(init, settled[n].capability);
      TakeFails(Gathered(init), settled[n]);
    }
  }

  lemma {:induction false} TakeLeavesOthers(data: GatheredData, next: Settled, capability: Capability)
    requires next.capability != capability
    ensures capability in Take(data, next).failures <==> capability in data.failures
    ensures capability in data.failures ==> Take(data, next).failures[capability] == data.failures[capability]
  {
  }

  /** An answer taken is recorded as a failure exactly when it is one, or does not fit what is there. */
  lemma {:induction false} TakeFails(data: GatheredData, next: Settled)
    requires next.capability !in data.failures
    ensures var answer, failures := next.Answer(), Take(data, next).failures;
      && (next.capability in failures <==>
            !(answer.Ok? && (data.series.None? || MergedPair(data.series.value, answer.value).Some?)))
      && (next.capability in failures ==>
            failures[next.capability] == if answer.Err? then answer.error else SchemaMismatch)
  {
  }

  lemma {:induction false} OnlyOwnFailures(settled: seq<Settled>, capability: Capability)
    requires forall i :: 0 <= i < |settled| ==> settled[i].capability != capability
    ensures capability !in Gathered(settled).failures
  {
    if settled != [] {
      OnlyOwnFailures(settled[..|settled| - 1], capability);
    }
  }

  /** The last answer is kept exactly when taking it enlarges the series. */
  lemma {:induction false} KeptLast(settled: seq<Settled>)
    requires settled != []
    requires Kept(settled[..|settled| - 1]) != [] ==> Merged(Kept(settled[..|settled| - 1])).Some?
    ensures var n := |settled| - 1;
      var init := Kept(settled[..n]);
      KeptAt(settled, n) <==> (settled[n].Answer().Ok? &&
        (init == [] || MergedPair(Merged(init).value, settled[n].Answer().value).Some?))
  {
    var n := |settled| - 1;
    var init := settled[..n];
    if settled[n].Answer().Ok? {
      var next := settled[n].Answer().value;
      if Kept(init) != [] {
        FitsAllOrNone(Kept(init), next);
      }
      assert (forall s :: s in Kept(init) ==> Fit(s, next)) <==> KeptAt(settled, n) by {
        FitsEveryKept(settled, next);
      }
    }
  }

  lemma {:induction false} FitsEveryKept(settled: seq<Settled>, next: WeatherSeries)
    requires settled != []
    ensures var n := |settled| - 1;
      (forall s :: s in Kept(settled[..n]) ==> Fit(s, next)) <==>
      forall j: nat :: j < n && KeptAt(settled, j) ==> Fit(settled[j].Answer().value, next)
  {
    var n := |settled| - 1;
    var init := settled[..n];
    forall j: nat | j < n && KeptAt(settled, j) ensures settled[j].Answer().value in Kept(init) {
      KeptAtPrefix(settled, n, j);
      assert init[j] == settled[j];
      KeptExactly(init, settled[j].Answer().value);
    }
    forall s | s in Kept(init)
      ensures exists j: nat :: (j < n && KeptAt(settled, j) && settled[j].Answer().value == s)
    {
      KeptExactly(init, s);
      var j :| 0 <= j < n && KeptAt(init, j) && init[j].Answer().value == s;
      KeptAtPrefix(settled, n, j);
    }
  }

  lemma {:induction false} MergedSnoc(kept: seq<WeatherSeries>, next: WeatherSeries)
    requires kept != [] && Merged(kept).Some?
    ensures Merged(kept + [next]) == MergedPair(Merged(kept).value, next)
  {
    assert (kept + [next])[..|kept|] == kept;
  }

  // ---- Who may speak about what ----

  type Owner = MetricCode -> Capability

  /** A series that carries only the metrics of its capability and says, of each hourly one, where it came from. */
  ghost predicate SpeaksFor(series: WeatherSeries, capability: Capability, owner: Owner) {
    && (forall m :: m in series.hourly.values ==> owner(m) == capability && FirstCarrier(series.provenance, m).Some?)
    && (forall m :: m in series.daily.values ==> owner(m) == capability)
    && (forall e, m :: e in series.provenance && m in e.metrics ==> owner(m) == capability)
  }

  /** Every source answers for its own metrics. */
  ghost predicate Honest(settled: seq<Settled>, owner: Owner) {
    OnePerCapability(settled) &&
    forall i :: 0 <= i < |settled| && settled[i].Answer().Ok? ==>
      SpeaksFor(settled[i].Answer().value, settled[i].capability, owner)
  }

  /** What a capability answered; nothing when it was not asked. */
  function AnswerOf(settled: seq<Settled>, capability: Capability): Option<Result<WeatherSeries, Failure>> {
    if settled == [] then None
    else if settled[0].capability == capability then Some(settled[0].Answer())
    else AnswerOf(settled[1..], capability)
  }

  lemma {:induction false} AnswerAt(settled: seq<Settled>, i: nat)
    requires OnePerCapability(settled) && i < |settled|
    ensures AnswerOf(settled, settled[i].capability) == Some(settled[i].Answer())
  {
    if i > 0 {
      assert settled[0].capability != settled[i].capability;
      AnswerAt(settled[1..], i - 1);
    }
  }

  lemma {:induction false} AnsweredBySome(settled: seq<Settled>, capability: Capability) returns (i: nat)
    requires AnswerOf(settled, capability).Some?
    ensures i < |settled| && settled[i].capability == capability && AnswerOf(settled, capability).value == settled[i].Answer()
  {
    if settled[0].capability == capability {
      i := 0;
    } else {
      i := AnsweredBySome(settled[1..], capability);
      i := i + 1;
    }
  }

  // ---- What reaches the merge from one capability ----

  /** The slots of one metric, and the axis they are on. */
  datatype Lane = Lane(time: seq<string>, slots: seq<Slot>)

  function LaneOf(channel: Channel, code: MetricCode): Option<Lane> {
    if !Silent(channel) && code in channel.values then Some(Lane(channel.time, channel.values[code])) else None
  }

  /** A metric only one contribution names reaches the union as that contribution has it. */
  lemma {:induction false} LaneOfUnion(channels: multiset<Channel>, whole: Channel, code: MetricCode, speaker: Option<Channel>)
    requires StandsFor(channels, whole)
    requires forall c :: c in channels && !Silent(c) && code in c.values ==> speaker == Some(c)
    requires speaker.Some? ==> speaker.value in channels
    ensures LaneOf(whole, code) == if speaker.Some? then LaneOf(speaker.value, code) else None
  {
    if Named(channels, code) {
      var c :| c in channels && !Silent(c) && code in c.values;
      assert !Silent(whole) && Carries(whole, c);
    } else if !Silent(whole) {
      assert code !in whole.values;
      assert speaker.Some? && !Silent(speaker.value) ==> code !in speaker.value.values;
    }
  }

  function Speaker(settled: seq<Settled>, capability: Capability): Option<WeatherSeries> {
    var answer := AnswerOf(settled, capability);
    if answer.Some? && answer.value.Ok? then Some(answer.value.value) else None
  }

  function LaneFrom(series: Option<WeatherSeries>, axis: Axis, code: MetricCode): Option<Lane> {
    if series.None? then None
    else LaneOf(if axis.HourlyAxis? then series.value.hourly else series.value.daily, code)
  }

  /** A capability that did not fail is heard in full: what it answered is among the answers kept. */
  lemma {:induction false} HeardInFull(settled: seq<Settled>, capability: Capability, owner: Owner)
    requires Honest(settled, owner) && capability !in Gathered(settled).failures
    ensures Speaker(settled, capability).Some? ==>
      Speaker(settled, capability).value in Kept(settled) && SpeaksFor(Speaker(settled, capability).value, capability, owner)
  {
    if Speaker(settled, capability).Some? {
      var i := AnsweredBySome(settled, capability);
      GatheredFailures(settled, i);
      KeptExactly(settled, settled[i].Answer().value);
    }
  }

  /** Nobody else is heard about its metrics. */
  lemma {:induction false} NobodyElse(settled: seq<Settled>, s: WeatherSeries, code: MetricCode, owner: Owner)
    requires Honest(settled, owner) && s in Kept(settled)
    ensures Speaker(settled, owner(code)) == Some(s) ||
      (code !in s.hourly.values && code !in s.daily.values && FirstCarrier(s.provenance, code).None?)
  {
    KeptExactly(settled, s);
    var i :| 0 <= i < |settled| && KeptAt(settled, i) && settled[i].Answer().value == s;
    AnswerAt(settled, i);
    if settled[i].capability != owner(code) {
      NotCarried(s.provenance, code);
    }
  }

  lemma {:induction false} NotCarried(provenance: seq<Provenance>, code: MetricCode)
    requires forall e :: e in provenance ==> code !in e.metrics
    ensures FirstCarrier(provenance, code).None?
  {
    if provenance != [] {
      assert provenance[0] in provenance;
      NotCarried(provenance[1..], code);
    }
  }

  /** In the gathered series, a metric of a capability that did not fail is exactly what that capability answered. */
  lemma {:induction false} GatheredLanes(settled: seq<Settled>, code: MetricCode, owner: Owner)
    requires Honest(settled, owner) && owner(code) !in Gathered(settled).failures
    requires Gathered(settled).series.Some?
    ensures var series := Gathered(settled).series.value;
      && LaneOf(series.hourly, code) == LaneFrom(Speaker(settled, owner(code)), HourlyAxis, code)
      && LaneOf(series.daily, code) == LaneFrom(Speaker(settled, owner(code)), DailyAxis, code)
  {
    GatheredSeries(settled);
    var speaker := Speaker(settled, owner(code));
    HeardInFull(settled, owner(code), owner);
    forall s | s in Kept(settled) ensures speaker == Some(s) || Silences(s, code) {
      NobodyElse(settled, s, code, owner);
    }
    MergedHourlyLane(Kept(settled), code, speaker);
    MergedDailyLane(Kept(settled), code, speaker);
  }

  /** Names the metric on neither channel. */
  predicate Silences(s: WeatherSeries, code: MetricCode) {
    code !in s.hourly.values && code !in s.daily.values
  }

  lemma {:induction false} MergedHourlyLane(kept: seq<WeatherSeries>, code: MetricCode, speaker: Option<WeatherSeries>)
    requires kept != [] && Merged(kept).Some?
    requires forall s :: s in kept ==> speaker == Some(s) || Silences(s, code)
    requires speaker.Some? ==> speaker.value in kept
    ensures LaneOf(Merged(kept).value.hourly, code) == LaneFrom(speaker, HourlyAxis, code)
  {
    MergedStandsFor(kept);
    LaneAmong(kept, HourlyOf, Merged(kept).value.hourly, code, speaker,
      if speaker.Some? then Some(speaker.value.hourly) else None);
  }

  lemma {:induction false} MergedDailyLane(kept: seq<WeatherSeries>, code: MetricCode, speaker: Option<WeatherSeries>)
    requires kept != [] && Merged(kept).Some?
    requires forall s :: s in kept ==> speaker == Some(s) || Silences(s, code)
    requires speaker.Some? ==> speaker.value in kept
    ensures LaneOf(Merged(kept).value.daily, code) == LaneFrom(speaker, DailyAxis, code)
  {
    MergedStandsFor(kept);
    LaneAmong(kept, DailyOf, Merged(kept).value.daily, code, speaker,
      if speaker.Some? then Some(speaker.value.daily) else None);
  }

  lemma {:induction false} LaneAmong(
      kept: seq<WeatherSeries>, f: WeatherSeries -> seq<Channel>, whole: Channel, code: MetricCode,
      speaker: Option<WeatherSeries>, own: Option<Channel>)
    requires StandsFor(multiset(Collect(kept, f)), whole)
    requires forall s, c :: s in kept && c in f(s) && code in c.values ==> speaker == Some(s)
    requires speaker.Some? ==> speaker.value in kept && own.Some? && f(speaker.value) == [own.value]
    requires speaker.None? ==> own.None?
    ensures LaneOf(whole, code) == if own.Some? then LaneOf(own.value, code) else None
  {
    OnlyChannel(kept, f, code, speaker);
    LaneOfUnion(multiset(Collect(kept, f)), whole, code, own);
  }

  lemma {:induction false} OnlyChannel(
      kept: seq<WeatherSeries>, f: WeatherSeries -> seq<Channel>, code: MetricCode, speaker: Option<WeatherSeries>)
    requires forall s, c :: s in kept && c in f(s) && code in c.values ==> speaker == Some(s)
    requires speaker.Some? ==> speaker.value in kept
    ensures forall c :: c in multiset(Collect(kept, f)) && code in c.values ==> speaker.Some? && c in f(speaker.value)
    ensures speaker.Some? ==> forall c :: c in f(speaker.value) ==> c in multiset(Collect(kept, f))
  {
    var all := Collect(kept, f);
    forall c: Channel | c in multiset(all) && code in c.values ensures speaker.Some? && c in f(speaker.value) {
      assert c in all;
      CollectedFrom(kept, f, c);
    }
    if speaker.Some? {
      forall c | c in f(speaker.value) ensures c in multiset(all) {
        CollectedFrom(kept, f, c);
        assert c in all;
      }
    }
  }

  lemma {:induction false} CarrierOfBoth(first: seq<Provenance>, second: seq<Provenance>, code: MetricCode)
    ensures FirstCarrier(first + second, code) ==
      if FirstCarrier(first, code).Some? then FirstCarrier(first, code) else FirstCarrier(second, code)
  {
    if first == [] {
      assert first + second == second;
    } else {
      assert (first + second)[1..] == first[1..] + second;
      CarrierOfBoth(first[1..], second, code);
    }
  }

  lemma {:induction false} CarrierAmong(kept: seq<WeatherSeries>, speaker: WeatherSeries, code: MetricCode)
    requires forall s :: s in kept ==> s == speaker || FirstCarrier(s.provenance, code).None?
    ensures FirstCarrier(Collect(kept, ProvenanceOf), code) ==
      if speaker in kept then FirstCarrier(speaker.provenance, code) else None
  {
    if kept != [] {
      var n := |kept| - 1;
      CarrierAmong(kept[..n], speaker, code);
      CarrierOfBoth(Collect(kept[..n], ProvenanceOf), kept[n].provenance, code);
      assert kept == kept[..n] + [kept[n]];
    }
  }

  /** Where a metric came from is what its own capability says, whoever else contributed. */
  lemma {:induction false} GatheredCarrier(settled: seq<Settled>, code: MetricCode, owner: Owner)
    requires Honest(settled, owner) && owner(code) !in Gathered(settled).failures
    requires Gathered(settled).series.Some? && Speaker(settled, owner(code)).Some?
    ensures FirstCarrier(Gathered(settled).series.value.provenance, code) ==
      FirstCarrier(Speaker(settled, owner(code)).value.provenance, code)
  {
    GatheredSeries(settled);
    var kept := Kept(settled);
    MergedStandsFor(kept);
    var speaker := Speaker(settled, owner(code)).value;
    HeardInFull(settled, owner(code), owner);
    forall s | s in kept ensures s == speaker || FirstCarrier(s.provenance, code).None? {
      NobodyElse(settled, s, code, owner);
    }
    CarrierAmong(kept, speaker, code);
  }

  // ---- What a quantity reads, and nothing else ----

  /** A metric a quantity cannot be computed without. */
  ghost predicate ReadBy(key: Key, code: MetricCode) {
    exists metric :: NeededFor(key, metric) && code in Bases(metric)
  }

  /** Two series that have a metric in common, on both axes. */
  ghost predicate Alike(left: WeatherSeries, right: WeatherSeries, code: MetricCode) {
    LaneOf(left.hourly, code) == LaneOf(right.hourly, code) && LaneOf(left.daily, code) == LaneOf(right.daily, code)
  }

  predicate OnAxis(series: WeatherSeries, date: string) {
    date in DistinctDates(series.hourly.time)
  }

  lemma {:induction false} HoursAlike(left: WeatherSeries, right: WeatherSeries, date: string, reading: Reading)
    requires left.hourly.time == right.hourly.time && !reading.DailySlot?
    requires reading.DaylightSlots? ==> ValuesOf(left.hourly, IsDay) == ValuesOf(right.hourly, IsDay)
    ensures IndexesRead(reading, WindowOn(left, date)) == IndexesRead(reading, WindowOn(right, date))
  {
  }

  /** On days both series know, a metric they share is on the same hourly axis with the same slots, or on neither. */
  lemma {:induction false} SharedOnHourly(left: WeatherSeries, right: WeatherSeries, code: MetricCode, date: string)
    requires Alike(left, right, code) && OnAxis(left, date) && OnAxis(right, date)
    ensures code in left.hourly.values <==> code in right.hourly.values
    ensures code in left.hourly.values ==>
      left.hourly.time == right.hourly.time && left.hourly.values[code] == right.hourly.values[code]
    ensures ValuesOf(left.hourly, code) == ValuesOf(right.hourly, code)
  {
    assert DistinctDates([]) == [];
    assert !Silent(left.hourly) && !Silent(right.hourly);
  }

  lemma {:induction false} DaylightIsRead(key: Key)
    requires ReadingOf(key.aggregation).DaylightSlots?
    ensures ReadBy(key, IsDay)
  {
    assert NeededFor(key, Source(IsDay)) && IsDay in Bases(Source(IsDay));
  }

  lemma {:induction false} SourceIsRead(key: Key)
    requires key.metric.Source?
    ensures ReadBy(key, key.metric.code)
  {
    assert NeededFor(key, key.metric) && key.metric.code in Bases(key.metric);
  }

  lemma {:induction false} BasesAreRead(key: Key, k: nat)
    requires key.metric.Derived? && k < |Requires(key.metric.derived)|
    ensures ReadBy(key, Requires(key.metric.derived)[k])
  {
    assert NeededFor(key, key.metric) && Requires(key.metric.derived)[k] in Bases(key.metric);
  }

  ghost predicate AlikeFor(key: Key, left: WeatherSeries, right: WeatherSeries) {
    forall code :: ReadBy(key, code) ==> Alike(left, right, code)
  }

  /** A daily metric read of both series: an axis without stamps answers like a metric that is not there. */
  lemma {:induction false} DailyAlike(key: Key, left: WeatherSeries, right: WeatherSeries, date: string)
    requires key.metric.Source? && key.aggregation.code.Identity? && Alike(left, right, key.metric.code)
    ensures Aggregate(key, left, WindowOn(left, date)) == Aggregate(key, right, WindowOn(right, date))
  {
    var code := key.metric.code;
    if LaneOf(left.daily, code).None? {
      DailySilence(key, left, date);
      DailySilence(key, right, date);
    } else {
      assert left.daily.time == right.daily.time;
    }
  }

  lemma {:induction false} DailySilence(key: Key, series: WeatherSeries, date: string)
    requires key.metric.Source? && key.aggregation.code.Identity? && LaneOf(series.daily, key.metric.code).None?
    ensures Aggregate(key, series, WindowOn(series, date)) == Ok(None)
  {
    if Silent(series.daily) {
      assert IndexesOn([], date) == [];
      assert IndexesRead(DailySlot, WindowOn(series, date)) == [];
    }
  }

  lemma {:induction false} HourlyAlike(key: Key, left: WeatherSeries, right: WeatherSeries, date: string)
    requires key.metric.Source? && !key.aggregation.code.Identity? && AlikeFor(key, left, right)
    requires OnAxis(left, date) && OnAxis(right, date)
    ensures View(key, left, WindowOn(left, date)) == View(key, right, WindowOn(right, date))
  {
    SourceIsRead(key);
    SharedOnHourly(left, right, key.metric.code, date);
    if key.metric.code in left.hourly.values {
      var reading := ReadingOf(key.aggregation);
      if reading.DaylightSlots? {
        DaylightIsRead(key);
        SharedOnHourly(left, right, IsDay, date);
      }
      HoursAlike(left, right, date, reading);
    }
  }

  lemma {:induction false} DerivedAlike(key: Key, left: WeatherSeries, right: WeatherSeries, date: string)
    requires key.metric.Derived? && !key.aggregation.code.Identity? && AlikeFor(key, left, right)
    requires OnAxis(left, date) && OnAxis(right, date)
    requires HasBases(key.metric.derived, left) && HasBases(key.metric.derived, right) ==>
      var base := Requires(key.metric.derived)[0];
      ElevationFor(left.provenance, base) == ElevationFor(right.provenance, base)
    ensures View(key, left, WindowOn(left, date)) == View(key, right, WindowOn(right, date))
  {
    var derived := key.metric.derived;
    var bases := Requires(derived);
    forall k | 0 <= k < |bases|
      ensures bases[k] in left.hourly.values <==> bases[k] in right.hourly.values
      ensures bases[k] in left.hourly.values ==>
        left.hourly.time == right.hourly.time && left.hourly.values[bases[k]] == right.hourly.values[bases[k]]
    {
      BasesAreRead(key, k);
      SharedOnHourly(left, right, bases[k], date);
    }
    if HasBases(derived, left) {
      assert HasBases(derived, right);
      assert BaseChannels(derived, left) == BaseChannels(derived, right);
      assert DerivedChannel(derived, left) == DerivedChannel(derived, right);
      assert bases[0] in left.hourly.values;
      var reading := ReadingOf(key.aggregation);
      if reading.DaylightSlots? {
        DaylightIsRead(key);
        SharedOnHourly(left, right, IsDay, date);
      }
      HoursAlike(left, right, date, reading);
    }
  }

  // ---- Outcomes ----

  function Missing(reason: ReasonCode, metrics: seq<Requirable>): Outcome {
    NoData(reason, metrics, IsRetryable(reason))
  }

  /** Declining to send a call is told apart from a source that failed, and waves from everything else. */
  function ReasonFor(capability: Capability, failure: Failure): ReasonCode {
    if failure.Busy? then ProviderBusy
    else if capability.Marine? then MarineUnavailable
    else ProviderUnavailable
  }

  function Sources(codes: seq<MetricCode>): (r: seq<Requirable>)
    ensures |r| == |codes| && forall i :: 0 <= i < |r| ==> r[i] == Source(codes[i])
  {
    seq(|codes|, i requires 0 <= i < |codes| => Source(codes[i]))
  }

  /** The first of the capabilities, in order, that failed. */
  function FirstFailed(order: seq<Capability>, failures: map<Capability, Failure>): (r: Option<Capability>)
    ensures r.Some? ==> r.value in order && r.value in failures
  {
    if order == [] then None
    else if order[0] in failures then Some(order[0])
    else FirstFailed(order[1..], failures)
  }

  /** The refusal of an activity one of whose capabilities failed; nothing when none of them did. */
  function Unavailable(definition: Definition, data: GatheredData): Option<Outcome> {
    var owing := RequiredCapabilities(definition);
    var failed := FirstFailed(owing.order, data.failures);
    if failed.None? then None
    else Some(Missing(ReasonFor(failed.value, data.failures[failed.value]), Sources(OwedBy(owing, failed.value))))
  }

  /** What one activity answers for one day of the gathered series. */
  function OutcomeOn(
    judged: ActivityVerdict, data: GatheredData, date: string, profile: Profile, exp: real -> real
  ): Result<Outcome, EngineFault>
    requires data.series.Some?
  {
    match judged.verdict
    case Impossible(reason) => Ok(NotApplicable(reason))
    case Undecided(reason) => Ok(Missing(reason, []))
    case Possible =>
      var missing := Unavailable(judged.definition, data);
      if missing.Some? then Ok(missing.value)
      else ScoreActivity(judged.definition, data.series.value, WindowOn(data.series.value, date), profile, exp)
  }

  /** What one activity answers when no source told us what day it is. */
  function OutcomeWithoutADay(judged: ActivityVerdict, data: GatheredData): Outcome {
    match judged.verdict
    case Impossible(reason) => NotApplicable(reason)
    case _ =>
      var missing := Unavailable(judged.definition, data);
      if missing.Some? then missing.value
      else Missing(if judged.verdict.Undecided? then judged.verdict.reason else ProviderUnavailable, [])
  }

  lemma {:induction false} FirstFailedExactly(order: seq<Capability>, failures: map<Capability, Failure>)
    ensures FirstFailed(order, failures).Some? <==> exists c :: c in order && c in failures
  {
    if order != [] {
      FirstFailedExactly(order[1..], failures);
      assert order == [order[0]] + order[1..];
    }
  }

  lemma {:induction false} FirstFailedIsFirst(order: seq<Capability>, failures: map<Capability, Failure>) returns (i: nat)
    requires FirstFailed(order, failures).Some?
    ensures i < |order| && FirstFailed(order, failures) == Some(order[i])
    ensures forall j :: 0 <= j < i ==> order[j] !in failures
  {
    if order[0] in failures {
      i := 0;
    } else {
      var rest := FirstFailedIsFirst(order[1..], failures);
      i := rest + 1;
      forall j | 0 <= j < i ensures order[j] !in failures {
        assert j > 0 ==> order[j] == order[1..][j - 1];
      }
    }
  }

  /** What a refusal says: the first capability needed that failed, why, and which metrics it leaves missing. */
  ghost predicate Reports(refusal: Outcome, definition: Definition, data: GatheredData, i: nat)
    requires i < |RequiredCapabilities(definition).order|
  {
    var owing := RequiredCapabilities(definition);
    var failed := owing.order[i];
    && refusal.NoData? && refusal.retryable
    && failed in data.failures && (forall j :: 0 <= j < i ==> owing.order[j] !in data.failures)
    && (refusal.missingFor == ProviderBusy <==> data.failures[failed].Busy?)
    && (refusal.missingFor == MarineUnavailable <==> failed.Marine? && !data.failures[failed].Busy?)
    && refusal.missingMetrics != []
    && (forall code :: Source(code) in refusal.missingMetrics <==> Owed(definition, code) && CapabilityOf(code) == failed)
  }

  /** An activity is refused exactly when a capability it needs failed, can be asked again, and is told what is missing. */
  lemma {:induction false} RefusalsAreExact(definition: Definition, data: GatheredData)
    ensures Unavailable(definition, data).Some? <==>
      exists c :: c in RequiredCapabilities(definition).order && c in data.failures
    ensures Unavailable(definition, data).Some? ==>
      exists i :: 0 <= i < |RequiredCapabilities(definition).order| &&
        Reports(Unavailable(definition, data).value, definition, data, i)
  {
    var owing := RequiredCapabilities(definition);
    FirstFailedExactly(owing.order, data.failures);
    if Unavailable(definition, data).Some? {
      var i := FirstFailedIsFirst(owing.order, data.failures);
      RequiredCapabilitiesAreExact(definition, Snowfall, owing.order[i]);
      forall code
        ensures Source(code) in Unavailable(definition, data).value.missingMetrics <==>
          Owed(definition, code) && CapabilityOf(code) == owing.order[i]
      {
        RequiredCapabilitiesAreExact(definition, code, owing.order[i]);
        ListedAsSources(OwedBy(owing, owing.order[i]), code);
      }
      assert Reports(Unavailable(definition, data).value, definition, data, i);
    }
  }

  ghost predicate FailureNeeded(definition: Definition, data: GatheredData) {
    exists c :: c in RequiredCapabilities(definition).order && c in data.failures
  }

  ghost predicate RefusedFor(outcome: Outcome, definition: Definition, data: GatheredData) {
    exists i :: 0 <= i < |RequiredCapabilities(definition).order| && Reports(outcome, definition, data, i)
  }

  /**
   * The verdict on the place comes first: what is impossible here stays so
   * whatever was answered or failed, what is undecided is not scored, and only
   * what is possible is refused for a source that it needs and that failed, or
   * else scored. Without a day, such a failure is told before an indecision.
   */
  lemma {:induction false} VerdictComesFirst(
      judged: ActivityVerdict, data: GatheredData, date: string, profile: Profile, exp: real -> real)
    requires data.series.Some?
    ensures var outcome := OutcomeOn(judged, data, date, profile, exp);
      match judged.verdict
      case Impossible(reason) => outcome == Ok(NotApplicable(reason))
      case Undecided(reason) => outcome == Ok(NoData(reason, [], IsRetryable(reason)))
      case Possible =>
        if FailureNeeded(judged.definition, data) then outcome.Ok? && RefusedFor(outcome.value, judged.definition, data)
        else outcome == ScoreActivity(judged.definition, data.series.value, WindowOn(data.series.value, date), profile, exp)
    ensures var undated := OutcomeWithoutADay(judged, data);
      match judged.verdict
      case Impossible(reason) => undated == NotApplicable(reason)
      case _ =>
        if FailureNeeded(judged.definition, data) then RefusedFor(undated, judged.definition, data)
        else
          var reason := if judged.verdict.Undecided? then judged.verdict.reason else ProviderUnavailable;
          undated == NoData(reason, [], IsRetryable(reason))
  {
    RefusalsAreExact(judged.definition, data);
  }

  /** Where nothing could be planned, nothing was asked, and every possible activity that needs anything is refused for it. */
  lemma {:induction false} NothingPlannedRefusesAll(
      plan: Result<MetricPlan, PlanError>, settled: seq<Settled>, judged: ActivityVerdict)
    requires plan.Err? && judged.verdict.Possible? && judged.definition.features != []
    ensures var data := GatheredFor(plan, settled);
      data.series.None? && RefusedFor(OutcomeWithoutADay(judged, data), judged.definition, data)
  {
    var definition, data := judged.definition, GatheredFor(plan, settled);
    var code := Bases(definition.features[0].metric)[0];
    assert FeatureKeys(definition.features)[0] in KeysOf(definition);
    assert NeededFor(definition.features[0].Quantity(), definition.features[0].metric);
    assert Owed(definition, code);
    RequiredCapabilitiesAreExact(definition, code, CapabilityOf(code));
    assert CapabilityOf(code) in RequiredCapabilities(definition).order && CapabilityOf(code) in data.failures;
    RefusalsAreExact(definition, data);
  }

  lemma {:induction false} ListedAsSources(codes: seq<MetricCode>, code: MetricCode)
    ensures Source(code) in Sources(codes) <==> code in codes
  {
    if code in codes {
      var i :| 0 <= i < |codes| && codes[i] == code;
      assert Sources(codes)[i] == Source(code);
    }
  }

  lemma {:induction false} SameFailuresSameFirst(
      order: seq<Capability>, left: map<Capability, Failure>, right: map<Capability, Failure>)
    requires forall c :: c in order ==> (c in left <==> c in right)
    ensures FirstFailed(order, left) == FirstFailed(order, right)
  {
    if order != [] {
      assert order[0] in order;
      SameFailuresSameFirst(order[1..], left, right);
    }
  }

  /** Two gatherings in which everything an activity needs answered the same. */
  ghost predicate SameForNeeds(definition: Definition, left: seq<Settled>, right: seq<Settled>) {
    forall c :: c in RequiredCapabilities(definition).order ==> AnswerOf(left, c) == AnswerOf(right, c)
  }

  lemma {:induction false} ReadIsRequired(definition: Definition, key: Key, code: MetricCode)
    requires key in KeysOf(definition) && ReadBy(key, code)
    ensures CapabilityOf(code) in RequiredCapabilities(definition).order
  {
    var metric :| NeededFor(key, metric) && code in Bases(metric);
    assert Owed(definition, code);
    RequiredCapabilitiesAreExact(definition, code, CapabilityOf(code));
  }

  /** Nothing a quantity reads tells two such gatherings apart, once its capabilities are available in both. */
  lemma {:induction false} QuantityUnaffected(
      definition: Definition, key: Key, left: seq<Settled>, right: seq<Settled>, date: string)
    requires Honest(left, CapabilityOf) && Honest(right, CapabilityOf)
    requires key in KeysOf(definition) && !ReadsDerivedDaily(key)
    requires SameForNeeds(definition, left, right)
    requires Unavailable(definition, Gathered(left)).None? && Unavailable(definition, Gathered(right)).None?
    requires Gathered(left).series.Some? && OnAxis(Gathered(left).series.value, date)
    requires Gathered(right).series.Some? && OnAxis(Gathered(right).series.value, date)
    ensures var one, other := Gathered(left).series.value, Gathered(right).series.value;
      Aggregate(key, one, WindowOn(one, date)) == Aggregate(key, other, WindowOn(other, date))
  {
    var one, other := Gathered(left).series.value, Gathered(right).series.value;
    FirstFailedExactly(RequiredCapabilities(definition).order, Gathered(left).failures);
    FirstFailedExactly(RequiredCapabilities(definition).order, Gathered(right).failures);
    forall code | ReadBy(key, code) ensures Alike(one, other, code) {
      ReadIsRequired(definition, key, code);
      MetricUnaffected(left, right, code, CapabilityOf);
    }
    if key.metric.Derived? {
      DerivedUnaffected(definition, key, left, right);
      DerivedAlike(key, one, other, date);
    } else if key.aggregation.code.Identity? {
      SourceIsRead(key);
      DailyAlike(key, one, other, date);
    } else {
      HourlyAlike(key, one, other, date);
    }
  }

  lemma {:induction false} MetricUnaffected(left: seq<Settled>, right: seq<Settled>, code: MetricCode, owner: Owner)
    requires Honest(left, owner) && Honest(right, owner)
    requires AnswerOf(left, owner(code)) == AnswerOf(right, owner(code))
    requires owner(code) !in Gathered(left).failures && owner(code) !in Gathered(right).failures
    requires Gathered(left).series.Some? && Gathered(right).series.Some?
    ensures Alike(Gathered(left).series.value, Gathered(right).series.value, code)
  {
    GatheredLanes(left, code, owner);
    GatheredLanes(right, code, owner);
  }

  lemma {:induction false} DerivedUnaffected(definition: Definition, key: Key, left: seq<Settled>, right: seq<Settled>)
    requires Honest(left, CapabilityOf) && Honest(right, CapabilityOf)
    requires key in KeysOf(definition) && key.metric.Derived?
    requires SameForNeeds(definition, left, right)
    requires Unavailable(definition, Gathered(left)).None? && Unavailable(definition, Gathered(right)).None?
    requires Gathered(left).series.Some? && Gathered(right).series.Some?
    ensures var one, other := Gathered(left).series.value, Gathered(right).series.value;
      var derived := key.metric.derived;
      HasBases(derived, one) && HasBases(derived, other) && !Silent(one.hourly) ==>
        ElevationFor(one.provenance, Requires(derived)[0]) == ElevationFor(other.provenance, Requires(derived)[0])
  {
    var one := Gathered(left).series.value;
    var base := Requires(key.metric.derived)[0];
    BasesAreRead(key, 0);
    ReadIsRequired(definition, key, base);
    FirstFailedExactly(RequiredCapabilities(definition).order, Gathered(left).failures);
    FirstFailedExactly(RequiredCapabilities(definition).order, Gathered(right).failures);
    if base in one.hourly.values && !Silent(one.hourly) {
      ElevationUnaffected(left, right, base, CapabilityOf);
    }
  }

  lemma {:induction false} ElevationUnaffected(left: seq<Settled>, right: seq<Settled>, base: MetricCode, owner: Owner)
    requires Honest(left, owner) && Honest(right, owner)
    requires AnswerOf(left, owner(base)) == AnswerOf(right, owner(base))
    requires owner(base) !in Gathered(left).failures && owner(base) !in Gathered(right).failures
    requires Gathered(left).series.Some? && Gathered(right).series.Some?
    requires LaneOf(Gathered(left).series.value.hourly, base).Some?
    ensures ElevationFor(Gathered(left).series.value.provenance, base) ==
      ElevationFor(Gathered(right).series.value.provenance, base)
  {
    GatheredLanes(left, base, owner);
    HeardInFull(left, owner(base), owner);
    GatheredCarrier(left, base, owner);
    GatheredCarrier(right, base, owner);
  }

  /**
   * Non-interference: once the capabilities an activity needs are available in
   * both gatherings, whatever any other capability answered or failed to answer
   * changes nothing for it, on any day both gatherings contain.
   */
  lemma {:induction false} OthersChangeNothing(
      judged: ActivityVerdict, left: seq<Settled>, right: seq<Settled>, date: string, profile: Profile, exp: real -> real)
    requires Honest(left, CapabilityOf) && Honest(right, CapabilityOf)
    requires NoDerivedDaily(judged.definition) && SameForNeeds(judged.definition, left, right)
    requires Unavailable(judged.definition, Gathered(left)).None?
    requires Unavailable(judged.definition, Gathered(right)).None?
    requires Gathered(left).series.Some? && OnAxis(Gathered(left).series.value, date)
    requires Gathered(right).series.Some? && OnAxis(Gathered(right).series.value, date)
    ensures OutcomeOn(judged, Gathered(left), date, profile, exp) == OutcomeOn(judged, Gathered(right), date, profile, exp)
  {
    var definition := judged.definition;
    var one, other := Gathered(left).series.value, Gathered(right).series.value;
    forall key | key in KeysOf(definition)
      ensures Aggregate(key, one, WindowOn(one, date)) == Aggregate(key, other, WindowOn(other, date))
    {
      QuantityUnaffected(definition, key, left, right, date);
    }
    ExtractionAgrees(KeysOf(definition), one, WindowOn(one, date), other, WindowOn(other, date));
  }

  // ---- When an answer that arrived is lost all the same ----

  /** Two series that put their days on different axes. */
  ghost predicate Clash(left: WeatherSeries, right: WeatherSeries) {
    || (!Silent(left.hourly) && !Silent(right.hourly) && left.hourly.time != right.hourly.time)
    || (!Silent(left.daily) && !Silent(right.daily) && left.daily.time != right.daily.time)
  }

  ghost predicate ClashesAt(settled: seq<Settled>, i: nat)
    requires i < |settled| && settled[i].Answer().Ok?
  {
    exists j: nat :: j < i && KeptAt(settled, j) && Clash(settled[j].Answer().value, settled[i].Answer().value)
  }

  lemma {:induction false} DifferentSpeakersShareNothing(
      left: WeatherSeries, right: WeatherSeries, one: Capability, other: Capability, owner: Owner)
    requires SpeaksFor(left, one, owner) && SpeaksFor(right, other, owner) && one != other
    ensures Fit(left, right) <==> !Clash(left, right)
  {
    forall m | m in left.hourly.values ensures m !in right.hourly.values {
      assert owner(m) == one;
    }
    forall m | m in left.daily.values ensures m !in right.daily.values {
      assert owner(m) == one;
    }
  }

  /** A series that arrived is counted as a failure exactly when one kept before it is on another axis. */
  lemma {:induction false} LostExactlyWhenAxesClash(settled: seq<Settled>, i: nat, owner: Owner)
    requires Honest(settled, owner) && i < |settled| && settled[i].Answer().Ok?
    ensures settled[i].capability in Gathered(settled).failures <==> ClashesAt(settled, i)
  {
    GatheredFailures(settled, i);
    forall j: nat | j < i && KeptAt(settled, j)
      ensures Fit(settled[j].Answer().value, settled[i].Answer().value) <==>
        !Clash(settled[j].Answer().value, settled[i].Answer().value)
    {
      DifferentSpeakersShareNothing(settled[j].Answer().value, settled[i].Answer().value,
        settled[j].capability, settled[i].capability, owner);
    }
  }

  /** Every answer puts the days it knows on the same axes. */
  ghost predicate OneClock(settled: seq<Settled>) {
    forall i, j :: 0 <= i < j < |settled| && settled[i].Answer().Ok? && settled[j].Answer().Ok? ==>
      !Clash(settled[i].Answer().value, settled[j].Answer().value)
  }

  /** With one clock, a capability fails exactly when its own answer did, and with that failure. */
  lemma {:induction false} FailsOnItsOwn(settled: seq<Settled>, capability: Capability, owner: Owner)
    requires Honest(settled, owner) && OneClock(settled)
    ensures capability in Gathered(settled).failures <==>
      AnswerOf(settled, capability).Some? && AnswerOf(settled, capability).value.Err?
    ensures capability in Gathered(settled).failures ==>
      Gathered(settled).failures[capability] == AnswerOf(settled, capability).value.error
  {
    if AnswerOf(settled, capability).Some? {
      var i := AnsweredBySome(settled, capability);
      GatheredFailures(settled, i);
      if settled[i].Answer().Ok? {
        LostExactlyWhenAxesClash(settled, i, owner);
      }
    } else {
      NotAnswered(settled, capability);
      OnlyOwnFailures(settled, capability);
    }
  }

  lemma {:induction false} NotAnswered(settled: seq<Settled>, capability: Capability)
    requires AnswerOf(settled, capability).None?
    ensures forall i :: 0 <= i < |settled| ==> settled[i].capability != capability
  {
    if settled != [] {
      NotAnswered(settled[1..], capability);
      forall i | 0 <= i < |settled| ensures settled[i].capability != capability {
        assert i > 0 ==> settled[i] == settled[1..][i - 1];
      }
    }
  }

  lemma {:induction false} RefusalsStayContained(definition: Definition, left: seq<Settled>, right: seq<Settled>)
    requires Honest(left, CapabilityOf) && Honest(right, CapabilityOf) && OneClock(left) && OneClock(right)
    requires SameForNeeds(definition, left, right)
    ensures Unavailable(definition, Gathered(left)) == Unavailable(definition, Gathered(right))
  {
    var order := RequiredCapabilities(definition).order;
    forall c | c in order
      ensures c in Gathered(left).failures <==> c in Gathered(right).failures
      ensures c in Gathered(left).failures ==> Gathered(left).failures[c] == Gathered(right).failures[c]
    {
      FailsOnItsOwn(left, c, CapabilityOf);
      FailsOnItsOwn(right, c, CapabilityOf);
    }
    SameFailuresSameFirst(order, Gathered(left).failures, Gathered(right).failures);
  }

  /**
   * Fault containment: while the sources share one clock, an activity's outcome
   * depends on the answers of the capabilities it needs and on no others, the
   * refusals included, on a day both gatherings contain and when neither has one.
   */
  lemma {:induction false} FaultsStayContained(
      judged: ActivityVerdict, left: seq<Settled>, right: seq<Settled>, date: string, profile: Profile, exp: real -> real)
    requires Honest(left, CapabilityOf) && Honest(right, CapabilityOf) && OneClock(left) && OneClock(right)
    requires NoDerivedDaily(judged.definition) && SameForNeeds(judged.definition, left, right)
    ensures OutcomeWithoutADay(judged, Gathered(left)) == OutcomeWithoutADay(judged, Gathered(right))
    ensures
      Gathered(left).series.Some? && OnAxis(Gathered(left).series.value, date) &&
      Gathered(right).series.Some? && OnAxis(Gathered(right).series.value, date) ==>
        OutcomeOn(judged, Gathered(left), date, profile, exp) == OutcomeOn(judged, Gathered(right), date, profile, exp)
  {
    RefusalsStayContained(judged.definition, left, right);
    if Gathered(left).series.Some? && OnAxis(Gathered(left).series.value, date) &&
       Gathered(right).series.Some? && OnAxis(Gathered(right).series.value, date) &&
       Unavailable(judged.definition, Gathered(left)).None?
    {
      OthersChangeNothing(judged, left, right, date, profile, exp);
    }
  }

  // ---- Without one clock, an answer nobody needed can cost one that somebody did ----

  function Contribution(capability: Capability, metric: MetricCode): Provenance {
    Provenance("open-meteo", capability, GridPoint(47.0, 12.0, 800.0), "2026-09-07T06:00:00Z", false, [metric], None)
  }

  /** Temperatures on the hours of one day, and waves on the hours of the next. */
  function Temperatures(): WeatherSeries {
    WeatherSeries(Channel(["2026-09-07T00:00"], map[Temperature2m := [Some(18.0)]]), Channel([], map[]),
      [Contribution(Capability.Forecast, Temperature2m)])
  }

  function Waves(): WeatherSeries {
    WeatherSeries(Channel(["2026-09-08T00:00"], map[WaveHeight := [Some(1.2)]]), Channel([], map[]),
      [Contribution(Capability.Marine, WaveHeight)])
  }

  function Answering(capability: Capability, series: WeatherSeries): Settled {
    Settled(capability, Fulfilled(Ok(series)))
  }

  /** An activity that needs the height of the waves and nothing else. */
  function Surfing(): Definition {
    var curve := CurveParams(Some(0.0), Some(2.0), None, None, None, None, None, None, None, None);
    Definition("surfing", 1, [], [],
      [Feature("waves", Source(WaveHeight), M, AggregationSpec(Plain(MaxOf), AggregationParams(None, None, None)),
        NormalizerSpec(Linear, curve), Fail, Additive, Some(1.0), None)],
      Bounds(None, None))
  }

  lemma {:induction false} WavesAreMentioned()
    ensures MetricRequirements(Surfing()) == [Source(WaveHeight)]
  {
    var key := Surfing().features[0].Quantity();
    assert KeysOf(Surfing()) == [key];
    CollectOne(key);
    assert Mentions(key) == [Source(WaveHeight)];
    AddFirst(Source(WaveHeight));
  }

  lemma {:induction false} AddFirst<T>(x: T)
    ensures AddAll([], [x]) == [x]
  {
    assert [x][..0] == [];
  }

  lemma {:induction false} WavesAreMarine()
    ensures Grouped([WaveHeight]) == Owing([Capability.Marine], map[Capability.Marine := [WaveHeight]])
  {
    assert [WaveHeight][..0] == [];
  }

  lemma {:induction false} SurfingNeedsWaves()
    ensures RequiredCapabilities(Surfing()) == Owing([Capability.Marine], map[Capability.Marine := [WaveHeight]])
  {
    WavesAreMentioned();
    assert [Source(WaveHeight)][..0] == [];
    assert Collect([Source(WaveHeight)], Bases) == [WaveHeight];
    AddFirst(WaveHeight);
    WavesAreMarine();
  }

  lemma {:induction false} TwoAnswersClash()
    ensures var with := [Answering(Capability.Forecast, Temperatures()), Answering(Capability.Marine, Waves())];
      Gathered(with).failures == map[Capability.Marine := SchemaMismatch]
    ensures Gathered([Answering(Capability.Marine, Waves())]).failures == map[]
  {
    var forecast, marine := Answering(Capability.Forecast, Temperatures()), Answering(Capability.Marine, Waves());
    var with := [forecast, marine];
    assert with[..1] == [forecast] && [forecast][..0] == [] && [marine][..0] == [];
    assert Temperatures().hourly.time[0][9] != Waves().hourly.time[0][9];
    assert Gathered([forecast]).series == Some(Temperatures());
  }

  lemma {:induction false} BothSpeakForThemselves()
    ensures SpeaksFor(Temperatures(), Capability.Forecast, CapabilityOf)
    ensures SpeaksFor(Waves(), Capability.Marine, CapabilityOf)
  {
  }

  lemma {:induction false} TwoAnswersAreHonest(forecast: Settled, marine: Settled, owner: Owner)
    requires forecast.capability != marine.capability && forecast.Answer().Ok? && marine.Answer().Ok?
    requires SpeaksFor(forecast.Answer().value, forecast.capability, owner)
    requires SpeaksFor(marine.Answer().value, marine.capability, owner)
    ensures Honest([forecast, marine], owner) && Honest([marine], owner)
    ensures AnswerOf([forecast, marine], marine.capability) == AnswerOf([marine], marine.capability)
  {
    assert [forecast, marine][1..] == [marine];
  }

  /** An activity that needs one capability is refused exactly when that one failed. */
  lemma {:induction false} OneNeed(definition: Definition, c: Capability, codes: seq<MetricCode>, data: GatheredData)
    requires RequiredCapabilities(definition) == Owing([c], map[c := codes])
    ensures Unavailable(definition, data) ==
      if c in data.failures then Some(Missing(ReasonFor(c, data.failures[c]), Sources(codes))) else None
  {
    assert FirstFailed([], data.failures) == None;
    assert [c][1..] == [];
  }

  /**
   * The waves answered both times. A forecast surfing has no use for, on another
   * axis, is enough to refuse it.
   */
  lemma {:induction false} AnUnneededAnswerCanCostANeededOne()
    ensures var forecast, marine := Answering(Capability.Forecast, Temperatures()), Answering(Capability.Marine, Waves());
      && Honest([forecast, marine], CapabilityOf) && Honest([marine], CapabilityOf)
      && RequiredCapabilities(Surfing()).order == [Capability.Marine]
      && SameForNeeds(Surfing(), [forecast, marine], [marine])
      && Unavailable(Surfing(), Gathered([marine])) == None
      && Unavailable(Surfing(), Gathered([forecast, marine])) == Some(Missing(MarineUnavailable, Sources([WaveHeight])))
  {
    var forecast, marine := Answering(Capability.Forecast, Temperatures()), Answering(Capability.Marine, Waves());
    SurfingNeedsWaves();
    TwoAnswersClash();
    BothSpeakForThemselves();
    TwoAnswersAreHonest(forecast, marine, CapabilityOf);
    OneNeed(Surfing(), Capability.Marine, [WaveHeight], Gathered([marine]));
    OneNeed(Surfing(), Capability.Marine, [WaveHeight], Gathered([forecast, marine]));
  }
}
