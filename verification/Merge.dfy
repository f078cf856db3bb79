/** Several series into one: the channels joined metric by metric, nothing overwritten and nothing shifted. */
module Merge {
  import opened Prelude
  import opened Metrics
  import opened Series

  datatype Axis = HourlyAxis | DailyAxis

  /** Why two channels do not go together. */
  datatype MergeError =
    | TimeAxisMismatch(axis: Axis)
    | MetricCollision(metric: MetricCode, axis: Axis)

  // ---- What a merge is meant to be: a disjoint union ----

  /** A channel with no axis takes no part in a merge, whatever values it names. */
  predicate Silent(channel: Channel) {
    channel.time == []
  }

  predicate Compatible(left: Channel, right: Channel) {
    Silent(left) || Silent(right) ||
    (left.time == right.time && left.values.Keys !! right.values.Keys)
  }

  /** Any two of the contributions agree on the axis and share no metric. */
  ghost predicate Joinable(channels: multiset<Channel>) {
    forall c, d :: c in channels && d in channels - multiset{c} ==> Compatible(c, d)
  }

  ghost predicate AllSilent(channels: multiset<Channel>) {
    forall c :: c in channels ==> Silent(c)
  }

  /** Some contribution with an axis names the metric. */
  ghost predicate Named(channels: multiset<Channel>, metric: MetricCode) {
    exists c :: c in channels && !Silent(c) && metric in c.values
  }

  /** Exactly the metrics of the contributions that have an axis, with the values they came with. */
  ghost predicate IsUnion(channels: multiset<Channel>, whole: Channel) {
    && (exists c :: c in channels && !Silent(c))
    && (forall c :: c in channels && !Silent(c) ==> c.time == whole.time && Carries(whole, c))
    && (forall m :: m in whole.values ==> Named(channels, m))
  }

  ghost predicate Carries(whole: Channel, part: Channel) {
    forall m :: m in part.values ==> m in whole.values && whole.values[m] == part.values[m]
  }

  // ---- The step and the fold ----

  /** One channel put beside another, when the two can be. */
  function Combined(left: Channel, right: Channel): Option<Channel> {
    if Silent(right) then Some(left)
    else if Silent(left) then Some(right)
    else if Compatible(left, right) then Some(Channel(left.time, left.values + right.values))
    else None
  }

  function Joined(channels: seq<Channel>): Option<Channel>
    requires channels != []
  {
    var n := |channels| - 1;
    if n == 0 then Some(channels[0])
    else
      var before := Joined(channels[..n]);
      if before.None? then None else Combined(before.value, channels[n])
  }

  lemma {:induction false} JoinableSnoc(channels: multiset<Channel>, next: Channel)
    ensures Joinable(channels + multiset{next}) <==>
      Joinable(channels) && forall c :: c in channels ==> Compatible(c, next)
  {
    var all := channels + multiset{next};
    assert all - multiset{next} == channels;
    if Joinable(all) {
      forall c, d | c in channels && d in channels - multiset{c} ensures Compatible(c, d) {
        assert d in all - multiset{c};
      }
      forall c | c in channels ensures Compatible(c, next) {
        assert next in all - multiset{c};
      }
    }
    if Joinable(channels) && forall c :: c in channels ==> Compatible(c, next) {
      forall c, d | c in all && d in all - multiset{c} ensures Compatible(c, d) {
        if c in channels && d != next {
          assert d in channels - multiset{c};
        }
      }
    }
  }

  /** A channel stands for its contributions: their union, or one as silent as all of them. */
  ghost predicate StandsFor(channels: multiset<Channel>, whole: Channel) {
    if Silent(whole) then AllSilent(channels) else IsUnion(channels, whole)
  }

  /** One step of the fold succeeds exactly when the next contribution fits every one before. */
  lemma {:induction false} CombinedExactly(channels: multiset<Channel>, whole: Channel, next: Channel)
    requires StandsFor(channels, whole)
    ensures Combined(whole, next).Some? <==> forall c :: c in channels ==> Compatible(c, next)
    ensures Combined(whole, next).Some? ==> StandsFor(channels + multiset{next}, Combined(whole, next).value)
    ensures Silent(next) ==> Combined(whole, next) == Some(whole)
  {
    if Silent(next) {
      if !Silent(whole) {
        UnionIgnoresSilent(channels, whole, next);
      }
    } else if Silent(whole) {
      FirstToSpeak(channels, next);
    } else if Compatible(whole, next) {
      CompatibleWithAll(channels, whole, next);
      UnionGrows(channels, whole, next);
    } else {
      IncompatibleWithOne(channels, whole, next);
    }
  }

  lemma {:induction false} UnionIgnoresSilent(channels: multiset<Channel>, whole: Channel, next: Channel)
    requires IsUnion(channels, whole) && Silent(next)
    ensures IsUnion(channels + multiset{next}, whole)
  {
    var all := channels + multiset{next};
    var c :| c in channels && !Silent(c);
    assert c in all;
    forall m | m in whole.values ensures Named(all, m) {
      NamedStill(channels, next, m);
    }
  }

  lemma {:induction false} FirstToSpeak(channels: multiset<Channel>, next: Channel)
    requires AllSilent(channels) && !Silent(next)
    ensures IsUnion(channels + multiset{next}, next)
  {
    assert next in channels + multiset{next};
  }

  lemma {:induction false} CompatibleWithAll(channels: multiset<Channel>, whole: Channel, next: Channel)
    requires IsUnion(channels, whole) && !Silent(whole) && !Silent(next) && Compatible(whole, next)
    ensures forall c :: c in channels ==> Compatible(c, next)
  {
    forall c | c in channels && !Silent(c) ensures c.values.Keys !! next.values.Keys {
      assert Carries(whole, c);
      assert c.values.Keys <= whole.values.Keys;
    }
  }

  lemma {:induction false} UnionGrows(channels: multiset<Channel>, whole: Channel, next: Channel)
    requires IsUnion(channels, whole) && !Silent(next) && Compatible(whole, next) && !Silent(whole)
    ensures IsUnion(channels + multiset{next}, Channel(whole.time, whole.values + next.values))
  {
    var grown := Channel(whole.time, whole.values + next.values);
    var all := channels + multiset{next};
    assert next in all;
    forall c | c in all && !Silent(c) ensures c.time == grown.time && Carries(grown, c) {
      if c in channels {
        StillCarries(whole, next, c);
      }
    }
    forall m | m in grown.values ensures Named(all, m) {
      if m !in next.values {
        NamedStill(channels, next, m);
      }
    }
  }

  lemma {:induction false} StillCarries(whole: Channel, next: Channel, part: Channel)
    requires Carries(whole, part) && whole.values.Keys !! next.values.Keys
    ensures Carries(Channel(whole.time, whole.values + next.values), part)
  {
    forall m | m in part.values ensures (whole.values + next.values)[m] == part.values[m] {
      assert m in whole.values.Keys;
    }
  }

  lemma {:induction false} NamedStill(channels: multiset<Channel>, next: Channel, metric: MetricCode)
    requires Named(channels, metric)
    ensures Named(channels + multiset{next}, metric)
  {
    var c :| c in channels && !Silent(c) && metric in c.values;
    assert c in channels + multiset{next};
  }

  lemma {:induction false} IncompatibleWithOne(channels: multiset<Channel>, whole: Channel, next: Channel)
    requires IsUnion(channels, whole) && !Silent(next) && !Compatible(whole, next)
    ensures exists c :: c in channels && !Compatible(c, next)
  {
    var c :| c in channels && !Silent(c);
    if whole.time == next.time {
      var m :| m in whole.values.Keys && m in next.values.Keys;
      assert Named(channels, m);
      var d :| d in channels && !Silent(d) && m in d.values;
      assert m in d.values.Keys * next.values.Keys;
    } else {
      assert !Compatible(c, next);
    }
  }

  /**
   * Joining succeeds exactly when the contributions can be joined, and then
   * stands for all of them; with no axis anywhere the first one is the answer.
   */
  lemma {:induction false} JoinedExactly(channels: seq<Channel>)
    requires channels != []
    ensures Joined(channels).Some? <==> Joinable(multiset(channels))
    ensures Joined(channels).Some? ==> StandsFor(multiset(channels), Joined(channels).value)
    ensures AllSilent(multiset(channels)) ==> Joined(channels) == Some(channels[0])
  {
    var n := |channels| - 1;
    if n == 0 {
      assert channels == [channels[0]];
      OneAlone(channels[0]);
    } else {
      var init, next := channels[..n], channels[n];
      assert channels == init + [next];
      assert multiset(channels) == multiset(init) + multiset{next};
      JoinedExactly(init);
      JoinableSnoc(multiset(init), next);
      if Joined(init).Some? {
        CombinedExactly(multiset(init), Joined(init).value, next);
      }
      assert next in channels;
    }
  }

  lemma {:induction false} OneAlone(channel: Channel)
    ensures Joinable(multiset{channel}) && StandsFor(multiset{channel}, channel)
  {
    assert channel in multiset{channel};
    assert multiset{channel} - multiset{channel} == multiset{};
  }

  /** Contributions with an axis determine what they join to. */
  lemma {:induction false} UnionIsUnique(channels: multiset<Channel>, left: Channel, right: Channel)
    requires IsUnion(channels, left) && IsUnion(channels, right)
    ensures left == right
  {
    UnionWithin(channels, left, right);
    UnionWithin(channels, right, left);
    var c :| c in channels && !Silent(c);
    CarriedBothWays(left, right);
  }

  lemma {:induction false} CarriedBothWays(left: Channel, right: Channel)
    requires Carries(left, right) && Carries(right, left)
    ensures left.values == right.values
  {
  }

  lemma {:induction false} UnionWithin(channels: multiset<Channel>, part: Channel, whole: Channel)
    requires IsUnion(channels, part) && IsUnion(channels, whole)
    ensures Carries(whole, part)
  {
    forall m | m in part.values ensures m in whole.values && whole.values[m] == part.values[m] {
      assert Named(channels, m);
      var c :| c in channels && !Silent(c) && m in c.values;
      assert Carries(part, c) && Carries(whole, c);
    }
  }

  /** The order of the contributions makes no difference once one of them has an axis. */
  lemma {:induction false} JoinedInAnyOrder(channels: seq<Channel>, reordered: seq<Channel>)
    requires channels != [] && multiset(channels) == multiset(reordered)
    requires !AllSilent(multiset(channels))
    ensures reordered != [] && Joined(reordered) == Joined(channels)
  {
    assert |multiset(channels)| == |channels| && |multiset(reordered)| == |reordered|;
    JoinedExactly(channels);
    JoinedExactly(reordered);
    if Joined(channels).Some? {
      UnionIsUnique(multiset(channels), Joined(channels).value, Joined(reordered).value);
    }
  }

  // ---- Series ----

  function HourlyOf(series: WeatherSeries): seq<Channel> {
    [series.hourly]
  }

  function DailyOf(series: WeatherSeries): seq<Channel> {
    [series.daily]
  }

  function ProvenanceOf(series: WeatherSeries): seq<Provenance> {
    series.provenance
  }

  /** Both channels, or neither. */
  function MergedPair(left: WeatherSeries, right: WeatherSeries): Option<WeatherSeries> {
    var hourly := Combined(left.hourly, right.hourly);
    var daily := Combined(left.daily, right.daily);
    if hourly.None? || daily.None? then None
    else Some(WeatherSeries(hourly.value, daily.value, left.provenance + right.provenance))
  }

  function Merged(contributions: seq<WeatherSeries>): Option<WeatherSeries>
    requires contributions != []
  {
    var n := |contributions| - 1;
    if n == 0 then Some(contributions[0])
    else
      var before := Merged(contributions[..n]);
      if before.None? then None else MergedPair(before.value, contributions[n])
  }

  /** Each channel is joined on its own, and no contribution's provenance is lost. */
  lemma {:induction false} MergedByChannel(contributions: seq<WeatherSeries>)
    requires contributions != []
    ensures var hourly, daily := Collect(contributions, HourlyOf), Collect(contributions, DailyOf);
      && hourly != [] && daily != []
      && (Merged(contributions).Some? <==> Joined(hourly).Some? && Joined(daily).Some?)
      && (Merged(contributions).Some? ==> Merged(contributions).value == WeatherSeries(
            Joined(hourly).value, Joined(daily).value, Collect(contributions, ProvenanceOf)))
  {
    var n := |contributions| - 1;
    var init, next := contributions[..n], contributions[n];
    assert contributions == init + [next];
    CollectSnoc(init, next, HourlyOf);
    CollectSnoc(init, next, DailyOf);
    CollectSnoc(init, next, ProvenanceOf);
    if n == 0 {
      assert init == [];
      assert Collect(contributions, ProvenanceOf) == next.provenance;
    } else {
      MergedByChannel(init);
      var hourly, daily := Collect(init, HourlyOf), Collect(init, DailyOf);
      assert (hourly + [next.hourly])[..|hourly|] == hourly;
      assert (daily + [next.daily])[..|daily|] == daily;
    }
  }

  /**
   * Merging succeeds exactly when, on each channel, all axes that exist are one
   * axis and no metric arrives twice; the result is then the disjoint union.
   */
  lemma {:induction false} MergeIsADisjointUnion(contributions: seq<WeatherSeries>)
    requires contributions != []
    ensures var hourly, daily := Collect(contributions, HourlyOf), Collect(contributions, DailyOf);
      && (Merged(contributions).Some? <==> Joinable(multiset(hourly)) && Joinable(multiset(daily)))
      && (Merged(contributions).Some? ==>
            && StandsFor(multiset(hourly), Merged(contributions).value.hourly)
            && StandsFor(multiset(daily), Merged(contributions).value.daily)
            && Merged(contributions).value.provenance == Collect(contributions, ProvenanceOf))
  {
    MergedByChannel(contributions);
    JoinedExactly(Collect(contributions, HourlyOf));
    JoinedExactly(Collect(contributions, DailyOf));
  }

  lemma {:induction false} OneFewer<A>(left: multiset<A>, right: multiset<A>, x: A)
    requires left + multiset{x} == right + multiset{x}
    ensures left == right
  {
    assert left == left + multiset{x} - multiset{x};
  }

  lemma {:induction false} TakenOut<A>(xs: seq<A>, j: nat)
    requires j < |xs|
    ensures multiset(xs) == multiset(xs[..j] + xs[j + 1..]) + multiset{xs[j]}
  {
    assert xs == xs[..j] + [xs[j]] + xs[j + 1..];
  }

  lemma {:induction false} MergedStandsFor(contributions: seq<WeatherSeries>)
    requires contributions != [] && Merged(contributions).Some?
    ensures StandsFor(multiset(Collect(contributions, HourlyOf)), Merged(contributions).value.hourly)
    ensures StandsFor(multiset(Collect(contributions, DailyOf)), Merged(contributions).value.daily)
    ensures Merged(contributions).value.provenance == Collect(contributions, ProvenanceOf)
  {
    MergeIsADisjointUnion(contributions);
  }

  /** What is collected from the elements does not depend on their order, as a multiset. */
  lemma {:induction false} CollectedInAnyOrder<A, B>(xs: seq<A>, ys: seq<A>, f: A -> seq<B>)
    requires multiset(xs) == multiset(ys)
    ensures multiset(Collect(xs, f)) == multiset(Collect(ys, f))
  {
    assert |multiset(xs)| == |xs| && |multiset(ys)| == |ys|;
    if xs != [] {
      var n := |xs| - 1;
      var x := xs[n];
      assert x in multiset(ys);
      var j :| 0 <= j < |ys| && ys[j] == x;
      var rest := ys[..j] + ys[j + 1..];
      assert xs == xs[..n] + [x] && ys == ys[..j] + [x] + ys[j + 1..];
      TakenOut(ys, j);
      OneFewer(multiset(rest), multiset(xs[..n]), x);
      CollectedInAnyOrder(xs[..n], rest, f);
      CollectedWithout(ys, j, f);
    }
  }

  lemma {:induction false} CollectedWithout<A, B>(ys: seq<A>, j: nat, f: A -> seq<B>)
    requires j < |ys|
    ensures multiset(Collect(ys, f)) == multiset(Collect(ys[..j] + ys[j + 1..], f)) + multiset(f(ys[j]))
  {
    assert ys == ys[..j] + [ys[j]] + ys[j + 1..];
    CollectAppend(ys[..j], ys[j + 1..], f);
    CollectAppend(ys[..j] + [ys[j]], ys[j + 1..], f);
    CollectSnoc(ys[..j], ys[j], f);
  }

  // ---- When the order shows ----

  ghost predicate AllEqual(channels: seq<Channel>) {
    forall i, j :: 0 <= i < |channels| && 0 <= j < |channels| ==> channels[i] == channels[j]
  }

  /** Some contribution has an axis, or there is nothing to choose between. */
  ghost predicate OrderFree(channels: seq<Channel>) {
    !AllSilent(multiset(channels)) || AllEqual(channels)
  }

  /** The same elements, the one at a place put first. */
  function Fronted<T>(xs: seq<T>, i: nat): (r: seq<T>)
    requires i < |xs|
    ensures |r| == |xs| && r[0] == xs[i]
  {
    [xs[i]] + xs[..i] + xs[i + 1..]
  }

  lemma {:induction false} FrontedIsReordered<T>(xs: seq<T>, i: nat)
    requires i < |xs|
    ensures multiset(Fronted(xs, i)) == multiset(xs)
  {
    TakenOut(xs, i);
    assert Fronted(xs, i) == [xs[i]] + (xs[..i] + xs[i + 1..]);
  }

  lemma {:induction false} EqualInAnyOrder(channels: seq<Channel>, reordered: seq<Channel>)
    requires AllEqual(channels) && multiset(channels) == multiset(reordered)
    ensures reordered == channels
  {
    assert |multiset(channels)| == |channels| && |multiset(reordered)| == |reordered|;
    forall i | 0 <= i < |channels| ensures reordered[i] == channels[i] {
      assert reordered[i] in multiset(reordered);
      assert reordered[i] in channels;
    }
  }

  /** Joining gives the same in every order exactly when some contribution has an axis or all of them are equal. */
  lemma {:induction false} OrderShowsExactly(channels: seq<Channel>)
    requires channels != []
    ensures (forall reordered :: multiset(reordered) == multiset(channels) && reordered != [] ==>
      Joined(reordered) == Joined(channels)) <==> OrderFree(channels)
  {
    if OrderFree(channels) {
      forall reordered | multiset(reordered) == multiset(channels) && reordered != []
        ensures Joined(reordered) == Joined(channels)
      {
        JoinedWhenOrderFree(channels, reordered);
      }
    } else {
      var i := UnlikeTheFirst(channels);
      FrontedIsReordered(channels, i);
      JoinedExactly(channels);
      JoinedExactly(Fronted(channels, i));
      assert Joined(Fronted(channels, i)) != Joined(channels);
    }
  }

  lemma {:induction false} JoinedWhenOrderFree(channels: seq<Channel>, reordered: seq<Channel>)
    requires channels != [] && OrderFree(channels) && multiset(reordered) == multiset(channels)
    ensures reordered != [] && Joined(reordered) == Joined(channels)
  {
    if AllSilent(multiset(channels)) {
      EqualInAnyOrder(channels, reordered);
    } else {
      JoinedInAnyOrder(channels, reordered);
    }
  }

  lemma {:induction false} UnlikeTheFirst(channels: seq<Channel>) returns (i: nat)
    requires !AllEqual(channels)
    ensures i < |channels| && channels[i] != channels[0]
  {
    var j, k :| 0 <= j < |channels| && 0 <= k < |channels| && channels[j] != channels[k];
    i := if channels[j] != channels[0] then j else k;
  }

  /** The same channels, and the same provenance entries in some order; or no merge either way. */
  ghost predicate SameMerge(left: Option<WeatherSeries>, right: Option<WeatherSeries>) {
    && (left.Some? <==> right.Some?)
    && (left.Some? ==>
          && left.value.hourly == right.value.hourly && left.value.daily == right.value.daily
          && multiset(left.value.provenance) == multiset(right.value.provenance))
  }

  ghost predicate Mergeable(contributions: seq<WeatherSeries>) {
    Joinable(multiset(Collect(contributions, HourlyOf))) && Joinable(multiset(Collect(contributions, DailyOf)))
  }

  /** The merge fails, or on each channel there is an axis somewhere or nothing to choose between. */
  ghost predicate IndifferentToOrder(contributions: seq<WeatherSeries>) {
    Mergeable(contributions) ==>
      OrderFree(Collect(contributions, HourlyOf)) && OrderFree(Collect(contributions, DailyOf))
  }

  /** Any order of such contributions gives the same merge. */
  lemma {:induction false} MergeInAnyOrder(contributions: seq<WeatherSeries>, reordered: seq<WeatherSeries>)
    requires contributions != [] && multiset(contributions) == multiset(reordered)
    requires IndifferentToOrder(contributions)
    ensures reordered != [] && SameMerge(Merged(contributions), Merged(reordered))
  {
    assert |multiset(contributions)| == |contributions| && |multiset(reordered)| == |reordered|;
    MergeIsADisjointUnion(contributions);
    MergeIsADisjointUnion(reordered);
    CollectedInAnyOrder(contributions, reordered, HourlyOf);
    CollectedInAnyOrder(contributions, reordered, DailyOf);
    if Mergeable(contributions) {
      MergedByChannel(contributions);
      MergedByChannel(reordered);
      CollectedInAnyOrder(contributions, reordered, ProvenanceOf);
      JoinedWhenOrderFree(Collect(contributions, HourlyOf), Collect(reordered, HourlyOf));
      JoinedWhenOrderFree(Collect(contributions, DailyOf), Collect(reordered, DailyOf));
    }
  }

  lemma {:induction false} OnePerSeries(contributions: seq<WeatherSeries>)
    ensures var hourly, daily := Collect(contributions, HourlyOf), Collect(contributions, DailyOf);
      && |hourly| == |daily| == |contributions|
      && forall i :: 0 <= i < |contributions| ==> hourly[i] == contributions[i].hourly && daily[i] == contributions[i].daily
  {
    if contributions != [] {
      OnePerSeries(contributions[..|contributions| - 1]);
    }
  }

  /** Where every axis of a channel is empty, putting another series first shows. */
  lemma {:induction false} FrontedShows(contributions: seq<WeatherSeries>) returns (reordered: seq<WeatherSeries>)
    requires contributions != [] && !IndifferentToOrder(contributions)
    ensures multiset(reordered) == multiset(contributions) && reordered != []
    ensures !SameMerge(Merged(contributions), Merged(reordered))
  {
    OnePerSeries(contributions);
    var hourly, daily := Collect(contributions, HourlyOf), Collect(contributions, DailyOf);
    var i;
    if !OrderFree(hourly) {
      i := UnlikeTheFirst(hourly);
      SilentHourlyFronted(contributions, i);
    } else {
      i := UnlikeTheFirst(daily);
      SilentDailyFronted(contributions, i);
    }
    reordered := Fronted(contributions, i);
    FrontedIsReordered(contributions, i);
  }

  lemma {:induction false} SilentHourlyFronted(contributions: seq<WeatherSeries>, i: nat)
    requires i < |contributions| && Mergeable(contributions) && contributions[i].hourly != contributions[0].hourly
    requires AllSilent(multiset(Collect(contributions, HourlyOf)))
    ensures !SameMerge(Merged(contributions), Merged(Fronted(contributions, i)))
  {
    var fronted := Fronted(contributions, i);
    FrontedIsReordered(contributions, i);
    CollectedInAnyOrder(contributions, fronted, HourlyOf);
    OnePerSeries(contributions);
    OnePerSeries(fronted);
    MergeIsADisjointUnion(contributions);
    MergedByChannel(contributions);
    MergedByChannel(fronted);
    JoinedExactly(Collect(contributions, HourlyOf));
    JoinedExactly(Collect(fronted, HourlyOf));
  }

  lemma {:induction false} SilentDailyFronted(contributions: seq<WeatherSeries>, i: nat)
    requires i < |contributions| && Mergeable(contributions) && contributions[i].daily != contributions[0].daily
    requires AllSilent(multiset(Collect(contributions, DailyOf)))
    ensures !SameMerge(Merged(contributions), Merged(Fronted(contributions, i)))
  {
    var fronted := Fronted(contributions, i);
    FrontedIsReordered(contributions, i);
    CollectedInAnyOrder(contributions, fronted, DailyOf);
    OnePerSeries(contributions);
    OnePerSeries(fronted);
    MergeIsADisjointUnion(contributions);
    MergedByChannel(contributions);
    MergedByChannel(fronted);
    JoinedExactly(Collect(contributions, DailyOf));
    JoinedExactly(Collect(fronted, DailyOf));
  }

  /** Every order of the contributions gives the same merge. */
  ghost predicate SameInEveryOrder(contributions: seq<WeatherSeries>)
    requires contributions != []
  {
    forall reordered :: multiset(reordered) == multiset(contributions) && reordered != [] ==>
      SameMerge(Merged(contributions), Merged(reordered))
  }

  /**
   * A merge is the same in every order exactly when it fails, or each channel
   * has an axis in some contribution or is the same in all of them.
   */
  lemma {:induction false} MergeOrderShowsExactly(contributions: seq<WeatherSeries>)
    requires contributions != []
    ensures SameInEveryOrder(contributions) <==> IndifferentToOrder(contributions)
  {
    if SameInEveryOrder(contributions) {
      NeverShows(contributions);
    }
    if IndifferentToOrder(contributions) {
      AlwaysTheSame(contributions);
    }
  }

  lemma {:induction false} NeverShows(contributions: seq<WeatherSeries>)
    requires contributions != [] && SameInEveryOrder(contributions)
    ensures IndifferentToOrder(contributions)
  {
    if !IndifferentToOrder(contributions) {
      var reordered := FrontedShows(contributions);
      assert false;
    }
  }

  lemma {:induction false} AlwaysTheSame(contributions: seq<WeatherSeries>)
    requires contributions != [] && IndifferentToOrder(contributions)
    ensures SameInEveryOrder(contributions)
  {
    forall reordered | multiset(reordered) == multiset(contributions) && reordered != []
      ensures SameMerge(Merged(contributions), Merged(reordered))
    {
      MergeInAnyOrder(contributions, reordered);
    }
  }

  /** Two channels without an axis of which the first one put is the one kept. */
  lemma {:induction false} SilentMergesKeepTheFirst() returns (left: Channel, right: Channel)
    ensures Silent(left) && Silent(right) && left != right
    ensures Joined([left, right]) == Some(left) && Joined([right, left]) == Some(right)
  {
    left, right := Channel([], map[Snowfall := []]), Channel([], map[]);
    assert Snowfall in left.values && Snowfall !in right.values;
    assert [left, right][..1] == [left] && [right, left][..1] == [right];
  }

  // ---- The loops ----

  method SameAxis(left: seq<string>, right: seq<string>) returns (same: bool)
    ensures same <==> left == right
  {
    if |left| != |right| {
      return false;
    }
    for i := 0 to |left|
      invariant left[..i] == right[..i]
    {
      if left[i] != right[i] {
        return false;
      }
    }
    assert left == left[..|left|] && right == right[..|left|];
    same := true;
  }

  /** Why two channels could not be put together. */
  ghost predicate Explains(error: MergeError, left: Channel, right: Channel, axis: Axis) {
    error.axis == axis && !Silent(left) && !Silent(right) &&
    match error
    case TimeAxisMismatch(_) => left.time != right.time
    case MetricCollision(metric, _) => left.time == right.time && metric in left.values && metric in right.values
  }

  /** The metrics of the second channel are added to the first one by one, in whatever order they are listed. */
  method MergeChannel(left: Channel, right: Channel, axis: Axis) returns (result: Result<Channel, MergeError>)
    ensures result.Ok? ==> Combined(left, right) == Some(result.value)
    ensures result.Err? ==> Combined(left, right).None? && Explains(result.error, left, right, axis)
  {
    if right.time == [] {
      return Ok(left);
    }
    if left.time == [] {
      return Ok(right);
    }
    var same := SameAxis(left.time, right.time);
    if !same {
      return Err(TimeAxisMismatch(axis));
    }
    var values, collision := MergeValues(left.values, right.values);
    if collision.Some? {
      assert collision.value in left.values.Keys * right.values.Keys;
      return Err(MetricCollision(collision.value, axis));
    }
    result := Ok(Channel(left.time, values));
  }

  method MergeValues(left: map<MetricCode, seq<Slot>>, right: map<MetricCode, seq<Slot>>)
    returns (values: map<MetricCode, seq<Slot>>, collision: Option<MetricCode>)
    ensures collision.Some? ==> collision.value in left && collision.value in right
    ensures collision.None? ==> left.Keys !! right.Keys && values == left + right
  {
    values, collision := left, None;
    var remaining := right.Keys;
    while remaining != {}
      invariant remaining <= right.Keys
      invariant forall m :: m in left && m in right ==> m in remaining
      invariant values == left + (right - remaining)
      decreases remaining
    {
      var code :| code in remaining;
      if code in values {
        return values, Some(code);
      }
      OneMore(left, right, remaining, code);
      values := values[code := right[code]];
      remaining := remaining - {code};
    }
    assert right - {} == right;
  }

  lemma {:induction false} OneMore(
      left: map<MetricCode, seq<Slot>>, right: map<MetricCode, seq<Slot>>, remaining: set<MetricCode>, code: MetricCode)
    requires code in remaining && remaining <= right.Keys && code !in left
    ensures (left + (right - remaining))[code := right[code]] == left + (right - (remaining - {code}))
    ensures right.Keys - (remaining - {code}) == right.Keys - remaining + {code}
  {
  }

  /** What came before the contribution merges, and with the contribution it does not, for the reason given. */
  ghost predicate StoppedAt(error: MergeError, contributions: seq<WeatherSeries>, i: nat)
    requires 0 < i < |contributions|
  {
    && Merged(contributions[..i]).Some?
    && var merged, next := Merged(contributions[..i]).value, contributions[i];
      || Explains(error, merged.hourly, next.hourly, HourlyAxis)
      || Explains(error, merged.daily, next.daily, DailyAxis)
  }

  /** The error is the reason some contribution did not fit. */
  ghost predicate Stopped(error: MergeError, contributions: seq<WeatherSeries>) {
    exists i :: 0 < i < |contributions| && StoppedAt(error, contributions, i)
  }

  lemma {:induction false} StopsAt(error: MergeError, contributions: seq<WeatherSeries>, i: nat, merged: WeatherSeries)
    requires 0 < i < |contributions| && Merged(contributions[..i]) == Some(merged)
    requires var next := contributions[i];
      || (Combined(merged.hourly, next.hourly).None? && Explains(error, merged.hourly, next.hourly, HourlyAxis))
      || (Combined(merged.daily, next.daily).None? && Explains(error, merged.daily, next.daily, DailyAxis))
    ensures Merged(contributions).None? && Stopped(error, contributions)
  {
    assert StoppedAt(error, contributions, i);
    MergedNext(contributions, i);
    UnmergedStays(contributions, i + 1);
  }

  method MergeSeries(contributions: seq<WeatherSeries>) returns (result: Result<WeatherSeries, MergeError>)
    requires contributions != []
    ensures result.Ok? ==> Merged(contributions) == Some(result.value)
    ensures result.Err? ==> Merged(contributions).None? && Stopped(result.error, contributions)
  {
    var merged := contributions[0];
    MergedFirst(contributions);
    for i := 1 to |contributions|
      invariant Merged(contributions[..i]) == Some(merged)
    {
      var next := contributions[i];
      var hourly := MergeChannel(merged.hourly, next.hourly, HourlyAxis);
      if hourly.Err? {
        StopsAt(hourly.error, contributions, i, merged);
        return Err(hourly.error);
      }
      var daily := MergeChannel(merged.daily, next.daily, DailyAxis);
      if daily.Err? {
        StopsAt(daily.error, contributions, i, merged);
        return Err(daily.error);
      }
      FitsAt(contributions, i, merged, hourly.value, daily.value);
      merged := WeatherSeries(hourly.value, daily.value, merged.provenance + next.provenance);
    }
    assert contributions[..|contributions|] == contributions;
    result := Ok(merged);
  }

  lemma {:induction false} MergedFirst(contributions: seq<WeatherSeries>)
    requires contributions != []
    ensures Merged(contributions[..1]) == Some(contributions[0])
  {
  }

  lemma {:induction false} FitsAt(contributions: seq<WeatherSeries>, i: nat, merged: WeatherSeries, hourly: Channel, daily: Channel)
    requires 0 < i < |contributions| && Merged(contributions[..i]) == Some(merged)
    requires Combined(merged.hourly, contributions[i].hourly) == Some(hourly)
    requires Combined(merged.daily, contributions[i].daily) == Some(daily)
    ensures Merged(contributions[..i + 1])
      == Some(WeatherSeries(hourly, daily, merged.provenance + contributions[i].provenance))
  {
    MergedNext(contributions, i);
  }

  lemma {:induction false} MergedNext(contributions: seq<WeatherSeries>, i: nat)
    requires 0 < i < |contributions|
    ensures Merged(contributions[..i + 1]) ==
      if Merged(contributions[..i]).None? then None else MergedPair(Merged(contributions[..i]).value, contributions[i])
  {
    assert contributions[..i + 1][..i] == contributions[..i];
  }

  lemma {:induction false} UnmergedStays(contributions: seq<WeatherSeries>, i: nat)
    requires 0 < i <= |contributions| && Merged(contributions[..i]).None?
    ensures Merged(contributions).None?
  {
    if i == |contributions| {
      assert contributions[..i] == contributions;
    } else {
      var init := contributions[..|contributions| - 1];
      assert init[..i] == contributions[..i];
      UnmergedStays(init, i);
    }
  }
}
