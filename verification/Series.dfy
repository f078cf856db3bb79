/** A weather series: two channels on their own time axes, and where the numbers came from. */
module Series {
  import opened Prelude
  import opened Metrics

  datatype GridPoint = GridPoint(latitude: real, longitude: real, elevationMetres: real)

  /** Where part of a series came from: source, grid node, moment, and the metrics it brought. */
  datatype Provenance = Provenance(
    sourceId: string,
    capability: Capability,
    gridPoint: GridPoint,
    fetchedAt: string,
    stale: bool,
    metrics: seq<MetricCode>,
    timezone: Option<string>
  )

  /** A number, or a hole where the source had none. */
  type Slot = Option<real>

  datatype Channel = Channel(time: seq<string>, values: map<MetricCode, seq<Slot>>)

  datatype WeatherSeries = WeatherSeries(hourly: Channel, daily: Channel, provenance: seq<Provenance>)

  /** Every metric of a channel has one slot per stamp of its axis. */
  ghost predicate AlignedChannel(channel: Channel) {
    forall m :: m in channel.values ==> |channel.values[m]| == |channel.time|
  }

  ghost predicate Aligned(series: WeatherSeries) {
    AlignedChannel(series.hourly) && AlignedChannel(series.daily)
  }

  const DATE_LENGTH := 10

  /** The local date of a stamp: the text before the time of day. */
  function DateOf(stamp: string): string {
    if |stamp| <= DATE_LENGTH then stamp else stamp[..DATE_LENGTH]
  }

  /** The date of a stamp is its first ten characters; a bare date is its own. */
  lemma {:induction false} DateBeforeTheTime(date: string, time: string)
    requires |date| == 10
    ensures DateOf(date + time) == date && DateOf(date) == date
  {
    assert (date + time)[..10] == date;
    assert date[..10] == date;
  }

  /** Reading past the end gives a hole. */
  function ReadAt(values: seq<Slot>, index: nat): Slot {
    if index < |values| then values[index] else None
  }

  /** The slot a channel has for a metric, a hole where it has none. */
  function SlotAt(channel: Channel, code: MetricCode, i: nat): Slot {
    if code in channel.values && i < |channel.values[code]| then channel.values[code][i] else None
  }

  /** The slots found at a list of indexes, in that order. */
  function Reads(values: seq<Slot>, indexes: seq<nat>): (r: seq<Slot>)
    ensures |r| == |indexes|
    ensures forall i :: 0 <= i < |r| ==> r[i] == ReadAt(values, indexes[i])
  {
    seq(|indexes|, i requires 0 <= i < |indexes| => ReadAt(values, indexes[i]))
  }

  /** Sets the stale mark of all provenance entries. */
  function MarkStale(series: WeatherSeries, stale: bool): WeatherSeries {
    if forall i :: 0 <= i < |series.provenance| ==> series.provenance[i].stale == stale then
      series
    else
      series.(provenance := seq(|series.provenance|, i requires 0 <= i < |series.provenance| =>
        series.provenance[i].(stale := stale)))
  }

  /** Afterwards every entry says what was asked, and nothing else has changed. */
  lemma {:induction false} MarkedIsMarked(series: WeatherSeries, stale: bool)
    ensures var marked := MarkStale(series, stale);
      && marked.hourly == series.hourly && marked.daily == series.daily
      && |marked.provenance| == |series.provenance|
      && forall i :: 0 <= i < |marked.provenance| ==>
           marked.provenance[i].stale == stale
           && marked.provenance[i].(stale := series.provenance[i].stale) == series.provenance[i]
  {
  }
}
