/** The metric dictionary and the derived metrics: what may be declared, fetched and read. */
module Metrics {
  import opened Prelude

  datatype Capability = Forecast | Marine | Archive

  /** The order in which capabilities are planned, called and merged. */
  const CAPABILITIES: seq<Capability> := [Forecast, Marine, Archive]

  datatype Granularity = Hourly | Daily | Both

  datatype Kind = Continuous | Categorical | Flag

  datatype Unit =
    | DegC | Mm | Cm | M | Km | MetresPerSecond | Degree | Percent
    | Second | Hour | WmoCode | Boolean | Iso8601 | Ratio

  datatype MetricCode =
    | SnowDepth | Snowfall | FreezingLevelHeight | Temperature2m | ApparentTemperature
    | Precipitation | PrecipitationHours | PrecipitationProbability
    | WindSpeed10m | WindGusts10m | WindDirection10m | CloudCover | SunshineDuration
    | Visibility | WeatherCode | IsDay | DaylightDuration | Sunrise | Sunset
    | Temperature2mMax | Temperature2mMin
    | WaveHeight | WavePeriod | WaveDirection | SeaSurfaceTemperature

  /** Dictionary order, the order a planned request lists its metrics in. */
  const DICTIONARY: seq<MetricCode> := [
    SnowDepth, Snowfall, FreezingLevelHeight, Temperature2m, ApparentTemperature,
    Precipitation, PrecipitationHours, PrecipitationProbability,
    WindSpeed10m, WindGusts10m, WindDirection10m, CloudCover, SunshineDuration,
    Visibility, WeatherCode, IsDay, DaylightDuration, Sunrise, Sunset,
    Temperature2mMax, Temperature2mMin,
    WaveHeight, WavePeriod, WaveDirection, SeaSurfaceTemperature
  ]

  datatype Range = Range(low: real, high: real) {
    predicate Holds(x: real) {
      low <= x <= high
    }
  }

  datatype MetricDefinition = MetricDefinition(
    unit: Unit,
    granularity: Granularity,
    capability: Capability,
    kind: Kind,
    plausible: Option<Range>
  )

  function DictionaryEntry(code: MetricCode): MetricDefinition {
    match code
    case SnowDepth => Entry(M, Hourly, Forecast, 0.0, 30.0)
    case Snowfall => Entry(Cm, Both, Forecast, 0.0, 300.0)
    case FreezingLevelHeight => Entry(M, Hourly, Forecast, 0.0, 6000.0)
    case Temperature2m => Entry(DegC, Hourly, Forecast, -90.0, 60.0)
    case ApparentTemperature => Entry(DegC, Hourly, Forecast, -90.0, 60.0)
    case Precipitation => Entry(Mm, Both, Forecast, 0.0, 400.0)
    case PrecipitationHours => Entry(Hour, Daily, Forecast, 0.0, 24.0)
    case PrecipitationProbability => Entry(Percent, Hourly, Forecast, 0.0, 100.0)
    case WindSpeed10m => Entry(MetresPerSecond, Both, Forecast, 0.0, 40.0)
    case WindGusts10m => Entry(MetresPerSecond, Both, Forecast, 0.0, 45.0)
    case WindDirection10m => Entry(Degree, Both, Forecast, 0.0, 360.0)
    case CloudCover => Entry(Percent, Hourly, Forecast, 0.0, 100.0)
    case SunshineDuration => Entry(Second, Both, Forecast, 0.0, 86400.0)
    case Visibility => Entry(Km, Hourly, Forecast, 0.0, 100.0)
    case WeatherCode => Entry(WmoCode, Both, Forecast, 0.0, 99.0).(kind := Categorical)
    case IsDay => Entry(Boolean, Hourly, Forecast, 0.0, 1.0).(kind := Flag)
    case DaylightDuration => Entry(Second, Daily, Forecast, 0.0, 86400.0)
    case Sunrise => MetricDefinition(Iso8601, Daily, Forecast, Continuous, None)
    case Sunset => MetricDefinition(Iso8601, Daily, Forecast, Continuous, None)
    case Temperature2mMax => Entry(DegC, Daily, Forecast, -90.0, 60.0)
    case Temperature2mMin => Entry(DegC, Daily, Forecast, -90.0, 60.0)
    case WaveHeight => Entry(M, Both, Marine, 0.0, 30.0)
    case WavePeriod => Entry(Second, Both, Marine, 0.0, 30.0)
    case WaveDirection => Entry(Degree, Both, Marine, 0.0, 360.0)
    case SeaSurfaceTemperature => Entry(DegC, Hourly, Marine, -5.0, 40.0)
  }

  function Entry(unit: Unit, granularity: Granularity, capability: Capability, low: real, high: real): MetricDefinition {
    MetricDefinition(unit, granularity, capability, Continuous, Some(Range(low, high)))
  }

  /** The three quantities that are computed on our side rather than fetched. */
  datatype DerivedCode = WindWaveAlignment | FreshColdSnowfall | FreezingLevelMargin

  /** The inputs of a derived metric, which a request lists in its place. */
  function Requires(code: DerivedCode): seq<MetricCode> {
    match code
    case WindWaveAlignment => [WindDirection10m, WaveDirection]
    case FreshColdSnowfall => [Snowfall, Temperature2m]
    case FreezingLevelMargin => [FreezingLevelHeight]
  }

  function DerivedUnit(code: DerivedCode): Unit {
    match code
    case WindWaveAlignment => Degree
    case FreshColdSnowfall => Cm
    case FreezingLevelMargin => M
  }

  /** The two kinds of metric a declaration can read. */
  datatype Requirable = Source(code: MetricCode) | Derived(derived: DerivedCode)

  /** The metrics a source must be asked for so that a declared metric can be read. */
  function Bases(metric: Requirable): seq<MetricCode> {
    match metric
    case Source(code) => [code]
    case Derived(derived) => Requires(derived)
  }

  /** Where the dictionary lists a metric. */
  function Position(code: MetricCode): (i: nat)
    ensures i < |DICTIONARY| && DICTIONARY[i] == code
  {
    match code
    case SnowDepth => 0
    case Snowfall => 1
    case FreezingLevelHeight => 2
    case Temperature2m => 3
    case ApparentTemperature => 4
    case Precipitation => 5
    case PrecipitationHours => 6
    case PrecipitationProbability => 7
    case WindSpeed10m => 8
    case WindGusts10m => 9
    case WindDirection10m => 10
    case CloudCover => 11
    case SunshineDuration => 12
    case Visibility => 13
    case WeatherCode => 14
    case IsDay => 15
    case DaylightDuration => 16
    case Sunrise => 17
    case Sunset => 18
    case Temperature2mMax => 19
    case Temperature2mMin => 20
    case WaveHeight => 21
    case WavePeriod => 22
    case WaveDirection => 23
    case SeaSurfaceTemperature => 24
  }

  lemma {:induction false} PositionOfEntry(i: nat)
    requires i < |DICTIONARY|
    ensures Position(DICTIONARY[i]) == i
  {
  }
}
