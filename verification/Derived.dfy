/** The formulas behind the derived metrics, and the channels they are computed over. */
module DerivedMetrics {
  import opened Prelude
  import opened Metrics
  import opened Series

  const HALF_TURN := 180.0
  const FULL_TURN := 360.0

  /** The remainder of a division that truncates toward zero. */
  function Remainder(x: real, m: real): real
    requires m != 0.0
  {
    x - m * Truncate(x / m) as real
  }

  function Truncate(x: real): int {
    if x < 0.0 then -((-x).Floor) else x.Floor
  }

  /** How far two bearings point apart, in degrees, whichever way round is shorter. */
  function AngleBetween(first: real, second: real): real {
    var wrapped := Remainder(Remainder(first - second + HALF_TURN, FULL_TURN) + FULL_TURN, FULL_TURN);
    var offset := wrapped - HALF_TURN;
    if offset < 0.0 then -offset else offset
  }

  /** What a derived metric is at one index, given its inputs there and how high the source's node lies. */
  function Formula(code: DerivedCode, inputs: seq<real>, elevation: real): real
    requires |inputs| == |Requires(code)|
  {
    match code
    case WindWaveAlignment => AngleBetween(inputs[0], inputs[1])
    case FreshColdSnowfall => if inputs[1] < 0.0 then inputs[0] else 0.0
    case FreezingLevelMargin => inputs[0] - elevation
  }

  /** The slot is missing as soon as one of its inputs is. */
  function DerivedSlot(code: DerivedCode, inputs: seq<seq<Slot>>, index: nat, elevation: real): Slot
    requires |inputs| == |Requires(code)|
  {
    if exists k :: 0 <= k < |inputs| && ReadAt(inputs[k], index).None? then None
    else Some(Formula(code,
      seq(|inputs|, k requires 0 <= k < |inputs| => ReadAt(inputs[k], index).value), elevation))
  }

  /** The elevation of the node that carried a base metric, or of the first contribution of all. */
  function ElevationFor(provenance: seq<Provenance>, base: MetricCode): real {
    var carrier := FirstCarrier(provenance, base);
    if carrier.Some? then carrier.value.gridPoint.elevationMetres
    else if provenance != [] then provenance[0].gridPoint.elevationMetres
    else 0.0
  }

  function FirstCarrier(provenance: seq<Provenance>, base: MetricCode): Option<Provenance> {
    if provenance == [] then None
    else if base in provenance[0].metrics then Some(provenance[0])
    else FirstCarrier(provenance[1..], base)
  }

  predicate HasBases(code: DerivedCode, series: WeatherSeries) {
    forall k :: 0 <= k < |Requires(code)| ==> Requires(code)[k] in series.hourly.values
  }

  function BaseChannels(code: DerivedCode, series: WeatherSeries): (r: seq<seq<Slot>>)
    requires HasBases(code, series)
    ensures |r| == |Requires(code)|
  {
    var bases := Requires(code);
    seq(|bases|, k requires 0 <= k < |bases| && HasBases(code, series) => series.hourly.values[bases[k]])
  }

  /** All slots of a derived metric; `None` when the hourly values lack one of its inputs. */
  function DerivedChannel(code: DerivedCode, series: WeatherSeries): Option<seq<Slot>> {
    if !HasBases(code, series) then None
    else
      Some(DerivedOver(code, BaseChannels(code, series), ElevationFor(series.provenance, Requires(code)[0])))
  }

  function DerivedOver(code: DerivedCode, inputs: seq<seq<Slot>>, elevation: real): (r: seq<Slot>)
    requires |inputs| == |Requires(code)|
    ensures |r| == |inputs[0]|
    ensures forall i :: 0 <= i < |r| ==> r[i] == DerivedSlot(code, inputs, i, elevation)
  {
    seq(|inputs[0]|, i requires 0 <= i < |inputs[0]| => DerivedSlot(code, inputs, i, elevation))
  }

  /**
   * The angle lies between 0 and 180, is the same both ways round, and is blind
   * to whole turns of either bearing.
   */
  lemma {:induction false} AngleBetweenIsAnAngle(first: real, second: real, turns: int)
    ensures 0.0 <= AngleBetween(first, second) <= 180.0
    ensures AngleBetween(first, second) == AngleBetween(second, first)
    ensures AngleBetween(first + 360.0 * turns as real, second) == AngleBetween(first, second)
  {
    var k := WrapsAround(first - second);
    var j := WrapsAround(second - first);
    var l := WrapsAround(first + 360.0 * turns as real - second);
    Opposite(Wrapped(first - second), Wrapped(second - first), 1 + k + j);
    Same(Wrapped(first + 360.0 * turns as real - second), Wrapped(first - second), l + turns - k);
  }

  function Magnitude(x: real): real {
    if x < 0.0 then -x else x
  }

  /** How far apart two bearings are, going some whole turns besides. */
  function Apart(first: real, second: real, turns: int): real {
    Magnitude(first - second + 360.0 * turns as real)
  }

  /** The angle is the least way from one bearing to the other, whichever way round and however often. */
  lemma {:induction false} AngleIsTheShortestWay(first: real, second: real) returns (k: int)
    ensures AngleBetween(first, second) == Apart(first, second, k)
    ensures forall m: int :: AngleBetween(first, second) <= Apart(first, second, m)
  {
    k := WrapsAround(first - second);
    var offset := first - second + 360.0 * k as real;
    forall m: int ensures Magnitude(offset) <= Apart(first, second, m) {
      FartherRound(offset, m - k);
    }
  }

  lemma {:induction false} FartherRound(offset: real, turns: int)
    requires -180.0 <= offset <= 180.0
    ensures Magnitude(offset) <= Magnitude(offset + 360.0 * turns as real)
  {
    if turns > 0 {
      assert turns as real >= 1.0;
    } else if turns < 0 {
      assert turns as real <= -1.0;
    }
  }

  /** The node a metric came from is the first that names it, or else the first of all. */
  lemma {:induction false} ElevationIsTheCarriers(provenance: seq<Provenance>, base: MetricCode) returns (i: nat)
    requires provenance != []
    ensures i < |provenance| && CarrierAt(provenance, base, i)
    ensures ElevationFor(provenance, base) == provenance[i].gridPoint.elevationMetres
  {
    if FirstCarrier(provenance, base).Some? {
      i := CarrierIsFirst(provenance, base);
    } else {
      NoCarrier(provenance, base);
      i := 0;
    }
  }

  ghost predicate CarrierAt(provenance: seq<Provenance>, base: MetricCode, i: nat)
    requires i < |provenance|
  {
    && (forall j :: 0 <= j < i ==> base !in provenance[j].metrics)
    && (base in provenance[i].metrics || (i == 0 && forall j :: 0 <= j < |provenance| ==> base !in provenance[j].metrics))
  }

  lemma {:induction false} CarrierIsFirst(provenance: seq<Provenance>, base: MetricCode) returns (i: nat)
    requires FirstCarrier(provenance, base).Some?
    ensures i < |provenance| && CarrierAt(provenance, base, i) && base in provenance[i].metrics
    ensures FirstCarrier(provenance, base) == Some(provenance[i])
  {
    if base in provenance[0].metrics {
      i := 0;
    } else {
      var k := CarrierIsFirst(provenance[1..], base);
      i := k + 1;
      assert forall j :: 0 < j < |provenance| ==> provenance[j] == provenance[1..][j - 1];
    }
  }

  lemma {:induction false} NoCarrier(provenance: seq<Provenance>, base: MetricCode)
    requires FirstCarrier(provenance, base).None?
    ensures forall j :: 0 <= j < |provenance| ==> base !in provenance[j].metrics
  {
    if provenance != [] {
      NoCarrier(provenance[1..], base);
      assert forall j :: 0 < j < |provenance| ==> provenance[j] == provenance[1..][j - 1];
    }
  }

  /** What a slot of each derived metric says of the hour, by the names of the metrics it is made of. */
  ghost predicate DerivedFrom(code: DerivedCode, series: WeatherSeries, i: nat, slot: Slot) {
    match code
    case WindWaveAlignment =>
      var wind, wave := SlotAt(series.hourly, WindDirection10m, i), SlotAt(series.hourly, WaveDirection, i);
      if wind.None? || wave.None? then slot.None?
      else
        && slot.Some?
        && (exists k: int :: slot.value == Apart(wind.value, wave.value, k))
        && forall k: int :: slot.value <= Apart(wind.value, wave.value, k)
    case FreshColdSnowfall =>
      var snow, temperature := SlotAt(series.hourly, Snowfall, i), SlotAt(series.hourly, Temperature2m, i);
      if snow.None? || temperature.None? then slot.None?
      else slot == Some(if temperature.value >= 0.0 then 0.0 else snow.value)
    case FreezingLevelMargin =>
      var level := SlotAt(series.hourly, FreezingLevelHeight, i);
      if level.None? then slot.None?
      else slot.Some? && slot.value + ElevationFor(series.provenance, FreezingLevelHeight) == level.value
  }

  /** Every derived slot follows from the hour's own values: the shortest angle, the snow of a freezing hour, the height above the node. */
  lemma {:induction false} DerivedSlotsAreExact(code: DerivedCode, series: WeatherSeries, i: nat)
    requires DerivedChannel(code, series).Some? && i < |DerivedChannel(code, series).value|
    ensures DerivedFrom(code, series, i, DerivedChannel(code, series).value[i])
  {
    var inputs := BaseChannels(code, series);
    var elevation := ElevationFor(series.provenance, Requires(code)[0]);
    forall k | 0 <= k < |inputs| ensures ReadAt(inputs[k], i) == SlotAt(series.hourly, Requires(code)[k], i) {
    }
    match code
    case WindWaveAlignment =>
      TwoInputs(code, inputs, i, elevation);
      if ReadAt(inputs[0], i).Some? && ReadAt(inputs[1], i).Some? {
        var k := AngleIsTheShortestWay(ReadAt(inputs[0], i).value, ReadAt(inputs[1], i).value);
      }
    case FreshColdSnowfall => TwoInputs(code, inputs, i, elevation);
    case FreezingLevelMargin => OneInput(code, inputs, i, elevation);
  }

  /** There is a derived channel exactly when every metric it is made of is there, one slot for each of the first one's. */
  lemma {:induction false} DerivedWhenComplete(code: DerivedCode, series: WeatherSeries)
    ensures DerivedChannel(code, series).Some? <==> forall m :: m in Requires(code) ==> m in series.hourly.values
    ensures DerivedChannel(code, series).Some? ==>
      |DerivedChannel(code, series).value| == |series.hourly.values[Requires(code)[0]]|
  {
    forall k | 0 <= k < |Requires(code)| ensures Requires(code)[k] in Requires(code) {
    }
  }

  lemma {:induction false} TwoInputs(code: DerivedCode, inputs: seq<seq<Slot>>, i: nat, elevation: real)
    requires |inputs| == |Requires(code)| == 2
    ensures var a, b := ReadAt(inputs[0], i), ReadAt(inputs[1], i);
      DerivedSlot(code, inputs, i, elevation) ==
        if a.None? || b.None? then None else Some(Formula(code, [a.value, b.value], elevation))
  {
    var a, b := ReadAt(inputs[0], i), ReadAt(inputs[1], i);
    if a.Some? && b.Some? {
      assert seq(2, k requires 0 <= k < 2 => ReadAt(inputs[k], i).value) == [a.value, b.value];
    }
  }

  lemma {:induction false} OneInput(code: DerivedCode, inputs: seq<seq<Slot>>, i: nat, elevation: real)
    requires |inputs| == |Requires(code)| == 1
    ensures var a := ReadAt(inputs[0], i);
      DerivedSlot(code, inputs, i, elevation) == if a.None? then None else Some(Formula(code, [a.value], elevation))
  {
    var a := ReadAt(inputs[0], i);
    if a.Some? {
      assert seq(1, k requires 0 <= k < 1 => ReadAt(inputs[k], i).value) == [a.value];
    }
  }

  function Wrapped(difference: real): real {
    Remainder(Remainder(difference + HALF_TURN, FULL_TURN) + FULL_TURN, FULL_TURN)
  }

  lemma {:induction false} Same(a: real, b: real, m: int)
    requires 0.0 <= a < FULL_TURN && 0.0 <= b < FULL_TURN && a - b == 360.0 * m as real
    ensures a == b
  {
  }

  lemma {:induction false} Opposite(a: real, b: real, m: int)
    requires 0.0 <= a < FULL_TURN && 0.0 <= b < FULL_TURN && a + b == 360.0 * m as real
    ensures (a == 0.0 && b == 0.0) || a + b == FULL_TURN
  {
  }

  /** Wrapping brings a difference into one turn by adding a whole number of turns. */
  lemma {:induction false} WrapsAround(difference: real) returns (k: int)
    ensures 0.0 <= Wrapped(difference) < FULL_TURN
    ensures Wrapped(difference) == difference + HALF_TURN + 360.0 * k as real
  {
    var inner := Remainder(difference + HALF_TURN, FULL_TURN) + FULL_TURN;
    k := 1 - Truncate((difference + HALF_TURN) / FULL_TURN) - Truncate(inner / FULL_TURN);
  }

  /** The inputs of one slot are collected until one of them is missing. */
  method ComputeSlot(code: DerivedCode, inputs: seq<seq<Slot>>, index: nat, elevation: real) returns (slot: Slot)
    requires |inputs| == |Requires(code)|
    ensures slot == DerivedSlot(code, inputs, index, elevation)
  {
    var values: seq<real> := [];
    for k := 0 to |inputs|
      invariant |values| == k
      invariant forall j :: 0 <= j < k ==> ReadAt(inputs[j], index) == Some(values[j])
    {
      var value := ReadAt(inputs[k], index);
      if value.None? {
        return None;
      }
      values := values + [value.value];
    }
    assert values == seq(|inputs|, k requires 0 <= k < |inputs| => ReadAt(inputs[k], index).value);
    slot := Some(Formula(code, values, elevation));
  }

  method ComputeDerived(code: DerivedCode, series: WeatherSeries) returns (channel: Option<seq<Slot>>)
    ensures channel == DerivedChannel(code, series)
  {
    var bases := Requires(code);
    var inputs: seq<seq<Slot>> := [];
    for k := 0 to |bases|
      invariant |inputs| == k
      invariant forall j :: 0 <= j < k ==> bases[j] in series.hourly.values && inputs[j] == series.hourly.values[bases[j]]
    {
      if bases[k] !in series.hourly.values {
        return None;
      }
      inputs := inputs + [series.hourly.values[bases[k]]];
    }
    assert inputs == BaseChannels(code, series);
    var elevation := ElevationFor(series.provenance, bases[0]);
    var slots: seq<Slot> := [];
    for i := 0 to |inputs[0]|
      invariant |slots| == i
      invariant forall j :: 0 <= j < i ==> slots[j] == DerivedSlot(code, inputs, j, elevation)
    {
      var slot := ComputeSlot(code, inputs, i, elevation);
      slots := slots + [slot];
    }
    assert slots == DerivedChannel(code, series).value;
    channel := Some(slots);
  }
}
