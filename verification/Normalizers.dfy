/** The six curves that turn an aggregated number into a score from 0 to 1. */
module Normalizers {
  import opened Prelude
  import opened Definitions
  import opened Aggregation

  /** All that is assumed of the exponential function, on the half line the curves use. */
  ghost predicate IsExponential(exp: real -> real) {
    exp(0.0) == 1.0 && forall x: real :: x <= 0.0 ==> 0.0 < exp(x) <= 1.0
  }

  /** Whether the parameter schema of a curve accepts what was written. */
  predicate CurveAccepted(spec: NormalizerSpec) {
    var p := spec.params;
    match spec.code
    case Linear => p.from.Some? && p.to.Some? && p.from.value < p.to.value
    case Inverse => p.from.Some? && p.to.Some? && p.from.value < p.to.value
    case Trapezoid =>
      p.a.Some? && p.b.Some? && p.c.Some? && p.d.Some? && p.a.value <= p.b.value <= p.c.value <= p.d.value
    case Gaussian => p.center.Some? && p.sigma.Some? && p.sigma.value > 0.0
    case InverseGaussian => p.center.Some? && p.sigma.Some? && p.sigma.value > 0.0
    case Step => p.points.Some? && p.below.Some? && 0.0 <= p.below.value <= 1.0 && PointsAccepted(p.points.value)
    case UnknownNormalizer(_) => false
  }

  predicate PointsAccepted(points: seq<StepPoint>) {
    && points != []
    && (forall i :: 0 <= i < |points| ==> 0.0 <= points[i].value <= 1.0)
    && (forall i :: 0 < i < |points| ==> points[i - 1].at < points[i].at)
  }

  /** A quotient brought onto the scale. A zero divisor is not a number only under a zero numerator. */
  function ClampedQuotient(numerator: real, divisor: real): Result<real, EngineFault> {
    if divisor != 0.0 then Ok(Clamp01(numerator / divisor))
    else if numerator > 0.0 then Ok(1.0)
    else if numerator < 0.0 then Ok(0.0)
    else Err(NotANumber)
  }

  function Ramp(value: real, from: Option<real>, to: Option<real>, rising: bool): Result<real, EngineFault> {
    if from.None? || to.None? then Err(NotANumber)
    else if rising then ClampedQuotient(value - from.value, to.value - from.value)
    else ClampedQuotient(to.value - value, to.value - from.value)
  }

  /** A comparison against an absent bound is false, as it is at run time. */
  predicate Under(value: real, bound: Option<real>) {
    bound.Some? && value < bound.value
  }

  function Plateau(value: real, p: CurveParams): Result<real, EngineFault> {
    if Under(value, p.a) then Ok(0.0)
    else if Under(value, p.b) then Ramp(value, p.a, p.b, true)
    else if p.c.Some? && value <= p.c.value then Ok(1.0)
    else if Under(value, p.d) then Ramp(value, p.c, p.d, false)
    else Ok(0.0)
  }

  function Bell(value: real, p: CurveParams, exp: real -> real): Result<real, EngineFault> {
    if p.center.None? || p.sigma.None? then Err(NotANumber)
    else BellAt(value - p.center.value, p.sigma.value, exp)
  }

  function Spread(sigma: real): real {
    2.0 * sigma * sigma
  }

  lemma {:induction false} SpreadPositive(sigma: real)
    requires sigma > 0.0
    ensures Spread(sigma) > 0.0
  {
    var twice := 2.0 * sigma;
    PositiveTimes(twice, sigma);
    assert Spread(sigma) == twice * sigma;
  }

  function BellAt(offset: real, sigma: real, exp: real -> real): Result<real, EngineFault> {
    var spread := Spread(sigma);
    if spread != 0.0 then Ok(Clamp01(exp(-(offset * offset) / spread)))
    else if offset != 0.0 then Ok(0.0)
    else Err(NotANumber)
  }

  /** What the last point reached is worth; `below` when none is. */
  function LastAtOrBelow(value: real, points: seq<StepPoint>, below: real): real {
    if points == [] || points[0].at > value then below
    else LastAtOrBelow(value, points[1..], points[0].value)
  }

  function Normalize(spec: NormalizerSpec, value: real, exp: real -> real): (r: Result<real, EngineFault>)
    ensures r.Ok? ==> 0.0 <= r.value <= 1.0
  {
    var p := spec.params;
    match spec.code
    case Linear => Ramp(value, p.from, p.to, true)
    case Inverse => Ramp(value, p.from, p.to, false)
    case Trapezoid => Plateau(value, p)
    case Gaussian => Bell(value, p, exp)
    case InverseGaussian =>
      var bell :- Bell(value, p, exp);
      Ok(Clamp01(1.0 - bell))
    case Step =>
      if p.points.None? || p.below.None? then Err(NotANumber)
      else Ok(Clamp01(LastAtOrBelow(value, p.points.value, p.below.value)))
    case UnknownNormalizer(name) => Err(NoNormalizer(name))
  }

  /** An accepted curve has a value everywhere. */
  lemma {:induction false} AcceptedCurveIsTotal(spec: NormalizerSpec, value: real, exp: real -> real)
    requires CurveAccepted(spec)
    ensures Normalize(spec, value, exp).Ok?
  {
    if spec.code.Gaussian? || spec.code.InverseGaussian? {
      SpreadPositive(spec.params.sigma.value);
    }
  }

  /** The direction the registry declares: rising for `linear`, falling for `inverse`. */
  lemma {:induction false} DeclaredMonotonicity(spec: NormalizerSpec, low: real, high: real, exp: real -> real)
    requires CurveAccepted(spec) && low <= high
    ensures spec.code.Linear? ==> Normalize(spec, low, exp).value <= Normalize(spec, high, exp).value
    ensures spec.code.Inverse? ==> Normalize(spec, low, exp).value >= Normalize(spec, high, exp).value
  {
    AcceptedCurveIsTotal(spec, low, exp);
    AcceptedCurveIsTotal(spec, high, exp);
    if spec.code.Linear? || spec.code.Inverse? {
      var from, to := spec.params.from.value, spec.params.to.value;
      QuotientMonotone(low - from, high - from, to - from);
      QuotientMonotone(to - high, to - low, to - from);
    }
  }

  /** The plateau is 1 exactly between its inner points, and 0 exactly beyond its outer ones. */
  lemma {:induction false} PlateauShape(spec: NormalizerSpec, value: real, exp: real -> real)
    requires CurveAccepted(spec) && spec.code.Trapezoid?
    ensures var p := spec.params;
      && (Normalize(spec, value, exp) == Ok(1.0) <==> p.b.value <= value <= p.c.value)
      && (Normalize(spec, value, exp) == Ok(0.0) <==>
          value < p.a.value || value > p.d.value
          || (value == p.a.value && p.a.value < p.b.value) || (value == p.d.value && p.c.value < p.d.value))
  {
    var p := spec.params;
    if p.a.value <= value < p.b.value {
      ProperFraction(value - p.a.value, p.b.value - p.a.value);
    } else if p.c.value < value < p.d.value {
      ProperFraction(p.d.value - value, p.d.value - p.c.value);
    }
  }

  lemma {:induction false} FractionOf(part: real, t: real, whole: real)
    requires whole > 0.0 && part == t * whole
    ensures part / whole == t
  {
    var q := part / whole;
    assert q * whole == part;
    assert (q - t) * whole == 0.0;
  }

  lemma {:induction false} Remaining(part: real, t: real, whole: real)
    requires part == t * whole
    ensures whole - part == (1.0 - t) * whole
  {
  }

  /** A ramp scores how far along it the value lies, counted from either end. */
  lemma {:induction false} RampScoresTheFraction(spec: NormalizerSpec, value: real, t: real, exp: real -> real)
    requires CurveAccepted(spec) && (spec.code.Linear? || spec.code.Inverse?)
    requires value - spec.params.from.value == t * (spec.params.to.value - spec.params.from.value)
    ensures Normalize(spec, value, exp) == Ok(Clamp01(if spec.code.Linear? then t else 1.0 - t))
  {
    var from, to := spec.params.from.value, spec.params.to.value;
    FractionOf(value - from, t, to - from);
    Remaining(value - from, t, to - from);
    FractionOf(to - value, 1.0 - t, to - from);
  }

  lemma {:induction false} PartOf(part: real, t: real, whole: real)
    requires 0.0 <= t < 1.0 && whole > 0.0 && part == t * whole
    ensures 0.0 <= part < whole
  {
    TimesMonotone(0.0, t, 0.0, whole);
    PositiveTimes(1.0 - t, whole);
    Remaining(part, t, whole);
  }

  /** The edges of a plateau, where they are not upright, score the fraction climbed from the foot. */
  lemma {:induction false} PlateauRises(spec: NormalizerSpec, value: real, t: real, exp: real -> real)
    requires CurveAccepted(spec) && spec.code.Trapezoid? && 0.0 <= t < 1.0
    requires spec.params.a.value < spec.params.b.value
    requires value - spec.params.a.value == t * (spec.params.b.value - spec.params.a.value)
    ensures Normalize(spec, value, exp) == Ok(t)
  {
    var a, b := spec.params.a.value, spec.params.b.value;
    PartOf(value - a, t, b - a);
    FractionOf(value - a, t, b - a);
  }

  lemma {:induction false} PlateauFalls(spec: NormalizerSpec, value: real, t: real, exp: real -> real)
    requires CurveAccepted(spec) && spec.code.Trapezoid? && 0.0 <= t < 1.0
    requires spec.params.c.value < spec.params.d.value
    requires spec.params.d.value - value == t * (spec.params.d.value - spec.params.c.value)
    ensures Normalize(spec, value, exp) == Ok(t)
  {
    var c, d := spec.params.c.value, spec.params.d.value;
    PartOf(d - value, t, d - c);
    FractionOf(d - value, t, d - c);
  }

  /** At k standard deviations from its centre, on either side, a bell scores the same whatever its width. */
  lemma {:induction false} BellCountsDeviations(p: CurveParams, value: real, k: real, exp: real -> real)
    requires IsExponential(exp) && CurveAccepted(NormalizerSpec(Gaussian, p))
    requires value - p.center.value == k * p.sigma.value
    ensures Normalize(NormalizerSpec(Gaussian, p), value, exp) == Ok(exp(-(k * k) / 2.0))
  {
    var offset, sigma := value - p.center.value, p.sigma.value;
    var exponent := -(k * k) / 2.0;
    SquareNonNegative(k);
    Deviations(offset, k, sigma);
    BellAtExponent(offset, sigma, exponent, exp);
  }

  lemma {:induction false} BellAtExponent(offset: real, sigma: real, exponent: real, exp: real -> real)
    requires IsExponential(exp) && sigma > 0.0 && exponent <= 0.0
    requires -(offset * offset) == exponent * Spread(sigma)
    ensures BellAt(offset, sigma, exp) == Ok(exp(exponent))
  {
    SpreadPositive(sigma);
    FractionOf(-(offset * offset), exponent, Spread(sigma));
    assert 0.0 < exp(exponent) <= 1.0;
  }

  lemma {:induction false} Deviations(offset: real, k: real, sigma: real)
    requires offset == k * sigma
    ensures -(offset * offset) == (-(k * k) / 2.0) * Spread(sigma)
  {
    SquareOfProduct(k, sigma);
    var squares := sigma * sigma;
    assert Spread(sigma) == 2.0 * squares;
    assert (-(k * k) / 2.0) * (2.0 * squares) == -(k * k) * squares;
  }

  lemma {:induction false} SquareOfProduct(x: real, y: real)
    ensures (x * y) * (x * y) == (x * x) * (y * y)
  {
    assert (x * y) * (x * y) == x * (y * (x * y));
  }

  /** A bell peaks at its centre, never reaches zero, and its inverse is its exact complement. */
  lemma {:induction false} BellShape(p: CurveParams, value: real, exp: real -> real)
    requires IsExponential(exp) && CurveAccepted(NormalizerSpec(Gaussian, p))
    ensures Normalize(NormalizerSpec(Gaussian, p), p.center.value, exp) == Ok(1.0)
    ensures Normalize(NormalizerSpec(Gaussian, p), value, exp).Ok?
      && Normalize(NormalizerSpec(Gaussian, p), value, exp).value > 0.0
    ensures Normalize(NormalizerSpec(InverseGaussian, p), value, exp)
      == Ok(1.0 - Normalize(NormalizerSpec(Gaussian, p), value, exp).value)
  {
    BellAtShape(0.0, p.sigma.value, exp);
    BellAtShape(value - p.center.value, p.sigma.value, exp);
  }

  lemma {:induction false} BellAtShape(offset: real, sigma: real, exp: real -> real)
    requires IsExponential(exp) && sigma > 0.0
    ensures BellAt(offset, sigma, exp).Ok? && BellAt(offset, sigma, exp).value > 0.0
    ensures offset == 0.0 ==> BellAt(offset, sigma, exp) == Ok(1.0)
  {
    SpreadPositive(sigma);
    SquareNonNegative(offset);
    NonPositiveQuotient(-(offset * offset), Spread(sigma));
  }

  lemma {:induction false} NonPositiveQuotient(x: real, divisor: real)
    requires x <= 0.0 < divisor
    ensures x / divisor <= 0.0
    ensures x == 0.0 ==> x / divisor == 0.0
  {
    var q := x / divisor;
    assert q * divisor == x;
  }

  /** Where the points ascend, the step is the value of the one point that ends up in charge. */
  lemma {:induction false} StepPicksTheLastReached(points: seq<StepPoint>, below: real, value: real, i: nat)
    requires i < |points| && (forall j :: 0 < j < |points| ==> points[j - 1].at < points[j].at)
    requires points[i].at <= value && (i + 1 < |points| ==> value < points[i + 1].at)
    ensures LastAtOrBelow(value, points, below) == points[i].value
  {
    if i > 0 {
      AscendingFromFirst(points, i);
      StepPicksTheLastReached(points[1..], points[0].value, value, i - 1);
    }
  }

  lemma {:induction false} AscendingFromFirst(points: seq<StepPoint>, i: nat)
    requires 0 < i < |points| && (forall j :: 0 < j < |points| ==> points[j - 1].at < points[j].at)
    ensures points[0].at < points[i].at
  {
    if i > 1 {
      AscendingFromFirst(points, i - 1);
    }
  }

  /** The loop over the points stops at the first one the value has not reached. */
  method StepCurve(value: real, points: seq<StepPoint>, below: real) returns (r: real)
    ensures r == Clamp01(LastAtOrBelow(value, points, below))
  {
    var result := below;
    for i := 0 to |points|
      invariant LastAtOrBelow(value, points, below) == LastAtOrBelow(value, points[i..], result)
    {
      if points[i].at > value {
        break;
      }
      result := points[i].value;
    }
    r := Clamp01(result);
  }
}
