/** Small vocabulary shared by every module: optional values, results and arithmetic over reals. */
module Prelude {

  datatype Option<+T> = None | Some(value: T)

  /** A value or the error that took its place, the shape every port and loader answers with. */
  datatype Result<+T, +E> = Ok(value: T) | Err(error: E) {

    predicate IsFailure() {
      Err?
    }

    function PropagateFailure<U>(): Result<U, E>
      requires Err?
    {
      Err(error)
    }

    function Extract(): T
      requires Ok?
    {
      value
    }
  }

  /** The elements of a list. */
  function ToSet<T(!new)>(xs: seq<T>): (r: set<T>)
    ensures forall x :: x in r <==> x in xs
  {
    set x | x in xs
  }

  function MinReal(x: real, y: real): real {
    if x <= y then x else y
  }

  function MaxReal(x: real, y: real): real {
    if x <= y then y else x
  }

  /** The only way onto the internal scale from 0 to 1. */
  function Clamp01(x: real): (r: real)
    ensures 0.0 <= r <= 1.0
  {
    MinReal(1.0, MaxReal(0.0, x))
  }

  /** The nearest integer, a half going up. */
  function Round(x: real): int {
    (x + 0.5).Floor
  }

  lemma {:induction false} RoundMonotone(x: real, y: real)
    requires x <= y
    ensures Round(x) <= Round(y)
  {
  }

  /** The sum of a sequence, by prefixes, so that a loop from the left computes it. */
  function Sum(xs: seq<real>): real {
    if xs == [] then 0.0 else Sum(xs[..|xs| - 1]) + xs[|xs| - 1]
  }

  /** The product of a sequence, by prefixes. */
  function Product(xs: seq<real>): real {
    if xs == [] then 1.0 else Product(xs[..|xs| - 1]) * xs[|xs| - 1]
  }

  lemma {:induction false} SumSnoc(xs: seq<real>, x: real)
    ensures Sum(xs + [x]) == Sum(xs) + x
  {
    assert (xs + [x])[..|xs|] == xs;
  }

  lemma {:induction false} ProductSnoc(xs: seq<real>, x: real)
    ensures Product(xs + [x]) == Product(xs) * x
  {
    assert (xs + [x])[..|xs|] == xs;
  }

  lemma {:induction false} SumNonNegative(xs: seq<real>)
    requires forall i :: 0 <= i < |xs| ==> 0.0 <= xs[i]
    ensures 0.0 <= Sum(xs)
    ensures forall i :: 0 <= i < |xs| ==> xs[i] <= Sum(xs)
  {
    if xs != [] {
      SumNonNegative(xs[..|xs| - 1]);
    }
  }

  /** Dividing every term by a constant divides the sum by it. */
  lemma {:induction false} SumScale(xs: seq<real>, ys: seq<real>, divisor: real)
    requires |xs| == |ys| && divisor != 0.0
    requires forall i :: 0 <= i < |xs| ==> ys[i] == xs[i] / divisor
    ensures Sum(ys) == Sum(xs) / divisor
  {
    if xs != [] {
      SumScale(xs[..|xs| - 1], ys[..|ys| - 1], divisor);
    }
  }

  /** Shares of a positive total sum to one. */
  lemma {:induction false} SharesSumToOne(xs: seq<real>, shares: seq<real>)
    requires |xs| == |shares| && Sum(xs) > 0.0
    requires forall i :: 0 <= i < |xs| ==> shares[i] == xs[i] / Sum(xs)
    ensures Sum(shares) == 1.0
  {
    SumScale(xs, shares, Sum(xs));
    SelfQuotient(Sum(xs));
  }

  lemma {:induction false} SelfQuotient(x: real)
    requires x != 0.0
    ensures x / x == 1.0
  {
  }

  lemma {:induction false} TimesMonotone(a: real, b: real, x: real, y: real)
    requires 0.0 <= a <= b && 0.0 <= x <= y
    ensures 0.0 <= a * x <= b * y
  {
    assert a * x <= b * x;
    assert b * x <= b * y;
  }

  lemma {:induction false} AtLeastOneTimes(q: real, d: real)
    requires q >= 1.0 && d > 0.0
    ensures q * d >= d
  {
  }

  /** A quotient of a smaller by a larger number lies below one, and is zero only at zero. */
  lemma {:induction false} ProperFraction(x: real, d: real)
    requires 0.0 <= x < d
    ensures 0.0 <= x / d < 1.0
    ensures x / d == 0.0 <==> x == 0.0
  {
    BelowOne(x, d);
    assert (x / d) * d == x;
  }

  lemma {:induction false} BelowOne(x: real, d: real)
    requires 0.0 <= x < d
    ensures x / d < 1.0
  {
    assert (x / d) * d == x;
    if x / d >= 1.0 {
      AtLeastOneTimes(x / d, d);
    }
  }

  lemma {:induction false} QuotientMonotone(x: real, y: real, d: real)
    requires x <= y && d > 0.0
    ensures x / d <= y / d
  {
    assert (y - x) / d >= 0.0;
    assert (y - x) / d == y / d - x / d;
  }

  lemma {:induction false} SquareNonNegative(x: real)
    ensures x * x >= 0.0
  {
  }

  lemma {:induction false} PositiveTimes(x: real, y: real)
    requires x > 0.0 && y > 0.0
    ensures x * y > 0.0
  {
  }

  /** What a function makes of each element, one after another. */
  function Collect<A, B>(xs: seq<A>, f: A -> seq<B>): seq<B> {
    if xs == [] then [] else Collect(xs[..|xs| - 1], f) + f(xs[|xs| - 1])
  }

  lemma {:induction false} CollectedFrom<A, B>(xs: seq<A>, f: A -> seq<B>, y: B)
    ensures y in Collect(xs, f) <==> exists i :: 0 <= i < |xs| && y in f(xs[i])
  {
    if xs != [] {
      var init := xs[..|xs| - 1];
      CollectedFrom(init, f, y);
      if y in Collect(init, f) {
        var i :| 0 <= i < |init| && y in f(init[i]);
        assert y in f(xs[i]);
      }
      if i :| 0 <= i < |xs| && y in f(xs[i]) {
        assert i < |init| ==> init[i] == xs[i];
      }
    }
  }

  lemma {:induction false} CollectSnoc<A, B>(xs: seq<A>, x: A, f: A -> seq<B>)
    ensures Collect(xs + [x], f) == Collect(xs, f) + f(x)
  {
    assert (xs + [x])[..|xs|] == xs;
  }

  lemma {:induction false} Regroup<A>(a: seq<A>, b: seq<A>, c: seq<A>)
    ensures (a + b) + c == a + (b + c)
  {
  }

  lemma {:induction false} CollectAppend<A, B>(xs: seq<A>, ys: seq<A>, f: A -> seq<B>)
    ensures Collect(xs + ys, f) == Collect(xs, f) + Collect(ys, f)
  {
    if ys == [] {
      assert xs + ys == xs;
    } else {
      var n := |ys| - 1;
      var init := xs + ys[..n];
      CollectAppend(xs, ys[..n], f);
      CollectSnoc(init, ys[n], f);
      assert xs + ys == init + [ys[n]];
      assert Collect(ys, f) == Collect(ys[..n], f) + f(ys[n]);
      Regroup(Collect(xs, f), Collect(ys[..n], f), f(ys[n]));
    }
  }

  /** The same, where the function also sees the elements before. */
  function CollectWith<A, B>(xs: seq<A>, f: (seq<A>, A) -> seq<B>): seq<B> {
    if xs == [] then [] else CollectWith(xs[..|xs| - 1], f) + f(xs[..|xs| - 1], xs[|xs| - 1])
  }

  lemma {:induction false} CollectedWithNothing<A, B>(xs: seq<A>, f: (seq<A>, A) -> seq<B>, i: nat)
    requires CollectWith(xs, f) == [] && i < |xs|
    ensures f(xs[..i], xs[i]) == []
  {
    if i < |xs| - 1 {
      CollectedWithNothing(xs[..|xs| - 1], f, i);
      assert xs[..|xs| - 1][..i] == xs[..i];
    }
  }

  lemma {:induction false} NothingCollectedWith<A, B>(xs: seq<A>, f: (seq<A>, A) -> seq<B>)
    requires forall i :: 0 <= i < |xs| ==> f(xs[..i], xs[i]) == []
    ensures CollectWith(xs, f) == []
  {
    if xs != [] {
      var init := xs[..|xs| - 1];
      forall i | 0 <= i < |init| ensures f(init[..i], init[i]) == [] {
        assert init[..i] == xs[..i];
      }
      NothingCollectedWith(init, f);
    }
  }

  lemma {:induction false} CollectedWithAll<A>(xs: seq<A>, f: (seq<A>, A) -> seq<A>)
    requires forall i :: 0 <= i < |xs| ==> f(xs[..i], xs[i]) == [xs[i]]
    ensures CollectWith(xs, f) == xs
  {
    if xs != [] {
      var init := xs[..|xs| - 1];
      forall i | 0 <= i < |init| ensures f(init[..i], init[i]) == [init[i]] {
        assert init[..i] == xs[..i];
      }
      CollectedWithAll(init, f);
    }
  }

  /** One pass that pushes onto two lists. */
  method CollectBoth<A, B, C>(xs: seq<A>, f: A -> seq<B>, g: A -> seq<C>) returns (bs: seq<B>, cs: seq<C>)
    ensures bs == Collect(xs, f) && cs == Collect(xs, g)
  {
    bs, cs := [], [];
    for i := 0 to |xs|
      invariant bs == Collect(xs[..i], f) && cs == Collect(xs[..i], g)
    {
      assert xs[..i + 1][..i] == xs[..i];
      bs := bs + f(xs[i]);
      cs := cs + g(xs[i]);
    }
    assert xs[..|xs|] == xs;
  }

  function Times(x: real, y: real): real {
    x * y
  }

  /** What lies the fraction `x` of the way from `floor` to one. */
  function Blend(floor: real, x: real): real {
    floor + (1.0 - floor) * x
  }

  lemma {:induction false} TimesInUnit(x: real, y: real)
    requires 0.0 <= x <= 1.0 && 0.0 <= y <= 1.0
    ensures 0.0 <= Times(x, y) <= x
  {
    TimesMonotone(x, x, y, 1.0);
  }

  lemma {:induction false} BlendInUnit(floor: real, x: real)
    requires 0.0 <= floor <= 1.0 && 0.0 <= x <= 1.0
    ensures floor <= Blend(floor, x) <= 1.0
  {
    var rest := 1.0 - floor;
    TimesInUnit(rest, x);
    assert Blend(floor, x) == floor + Times(rest, x);
  }

  lemma {:induction false} BlendMonotone(floor: real, x: real, y: real)
    requires 0.0 <= floor <= 1.0 && 0.0 <= x <= y
    ensures Blend(floor, x) <= Blend(floor, y)
  {
    var rest := 1.0 - floor;
    TimesMonotone(rest, rest, x, y);
    assert Blend(floor, x) == floor + rest * x && Blend(floor, y) == floor + rest * y;
  }

  /** A share of a total, itself between nothing and the total. */
  lemma {:induction false} ShareInUnit(x: real, total: real)
    requires 0.0 <= x <= total && total > 0.0
    ensures 0.0 <= x / total <= 1.0
  {
    QuotientMonotone(0.0, x, total);
    QuotientMonotone(x, total, total);
    SelfQuotient(total);
  }
}
