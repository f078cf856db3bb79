/** A bucket that refills continuously, and what exactly it admits. */
module TokenBucket {
  import opened Prelude

  /** One moment the bucket looked at the clock, and what it let through then. */
  datatype Observation = Observation(at: real, spent: real)

  /** What flows back in over a stretch of time. */
  function Gain(elapsed: real, limit: real, window: real): real
    requires window > 0.0
  {
    elapsed * limit / window
  }

  lemma {:induction false} GainAdds(a: real, b: real, limit: real, window: real)
    requires window > 0.0
    ensures Gain(a + b, limit, window) == Gain(a, limit, window) + Gain(b, limit, window)
  {
    QuotientAdds(a * limit, b * limit, window);
    assert (a + b) * limit == a * limit + b * limit;
  }

  /** What flows back is in proportion to the time, and in one window as much as the limit. */
  lemma {:induction false} AWindowRefillsTheLimit(limit: real, window: real, share: real)
    requires window > 0.0
    ensures Gain(window, limit, window) == limit && Gain(share * window, limit, window) == share * limit
  {
    ProportionOf(limit, window, share);
    ProportionOf(limit, window, 1.0);
  }

  lemma {:induction false} ProportionOf(limit: real, window: real, share: real)
    requires window > 0.0
    ensures share * window * limit / window == share * limit
  {
    assert share * window * limit == share * limit * window;
    DividedBack(share * limit, window);
  }

  lemma {:induction false} DividedBack(x: real, d: real)
    requires d > 0.0
    ensures x * d / d == x
  {
    var q := x * d / d;
    assert q * d == x * d;
    assert (q - x) * d == 0.0;
  }

  lemma {:induction false} QuotientAdds(x: real, y: real, d: real)
    requires d > 0.0
    ensures (x + y) / d == x / d + y / d
  {
    var p, q := x / d, y / d;
    assert p * d == x && q * d == y;
    assert (p + q) * d == x + y;
  }

  lemma {:induction false} GainNonNegative(elapsed: real, limit: real, window: real)
    requires window > 0.0 && elapsed >= 0.0 && limit >= 0.0
    ensures Gain(elapsed, limit, window) >= 0.0
    ensures elapsed == 0.0 ==> Gain(elapsed, limit, window) == 0.0
  {
    TimesMonotone(0.0, elapsed, 0.0, limit);
    QuotientMonotone(0.0, elapsed * limit, window);
  }

  /** Moments that never go back. */
  ghost predicate Ordered(history: seq<Observation>) {
    && history != []
    && (forall i, j :: 0 <= i < j < |history| ==> history[i].at <= history[j].at)
  }

  /** No request was for a negative number of units. */
  ghost predicate NothingGivenBack(history: seq<Observation>) {
    forall i :: 0 <= i < |history| ==> 0.0 <= history[i].spent
  }

  /** The first observation of its moment. */
  predicate Begins(history: seq<Observation>, j: nat)
    requires j < |history|
  {
    j == 0 || history[j - 1].at < history[j].at
  }

  function LastAt(history: seq<Observation>): real
    requires history != []
  {
    history[|history| - 1].at
  }

  /** What is left after the last observation: it was full at the first. */
  function Level(history: seq<Observation>, limit: real, window: real): real
    requires history != [] && window > 0.0
    decreases history, 0
  {
    var n := |history| - 1;
    if n == 0 then limit - history[0].spent
    else Available(history[..n], history[n].at, limit, window) - history[n].spent
  }

  /** A level after some time has passed: it gains, and never beyond the limit. With no time passed it is left alone. */
  function Topped(level: real, elapsed: real, limit: real, window: real): real
    requires window > 0.0
  {
    if elapsed <= 0.0 then level else MinReal(limit, level + Gain(elapsed, limit, window))
  }

  /** What a request may take at a later moment. */
  function Available(history: seq<Observation>, at: real, limit: real, window: real): real
    requires history != [] && window > 0.0
    decreases history, 1
  {
    Topped(Level(history, limit, window), at - LastAt(history), limit, window)
  }

  /** Everything admitted from an observation on. */
  function SpentSince(history: seq<Observation>, j: nat): real
    requires j <= |history|
    decreases |history| - j
  {
    if j == |history| then 0.0 else history[j].spent + SpentSince(history, j + 1)
  }

  lemma {:induction false} SpentSinceSnoc(history: seq<Observation>, next: Observation, j: nat)
    requires j <= |history|
    ensures SpentSince(history + [next], j) == SpentSince(history, j) + next.spent
    decreases |history| - j
  {
    if j < |history| {
      SpentSinceSnoc(history, next, j + 1);
    } else {
      assert SpentSince(history + [next], j + 1) == 0.0;
    }
  }

  /** The room left by the stretch that begins at an observation. */
  function Room(history: seq<Observation>, j: nat, at: real, limit: real, window: real): real
    requires j < |history| && window > 0.0
  {
    limit + Gain(at - history[j].at, limit, window) - SpentSince(history, j)
  }

  lemma {:induction false} RoomSnoc(history: seq<Observation>, next: Observation, j: nat, at: real, limit: real, window: real)
    requires j < |history| && window > 0.0
    ensures Room(history + [next], j, at, limit, window)
      == Room(history, j, next.at, limit, window) - next.spent + Gain(at - next.at, limit, window)
  {
    SpentSinceSnoc(history, next, j);
    GainAdds(at - next.at, next.at - history[j].at, limit, window);
    assert at - next.at + (next.at - history[j].at) == at - history[j].at;
  }

  /**
   * What is available is the least room any stretch of the past leaves: it
   * exceeds none that begins with its moment, and one of those, or the limit,
   * is reached.
   */
  lemma {:induction false} AvailableIsTheLeastRoom(history: seq<Observation>, at: real, limit: real, window: real)
    requires Ordered(history) && window > 0.0 && limit >= 0.0 && at >= LastAt(history)
    ensures at > LastAt(history) ==> Available(history, at, limit, window) <= limit
    ensures forall j :: 0 <= j < |history| && Begins(history, j) ==>
      Available(history, at, limit, window) <= Room(history, j, at, limit, window)
    ensures (at > LastAt(history) && Available(history, at, limit, window) == limit) ||
      exists j :: 0 <= j < |history| && Begins(history, j) &&
        Available(history, at, limit, window) == Room(history, j, at, limit, window)
  {
    forall j | 0 <= j < |history| && Begins(history, j)
      ensures Available(history, at, limit, window) <= Room(history, j, at, limit, window)
    {
      AvailableWithinRoom(history, j, at, limit, window);
    }
    SomeRoomIsReached(history, at, limit, window);
  }

  lemma {:induction false} LastRoom(history: seq<Observation>, at: real, limit: real, window: real)
    requires history != [] && window > 0.0
    ensures var n := |history| - 1;
      Room(history, n, at, limit, window) == limit + Gain(at - history[n].at, limit, window) - history[n].spent
  {
    assert SpentSince(history, |history|) == 0.0;
  }

  /** However it is topped up, a level is at most itself and what flowed back. */
  lemma {:induction false} ToppedAtMost(level: real, elapsed: real, limit: real, window: real)
    requires window > 0.0 && limit >= 0.0 && elapsed >= 0.0
    ensures Topped(level, elapsed, limit, window) <= level + Gain(elapsed, limit, window)
    ensures elapsed > 0.0 ==> Topped(level, elapsed, limit, window) <= limit
    ensures Topped(level, elapsed, limit, window) == level + Gain(elapsed, limit, window) ||
      (elapsed > 0.0 && Topped(level, elapsed, limit, window) == limit)
    ensures 0.0 <= level ==> 0.0 <= Topped(level, elapsed, limit, window)
    ensures level <= limit ==> level <= Topped(level, elapsed, limit, window) <= limit
  {
    GainNonNegative(elapsed, limit, window);
  }

  lemma {:induction false} LevelAtMost(history: seq<Observation>, limit: real, window: real)
    requires Ordered(history) && window > 0.0 && limit >= 0.0
    requires Begins(history, |history| - 1) || NothingGivenBack(history)
    ensures Level(history, limit, window) <= limit - history[|history| - 1].spent
  {
    var n := |history| - 1;
    if n > 0 {
      var init := history[..n];
      if NothingGivenBack(history) {
        LevelAtMostLimit(init, limit, window);
      }
      ToppedAtMost(Level(init, limit, window), history[n].at - LastAt(init), limit, window);
    }
  }

  lemma {:induction false} LevelAtMostLimit(history: seq<Observation>, limit: real, window: real)
    requires Ordered(history) && NothingGivenBack(history) && window > 0.0 && limit >= 0.0
    ensures Level(history, limit, window) <= limit
  {
    var n := |history| - 1;
    if n > 0 {
      var init := history[..n];
      LevelAtMostLimit(init, limit, window);
      ToppedAtMost(Level(init, limit, window), history[n].at - LastAt(init), limit, window);
    }
  }

  lemma {:induction false} AvailableWithinRoom(history: seq<Observation>, j: nat, at: real, limit: real, window: real)
    requires Ordered(history) && window > 0.0 && limit >= 0.0 && at >= LastAt(history) && j < |history|
    requires Begins(history, j) || NothingGivenBack(history)
    ensures Available(history, at, limit, window) <= Room(history, j, at, limit, window)
  {
    var n := |history| - 1;
    if j == n {
      ToppedAtMost(Level(history, limit, window), at - history[n].at, limit, window);
      LastRoom(history, at, limit, window);
      LevelAtMost(history, limit, window);
    } else {
      AvailableWithinRoom(history[..n], j, history[n].at, limit, window);
      assert history == history[..n] + [history[n]];
      WithinRoomNext(history[..n], history[n], j, at, limit, window);
    }
  }

  lemma {:induction false} WithinRoomNext(
      init: seq<Observation>, last: Observation, j: nat, at: real, limit: real, window: real)
    requires Ordered(init + [last]) && init != [] && window > 0.0 && limit >= 0.0 && at >= last.at && j < |init|
    requires Available(init, last.at, limit, window) <= Room(init, j, last.at, limit, window)
    ensures Available(init + [last], at, limit, window) <= Room(init + [last], j, at, limit, window)
  {
    var history := init + [last];
    assert history[..|init|] == init && history[|init|] == last;
    ToppedAtMost(Level(history, limit, window), at - last.at, limit, window);
    RoomSnoc(init, last, j, at, limit, window);
  }

  lemma {:induction false} SomeRoomIsReached(history: seq<Observation>, at: real, limit: real, window: real)
    requires Ordered(history) && window > 0.0 && limit >= 0.0 && at >= LastAt(history)
    ensures (at > LastAt(history) && Available(history, at, limit, window) == limit) ||
      exists j :: 0 <= j < |history| && Begins(history, j) &&
        Available(history, at, limit, window) == Room(history, j, at, limit, window)
  {
    var n := |history| - 1;
    var init, last := history[..n], history[n];
    ToppedAtMost(Level(history, limit, window), at - last.at, limit, window);
    if Available(history, at, limit, window) == Level(history, limit, window) + Gain(at - last.at, limit, window) {
      if n == 0 || (init[n - 1].at < last.at && Available(init, last.at, limit, window) == limit) {
        LastRoom(history, at, limit, window);
        assert Begins(history, n);
      } else {
        SomeRoomIsReached(init, last.at, limit, window);
        var j :| 0 <= j < n && Begins(init, j) && Available(init, last.at, limit, window) == Room(init, j, last.at, limit, window);
        assert init + [last] == history;
        RoomSnoc(init, last, j, at, limit, window);
        assert Begins(history, j);
      }
    }
  }

  /** From every earlier observation to now, what was admitted since plus what is asked stays within the limit and the refill. */
  ghost predicate Fits(history: seq<Observation>, at: real, units: real, limit: real, window: real)
    requires window > 0.0
  {
    && units <= limit
    && forall j :: 0 <= j < |history| ==>
         SpentSince(history, j) + units <= limit + Gain(at - history[j].at, limit, window)
  }

  /** The same from the first observation of every moment, and below the limit once the clock has moved. */
  ghost predicate FitsEachMoment(history: seq<Observation>, at: real, units: real, limit: real, window: real)
    requires window > 0.0 && history != []
  {
    && (at > LastAt(history) ==> units <= limit)
    && forall j :: 0 <= j < |history| && Begins(history, j) ==>
         SpentSince(history, j) + units <= limit + Gain(at - history[j].at, limit, window)
  }

  /** Whatever was asked for so far, and whatever is asked now, negative numbers included. */
  lemma {:induction false} AdmissionSinceEachMoment(history: seq<Observation>, at: real, units: real, limit: real, window: real)
    requires Ordered(history) && window > 0.0 && limit >= 0.0 && at >= LastAt(history)
    ensures units <= Available(history, at, limit, window) <==> FitsEachMoment(history, at, units, limit, window)
  {
    if units <= Available(history, at, limit, window) {
      AdmittedFits(history, at, units, limit, window);
    }
    if FitsEachMoment(history, at, units, limit, window) {
      FittingIsAdmitted(history, at, units, limit, window);
    }
  }

  lemma {:induction false} AdmittedFits(history: seq<Observation>, at: real, units: real, limit: real, window: real)
    requires Ordered(history) && window > 0.0 && limit >= 0.0 && at >= LastAt(history)
    requires units <= Available(history, at, limit, window)
    ensures FitsEachMoment(history, at, units, limit, window)
  {
    ToppedAtMost(Level(history, limit, window), at - LastAt(history), limit, window);
    forall j | 0 <= j < |history| && Begins(history, j)
      ensures SpentSince(history, j) + units <= limit + Gain(at - history[j].at, limit, window)
    {
      AvailableWithinRoom(history, j, at, limit, window);
    }
  }

  lemma {:induction false} FittingIsAdmitted(history: seq<Observation>, at: real, units: real, limit: real, window: real)
    requires Ordered(history) && window > 0.0 && limit >= 0.0 && at >= LastAt(history)
    requires FitsEachMoment(history, at, units, limit, window)
    ensures units <= Available(history, at, limit, window)
  {
    var available := Available(history, at, limit, window);
    SomeRoomIsReached(history, at, limit, window);
    if at > LastAt(history) && available == limit {
      assert units <= limit;
    } else {
      var j :| 0 <= j < |history| && Begins(history, j) && available == Room(history, j, at, limit, window);
      RoomFor(history, j, at, units, limit, window);
    }
  }

  lemma {:induction false} RoomFor(history: seq<Observation>, j: nat, at: real, units: real, limit: real, window: real)
    requires window > 0.0 && j < |history| && Begins(history, j) && FitsEachMoment(history, at, units, limit, window)
    ensures units <= Room(history, j, at, limit, window)
  {
  }

  /** Where nothing was ever given back, every observation counts. */
  lemma {:induction false} AdmissionIsExact(history: seq<Observation>, at: real, units: real, limit: real, window: real)
    requires Ordered(history) && NothingGivenBack(history) && window > 0.0 && limit >= 0.0 && at >= LastAt(history)
    ensures units <= Available(history, at, limit, window) <==> Fits(history, at, units, limit, window)
  {
    AvailableIsTheLeastRoom(history, at, limit, window);
    AvailableAtMostLimit(history, at, limit, window);
    if units <= Available(history, at, limit, window) {
      forall j | 0 <= j < |history|
        ensures SpentSince(history, j) + units <= limit + Gain(at - history[j].at, limit, window)
      {
        AvailableWithinRoom(history, j, at, limit, window);
      }
    }
    if Fits(history, at, units, limit, window) {
      forall j | 0 <= j < |history| ensures units <= Room(history, j, at, limit, window) {
      }
    }
  }

  lemma {:induction false} AvailableAtMostLimit(history: seq<Observation>, at: real, limit: real, window: real)
    requires Ordered(history) && NothingGivenBack(history) && window > 0.0 && limit >= 0.0 && at >= LastAt(history)
    ensures Level(history, limit, window) <= Available(history, at, limit, window) <= limit
  {
    LevelAtMostLimit(history, limit, window);
    ToppedAtMost(Level(history, limit, window), at - LastAt(history), limit, window);
  }

  /** Over any stretch of the past, what was admitted stays within the limit and the refill of that stretch. */
  lemma {:induction false} EveryStretchIsBounded(history: seq<Observation>, j: nat, limit: real, window: real)
    requires Ordered(history) && window > 0.0 && limit >= 0.0 && j < |history|
    requires Begins(history, j) || NothingGivenBack(history)
    requires Level(history, limit, window) >= 0.0
    ensures SpentSince(history, j) <= limit + Gain(LastAt(history) - history[j].at, limit, window)
  {
    AvailableWithinRoom(history, j, LastAt(history), limit, window);
    assert Available(history, LastAt(history), limit, window) == Level(history, limit, window);
  }

  /** One more observation: the level is what was available, less what was taken. */
  lemma {:induction false} LevelSnoc(history: seq<Observation>, next: Observation, limit: real, window: real)
    requires Ordered(history) && window > 0.0 && next.at >= LastAt(history)
    ensures Ordered(history + [next])
    ensures Level(history + [next], limit, window) == Available(history, next.at, limit, window) - next.spent
  {
    assert (history + [next])[..|history|] == history;
  }

  /** Looking at a bucket spends nothing: what is available becomes its level. */
  lemma {:induction false} Refilled(history: seq<Observation>, at: real, limit: real, window: real)
    requires Ordered(history) && window > 0.0 && limit >= 0.0 && at >= LastAt(history)
    ensures var after := history + [Observation(at, 0.0)];
      Ordered(after) && LastAt(after) == at && Level(after, limit, window) == Available(history, at, limit, window)
    ensures 0.0 <= Level(history, limit, window) ==> 0.0 <= Available(history, at, limit, window)
  {
    ToppedAtMost(Level(history, limit, window), at - LastAt(history), limit, window);
    LevelSnoc(history, Observation(at, 0.0), limit, window);
  }

  class Bucket {
    const limit: real
    const windowMs: real
    var tokens: real
    var lastRefill: real
    ghost var history: seq<Observation>

    ghost predicate Valid()
      reads this
    {
      && windowMs > 0.0 && limit >= 0.0
      && Ordered(history)
      && lastRefill == LastAt(history)
      && tokens == Level(history, limit, windowMs)
      && 0.0 <= tokens
    }

    constructor (limit: real, windowMs: real, now: real)
      requires limit >= 0.0 && windowMs > 0.0
      ensures Valid() && this.limit == limit && this.windowMs == windowMs
      ensures history == [Observation(now, 0.0)]
    {
      this.limit := limit;
      this.windowMs := windowMs;
      tokens := limit;
      lastRefill := now;
      history := [Observation(now, 0.0)];
    }

    /** The moment a reading of the clock stands for: a clock that went back stands still. */
    function Moment(now: real): real
      reads this
    {
      MaxReal(lastRefill, now)
    }

    /** What could be taken at a reading of the clock. */
    ghost function AvailableAt(now: real): real
      requires Valid()
      reads this
    {
      Available(history, Moment(now), limit, windowMs)
    }

    method Refill(now: real)
      requires Valid()
      modifies this`tokens, this`lastRefill, this`history
      ensures Valid()
      ensures lastRefill == old(Moment(now)) && tokens == old(AvailableAt(now))
      ensures history == old(history) + [Observation(old(Moment(now)), 0.0)]
    {
      ghost var moment := Moment(now);
      ghost var available := AvailableAt(now);
      Refilled(history, moment, limit, windowMs);
      var elapsed := now - lastRefill;
      if elapsed > 0.0 {
        assert elapsed == moment - LastAt(history);
        lastRefill := now;
        tokens := Topped(tokens, elapsed, limit, windowMs);
      }
      assert tokens == available;
      history := history + [Observation(moment, 0.0)];
    }

    /**
     * Takes the units or takes none, and takes them exactly when every stretch
     * from an earlier observation to now has room for them.
     */
    method TryConsume(units: real, now: real) returns (taken: bool)
      requires Valid()
      modifies this`tokens, this`lastRefill, this`history
      ensures Valid()
      ensures taken <==> FitsEachMoment(old(history), old(Moment(now)), units, limit, windowMs)
      ensures NothingGivenBack(old(history)) ==>
        (taken <==> Fits(old(history), old(Moment(now)), units, limit, windowMs))
      ensures taken <==> units <= old(AvailableAt(now))
      ensures history == old(history) + [Observation(old(Moment(now)), if taken then units else 0.0)]
    {
      ghost var before := history;
      ghost var moment := Moment(now);
      AdmissionSinceEachMoment(history, moment, units, limit, windowMs);
      if NothingGivenBack(history) {
        AdmissionIsExact(history, moment, units, limit, windowMs);
      }
      LevelSnoc(history, Observation(moment, units), limit, windowMs);
      Refill(now);
      if tokens < units {
        return false;
      }
      tokens := tokens - units;
      history := before + [Observation(moment, units)];
      taken := true;
    }

    /** Whole units left, at the price of one more observation. */
    method Remaining(now: real) returns (units: int)
      requires Valid()
      modifies this`tokens, this`lastRefill, this`history
      ensures Valid()
      ensures units == old(AvailableAt(now)).Floor
      ensures tokens == old(AvailableAt(now)) && lastRefill == old(Moment(now))
      ensures history == old(history) + [Observation(old(Moment(now)), 0.0)]
    {
      Refill(now);
      units := tokens.Floor;
    }
  }
}
