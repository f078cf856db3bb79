/** What the service may still send: one attempt takes a unit from all three windows, or from none. */
module OutboundBudget {
  import opened TokenBucket

  const MINUTE_MS := 60000.0
  const HOUR_MS := 3600000.0
  const DAY_MS := 86400000.0

  datatype Limits = Limits(minute: real, hour: real, day: real)

  /** The readings of the clock one attempt makes: three to check, three to take, three to publish. */
  datatype Readings = Readings(check: seq<real>, take: seq<real>, publish: seq<real>) {
    predicate Valid() {
      |check| == |take| == |publish| == 3
    }
  }

  /** Everything a bucket has ever admitted. */
  ghost function Total(history: seq<Observation>): real {
    SpentSince(history, 0)
  }

  lemma {:induction false} TotalSnoc(history: seq<Observation>, next: Observation)
    ensures Total(history + [next]) == Total(history) + next.spent
  {
    SpentSinceSnoc(history, next, 0);
  }

  lemma {:induction false} FloorBelowOne(x: real)
    ensures x.Floor < 1 <==> x < 1.0
  {
  }

  class OutboundBudgetService {
    const minute: Bucket
    const hour: Bucket
    const day: Bucket

    ghost predicate Valid()
      reads this, minute, hour, day
    {
      && minute != hour && minute != day && hour != day
      && minute.Valid() && hour.Valid() && day.Valid()
      && NothingGivenBack(minute.history) && NothingGivenBack(hour.history) && NothingGivenBack(day.history)
      && minute.windowMs == MINUTE_MS && hour.windowMs == HOUR_MS && day.windowMs == DAY_MS
    }

    constructor (limits: Limits, readings: seq<real>)
      requires limits.minute >= 0.0 && limits.hour >= 0.0 && limits.day >= 0.0 && |readings| == 3
      ensures Valid() && fresh(minute) && fresh(hour) && fresh(day)
      ensures minute.limit == limits.minute && hour.limit == limits.hour && day.limit == limits.day
      ensures Total(minute.history) == Total(hour.history) == Total(day.history) == 0.0
    {
      minute := new Bucket(limits.minute, MINUTE_MS, readings[0]);
      hour := new Bucket(limits.hour, HOUR_MS, readings[1]);
      day := new Bucket(limits.day, DAY_MS, readings[2]);
      new;
      assert SpentSince(minute.history, 1) == 0.0 && SpentSince(hour.history, 1) == 0.0 && SpentSince(day.history, 1) == 0.0;
    }

    /** Whether a bucket is short of a unit; asking is an observation that takes nothing. */
    method Short(bucket: Bucket, now: real) returns (short: bool)
      requires bucket.Valid() && NothingGivenBack(bucket.history)
      modifies bucket
      ensures bucket.Valid() && NothingGivenBack(bucket.history)
      ensures short == (old(bucket.AvailableAt(now)) < 1.0)
      ensures bucket.tokens == old(bucket.AvailableAt(now))
      ensures Total(bucket.history) == old(Total(bucket.history))
    {
      ghost var before, moment := bucket.history, bucket.Moment(now);
      var units := bucket.Remaining(now);
      TotalSnoc(before, Observation(moment, 0.0));
      FloorBelowOne(bucket.tokens);
      short := units < 1;
    }

    /** A bucket that held a unit when it was checked still holds it when it is taken. */
    method Take(bucket: Bucket, now: real)
      requires bucket.Valid() && NothingGivenBack(bucket.history) && bucket.tokens >= 1.0
      modifies bucket
      ensures bucket.Valid() && NothingGivenBack(bucket.history)
      ensures Total(bucket.history) == old(Total(bucket.history)) + 1.0
    {
      ghost var before, moment := bucket.history, bucket.Moment(now);
      AvailableAtMostLimit(before, moment, bucket.limit, bucket.windowMs);
      var taken := bucket.TryConsume(1.0, now);
      TotalSnoc(before, Observation(moment, 1.0));
    }

    method Publish(readings: seq<real>)
      requires Valid() && |readings| == 3
      modifies minute, hour, day
      ensures Valid()
      ensures Total(minute.history) == old(Total(minute.history))
      ensures Total(hour.history) == old(Total(hour.history))
      ensures Total(day.history) == old(Total(day.history))
    {
      var _ := Short(minute, readings[0]);
      var _ := Short(hour, readings[1]);
      var _ := Short(day, readings[2]);
    }

    /**
     * An attempt goes out exactly when every window has a unit for it, and then
     * each window is one unit poorer; otherwise none is. Every bucket stays
     * valid throughout, so all three bounds hold at once.
     */
    method TryConsume(readings: Readings) returns (sent: bool)
      requires Valid() && readings.Valid()
      modifies minute, hour, day
      ensures Valid()
      ensures sent <==>
        old(minute.AvailableAt(readings.check[0])) >= 1.0
        && old(hour.AvailableAt(readings.check[1])) >= 1.0
        && old(day.AvailableAt(readings.check[2])) >= 1.0
      ensures Total(minute.history) == old(Total(minute.history)) + if sent then 1.0 else 0.0
      ensures Total(hour.history) == old(Total(hour.history)) + if sent then 1.0 else 0.0
      ensures Total(day.history) == old(Total(day.history)) + if sent then 1.0 else 0.0
    {
      var exhausted := Short(minute, readings.check[0]);
      if !exhausted {
        exhausted := Short(hour, readings.check[1]);
      }
      if !exhausted {
        exhausted := Short(day, readings.check[2]);
      }
      if !exhausted {
        Take(minute, readings.take[0]);
        Take(hour, readings.take[1]);
        Take(day, readings.take[2]);
      }
      Publish(readings.publish);
      sent := !exhausted;
    }
  }

  /** Within one window of time no more goes out than twice what the window admits, however the requests fall. */
  ghost predicate AtMostTwice(bucket: Bucket, within: real)
    reads bucket
  {
    forall i :: 0 <= i < |bucket.history| && bucket.history[|bucket.history| - 1].at - bucket.history[i].at <= within ==>
      SpentSince(bucket.history, i) <= 2.0 * bucket.limit
  }

  lemma {:induction false} TwiceAtMost(bucket: Bucket, within: real)
    requires bucket.Valid() && NothingGivenBack(bucket.history) && within == bucket.windowMs
    ensures AtMostTwice(bucket, within)
  {
    forall i | 0 <= i < |bucket.history| && LastAt(bucket.history) - bucket.history[i].at <= within
      ensures SpentSince(bucket.history, i) <= 2.0 * bucket.limit
    {
      EveryStretchIsBounded(bucket.history, i, bucket.limit, within);
      GainGrows(LastAt(bucket.history) - bucket.history[i].at, within, bucket.limit, within);
      AWindowRefillsTheLimit(bucket.limit, within, 1.0);
    }
  }

  lemma {:induction false} GainGrows(less: real, more: real, limit: real, window: real)
    requires window > 0.0 && limit >= 0.0 && less <= more
    ensures Gain(less, limit, window) <= Gain(more, limit, window)
  {
    GainAdds(less, more - less, limit, window);
    GainNonNegative(more - less, limit, window);
  }

  /**
   * Over any stretch each bucket has seen, all three windows bound what was
   * admitted: in a minute, an hour and a day at most twice their limits.
   */
  lemma {:induction false} AllBoundsHold(service: OutboundBudgetService, i: nat, j: nat, k: nat)
    requires service.Valid()
    requires i < |service.minute.history| && j < |service.hour.history| && k < |service.day.history|
    ensures SpentSince(service.minute.history, i) <= service.minute.limit
      + Gain(LastAt(service.minute.history) - service.minute.history[i].at, service.minute.limit, MINUTE_MS)
    ensures SpentSince(service.hour.history, j) <= service.hour.limit
      + Gain(LastAt(service.hour.history) - service.hour.history[j].at, service.hour.limit, HOUR_MS)
    ensures SpentSince(service.day.history, k) <= service.day.limit
      + Gain(LastAt(service.day.history) - service.day.history[k].at, service.day.limit, DAY_MS)
    ensures AtMostTwice(service.minute, 60.0 * 1000.0) && AtMostTwice(service.hour, 60.0 * 60.0 * 1000.0)
    ensures AtMostTwice(service.day, 24.0 * 60.0 * 60.0 * 1000.0)
  {
    TwiceAtMost(service.minute, MINUTE_MS);
    TwiceAtMost(service.hour, HOUR_MS);
    TwiceAtMost(service.day, DAY_MS);
    EveryStretchIsBounded(service.minute.history, i, service.minute.limit, MINUTE_MS);
    EveryStretchIsBounded(service.hour.history, j, service.hour.limit, HOUR_MS);
    EveryStretchIsBounded(service.day.history, k, service.day.limit, DAY_MS);
  }
}
