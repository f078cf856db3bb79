/** Records in, batches out, and an exact account of what was lost on the way. */
module AuditBuffer {
  import opened Prelude

  /**
   * The account of a buffer: everything ever recorded, and which of it (by
   * position) is waiting, being written, or written; the rest is only counted.
   */
  datatype Account<T> = Account(
    recorded: seq<T>, pending: seq<nat>, flying: Option<seq<nat>>, written: seq<nat>, lost: nat
  )

  datatype Event<T> = Record(run: T) | Flush | Settle(ok: bool) | Drain

  function Empty<T>(): Account<T> {
    Account([], [], None, [], 0)
  }

  function Flying<T>(account: Account<T>): seq<nat> {
    if account.flying.Some? then account.flying.value else []
  }

  /** At the limit the oldest is shifted out and counted, whether or not there was one. */
  function RecordNext<T>(account: Account<T>, run: T, maxRecords: int): Account<T> {
    var position := |account.recorded|;
    if |account.pending| >= maxRecords then
      account.(
        recorded := account.recorded + [run],
        pending := (if account.pending == [] then [] else account.pending[1..]) + [position],
        lost := account.lost + 1)
    else
      account.(recorded := account.recorded + [run], pending := account.pending + [position])
  }

  function Next<T>(account: Account<T>, event: Event<T>, maxRecords: int): Account<T> {
    match event
    case Record(run) => RecordNext(account, run, maxRecords)
    case Flush =>
      if account.flying.Some? || account.pending == [] then account
      else account.(flying := Some(account.pending), pending := [])
    case Settle(ok) =>
      if account.flying.None? then account
      else if ok then account.(flying := None, written := account.written + account.flying.value)
      else account.(flying := None, lost := account.lost + |account.flying.value|)
    case Drain => account.(pending := [], lost := account.lost + |account.pending|)
  }

  function After<T>(events: seq<Event<T>>, maxRecords: int): Account<T> {
    if events == [] then Empty()
    else Next(After(events[..|events| - 1], maxRecords), events[|events| - 1], maxRecords)
  }

  /** Everything recorded is written, lost, in flight or waiting. */
  predicate Conserved<T>(account: Account<T>) {
    |account.recorded| == |account.written| + account.lost + |Flying(account)| + |account.pending|
  }

  ghost predicate Ascends(positions: seq<nat>, bound: nat) {
    && (forall i :: 0 <= i < |positions| ==> positions[i] < bound)
    && (forall i, j :: 0 <= i < j < |positions| ==> positions[i] < positions[j])
  }

  /** Written, then in flight, then waiting: a subsequence of what was recorded, in recorded order. */
  ghost predicate InOrder<T>(account: Account<T>) {
    Ascends(account.written + Flying(account) + account.pending, |account.recorded|)
  }

  predicate Bounded<T>(account: Account<T>, maxRecords: int) {
    |account.pending| <= maxRecords && (account.flying.Some? ==> account.flying.value != [])
  }

  lemma {:induction false} AscendsExtended(positions: seq<nat>, bound: nat)
    requires Ascends(positions, bound)
    ensures Ascends(positions + [bound], bound + 1)
  {
  }

  /** Leaving out a stretch keeps the order. */
  lemma {:induction false} AscendsWithout(before: seq<nat>, gone: seq<nat>, rest: seq<nat>, bound: nat)
    requires Ascends(before + gone + rest, bound)
    ensures Ascends(before + rest, bound)
  {
    var all, left := before + gone + rest, before + rest;
    forall i | 0 <= i < |left| ensures left[i] == all[if i < |before| then i else i + |gone|] {
    }
  }

  lemma {:induction false} RecordKeepsOrder<T>(account: Account<T>, run: T, maxRecords: int)
    requires InOrder(account)
    ensures InOrder(RecordNext(account, run, maxRecords))
  {
    var ahead := account.written + Flying(account);
    var n := |account.recorded|;
    var next := RecordNext(account, run, maxRecords);
    if |account.pending| >= maxRecords && account.pending != [] {
      var head, tail := account.pending[..1], account.pending[1..];
      assert account.pending == head + tail;
      assert ahead + account.pending == ahead + head + tail;
      AscendsWithout(ahead, head, tail, n);
      AscendsExtended(ahead + tail, n);
      assert ahead + (tail + [n]) == ahead + tail + [n];
    } else {
      AscendsExtended(ahead + account.pending, n);
      assert ahead + (account.pending + [n]) == ahead + account.pending + [n];
    }
  }

  lemma {:induction false} NextKeepsOrder<T>(account: Account<T>, event: Event<T>, maxRecords: int)
    requires InOrder(account)
    ensures InOrder(Next(account, event, maxRecords))
  {
    var next := Next(account, event, maxRecords);
    var n := |account.recorded|;
    match event
    case Record(run) => RecordKeepsOrder(account, run, maxRecords);
    case Flush =>
      assert account.flying.None? ==> account.written + [] + account.pending == account.written + account.pending + [];
    case Settle(ok) =>
      if account.flying.Some? {
        if ok {
          assert account.written + account.flying.value + [] + account.pending
            == account.written + account.flying.value + account.pending;
        } else {
          AscendsWithout(account.written, account.flying.value, account.pending, n);
          assert account.written + [] + account.pending == account.written + account.pending;
        }
      }
    case Drain =>
      var ahead := account.written + Flying(account);
      assert ahead + account.pending == ahead + account.pending + [];
      AscendsWithout(ahead, account.pending, [], n);
  }

  /** A record is accounted for exactly when there was room for it or something to make room with. */
  lemma {:induction false} RecordConservesExactly<T>(account: Account<T>, run: T, maxRecords: int)
    requires Conserved(account)
    ensures Conserved(RecordNext(account, run, maxRecords)) <==> |account.pending| < maxRecords || account.pending != []
  {
  }

  /** Through every interleaving of records, flushes, settlements and a shutdown, nothing goes missing. */
  lemma {:induction false} NothingGoesMissing<T>(events: seq<Event<T>>, maxRecords: int)
    requires maxRecords >= 1
    ensures Conserved(After(events, maxRecords))
    ensures Bounded(After(events, maxRecords), maxRecords)
    ensures InOrder(After(events, maxRecords))
  {
    if events != [] {
      var n := |events| - 1;
      NothingGoesMissing(events[..n], maxRecords);
      NextKeepsOrder(After(events[..n], maxRecords), events[n], maxRecords);
    }
  }

  // ---- What becomes of a record ----

  datatype Fate = Waiting | Handed | Written | Gone

  function FateOf<T>(account: Account<T>, p: nat): Fate {
    if p in account.pending then Waiting
    else if p in Flying(account) then Handed
    else if p in account.written then Written
    else Gone
  }

  /** What waits is always what was recorded last, without a gap. */
  ghost predicate LatestWait<T>(account: Account<T>) {
    && |account.pending| <= |account.recorded|
    && forall i :: 0 <= i < |account.pending| ==> account.pending[i] == |account.recorded| - |account.pending| + i
  }

  /**
   * A waiting record goes out with the next flush that finds no write
   * outstanding, unless a shutdown comes first or as many records as there is
   * room for; one that is out is written or gone as its write turns out.
   */
  predicate Moves<T>(before: Fate, event: Event<T>, writing: bool, pushedOut: bool, after: Fate) {
    match before
    case Waiting =>
      if event.Drain? || (event.Record? && pushedOut) then after == Gone
      else if event.Flush? && !writing then after == Handed
      else after == Waiting
    case Handed =>
      if event.Settle? then after == (if event.ok then Written else Gone) else after == Handed
    case _ => after == before
  }

  lemma {:induction false} LatestAlwaysWait<T>(events: seq<Event<T>>, maxRecords: int)
    requires maxRecords >= 1
    ensures LatestWait(After(events, maxRecords))
  {
    if events != [] {
      var n := |events| - 1;
      LatestAlwaysWait(events[..n], maxRecords);
    }
  }

  lemma {:induction false} PlacesAreApart<T>(account: Account<T>, p: nat)
    requires InOrder(account)
    ensures !(p in account.pending && p in Flying(account)) && !(p in account.pending && p in account.written)
    ensures !(p in Flying(account) && p in account.written)
  {
    var all := account.written + Flying(account) + account.pending;
    var w, f := |account.written|, |account.written| + |Flying(account)|;
    assert forall i :: 0 <= i < w ==> all[i] == account.written[i];
    assert forall i :: 0 <= i < |Flying(account)| ==> all[w + i] == Flying(account)[i];
    assert forall i :: 0 <= i < |account.pending| ==> all[f + i] == account.pending[i];
  }

  /** The way of every record, in every run, from its recording on. */
  lemma {:induction false} EveryRecordsWay<T>(events: seq<Event<T>>, event: Event<T>, maxRecords: int, p: nat)
    requires maxRecords >= 1
    ensures var before, after := After(events, maxRecords), After(events + [event], maxRecords);
      && after.recorded == before.recorded + (if event.Record? then [event.run] else [])
      && (event.Record? && p == |before.recorded| ==> FateOf(after, p) == Waiting)
      && (p < |before.recorded| ==>
            Moves(FateOf(before, p), event, before.flying.Some?, |before.recorded| - p >= maxRecords, FateOf(after, p)))
  {
    assert (events + [event])[..|events|] == events;
    var before, after := After(events, maxRecords), After(events + [event], maxRecords);
    NothingGoesMissing(events, maxRecords);
    NothingGoesMissing(events + [event], maxRecords);
    LatestAlwaysWait(events, maxRecords);
    PlacesAreApart(before, p);
    PlacesAreApart(after, p);
    match event
    case Record(run) => RecordedWay(before, run, maxRecords, p);
    case _ =>
  }

  lemma {:induction false} RecordedWay<T>(account: Account<T>, run: T, maxRecords: int, p: nat)
    requires maxRecords >= 1 && LatestWait(account) && |account.pending| <= maxRecords
    ensures p in RecordNext(account, run, maxRecords).pending <==>
      p == |account.recorded| || (p in account.pending && |account.recorded| - p < maxRecords)
  {
    var next := RecordNext(account, run, maxRecords);
    var n, size := |account.recorded|, |account.pending|;
    if p in account.pending {
      var i :| 0 <= i < size && account.pending[i] == p;
      if n - p < maxRecords {
        assert next.pending[if size >= maxRecords then i - 1 else i] == p;
      }
    }
    if p in next.pending && p != n {
      var i :| 0 <= i < |next.pending| && next.pending[i] == p;
      assert account.pending[if size >= maxRecords then i + 1 else i] == p;
    }
    assert next.pending[|next.pending| - 1] == n;
  }

  /** With no room at all the count is wrong from the first record on. */
  lemma {:induction false} NoRoomOvercounts<T>(run: T, maxRecords: int)
    requires maxRecords < 1
    ensures var account := After([Record(run)], maxRecords);
      !Conserved(account) && |account.pending| > maxRecords && account.lost == 1 && |account.recorded| == 1
  {
    assert [Record(run)][..0] == [];
  }

  /** So the account is exact in every run exactly when the limit is at least one. */
  lemma {:induction false} ExactExactlyWithRoom<T>(run: T, maxRecords: int)
    ensures (forall events: seq<Event<T>> :: Conserved(After(events, maxRecords))) <==> maxRecords >= 1
  {
    if maxRecords >= 1 {
      forall events: seq<Event<T>> ensures Conserved(After(events, maxRecords)) {
        NothingGoesMissing(events, maxRecords);
      }
    } else {
      NoRoomOvercounts(run, maxRecords);
      var events := [Record(run)];
      assert !Conserved(After(events, maxRecords));
    }
  }

  /** The records at a list of positions. */
  function At<T>(recorded: seq<T>, positions: seq<nat>): (r: seq<T>)
    requires forall i :: 0 <= i < |positions| ==> positions[i] < |recorded|
    ensures |r| == |positions|
    ensures forall i :: 0 <= i < |r| ==> r[i] == recorded[positions[i]]
  {
    seq(|positions|, i requires 0 <= i < |positions| => recorded[positions[i]])
  }

  /** The service: a buffer, the batch being written, and two counters. */
  class AuditBufferService<T> {
    const hasWriter: bool
    const maxRecords: int
    var buffer: seq<T>
    var flushing: Option<seq<T>>
    var writtenCount: nat
    var lostCount: nat
    ghost var account: Account<T>

    ghost predicate Valid()
      reads this
    {
      && maxRecords >= 1
      && InOrder(account) && Conserved(account) && Bounded(account, maxRecords)
      && PositionsExist()
      && buffer == At(account.recorded, account.pending)
      && flushing.Some? == account.flying.Some?
      && (flushing.Some? ==> flushing.value == At(account.recorded, account.flying.value))
      && writtenCount == |account.written| && lostCount == account.lost
    }

    ghost predicate PositionsExist()
      reads this
    {
      && (forall i :: 0 <= i < |account.pending| ==> account.pending[i] < |account.recorded|)
      && (forall i :: 0 <= i < |Flying(account)| ==> Flying(account)[i] < |account.recorded|)
    }

    constructor (hasWriter: bool, maxRecords: int)
      requires maxRecords >= 1
      ensures Valid() && account == Empty() && this.hasWriter == hasWriter && this.maxRecords == maxRecords
    {
      this.hasWriter := hasWriter;
      this.maxRecords := maxRecords;
      buffer, flushing, writtenCount, lostCount := [], None, 0, 0;
      account := Empty();
    }

    method RecordRun(run: T)
      requires Valid()
      modifies this
      ensures Valid() && account == if hasWriter then Next(old(account), Record(run), maxRecords) else old(account)
    {
      if !hasWriter {
        return;
      }
      RecordKeepsOrder(account, run, maxRecords);
      ghost var before := account;
      if |buffer| >= maxRecords {
        buffer := buffer[1..];
        lostCount := lostCount + 1;
      }
      buffer := buffer + [run];
      account := RecordNext(account, run, maxRecords);
      RecordedAt(before, run, maxRecords);
    }

    /** Takes the batch before the write begins; nothing while a write is outstanding. */
    method BeginFlush()
      requires Valid()
      modifies this
      ensures Valid()
      ensures account == if hasWriter then Next(old(account), Flush, maxRecords) else old(account)
    {
      if flushing.Some? || !hasWriter || buffer == [] {
        return;
      }
      NextKeepsOrder(account, Flush, maxRecords);
      flushing, buffer := Some(buffer), [];
      account := Next(account, Flush, maxRecords);
    }

    method SettleFlush(ok: bool)
      requires Valid() && flushing.Some?
      modifies this
      ensures Valid() && account == Next(old(account), Settle(ok), maxRecords)
    {
      NextKeepsOrder(account, Settle(ok), maxRecords);
      if ok {
        writtenCount := writtenCount + |flushing.value|;
      } else {
        lostCount := lostCount + |flushing.value|;
      }
      flushing := None;
      account := Next(account, Settle(ok), maxRecords);
    }

    /** What a shutdown does once the last flush has settled. */
    method DropRest()
      requires Valid()
      modifies this
      ensures Valid() && account == Next(old(account), Drain, maxRecords) && buffer == []
    {
      NextKeepsOrder(account, Drain, maxRecords);
      if |buffer| > 0 {
        lostCount := lostCount + |buffer|;
        buffer := [];
      }
      account := Next(account, Drain, maxRecords);
    }
  }

  /** The buffer after a record holds the records at the positions that are now pending. */
  lemma {:induction false} RecordedAt<T>(account: Account<T>, run: T, maxRecords: int)
    requires maxRecords >= 1
    requires forall i :: 0 <= i < |account.pending| ==> account.pending[i] < |account.recorded|
    requires forall i :: 0 <= i < |Flying(account)| ==> Flying(account)[i] < |account.recorded|
    ensures var next := RecordNext(account, run, maxRecords);
      && (forall i :: 0 <= i < |next.pending| ==> next.pending[i] < |next.recorded|)
      && (forall i :: 0 <= i < |Flying(next)| ==> Flying(next)[i] < |next.recorded|)
      && At(next.recorded, Flying(next)) == At(account.recorded, Flying(account))
      && At(next.recorded, next.pending) ==
           (if |account.pending| >= maxRecords then At(account.recorded, account.pending)[1..]
            else At(account.recorded, account.pending)) + [run]
  {
    var next := RecordNext(account, run, maxRecords);
    assert Flying(next) == Flying(account);
  }
}
