/**
 * One instance, a working store, a clock that does not go back: the store that
 * keeps rows and the store that keeps the object tell the same story, and
 * probing stays within its budget.
 */
module ProbeRuns {
  import opened Prelude
  import opened LocationProfiles
  import opened ProbeRows

  /** A request on a day, and what a probe would answer if one were made. */
  datatype Visit = Visit(today: Day, outcome: ProbeOutcome)

  predicate InOrder(run: seq<Visit>) {
    forall i, j :: 0 <= i < j < |run| ==> run[i].today <= run[j].today
  }

  /** The in-memory store: the evidence object, replaced by each probe. */
  function KeptAfter(run: seq<Visit>, confirmations: int): Option<MarineEvidence> {
    if run == [] then None
    else
      var known := KeptAfter(run[..|run| - 1], confirmations);
      var visit := run[|run| - 1];
      if NeedsProbe(known, visit.today, confirmations)
      then Some(RecordProbe(known, visit.outcome, visit.today)) else known
  }

  /** The row store: evidence is read from a listing of the rows, and a probe inserts what its record implies. */
  ghost function RowsAfter(run: seq<Visit>, confirmations: int): Table {
    if run == [] then map[]
    else
      var table := RowsAfter(run[..|run| - 1], confirmations);
      var visit := run[|run| - 1];
      var known := EvidenceIn(table);
      if NeedsProbe(known, visit.today, confirmations)
      then InsertOrIgnore(table, ProbeRowsFrom(RecordProbe(known, visit.outcome, visit.today))) else table
  }

  /** The evidence any listing of a table yields. */
  ghost function EvidenceIn(table: Table): (r: Option<MarineEvidence>)
    ensures r.None? <==> table == map[]
    ensures r.Some? ==> Reads(r.value, table)
  {
    ListingExists(table);
    var rows: seq<ProbeRow> :| Lists(rows, table);
    EvidenceReadsTheTable(rows, table);
    MarineEvidenceFrom(rows)
  }

  lemma {:induction false} ListingExists(table: Table)
    ensures exists rows: seq<ProbeRow> :: Lists(rows, table)
    decreases |table|
  {
    if table == map[] {
      var none: seq<ProbeRow> := [];
      assert Lists(none, table);
    } else {
      var d :| d in table;
      var fewer := map e | e in table && e != d :: table[e];
      assert fewer.Keys == table.Keys - {d};
      ListingExists(fewer);
      var rows: seq<ProbeRow> :| Lists(rows, fewer);
      ListingExtended(rows, fewer, d, table[d]);
      assert fewer[d := table[d]] == table;
    }
  }

  lemma {:induction false} ListingExtended(rows: seq<ProbeRow>, table: Table, d: Day, allNull: Option<bool>)
    requires Lists(rows, table) && d !in table
    ensures Lists(rows + [ProbeRow(d, allNull)], table[d := allNull])
  {
    var all := rows + [ProbeRow(d, allNull)];
    var longer := table[d := allNull];
    forall e | e in longer ensures exists i :: 0 <= i < |all| && all[i].date == e {
      if e == d {
        assert all[|rows|].date == e;
      } else {
        var i :| 0 <= i < |rows| && rows[i].date == e;
        assert all[i].date == e;
      }
    }
  }

  /** The object and the rows agree: on coverage and pace always, on the days while it matters. */
  ghost predicate Related(kept: Option<MarineEvidence>, table: Table) {
    if kept.None? then table == map[]
    else
      && table != map[]
      && Ascending(kept.value.allNullDates)
      && kept.value.lastProbedOn in table
      && (forall d :: d in table ==> d <= kept.value.lastProbedOn)
      && kept.value.covered == CoveredIn(table)
      && (!kept.value.covered ==> forall d :: d in kept.value.allNullDates <==> AllNullOn(table, d))
  }

  /** What related stores cannot be told apart by. */
  lemma {:induction false} RelatedLooksAlike(kept: Option<MarineEvidence>, table: Table, confirmations: Option<int>, today: Day)
    requires Related(kept, table)
    ensures var read := EvidenceIn(table);
      && read.Some? == kept.Some?
      && MarineVerdict(kept, confirmations) == MarineVerdict(read, confirmations)
      && (confirmations.Some? ==> NeedsProbe(kept, today, confirmations.value) == NeedsProbe(read, today, confirmations.value))
      && (kept.Some? ==>
            && kept.value.lastProbedOn == read.value.lastProbedOn
            && kept.value.covered == read.value.covered
            && (!kept.value.covered ==> kept.value.allNullDates == read.value.allNullDates))
  {
    var read := EvidenceIn(table);
    if kept.Some? {
      SameCoverageAndPace(kept.value, read.value, table);
      if !kept.value.covered {
        AscendingUnique(kept.value.allNullDates, read.value.allNullDates);
        assert kept == read;
      }
    }
  }

  lemma {:induction false} SameCoverageAndPace(kept: MarineEvidence, read: MarineEvidence, table: Table)
    requires Related(Some(kept), table) && Reads(read, table)
    ensures kept.covered == read.covered && kept.lastProbedOn == read.lastProbedOn
  {
  }

  /** A record whose other days are rows already adds exactly the row of its own day. */
  lemma {:induction false} InsertedRow(table: Table, record: MarineEvidence)
    requires record.lastProbedOn !in table
    requires forall d :: d in record.allNullDates ==> d in table || d == record.lastProbedOn
    ensures InsertOrIgnore(table, ProbeRowsFrom(record)) == table[record.lastProbedOn := NewRow(record, record.lastProbedOn)]
  {
    var after := InsertOrIgnore(table, ProbeRowsFrom(record));
    var expected := table[record.lastProbedOn := NewRow(record, record.lastProbedOn)];
    forall d ensures d in after <==> d in expected { SavedRows(table, record, d); }
    forall d | d in after ensures after[d] == expected[d] { SavedRows(table, record, d); }
  }

  lemma {:induction false} RelatedNext(kept: Option<MarineEvidence>, table: Table, outcome: ProbeOutcome, today: Day)
    requires Related(kept, table) && (kept.Some? ==> !kept.value.covered && kept.value.lastProbedOn < today)
    ensures var record := RecordProbe(kept, outcome, today);
      Related(Some(record), table[today := NewRow(record, today)])
  {
    var record := RecordProbe(kept, outcome, today);
    var after := table[today := NewRow(record, today)];
    SortedExact((if kept.Some? then kept.value.allNullDates else []) + [today]);
    assert today !in table;
    assert today in after;
    assert forall d :: d in table ==> after[d] == table[d];
    if outcome.Covered? {
      assert after[today] == Some(false);
    } else {
      assert forall d :: d in after && d != today ==> d in table;
    }
  }

  lemma {:induction false} RecordedDays(kept: Option<MarineEvidence>, table: Table, outcome: ProbeOutcome, today: Day)
    requires Related(kept, table) && (kept.Some? ==> !kept.value.covered && kept.value.lastProbedOn < today)
    ensures today !in table
    ensures var record := RecordProbe(kept, outcome, today);
      record.lastProbedOn == today && forall d :: d in record.allNullDates ==> d in table || d == today
  {
    SortedExact((if kept.Some? then kept.value.allNullDates else []) + [today]);
  }

  /** One probe keeps the two stores related. */
  lemma {:induction false} ProbeKeepsRelated(kept: Option<MarineEvidence>, table: Table, visit: Visit, confirmations: int)
    requires Related(kept, table) && NeedsProbe(kept, visit.today, confirmations)
    requires kept.Some? ==> kept.value.lastProbedOn <= visit.today
    ensures Related(Some(RecordProbe(kept, visit.outcome, visit.today)),
      InsertOrIgnore(table, ProbeRowsFrom(RecordProbe(EvidenceIn(table), visit.outcome, visit.today))))
  {
    RelatedLooksAlike(kept, table, Some(confirmations), visit.today);
    assert kept.Some? ==> kept == EvidenceIn(table);
    RecordedDays(kept, table, visit.outcome, visit.today);
    InsertedRow(table, RecordProbe(kept, visit.outcome, visit.today));
    RelatedNext(kept, table, visit.outcome, visit.today);
  }

  /** After every run of visits, the two stores are related. */
  lemma {:induction false} RowStoreSimulatesObjectStore(run: seq<Visit>, confirmations: int)
    requires InOrder(run)
    ensures Related(KeptAfter(run, confirmations), RowsAfter(run, confirmations))
    ensures KeptAfter(run, confirmations).Some? ==>
      run != [] && KeptAfter(run, confirmations).value.lastProbedOn <= run[|run| - 1].today
  {
    if run != [] {
      var n := |run| - 1;
      RowStoreSimulatesObjectStore(run[..n], confirmations);
      var kept, table, visit := KeptAfter(run[..n], confirmations), RowsAfter(run[..n], confirmations), run[n];
      RelatedLooksAlike(kept, table, Some(confirmations), visit.today);
      if NeedsProbe(kept, visit.today, confirmations) {
        ProbeKeepsRelated(kept, table, visit, confirmations);
      }
    }
  }

  /* ---- the budget ---- */

  /** The probes a run really makes. */
  function ProbesMade(run: seq<Visit>, confirmations: int): seq<Visit> {
    if run == [] then []
    else
      var n := |run| - 1;
      ProbesMade(run[..n], confirmations) +
      if NeedsProbe(KeptAfter(run[..n], confirmations), run[n].today, confirmations) then [run[n]] else []
  }

  function Answered(probes: seq<Visit>): nat {
    if probes == [] then 0
    else Answered(probes[..|probes| - 1]) + if probes[|probes| - 1].outcome.Failed? then 0 else 1
  }

  lemma {:induction false} AnsweredSnoc(probes: seq<Visit>, visit: Visit)
    ensures Answered(probes + [visit]) == Answered(probes) + if visit.outcome.Failed? then 0 else 1
  {
    assert (probes + [visit])[..|probes|] == probes;
  }

  ghost predicate OncePerDay(probes: seq<Visit>) {
    forall i, j :: 0 <= i < j < |probes| ==> probes[i].today < probes[j].today
  }

  /** What the evidence knows about the probes that led to it. */
  ghost predicate Accounts(kept: Option<MarineEvidence>, probes: seq<Visit>, confirmations: int) {
    && (kept.None? <==> probes == [])
    && (kept.Some? ==>
          && (forall i :: 0 <= i < |probes| ==> probes[i].today <= kept.value.lastProbedOn)
          && (forall d :: d in kept.value.allNullDates ==> d <= kept.value.lastProbedOn)
          && |ToSet(kept.value.allNullDates)| <= confirmations
          && (if kept.value.covered then Answered(probes) <= confirmations
              else Answered(probes) == |ToSet(kept.value.allNullDates)|))
  }

  lemma {:induction false} ProbeAccounts(kept: Option<MarineEvidence>, probes: seq<Visit>, visit: Visit, confirmations: int)
    requires confirmations >= 1 && Accounts(kept, probes, confirmations) && NeedsProbe(kept, visit.today, confirmations)
    requires OncePerDay(probes) && (kept.Some? ==> kept.value.lastProbedOn <= visit.today)
    ensures Accounts(Some(RecordProbe(kept, visit.outcome, visit.today)), probes + [visit], confirmations)
    ensures OncePerDay(probes + [visit])
  {
    AnsweredSnoc(probes, visit);
    var before := if kept.Some? then kept.value.allNullDates else [];
    assert ToSet<Day>([]) == {};
    assert visit.today !in before;
    AnotherDay(before, visit.today);
  }

  lemma {:induction false} AnotherDay(days: seq<Day>, today: Day)
    requires today !in days
    ensures |ToSet(Sorted(days + [today]))| == |ToSet(days)| + 1
    ensures forall d :: d in Sorted(days + [today]) <==> d in days || d == today
  {
    SortedExact(days + [today]);
    assert ToSet(Sorted(days + [today])) == ToSet(days) + {today};
  }

  lemma {:induction false} RunAccounts(run: seq<Visit>, confirmations: int)
    requires InOrder(run) && confirmations >= 1
    ensures Accounts(KeptAfter(run, confirmations), ProbesMade(run, confirmations), confirmations)
    ensures OncePerDay(ProbesMade(run, confirmations))
  {
    if run != [] {
      var n := |run| - 1;
      RunAccounts(run[..n], confirmations);
      RowStoreSimulatesObjectStore(run[..n], confirmations);
      var kept, probes := KeptAfter(run[..n], confirmations), ProbesMade(run[..n], confirmations);
      if NeedsProbe(kept, run[n].today, confirmations) {
        ProbeAccounts(kept, probes, run[n], confirmations);
      } else {
        assert probes + [] == probes;
      }
    }
  }

  /**
   * However long a run and whatever the probes answer: at most one probe a day,
   * and at most as many answered ones, ever, as the strictest activity asks
   * confirmations for.
   */
  lemma {:induction false} ProbingStaysInBudget(run: seq<Visit>, confirmations: int)
    requires InOrder(run) && confirmations >= 1
    ensures OncePerDay(ProbesMade(run, confirmations))
    ensures Answered(ProbesMade(run, confirmations)) <= confirmations
  {
    RunAccounts(run, confirmations);
  }
}
