/**
 * Evidence as rows: the marine evidence of a place is not stored, it is read
 * out of insert-or-ignore rows keyed by day.
 */
module ProbeRows {
  import opened Prelude
  import opened LocationProfiles

  /** One recorded probe; `None` is a probe that failed. */
  datatype ProbeRow = ProbeRow(date: Day, allNull: Option<bool>)

  /** The table of one place: at most one row a day. */
  type Table = map<Day, Option<bool>>

  function DateIfAllNull(row: ProbeRow): seq<Day> {
    if row.allNull == Some(true) then [row.date] else []
  }

  function DateOfRow(row: ProbeRow): seq<Day> {
    [row.date]
  }

  function MarineEvidenceFrom(rows: seq<ProbeRow>): Option<MarineEvidence> {
    if rows == [] then None
    else
      var dates := Sorted(Collect(rows, DateOfRow));
      Some(MarineEvidence(
        Sorted(Collect(rows, DateIfAllNull)),
        if dates == [] then 0 else dates[|dates| - 1],
        exists i :: 0 <= i < |rows| && rows[i].allNull == Some(false)))
  }

  function AsAllNull(day: Day): seq<ProbeRow> {
    [ProbeRow(day, Some(true))]
  }

  /** The rows an evidence record implies. */
  function ProbeRowsFrom(evidence: MarineEvidence): seq<ProbeRow> {
    var allNull := Collect(evidence.allNullDates, AsAllNull);
    if evidence.lastProbedOn in evidence.allNullDates then allNull
    else allNull + [ProbeRow(evidence.lastProbedOn, if evidence.covered then Some(false) else None)]
  }

  /** Rows already there are left alone. */
  function InsertOrIgnore(table: Table, rows: seq<ProbeRow>): Table {
    if rows == [] then table
    else
      var before := InsertOrIgnore(table, rows[..|rows| - 1]);
      var row := rows[|rows| - 1];
      if row.date in before then before else before[row.date := row.allNull]
  }

  /** A listing of a table: each row once, in whatever order the store gives them. */
  ghost predicate Lists(rows: seq<ProbeRow>, table: Table) {
    && (forall i, j :: 0 <= i < j < |rows| ==> rows[i].date != rows[j].date)
    && (forall i :: 0 <= i < |rows| ==> rows[i].date in table && table[rows[i].date] == rows[i].allNull)
    && (forall d :: d in table ==> exists i :: 0 <= i < |rows| && rows[i].date == d)
  }

  /* ---- evidence, whatever the order of the rows ---- */

  predicate AllNullOn(table: Table, day: Day) {
    day in table && table[day] == Some(true)
  }

  predicate CoveredIn(table: Table) {
    exists d :: d in table && table[d] == Some(false)
  }

  /** What any listing of a table says: the days, the last day and the coverage of its rows. */
  ghost predicate Reads(evidence: MarineEvidence, table: Table) {
    && Ascending(evidence.allNullDates)
    && (forall d :: d in evidence.allNullDates <==> AllNullOn(table, d))
    && evidence.lastProbedOn in table
    && (forall d :: d in table ==> d <= evidence.lastProbedOn)
    && evidence.covered == CoveredIn(table)
  }

  lemma {:induction false} LastIsLargest(days: seq<Day>)
    requires Ascending(days) && days != []
    ensures forall d :: d in days ==> d <= days[|days| - 1]
  {
  }

  lemma {:induction false} DatesListed(rows: seq<ProbeRow>, table: Table, d: Day)
    requires Lists(rows, table)
    ensures d in Sorted(Collect(rows, DateOfRow)) <==> d in table
  {
    SortedExact(Collect(rows, DateOfRow));
    CollectedFrom(rows, DateOfRow, d);
    if d in table {
      var i :| 0 <= i < |rows| && rows[i].date == d;
      assert d in DateOfRow(rows[i]);
    }
  }

  lemma {:induction false} AllNullListed(rows: seq<ProbeRow>, table: Table, d: Day)
    requires Lists(rows, table)
    ensures d in Sorted(Collect(rows, DateIfAllNull)) <==> AllNullOn(table, d)
  {
    SortedExact(Collect(rows, DateIfAllNull));
    CollectedFrom(rows, DateIfAllNull, d);
    if AllNullOn(table, d) {
      var i :| 0 <= i < |rows| && rows[i].date == d;
      assert d in DateIfAllNull(rows[i]);
    }
  }

  lemma {:induction false} CoverageListed(rows: seq<ProbeRow>, table: Table)
    requires Lists(rows, table)
    ensures (exists i :: 0 <= i < |rows| && rows[i].allNull == Some(false)) <==> CoveredIn(table)
  {
    if CoveredIn(table) {
      var d :| d in table && table[d] == Some(false);
      var i :| 0 <= i < |rows| && rows[i].date == d;
    }
  }

  /** Evidence depends on the table and not on the order its rows came in. */
  lemma {:induction false} EvidenceReadsTheTable(rows: seq<ProbeRow>, table: Table)
    requires Lists(rows, table)
    ensures MarineEvidenceFrom(rows).None? <==> table == map[]
    ensures MarineEvidenceFrom(rows).Some? ==> Reads(MarineEvidenceFrom(rows).value, table)
  {
    if rows == [] {
      assert table.Keys == {};
    } else {
      assert rows[0].date in table;
      ListedReads(rows, table);
    }
  }

  lemma {:induction false} ListedReads(rows: seq<ProbeRow>, table: Table)
    requires Lists(rows, table) && rows != []
    ensures Reads(MarineEvidenceFrom(rows).value, table)
  {
    SortedExact(Collect(rows, DateIfAllNull));
    forall d ensures d in Sorted(Collect(rows, DateIfAllNull)) <==> AllNullOn(table, d) { AllNullListed(rows, table, d); }
    CoverageListed(rows, table);
    LastListed(rows, table);
  }

  lemma {:induction false} LastListed(rows: seq<ProbeRow>, table: Table)
    requires Lists(rows, table) && rows != []
    ensures var days := Sorted(Collect(rows, DateOfRow));
      days != [] && days[|days| - 1] in table && forall d :: d in table ==> d <= days[|days| - 1]
  {
    var days := Sorted(Collect(rows, DateOfRow));
    SortedExact(Collect(rows, DateOfRow));
    forall d ensures d in days <==> d in table { DatesListed(rows, table, d); }
    LastDay(days, table, rows[0].date);
  }

  /** The last of the days of a table, listed in order, is its latest. */
  lemma {:induction false} LastDay(days: seq<Day>, table: Table, some: Day)
    requires Ascending(days) && some in table && forall d :: d in days <==> d in table
    ensures days != [] && days[|days| - 1] in table && forall d :: d in table ==> d <= days[|days| - 1]
  {
    assert some in days;
    LastIsLargest(days);
    assert days[|days| - 1] in days;
  }

  lemma {:induction false} ReadsUnique(some: MarineEvidence, others: MarineEvidence, table: Table)
    requires Reads(some, table) && Reads(others, table)
    ensures some == others
  {
    AscendingUnique(some.allNullDates, others.allNullDates);
  }

  /* ---- what an insertion adds ---- */

  lemma {:induction false} InsertedExact(table: Table, rows: seq<ProbeRow>)
    ensures forall d :: d in table ==> d in InsertOrIgnore(table, rows) && InsertOrIgnore(table, rows)[d] == table[d]
    ensures forall d :: d in InsertOrIgnore(table, rows) && d !in table ==>
      exists i :: 0 <= i < |rows| && rows[i].date == d && rows[i].allNull == InsertOrIgnore(table, rows)[d]
    ensures forall i :: 0 <= i < |rows| ==> rows[i].date in InsertOrIgnore(table, rows)
  {
    if rows != [] {
      var n := |rows| - 1;
      InsertedExact(table, rows[..n]);
      var before, after := InsertOrIgnore(table, rows[..n]), InsertOrIgnore(table, rows);
      forall d | d in after && d !in table
        ensures exists i :: 0 <= i < |rows| && rows[i].date == d && rows[i].allNull == after[d]
      {
        if d in before {
          var i :| 0 <= i < n && rows[..n][i].date == d && rows[..n][i].allNull == before[d];
          assert rows[i].date == d;
        } else {
          assert rows[n].date == d;
        }
      }
      forall i | 0 <= i < |rows| ensures rows[i].date in after {
        if i < n { assert rows[..n][i] == rows[i]; }
      }
    }
  }

  lemma {:induction false} RowsOfEvidence(evidence: MarineEvidence, row: ProbeRow)
    ensures row in ProbeRowsFrom(evidence) <==>
      || (row.date in evidence.allNullDates && row.allNull == Some(true))
      || (row.date == evidence.lastProbedOn && row.date !in evidence.allNullDates
          && row.allNull == if evidence.covered then Some(false) else None)
  {
    CollectedFrom(evidence.allNullDates, AsAllNull, row);
    if row.date in evidence.allNullDates && row.allNull == Some(true) {
      var i :| 0 <= i < |evidence.allNullDates| && evidence.allNullDates[i] == row.date;
      assert row in AsAllNull(evidence.allNullDates[i]);
    }
  }

  function NewRow(evidence: MarineEvidence, d: Day): Option<bool> {
    if d in evidence.allNullDates then Some(true) else if evidence.covered then Some(false) else None
  }

  /** What a save does to a table: old rows stay, and only the record's own rows are added. */
  lemma {:induction false} SavedRows(table: Table, evidence: MarineEvidence, d: Day)
    ensures var after := InsertOrIgnore(table, ProbeRowsFrom(evidence));
      && (d in table ==> d in after && after[d] == table[d])
      && (d !in table ==> (d in after <==> d in evidence.allNullDates || d == evidence.lastProbedOn))
      && (d !in table && d in after ==> after[d] == NewRow(evidence, d))
  {
    var rows := ProbeRowsFrom(evidence);
    InsertedExact(table, rows);
    if d in evidence.allNullDates {
      RowsOfEvidence(evidence, ProbeRow(d, Some(true)));
    } else if d == evidence.lastProbedOn {
      RowsOfEvidence(evidence, ProbeRow(d, if evidence.covered then Some(false) else None));
    }
    var after := InsertOrIgnore(table, rows);
    if d !in table && d in after {
      var i :| 0 <= i < |rows| && rows[i].date == d && rows[i].allNull == after[d];
      assert rows[i] in rows;
      RowsOfEvidence(evidence, rows[i]);
    }
  }
}
