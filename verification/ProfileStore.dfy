/**
 * Profiles in a database, with the copy in memory an outage is answered from.
 * The database is shared by every instance; the mirror belongs to one.
 */
module ProfileStore {
  import opened Prelude
  import opened LocationProfiles
  import opened ProbeRows
  import opened ProbeRuns

  datatype StoredRow = StoredRow(rulesVersion: nat, computedAt: int, snow: Option<SnowEvidence>)

  /** What the database holds about one place: its profile row, and its probes. */
  datatype Place = Place(row: Option<StoredRow>, probes: Table)

  const NOTHING := Place(None, map[])

  function WithEvidence(row: StoredRow, marine: Option<MarineEvidence>): LocationProfile {
    LocationProfile(row.rulesVersion, row.computedAt, row.snow, marine)
  }

  ghost function ReadPlace(place: Place): Option<LocationProfile> {
    if place.row.None? then None else Some(WithEvidence(place.row.value, EvidenceIn(place.probes)))
  }

  /** One transaction: the profile row is upserted, the probes are inserted or ignored. */
  function SavePlace(place: Place, profile: LocationProfile): Place {
    Place(
      Some(StoredRow(profile.rulesVersion, profile.computedAt, profile.snow)),
      if profile.marine.Some? then InsertOrIgnore(place.probes, ProbeRowsFrom(profile.marine.value)) else place.probes)
  }

  /** Evidence in the form a first record of the coast has. */
  predicate Canonical(evidence: MarineEvidence) {
    && Ascending(evidence.allNullDates) && (evidence.covered ==> evidence.lastProbedOn !in evidence.allNullDates)
    && (forall d :: d in evidence.allNullDates ==> d <= evidence.lastProbedOn)
  }

  /**
   * What is saved is what is read back: a profile of a new place as it was, and
   * one of a known place but for the days on which the table said something
   * already.
   */
  lemma {:induction false} WhatIsSavedIsRead(place: Place, profile: LocationProfile)
    ensures var read := ReadPlace(SavePlace(place, profile));
      && read.Some? && read.value.(marine := profile.marine) == profile
      && (profile.marine.None? ==> read.value.marine == EvidenceIn(place.probes))
      && (profile.marine.Some? ==> read.value.marine.Some? && forall d: Day :: d in read.value.marine.value.allNullDates <==>
            if d in place.probes then place.probes[d] == Some(true) else d in profile.marine.value.allNullDates)
      && (place.probes == map[] && (profile.marine.Some? ==> Canonical(profile.marine.value)) ==> read == Some(profile))
  {
    if profile.marine.Some? {
      var evidence := profile.marine.value;
      var table := InsertOrIgnore(place.probes, ProbeRowsFrom(evidence));
      forall d: Day ensures d in table <==> d in place.probes || d in evidence.allNullDates || d == evidence.lastProbedOn
        ensures d in table ==> table[d] == if d in place.probes then place.probes[d] else NewRow(evidence, d)
      {
        SavedRows(place.probes, evidence, d);
      }
      assert evidence.lastProbedOn in table;
      if place.probes == map[] && Canonical(evidence) {
        assert evidence.covered ==> table[evidence.lastProbedOn] == Some(false);
        assert Reads(evidence, table);
        ReadsUnique(evidence, EvidenceIn(table).value, table);
      }
    }
  }

  /** How the database reacts to one call. */
  datatype Reaction = Answers | Unavailable | Refuses

  class Database {
    var places: map<string, Place>

    constructor ()
      ensures places == map[]
    {
      places := map[];
    }

    function At(id: string): Place
      reads this
    {
      if id in places then places[id] else NOTHING
    }

    /** The rows of a table in whatever order they come. */
    static method SelectRows(table: Table) returns (rows: seq<ProbeRow>)
      ensures Lists(rows, table)
    {
      rows := [];
      var todo := table.Keys;
      while todo != {}
        invariant todo <= table.Keys
        invariant forall i, j :: 0 <= i < j < |rows| ==> rows[i].date != rows[j].date
        invariant forall i :: 0 <= i < |rows| ==>
          rows[i].date in table && rows[i].date !in todo && table[rows[i].date] == rows[i].allNull
        invariant forall d :: d in table && d !in todo ==> exists i :: 0 <= i < |rows| && rows[i].date == d
        decreases todo
      {
        var d :| d in todo;
        ghost var before := rows;
        rows := rows + [ProbeRow(d, table[d])];
        todo := todo - {d};
        forall e | e in table && e !in todo ensures exists i :: 0 <= i < |rows| && rows[i].date == e {
          if e == d {
            assert rows[|before|].date == e;
          } else {
            var i :| 0 <= i < |before| && before[i].date == e;
            assert rows[i].date == e;
          }
        }
      }
    }

    method Read(id: string) returns (stored: Option<LocationProfile>)
      ensures stored == ReadPlace(At(id))
    {
      var place := At(id);
      if place.row.None? {
        return None;
      }
      var rows := SelectRows(place.probes);
      EvidenceReadsTheTable(rows, place.probes);
      var marine := MarineEvidenceFrom(rows);
      if marine.Some? {
        ReadsUnique(marine.value, EvidenceIn(place.probes).value, place.probes);
      }
      stored := Some(WithEvidence(place.row.value, marine));
    }
  }

  class DbProfileStore {
    const db: Database
    var mirror: map<string, LocationProfile>

    constructor (db: Database)
      ensures this.db == db && mirror == map[]
    {
      this.db := db;
      mirror := map[];
    }

    function Mirrored(id: string): Option<LocationProfile>
      reads this
    {
      if id in mirror then Some(mirror[id]) else None
    }

    /**
     * An answer is mirrored, a missing place is forgotten, an outage is
     * answered from the mirror, and anything else is passed on.
     */
    method Find(id: string, reaction: Reaction) returns (r: Result<Option<LocationProfile>, ()>)
      modifies this`mirror
      ensures r.Err? <==> reaction.Refuses?
      ensures reaction.Answers? ==> r == Ok(ReadPlace(db.At(id))) && Mirrored(id) == ReadPlace(db.At(id))
      ensures reaction.Unavailable? ==> r == Ok(old(Mirrored(id)))
      ensures !reaction.Answers? ==> mirror == old(mirror)
      ensures forall other :: other != id ==> Mirrored(other) == old(Mirrored(other))
    {
      if reaction.Refuses? {
        return Err(());
      }
      if reaction.Unavailable? {
        return Ok(if id in mirror then Some(mirror[id]) else None);
      }
      var stored := db.Read(id);
      if stored.None? {
        mirror := mirror - {id};
      } else {
        mirror := mirror[id := stored.value];
      }
      r := Ok(stored);
    }

    /**
     * A failed transaction changes nothing. A committed one is read back into
     * the mirror, or the offered profile goes there when the reading fails.
     */
    method Save(id: string, profile: LocationProfile, commits: bool, readBack: Reaction) returns (saved: bool)
      modifies this`mirror, db
      ensures saved == commits
      ensures !commits ==> db.places == old(db.places) && mirror == old(mirror)
      ensures commits ==> db.places == old(db.places)[id := SavePlace(old(db.At(id)), profile)]
      ensures commits && readBack.Answers? ==> Mirrored(id) == ReadPlace(SavePlace(old(db.At(id)), profile))
      ensures commits && !readBack.Answers? ==> Mirrored(id) == Some(profile)
      ensures forall other :: other != id ==> Mirrored(other) == old(Mirrored(other))
    {
      if !commits {
        return false;
      }
      db.places := db.places[id := SavePlace(db.At(id), profile)];
      if readBack.Answers? {
        var stored := db.Read(id);
        if stored.Some? {
          mirror := mirror[id := stored.value];
        }
      } else {
        mirror := mirror[id := profile];
      }
      saved := true;
    }
  }
}
