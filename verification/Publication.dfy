/** Publishing rule versions: a table that only grows, and refuses to be rewritten. */
module Publication {
  import opened Prelude
  import opened CanonicalJson

  datatype VersionName = VersionName(code: string, version: nat)

  datatype PublishableVersion = PublishableVersion(name: VersionName, content: Json)

  type Rows = map<VersionName, Json>

  datatype PublicationOutcome = PublicationOutcome(published: seq<VersionName>, kept: seq<VersionName>)

  datatype PublicationConflict = PublicationConflict(name: VersionName, differences: seq<Path>)

  datatype Run = Run(rows: Rows, result: Result<PublicationOutcome, PublicationConflict>)

  /** A new name is stored, a known one with the same content is noted, any other ends the run. */
  function PublishOne(rows: Rows, outcome: PublicationOutcome, version: PublishableVersion): Run {
    if version.name !in rows then
      Run(rows[version.name := version.content], Ok(outcome.(published := outcome.published + [version.name])))
    else
      var differences := DifferencesBetween(Some(rows[version.name]), Some(version.content));
      if differences != [] then Run(rows, Err(PublicationConflict(version.name, differences)))
      else Run(rows, Ok(outcome.(kept := outcome.kept + [version.name])))
  }

  function Publish(rows: Rows, versions: seq<PublishableVersion>): Run {
    if versions == [] then Run(rows, Ok(PublicationOutcome([], [])))
    else
      var n := |versions| - 1;
      var before := Publish(rows, versions[..n]);
      if before.result.Err? then before else PublishOne(before.rows, before.result.value, versions[n])
  }

  lemma {:induction false} ConflictEndsTheRun(rows: Rows, versions: seq<PublishableVersion>, i: nat)
    requires i <= |versions| && Publish(rows, versions[..i]).result.Err?
    ensures Publish(rows, versions) == Publish(rows, versions[..i])
  {
    if i == |versions| {
      assert versions[..i] == versions;
    } else {
      var n := |versions| - 1;
      assert versions[..n][..i] == versions[..i];
      ConflictEndsTheRun(rows, versions[..n], i);
    }
  }

  class RuleTable {
    var rows: Rows

    constructor ()
      ensures rows == map[]
    {
      rows := map[];
    }

    /** Publishes one version after another; what was inserted before a conflict stays. */
    method PublishVersions(versions: seq<PublishableVersion>)
      returns (result: Result<PublicationOutcome, PublicationConflict>)
      modifies this
      ensures Run(rows, result) == Publish(old(rows), versions)
    {
      var published: seq<VersionName>, kept: seq<VersionName> := [], [];
      for i := 0 to |versions|
        invariant Publish(old(rows), versions[..i]) == Run(rows, Ok(PublicationOutcome(published, kept)))
      {
        var version := versions[i];
        assert versions[..i + 1][..i] == versions[..i];
        if version.name !in rows {
          rows := rows[version.name := version.content];
          published := published + [version.name];
          continue;
        }
        var differences := DifferencesBetween(Some(rows[version.name]), Some(version.content));
        if |differences| > 0 {
          ConflictEndsTheRun(old(rows), versions, i + 1);
          return Err(PublicationConflict(version.name, differences));
        }
        kept := kept + [version.name];
      }
      assert versions[..|versions|] == versions;
      return Ok(PublicationOutcome(published, kept));
    }
  }

  // ---- What every run keeps ----

  ghost predicate WellFormedRows(rows: Rows) {
    forall name :: name in rows ==> WellFormed(rows[name])
  }

  ghost predicate WellFormedVersions(versions: seq<PublishableVersion>) {
    forall i :: 0 <= i < |versions| ==> WellFormed(versions[i].content)
  }

  /** The later table still holds, unaltered, every version of the earlier one. */
  ghost predicate OnlyGrows(earlier: Rows, later: Rows) {
    forall name :: name in earlier ==> name in later && later[name] == earlier[name]
  }

  /** What a name stands for once some versions have been published: its row, else the first version to claim it. */
  function ClaimedBy(rows: Rows, versions: seq<PublishableVersion>, name: VersionName): Option<Json> {
    if versions == [] then (if name in rows then Some(rows[name]) else None)
    else
      var n := |versions| - 1;
      var earlier := ClaimedBy(rows, versions[..n], name);
      if earlier.None? && versions[n].name == name then Some(versions[n].content) else earlier
  }

  /** A version that contradicts neither the table nor a version published before it. */
  ghost predicate Agrees(rows: Rows, versions: seq<PublishableVersion>, i: nat)
    requires i < |versions|
  {
    var claimed := ClaimedBy(rows, versions[..i], versions[i].name);
    claimed.Some? ==> SameContent(claimed.value, versions[i].content)
  }

  /** No run alters a stored version, a failing one included; a run that succeeds has stored every claim. */
  lemma {:induction false} EveryRunOnlyGrows(rows: Rows, versions: seq<PublishableVersion>)
    requires WellFormedRows(rows) && WellFormedVersions(versions)
    ensures OnlyGrows(rows, Publish(rows, versions).rows) && WellFormedRows(Publish(rows, versions).rows)
    ensures Publish(rows, versions).result.Ok? ==>
      forall name :: StoredUnder(Publish(rows, versions).rows, name) == ClaimedBy(rows, versions, name)
  {
    if versions != [] {
      EveryRunOnlyGrows(rows, versions[..|versions| - 1]);
    }
  }

  function StoredUnder(rows: Rows, name: VersionName): Option<Json> {
    if name in rows then Some(rows[name]) else None
  }

  /** A run succeeds exactly when no version contradicts what its name already stands for. */
  lemma {:induction false} SucceedsExactlyWhenAllAgree(rows: Rows, versions: seq<PublishableVersion>)
    requires WellFormedRows(rows) && WellFormedVersions(versions)
    ensures Publish(rows, versions).result.Ok? <==> forall i :: 0 <= i < |versions| ==> Agrees(rows, versions, i)
  {
    if versions != [] {
      var n := |versions| - 1;
      var init := versions[..n];
      SucceedsExactlyWhenAllAgree(rows, init);
      EveryRunOnlyGrows(rows, init);
      forall i | 0 <= i < n ensures Agrees(rows, init, i) == Agrees(rows, versions, i) {
        assert init[..i] == versions[..i];
      }
      if Publish(rows, init).result.Ok? {
        var stored := StoredUnder(Publish(rows, init).rows, versions[n].name);
        assert stored == ClaimedBy(rows, init, versions[n].name);
        if stored.Some? {
          NoDifferencesMeansSameContent(stored.value, versions[n].content);
        }
        assert Publish(rows, versions).result.Ok? <==> Agrees(rows, versions, n);
      } else {
        var i :| 0 <= i < n && !Agrees(rows, init, i);
        assert !Agrees(rows, versions, i);
      }
    }
  }

  /** A conflict is about the first version that disagrees; everything before it, and nothing from it on, is stored. */
  lemma {:induction false} ConflictIsTheFirst(rows: Rows, versions: seq<PublishableVersion>) returns (at: nat)
    requires WellFormedRows(rows) && WellFormedVersions(versions)
    requires Publish(rows, versions).result.Err?
    ensures at < |versions| && !Agrees(rows, versions, at)
    ensures forall i :: 0 <= i < at ==> Agrees(rows, versions, i)
    ensures Publish(rows, versions).rows == Publish(rows, versions[..at]).rows
    ensures Publish(rows, versions).result.error.name == versions[at].name
    ensures forall path :: path in Publish(rows, versions).result.error.differences <==>
      DifferAt(ClaimedBy(rows, versions[..at], versions[at].name), Some(versions[at].content), path)
  {
    var n := |versions| - 1;
    var init := versions[..n];
    SucceedsExactlyWhenAllAgree(rows, init);
    EveryRunOnlyGrows(rows, init);
    if Publish(rows, init).result.Err? {
      at := ConflictIsTheFirst(rows, init);
      assert init[..at] == versions[..at];
      forall i | 0 <= i < at ensures Agrees(rows, versions, i) {
        assert init[..i] == versions[..i] && Agrees(rows, init, i);
      }
    } else {
      at := n;
      forall i | 0 <= i < n ensures Agrees(rows, versions, i) {
        assert init[..i] == versions[..i] && Agrees(rows, init, i);
      }
      SucceedsExactlyWhenAllAgree(rows, versions);
      var claimed, content := StoredUnder(Publish(rows, init).rows, versions[n].name), Some(versions[n].content);
      forall path ensures path in DifferencesBetween(claimed, content) <==> DifferAt(claimed, content, path) {
        DifferencesAreNamedExactly(claimed, content, path);
      }
    }
  }

  /** The same versions, with the keys of their contents in any order. */
  ghost predicate SameVersions(left: seq<PublishableVersion>, right: seq<PublishableVersion>) {
    |left| == |right| &&
    forall i :: 0 <= i < |left| ==>
      left[i].name == right[i].name && SameContent(left[i].content, right[i].content)
  }

  /** Publishing again what was published, however its keys are ordered now, stores nothing and succeeds. */
  lemma {:induction false} RepublishingIsANoOp(
      rows: Rows, versions: seq<PublishableVersion>, again: seq<PublishableVersion>)
    requires WellFormedRows(rows) && WellFormedVersions(versions) && WellFormedVersions(again)
    requires Publish(rows, versions).result.Ok? && SameVersions(versions, again)
    ensures var settled := Publish(rows, versions).rows;
      Publish(settled, again) == Run(settled, Ok(PublicationOutcome([], NamesOf(again))))
  {
    var settled := Publish(rows, versions).rows;
    EveryRunOnlyGrows(rows, versions);
    forall i | 0 <= i < |versions|
      ensures again[i].name in settled && SameContent(settled[again[i].name], again[i].content)
    {
      PublishedIsStored(rows, versions, i);
      SameContentIsAnEquivalence(settled[versions[i].name], versions[i].content, again[i].content);
    }
    NothingNewToPublish(settled, again);
  }

  function NamesOf(versions: seq<PublishableVersion>): seq<VersionName> {
    if versions == [] then [] else NamesOf(versions[..|versions| - 1]) + [versions[|versions| - 1].name]
  }

  lemma {:induction false} PublishedIsStored(rows: Rows, versions: seq<PublishableVersion>, i: nat)
    requires WellFormedRows(rows) && WellFormedVersions(versions) && i < |versions|
    requires Publish(rows, versions).result.Ok?
    ensures versions[i].name in Publish(rows, versions).rows
    ensures SameContent(Publish(rows, versions).rows[versions[i].name], versions[i].content)
  {
    var n := |versions| - 1;
    var init := versions[..n];
    EveryRunOnlyGrows(rows, init);
    if i < n {
      PublishedIsStored(rows, init, i);
    } else {
      var before := Publish(rows, init).rows;
      SameContentIsAnEquivalence(versions[n].content, versions[n].content, versions[n].content);
      if versions[n].name in before {
        NoDifferencesMeansSameContent(before[versions[n].name], versions[n].content);
      }
    }
  }

  lemma {:induction false} NothingNewToPublish(rows: Rows, versions: seq<PublishableVersion>)
    requires WellFormedRows(rows) && WellFormedVersions(versions)
    requires forall i :: 0 <= i < |versions| ==>
      versions[i].name in rows && SameContent(rows[versions[i].name], versions[i].content)
    ensures Publish(rows, versions) == Run(rows, Ok(PublicationOutcome([], NamesOf(versions))))
  {
    if versions != [] {
      var n := |versions| - 1;
      NothingNewToPublish(rows, versions[..n]);
      NoDifferencesMeansSameContent(rows[versions[n].name], versions[n].content);
    }
  }
}
