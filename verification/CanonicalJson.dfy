/**
 * Documents compared up to the order of their keys, and where two of them disagree.
 *
 * The text of a canonical value and its digest are injective renderings of that value, so both are
 * left at the value itself.
 */
module CanonicalJson {
  import opened Prelude

  /** A document as it was parsed: an object lists its entries in the order they arrived. */
  datatype Json =
    | JNull
    | JBool(flag: bool)
    | JNumber(number: real)
    | JString(text: string)
    | JArray(items: seq<Json>)
    | JObject(entries: seq<Field>)

  datatype Field = Field(key: string, value: Json)

  // ---- The order of keys ----

  /** Code unit by code unit, a proper prefix first. */
  predicate Before(left: string, right: string) {
    right != [] && (
      left == [] || left[0] < right[0] ||
      (left[0] == right[0] && Before(left[1..], right[1..])))
  }

  lemma {:induction false} BeforeIsStrict(left: string, right: string)
    requires Before(left, right)
    ensures left != right && !Before(right, left)
  {
    if left != [] && left[0] == right[0] {
      BeforeIsStrict(left[1..], right[1..]);
    }
  }

  lemma {:induction false} BeforeIsTotal(left: string, right: string)
    ensures left == right || Before(left, right) || Before(right, left)
  {
    if left != [] && right != [] && left[0] == right[0] {
      BeforeIsTotal(left[1..], right[1..]);
      assert left == [left[0]] + left[1..] && right == [right[0]] + right[1..];
    }
  }

  lemma {:induction false} BeforeIsTransitive(a: string, b: string, c: string)
    requires Before(a, b) && Before(b, c)
    ensures Before(a, c)
  {
    if a != [] && a[0] == b[0] == c[0] {
      BeforeIsTransitive(a[1..], b[1..], c[1..]);
    }
  }

  // ---- Objects ----

  function Keys(entries: seq<Field>): set<string> {
    set i | 0 <= i < |entries| :: entries[i].key
  }

  /** An object has one entry per key. */
  ghost predicate Distinct(entries: seq<Field>) {
    forall i, j :: 0 <= i < j < |entries| ==> entries[i].key != entries[j].key
  }

  ghost predicate WellFormed(value: Json) {
    match value
    case JArray(items) => forall i :: 0 <= i < |items| ==> WellFormed(items[i])
    case JObject(entries) => Distinct(entries) && forall i :: 0 <= i < |entries| ==> WellFormed(entries[i].value)
    case _ => true
  }

  /** The member of an object under a key; nothing when there is none. */
  function Get(entries: seq<Field>, key: string): (r: Option<Json>)
    ensures r.Some? <==> key in Keys(entries)
    ensures r.Some? ==> exists i :: 0 <= i < |entries| && entries[i] == Field(key, r.value)
  {
    if entries == [] then None
    else if entries[0].key == key then
      assert entries[0] == Field(key, entries[0].value);
      Some(entries[0].value)
    else
      var found := Get(entries[1..], key);
      assert forall k :: k in Keys(entries) <==> k == entries[0].key || k in Keys(entries[1..]) by { KeysOfRest(entries); }
      found
  }

  lemma {:induction false} KeysOfRest(entries: seq<Field>)
    requires entries != []
    ensures Keys(entries) == {entries[0].key} + Keys(entries[1..])
  {
    forall k | k in Keys(entries) ensures k in {entries[0].key} + Keys(entries[1..]) {
      var i :| 0 <= i < |entries| && entries[i].key == k;
      assert i > 0 ==> entries[1..][i - 1].key == k;
    }
    forall k | k in Keys(entries[1..]) ensures k in Keys(entries) {
      var i :| 0 <= i < |entries[1..]| && entries[1..][i].key == k;
      assert entries[i + 1].key == k;
    }
  }

  lemma {:induction false} GetAt(entries: seq<Field>, i: nat)
    requires Distinct(entries) && i < |entries|
    ensures Get(entries, entries[i].key) == Some(entries[i].value)
  {
    assert entries[i].key in Keys(entries);
  }

  // ---- What two documents have in common ----

  /** The same content: arrays item by item, objects key by key, whatever the order of the keys. */
  ghost predicate SameContent(left: Json, right: Json) {
    match left
    case JArray(items) =>
      right.JArray? && |items| == |right.items| &&
      forall i :: 0 <= i < |items| ==> SameContent(items[i], right.items[i])
    case JObject(entries) =>
      right.JObject? && Keys(entries) == Keys(right.entries) &&
      forall i, j :: 0 <= i < |entries| && 0 <= j < |right.entries| && entries[i].key == right.entries[j].key ==>
        SameContent(entries[i].value, right.entries[j].value)
    case _ => left == right
  }

  // ---- Canonical form ----

  function Canonicalise(value: Json): Json
    decreases value, 1
  {
    match value
    case JArray(items) => JArray(seq(|items|, i requires 0 <= i < |items| => Canonicalise(items[i])))
    case JObject(entries) => JObject(CanonicalEntries(entries))
    case _ => value
  }

  /** The entries sorted by key, each value in canonical form. */
  function CanonicalEntries(entries: seq<Field>): seq<Field>
    decreases entries, 0
  {
    if entries == [] then []
    else Insert(Field(entries[0].key, Canonicalise(entries[0].value)), CanonicalEntries(entries[1..]))
  }

  function Insert(entry: Field, sorted: seq<Field>): seq<Field> {
    if sorted == [] || !Before(sorted[0].key, entry.key) then [entry] + sorted
    else [sorted[0]] + Insert(entry, sorted[1..])
  }

  ghost predicate Sorted(entries: seq<Field>) {
    forall i, j :: 0 <= i < j < |entries| ==> Before(entries[i].key, entries[j].key)
  }

  lemma {:induction false} InsertMembers(entry: Field, sorted: seq<Field>)
    ensures forall e :: e in Insert(entry, sorted) <==> e == entry || e in sorted
  {
    if sorted != [] && Before(sorted[0].key, entry.key) {
      InsertMembers(entry, sorted[1..]);
      assert sorted == [sorted[0]] + sorted[1..];
    }
  }

  lemma {:induction false} InsertSorts(entry: Field, sorted: seq<Field>)
    requires Sorted(sorted) && forall e :: e in sorted ==> e.key != entry.key
    ensures Sorted(Insert(entry, sorted))
  {
    if sorted == [] {
    } else if Before(sorted[0].key, entry.key) {
      var rest := Insert(entry, sorted[1..]);
      InsertSorts(entry, sorted[1..]);
      InsertMembers(entry, sorted[1..]);
      forall j | 0 <= j < |rest| ensures Before(sorted[0].key, rest[j].key) {
        assert rest[j] in rest;
      }
    } else {
      BeforeIsTotal(sorted[0].key, entry.key);
      assert sorted[0] in sorted;
      forall j | 0 < j < |sorted| ensures Before(entry.key, sorted[j].key) {
        BeforeIsTransitive(entry.key, sorted[0].key, sorted[j].key);
      }
    }
  }

  /** Sorting loses no entry and makes none up. */
  lemma {:induction false} CanonicalMembers(entries: seq<Field>, e: Field)
    ensures e in CanonicalEntries(entries) <==>
      exists i :: 0 <= i < |entries| && e == Field(entries[i].key, Canonicalise(entries[i].value))
  {
    if entries != [] {
      var head := Field(entries[0].key, Canonicalise(entries[0].value));
      var rest := entries[1..];
      CanonicalMembers(rest, e);
      InsertMembers(head, CanonicalEntries(rest));
      if i :| 0 <= i < |entries| && e == Field(entries[i].key, Canonicalise(entries[i].value)) {
        assert i > 0 ==> e == Field(rest[i - 1].key, Canonicalise(rest[i - 1].value));
      }
      if i :| 0 <= i < |rest| && e == Field(rest[i].key, Canonicalise(rest[i].value)) {
        assert e == Field(entries[i + 1].key, Canonicalise(entries[i + 1].value));
      }
    }
  }

  lemma {:induction false} CanonicalIsSorted(entries: seq<Field>)
    requires Distinct(entries)
    ensures Sorted(CanonicalEntries(entries))
  {
    if entries != [] {
      var head := Field(entries[0].key, Canonicalise(entries[0].value));
      var rest := CanonicalEntries(entries[1..]);
      CanonicalIsSorted(entries[1..]);
      forall e | e in rest ensures e.key != head.key {
        CanonicalMembers(entries[1..], e);
      }
      InsertSorts(head, rest);
    }
  }

  /** A sorted list is determined by its members. */
  lemma {:induction false} SortedListsAgree(left: seq<Field>, right: seq<Field>)
    requires Sorted(left) && Sorted(right)
    requires forall e :: e in left <==> e in right
    ensures left == right
  {
    if left == [] {
      if right != [] {
        FirstIsMember(right);
      }
    } else {
      assert left[0] in left;
      assert right != [] && right[0] in right;
      LeastIsFirst(left, right[0]);
      LeastIsFirst(right, left[0]);
      assert left[0] == right[0] by {
        if left[0] != right[0] {
          BeforeIsStrict(left[0].key, right[0].key);
        }
      }
      forall e ensures e in left[1..] <==> e in right[1..] {
        TailMembers(left, e);
        TailMembers(right, e);
      }
      SortedListsAgree(left[1..], right[1..]);
      assert left == [left[0]] + left[1..] && right == [right[0]] + right[1..];
    }
  }

  lemma {:induction false} FirstIsMember(entries: seq<Field>)
    requires entries != []
    ensures exists e :: e in entries
  {
    assert entries[0] in entries;
  }

  lemma {:induction false} LeastIsFirst(sorted: seq<Field>, e: Field)
    requires Sorted(sorted) && e in sorted
    ensures e == sorted[0] || Before(sorted[0].key, e.key)
  {
  }

  lemma {:induction false} TailMembers(sorted: seq<Field>, e: Field)
    requires Sorted(sorted) && sorted != []
    ensures e in sorted[1..] <==> e in sorted && e != sorted[0]
  {
    if e in sorted[1..] {
      var i :| 0 <= i < |sorted[1..]| && sorted[1..][i] == e;
      assert sorted[i + 1] == e;
      BeforeIsStrict(sorted[0].key, sorted[i + 1].key);
    }
    if e in sorted && e != sorted[0] {
      var i :| 0 <= i < |sorted| && sorted[i] == e;
      assert sorted[1..][i - 1] == e;
    }
  }

  /** Canonical forms agree exactly when the documents say the same, at every depth. */
  lemma {:induction false} CanonicalFormsAgree(left: Json, right: Json)
    requires WellFormed(left) && WellFormed(right)
    ensures Canonicalise(left) == Canonicalise(right) <==> SameContent(left, right)
    decreases left
  {
    match left
    case JArray(items) =>
      assert right.JArray? ==> |Canonicalise(right).items| == |right.items|;
      if right.JArray? && |items| == |right.items| {
        forall i | 0 <= i < |items|
          ensures Canonicalise(items[i]) == Canonicalise(right.items[i]) <==> SameContent(items[i], right.items[i])
        {
          CanonicalFormsAgree(items[i], right.items[i]);
        }
        ArraysAgree(items, right.items);
      }
    case JObject(entries) =>
      if right.JObject? {
        forall i, j | 0 <= i < |entries| && 0 <= j < |right.entries|
          ensures Canonicalise(entries[i].value) == Canonicalise(right.entries[j].value)
            <==> SameContent(entries[i].value, right.entries[j].value)
        {
          CanonicalFormsAgree(entries[i].value, right.entries[j].value);
        }
        ObjectsAgree(entries, right.entries);
      }
    case _ =>
  }

  lemma {:induction false} ArraysAgree(left: seq<Json>, right: seq<Json>)
    requires |left| == |right|
    ensures Canonicalise(JArray(left)) == Canonicalise(JArray(right)) <==>
      forall i :: 0 <= i < |left| ==> Canonicalise(left[i]) == Canonicalise(right[i])
  {
    var lefts, rights := Canonicalise(JArray(left)).items, Canonicalise(JArray(right)).items;
    assert forall i :: 0 <= i < |left| ==> lefts[i] == Canonicalise(left[i]) && rights[i] == Canonicalise(right[i]);
  }

  /** Two objects canonicalise alike exactly when they have the same keys with values that do. */
  lemma {:induction false} ObjectsAgree(left: seq<Field>, right: seq<Field>)
    requires Distinct(left) && Distinct(right)
    ensures CanonicalEntries(left) == CanonicalEntries(right) <==>
      Keys(left) == Keys(right) &&
      forall i, j :: 0 <= i < |left| && 0 <= j < |right| && left[i].key == right[j].key ==>
        Canonicalise(left[i].value) == Canonicalise(right[j].value)
  {
    if CanonicalEntries(left) == CanonicalEntries(right) {
      EntriesCarryOver(left, right);
      EntriesCarryOver(right, left);
    }
    if Keys(left) == Keys(right) && forall i, j :: 0 <= i < |left| && 0 <= j < |right| && left[i].key == right[j].key ==>
        Canonicalise(left[i].value) == Canonicalise(right[j].value)
    {
      CanonicalIsSorted(left);
      CanonicalIsSorted(right);
      forall e ensures e in CanonicalEntries(left) <==> e in CanonicalEntries(right) {
        MemberCarriesOver(left, right, e);
        MemberCarriesOver(right, left, e);
      }
      SortedListsAgree(CanonicalEntries(left), CanonicalEntries(right));
    }
  }

  lemma {:induction false} EntriesCarryOver(left: seq<Field>, right: seq<Field>)
    requires Distinct(left) && Distinct(right) && CanonicalEntries(left) == CanonicalEntries(right)
    ensures Keys(left) <= Keys(right)
    ensures forall i, j :: 0 <= i < |left| && 0 <= j < |right| && left[i].key == right[j].key ==>
      Canonicalise(left[i].value) == Canonicalise(right[j].value)
  {
    forall i | 0 <= i < |left|
      ensures exists j :: (0 <= j < |right| && left[i].key == right[j].key &&
        Canonicalise(left[i].value) == Canonicalise(right[j].value))
    {
      var e := Field(left[i].key, Canonicalise(left[i].value));
      CanonicalMembers(left, e);
      CanonicalMembers(right, e);
    }
  }

  lemma {:induction false} MemberCarriesOver(left: seq<Field>, right: seq<Field>, e: Field)
    requires Keys(left) <= Keys(right)
    requires forall i, j :: 0 <= i < |left| && 0 <= j < |right| && left[i].key == right[j].key ==>
      Canonicalise(left[i].value) == Canonicalise(right[j].value)
    ensures e in CanonicalEntries(left) ==> e in CanonicalEntries(right)
  {
    CanonicalMembers(left, e);
    CanonicalMembers(right, e);
    if e in CanonicalEntries(left) {
      var i :| 0 <= i < |left| && e == Field(left[i].key, Canonicalise(left[i].value));
      assert left[i].key in Keys(right);
      var j :| 0 <= j < |right| && right[j].key == left[i].key;
      assert e == Field(right[j].key, Canonicalise(right[j].value));
    }
  }

  lemma {:induction false} SameContentIsAnEquivalence(a: Json, b: Json, c: Json)
    requires WellFormed(a) && WellFormed(b) && WellFormed(c)
    ensures SameContent(a, a)
    ensures SameContent(a, b) ==> SameContent(b, a)
    ensures SameContent(a, b) && SameContent(b, c) ==> SameContent(a, c)
  {
    CanonicalFormsAgree(a, a);
    CanonicalFormsAgree(a, b);
    CanonicalFormsAgree(b, a);
    CanonicalFormsAgree(b, c);
    CanonicalFormsAgree(a, c);
  }

  // ---- Where two documents disagree ----

  /** The keys that lead to a place inside a document. */
  type Path = seq<string>

  predicate SameText(stored: Option<Json>, incoming: Option<Json>) {
    if stored.Some? && incoming.Some? then Canonicalise(stored.value) == Canonicalise(incoming.value)
    else stored == incoming
  }

  predicate IsObject(value: Option<Json>) {
    value.Some? && value.value.JObject?
  }

  function ValueOf(value: Option<Json>): Json {
    if value.Some? then value.value else JNull
  }

  /** The keys of both objects, each once, in order. */
  function AllKeys(stored: seq<Field>, incoming: seq<Field>): seq<string> {
    SortedKeys(stored + incoming)
  }

  function SortedKeys(entries: seq<Field>): seq<string> {
    if entries == [] then [] else InsertKey(entries[0].key, SortedKeys(entries[1..]))
  }

  function InsertKey(key: string, sorted: seq<string>): seq<string> {
    if sorted == [] || Before(key, sorted[0]) then [key] + sorted
    else if sorted[0] == key then sorted
    else [sorted[0]] + InsertKey(key, sorted[1..])
  }

  lemma {:induction false} InsertKeyMembers(key: string, sorted: seq<string>)
    ensures forall k :: k in InsertKey(key, sorted) <==> k == key || k in sorted
  {
    if sorted != [] && !Before(key, sorted[0]) && sorted[0] != key {
      InsertKeyMembers(key, sorted[1..]);
      assert sorted == [sorted[0]] + sorted[1..];
    }
  }

  lemma {:induction false} SortedKeysMembers(entries: seq<Field>)
    ensures forall k :: k in SortedKeys(entries) <==> k in Keys(entries)
  {
    if entries != [] {
      SortedKeysMembers(entries[1..]);
      InsertKeyMembers(entries[0].key, SortedKeys(entries[1..]));
      KeysOfRest(entries);
    }
  }

  lemma {:induction false} KeysOfBoth(left: seq<Field>, right: seq<Field>)
    ensures Keys(left + right) == Keys(left) + Keys(right)
  {
    var both := left + right;
    forall k | k in Keys(left) ensures k in Keys(both) {
      var i :| 0 <= i < |left| && left[i].key == k;
      assert both[i].key == k;
    }
    forall k | k in Keys(right) ensures k in Keys(both) {
      var i :| 0 <= i < |right| && right[i].key == k;
      assert both[|left| + i].key == k;
    }
  }

  /** The places where a stored document and an incoming one say something different. */
  function DifferencesBetween(stored: Option<Json>, incoming: Option<Json>): seq<Path>
    decreases stored.Some?, ValueOf(stored), true, 0
  {
    if SameText(stored, incoming) then []
    else if !IsObject(stored) || !IsObject(incoming) then [[]]
    else
      var mine, theirs := stored.value.entries, incoming.value.entries;
      DifferencesUnder(AllKeys(mine, theirs), mine, theirs)
  }

  function DifferencesUnder(keys: seq<string>, stored: seq<Field>, incoming: seq<Field>): seq<Path>
    decreases true, JObject(stored), false, |keys|
  {
    if keys == [] then []
    else
      Prefixed(keys[0], DifferencesBetween(Get(stored, keys[0]), Get(incoming, keys[0]))) +
      DifferencesUnder(keys[1..], stored, incoming)
  }

  function Prefixed(key: string, paths: seq<Path>): (r: seq<Path>)
    ensures |r| == |paths|
    ensures forall i :: 0 <= i < |r| ==> r[i] == [key] + paths[i]
  {
    seq(|paths|, i requires 0 <= i < |paths| => [key] + paths[i])
  }

  /** Following a path into both documents leads to two values that differ and have no parts in common to name. */
  ghost predicate DifferAt(stored: Option<Json>, incoming: Option<Json>, path: Path)
    decreases path
  {
    if path == [] then
      !SameText(stored, incoming) && !(IsObject(stored) && IsObject(incoming))
    else
      IsObject(stored) && IsObject(incoming) &&
      DifferAt(Get(stored.value.entries, path[0]), Get(incoming.value.entries, path[0]), path[1..])
  }

  ghost predicate Sound(value: Option<Json>) {
    value.Some? ==> WellFormed(value.value)
  }

  lemma {:induction false} MembersAreSound(entries: seq<Field>, key: string)
    requires WellFormed(JObject(entries))
    ensures Sound(Get(entries, key))
  {
  }

  /** The conflict report names exactly the places where the two disagree. */
  lemma {:induction false} DifferencesAreNamedExactly(stored: Option<Json>, incoming: Option<Json>, path: Path)
    requires Sound(stored) && Sound(incoming)
    ensures path in DifferencesBetween(stored, incoming) <==> DifferAt(stored, incoming, path)
    decreases stored.Some?, ValueOf(stored), true, 0
  {
    if IsObject(stored) && IsObject(incoming) {
      var mine, theirs := stored.value.entries, incoming.value.entries;
      var keys := AllKeys(mine, theirs);
      SortedKeysMembers(mine + theirs);
      KeysOfBoth(mine, theirs);
      if SameText(stored, incoming) {
        if path != [] {
          SameTextBelow(mine, theirs, path[0]);
          SameMeansNoDifference(Get(mine, path[0]), Get(theirs, path[0]), path[1..]);
        }
      } else {
        DifferencesUnderExactly(keys, mine, theirs, path);
        if path != [] && path[0] !in keys {
          NothingDiffersNowhere(path[1..]);
        }
      }
    }
  }

  lemma {:induction false} NothingDiffersNowhere(path: Path)
    ensures !DifferAt(None, None, path)
  {
  }

  lemma {:induction false} DifferencesUnderExactly(
      keys: seq<string>, stored: seq<Field>, incoming: seq<Field>, path: Path)
    requires WellFormed(JObject(stored)) && WellFormed(JObject(incoming))
    ensures path in DifferencesUnder(keys, stored, incoming) <==>
      path != [] && path[0] in keys && DifferAt(Get(stored, path[0]), Get(incoming, path[0]), path[1..])
    decreases true, JObject(stored), false, |keys|
  {
    if keys != [] {
      var key := keys[0];
      var below := DifferencesBetween(Get(stored, key), Get(incoming, key));
      DifferencesUnderExactly(keys[1..], stored, incoming, path);
      MembersAreSound(stored, key);
      MembersAreSound(incoming, key);
      PrefixedMembers(key, below, path);
      if path != [] && path[0] == key {
        DifferencesAreNamedExactly(Get(stored, key), Get(incoming, key), path[1..]);
      }
      assert keys == [key] + keys[1..];
    }
  }

  lemma {:induction false} PrefixedMembers(key: string, paths: seq<Path>, path: Path)
    ensures path in Prefixed(key, paths) <==> path != [] && path[0] == key && path[1..] in paths
  {
    var prefixed := Prefixed(key, paths);
    if path in prefixed {
      var i :| 0 <= i < |prefixed| && prefixed[i] == path;
      assert path[1..] == paths[i];
    }
    if path != [] && path[0] == key && path[1..] in paths {
      var i :| 0 <= i < |paths| && paths[i] == path[1..];
      assert prefixed[i] == [key] + paths[i] == path;
    }
  }

  /** One path comes before another by the first key in which they part. */
  predicate PathBefore(left: Path, right: Path) {
    left != [] && right != [] &&
    (Before(left[0], right[0]) || (left[0] == right[0] && PathBefore(left[1..], right[1..])))
  }

  ghost predicate PathsInOrder(paths: seq<Path>) {
    forall i, j :: 0 <= i < j < |paths| ==> PathBefore(paths[i], paths[j])
  }

  ghost predicate KeysInOrder(keys: seq<string>) {
    forall i, j :: 0 <= i < j < |keys| ==> Before(keys[i], keys[j])
  }

  lemma {:induction false} InsertedKeyInOrder(key: string, sorted: seq<string>)
    requires KeysInOrder(sorted)
    ensures KeysInOrder(InsertKey(key, sorted))
  {
    if sorted == [] {
    } else if Before(key, sorted[0]) {
      forall j | 0 <= j < |sorted| ensures Before(key, sorted[j]) {
        if j > 0 {
          BeforeIsTransitive(key, sorted[0], sorted[j]);
        }
      }
    } else if sorted[0] != key {
      BeforeIsTotal(key, sorted[0]);
      InsertedKeyInOrder(key, sorted[1..]);
      InsertKeyMembers(key, sorted[1..]);
      var rest := InsertKey(key, sorted[1..]);
      forall j | 0 <= j < |rest| ensures Before(sorted[0], rest[j]) {
        assert rest[j] in rest;
        if rest[j] != key {
          var i :| 0 <= i < |sorted[1..]| && sorted[1..][i] == rest[j];
          assert sorted[i + 1] == rest[j];
        }
      }
    }
  }

  lemma {:induction false} SortedKeysInOrder(entries: seq<Field>)
    ensures KeysInOrder(SortedKeys(entries))
  {
    if entries != [] {
      SortedKeysInOrder(entries[1..]);
      InsertedKeyInOrder(entries[0].key, SortedKeys(entries[1..]));
    }
  }

  /** The report lists its places in the order of their keys, and none of them twice. */
  lemma {:induction false} DifferencesAreInOrder(stored: Option<Json>, incoming: Option<Json>)
    ensures PathsInOrder(DifferencesBetween(stored, incoming))
    decreases stored.Some?, ValueOf(stored), true, 0
  {
    if IsObject(stored) && IsObject(incoming) && !SameText(stored, incoming) {
      var mine, theirs := stored.value.entries, incoming.value.entries;
      SortedKeysInOrder(mine + theirs);
      DifferencesUnderInOrder(AllKeys(mine, theirs), mine, theirs);
    }
  }

  lemma {:induction false} DifferencesUnderInOrder(keys: seq<string>, stored: seq<Field>, incoming: seq<Field>)
    requires KeysInOrder(keys)
    ensures PathsInOrder(DifferencesUnder(keys, stored, incoming))
    ensures forall path :: path in DifferencesUnder(keys, stored, incoming) ==> path != [] && path[0] in keys
    decreases true, JObject(stored), false, |keys|
  {
    if keys != [] {
      var below := DifferencesBetween(Get(stored, keys[0]), Get(incoming, keys[0]));
      var rest := DifferencesUnder(keys[1..], stored, incoming);
      DifferencesAreInOrder(Get(stored, keys[0]), Get(incoming, keys[0]));
      DifferencesUnderInOrder(keys[1..], stored, incoming);
      forall path | path in rest ensures path != [] && Before(keys[0], path[0]) {
        var i :| 0 <= i < |keys[1..]| && keys[1..][i] == path[0];
        assert keys[i + 1] == path[0];
      }
      PrefixedBeforeRest(keys[0], below, rest);
    }
  }

  lemma {:induction false} PrefixedBeforeRest(key: string, below: seq<Path>, rest: seq<Path>)
    requires PathsInOrder(below) && PathsInOrder(rest)
    requires forall path :: path in rest ==> path != [] && Before(key, path[0])
    ensures PathsInOrder(Prefixed(key, below) + rest)
  {
    var prefixed := Prefixed(key, below);
    forall i, j | 0 <= i < j < |prefixed| ensures PathBefore(prefixed[i], prefixed[j]) {
      assert prefixed[i][1..] == below[i] && prefixed[j][1..] == below[j];
    }
    forall i, j | 0 <= i < |prefixed| && 0 <= j < |rest| ensures PathBefore(prefixed[i], rest[j]) {
      assert rest[j] in rest;
    }
  }

  /** Objects with the same text have, under every key, members with the same text. */
  lemma {:induction false} SameTextBelow(stored: seq<Field>, incoming: seq<Field>, key: string)
    requires WellFormed(JObject(stored)) && WellFormed(JObject(incoming))
    requires Canonicalise(JObject(stored)) == Canonicalise(JObject(incoming))
    ensures SameText(Get(stored, key), Get(incoming, key))
  {
    ObjectsAgree(stored, incoming);
  }

  lemma {:induction false} SameMeansNoDifference(stored: Option<Json>, incoming: Option<Json>, path: Path)
    requires Sound(stored) && Sound(incoming) && SameText(stored, incoming)
    ensures !DifferAt(stored, incoming, path)
    decreases path
  {
    if path != [] && IsObject(stored) && IsObject(incoming) {
      var mine, theirs := stored.value.entries, incoming.value.entries;
      SameTextBelow(mine, theirs, path[0]);
      MembersAreSound(mine, path[0]);
      MembersAreSound(theirs, path[0]);
      SameMeansNoDifference(Get(mine, path[0]), Get(theirs, path[0]), path[1..]);
    }
  }

  /** Nothing is reported exactly when the two documents say the same. */
  lemma {:induction false} NoDifferencesMeansSameContent(stored: Json, incoming: Json)
    requires WellFormed(stored) && WellFormed(incoming)
    ensures DifferencesBetween(Some(stored), Some(incoming)) == [] <==> SameContent(stored, incoming)
  {
    CanonicalFormsAgree(stored, incoming);
    SomethingDiffers(Some(stored), Some(incoming));
  }

  lemma {:induction false} SomethingDiffers(stored: Option<Json>, incoming: Option<Json>)
    requires Sound(stored) && Sound(incoming)
    ensures DifferencesBetween(stored, incoming) == [] <==> SameText(stored, incoming)
    decreases stored.Some?, ValueOf(stored)
  {
    if IsObject(stored) && IsObject(incoming) && !SameText(stored, incoming) {
      var mine, theirs := stored.value.entries, incoming.value.entries;
      var key := SomeKeyDiffers(mine, theirs);
      MembersAreSound(mine, key);
      MembersAreSound(theirs, key);
      SortedKeysMembers(mine + theirs);
      KeysOfBoth(mine, theirs);
      if Get(mine, key).Some? {
        SomethingDiffers(Get(mine, key), Get(theirs, key));
      }
      var below := DifferencesBetween(Get(mine, key), Get(theirs, key));
      DifferencesAreNamedExactly(Get(mine, key), Get(theirs, key), below[0]);
      DifferencesUnderExactly(AllKeys(mine, theirs), mine, theirs, [key] + below[0]);
      assert ([key] + below[0])[1..] == below[0];
    }
  }

  lemma {:induction false} SomeKeyDiffers(stored: seq<Field>, incoming: seq<Field>) returns (key: string)
    requires WellFormed(JObject(stored)) && WellFormed(JObject(incoming))
    requires Canonicalise(JObject(stored)) != Canonicalise(JObject(incoming))
    ensures key in Keys(stored) + Keys(incoming)
    ensures !SameText(Get(stored, key), Get(incoming, key))
  {
    ObjectsAgree(stored, incoming);
    if Keys(stored) != Keys(incoming) {
      key :| key in Keys(stored) + Keys(incoming) && (key !in Keys(stored) || key !in Keys(incoming));
    } else {
      var i, j :| 0 <= i < |stored| && 0 <= j < |incoming| && stored[i].key == incoming[j].key &&
        Canonicalise(stored[i].value) != Canonicalise(incoming[j].value);
      key := stored[i].key;
      GetAt(stored, i);
      GetAt(incoming, j);
    }
  }
}
