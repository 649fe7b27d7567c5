/**
 * Migration checkpoints: markers in the application's key/value metadata
 * table, and the start-up gate that refuses to run an existing installation
 * that skipped a required migration.
 */
module Checkpoint {
  import opened Wrappers

  const MigrationKeyPrefix: string := "migration:"

  /**
   * One metadata row. Its JSON `value` holds nothing but the completion time,
   * so the model keeps that time (an ISO-8601 string) in its place.
   */
  datatype Entry = Entry(completedAt: string, createdAt: int, updatedAt: int)

  /** The metadata table, keyed by its unique `key` column. */
  type Store = map<string, Entry>

  /** A checkpoint as `getMigrationCheckpoints` lists it. */
  datatype MigrationCheckpoint = MigrationCheckpoint(version: string, completedAt: string)

  /** How start-up validation ends: it returns with the store it left, or the process exits. */
  datatype Outcome = Ok(store: Store) | Fatal(version: string)

  /** The metadata key of a version's checkpoint; the version can be read back from it. */
  function Key(version: string): (key: string)
    ensures |key| == |MigrationKeyPrefix| + |version|
    ensures MigrationKeyPrefix <= key
    ensures key[|MigrationKeyPrefix|..] == version
  {
    MigrationKeyPrefix + version
  }

  /** Different versions never share a checkpoint key. */
  lemma KeyInjective(a: string, b: string)
    ensures Key(a) == Key(b) <==> a == b
  {
  }

  /** `hasMigrationCheckpoint`. */
  predicate Has(store: Store, version: string) {
    Key(version) in store
  }

  /**
   * `recordMigrationCheckpoint`: an upsert at time `now` with completion time
   * `completedAt`. A new row gets `createdAt == updatedAt == now`; an existing
   * row keeps its `createdAt` and has its value and `updatedAt` refreshed.
   * Nothing else changes.
   */
  function Record(store: Store, version: string, now: int, completedAt: string): (store': Store)
    ensures Has(store', version)
    ensures store'.Keys == store.Keys + {Key(version)}
    ensures store'[Key(version)].completedAt == completedAt
    ensures store'[Key(version)].updatedAt == now
    ensures store'[Key(version)].createdAt == if Has(store, version) then store[Key(version)].createdAt else now
    ensures forall k :: k in store && k != Key(version) ==> store'[k] == store[k]
  {
    var key := Key(version);
    if key in store then store[key := store[key].(completedAt := completedAt, updatedAt := now)]
    else store[key := Entry(completedAt, now, now)]
  }

  /** After recording `v`, exactly the versions recorded before and `v` have checkpoints. */
  lemma HasAfterRecord(store: Store, v: string, w: string, now: int, completedAt: string)
    ensures Has(Record(store, v, now, completedAt), w) <==> w == v || Has(store, w)
  {
    KeyInjective(v, w);
  }

  /**
   * Recording a version twice leaves one row for it, the creation time of the
   * first call and the completion and update times of the second, and every
   * other row as it was.
   */
  lemma RecordTwice(store: Store, v: string, t1: int, c1: string, t2: int, c2: string)
    ensures var once := Record(store, v, t1, c1);
            var twice := Record(once, v, t2, c2);
            && twice.Keys == once.Keys == store.Keys + {Key(v)}
            && |twice| == |once|
            && twice[Key(v)] == Entry(c2, once[Key(v)].createdAt, t2)
            && forall k :: k in store && k != Key(v) ==> twice[k] == store[k]
  {
  }

  /**
   * `getMigrationCheckpoints`: the rows whose key starts with the prefix,
   * with the prefix removed. Rows carry no order, so the model lists a set.
   */
  function GetMigrationCheckpoints(store: Store): (cs: set<MigrationCheckpoint>)
    ensures forall c :: c in cs <==> Has(store, c.version) && store[Key(c.version)].completedAt == c.completedAt
  {
    var cs := set k | k in store && MigrationKeyPrefix <= k
                    :: MigrationCheckpoint(k[|MigrationKeyPrefix|..], store[k].completedAt);
    assert forall k :: k in store && MigrationKeyPrefix <= k ==> Key(k[|MigrationKeyPrefix|..]) == k;
    cs
  }

  /** A version is listed exactly when it has a checkpoint, and then only once. */
  lemma ListedIffRecorded(store: Store, v: string)
    ensures (exists c :: c in GetMigrationCheckpoints(store) && c.version == v) <==> Has(store, v)
    ensures forall c, c' :: (c in GetMigrationCheckpoints(store) && c' in GetMigrationCheckpoints(store)
                             && c.version == c'.version) ==> c == c'
  {
    if Has(store, v) {
      assert MigrationCheckpoint(v, store[Key(v)].completedAt) in GetMigrationCheckpoints(store);
    }
  }

  /** Round trip: a recorded checkpoint is listed under its version with its completion time. */
  lemma ListedAfterRecord(store: Store, v: string, now: int, completedAt: string)
    ensures MigrationCheckpoint(v, completedAt) in GetMigrationCheckpoints(Record(store, v, now, completedAt))
  {
  }

  /** Metadata rows under other keys never show up as checkpoints. */
  lemma OtherKeysNotListed(store: Store, key: string, e: Entry)
    requires !(MigrationKeyPrefix <= key)
    ensures GetMigrationCheckpoints(store[key := e]) == GetMigrationCheckpoints(store)
  {
    forall v
      ensures Key(v) != key
    {
    }
  }

  // ---------------------------------------------------------------------------
  // validateRequiredMigrations

  /**
   * The fresh-install loop: records every version of `versions` that has no
   * checkpoint yet, and leaves the rows already there untouched.
   */
  function Bootstrap(store: Store, versions: seq<string>, now: int, completedAt: string): (store': Store)
    ensures forall i :: 0 <= i < |versions| ==> Has(store', versions[i])
    ensures store'.Keys == store.Keys + (set v | v in versions :: Key(v))
    ensures forall k :: k in store ==> store'[k] == store[k]
    ensures forall k :: k in store' && k !in store ==> store'[k] == Entry(completedAt, now, now)
    decreases |versions|
  {
    if |versions| == 0 then store
    else
      var v := versions[0];
      var next := if Has(store, v) then store else Record(store, v, now, completedAt);
      var result := Bootstrap(next, versions[1..], now, completedAt);
      KeysOfCons(versions);
      result
  }

  /** The checkpoint keys of a list of versions: its head's key and those of the rest. */
  lemma KeysOfCons(versions: seq<string>)
    requires 0 < |versions|
    ensures (set w | w in versions :: Key(w)) == {Key(versions[0])} + (set w | w in versions[1..] :: Key(w))
  {
    assert versions == [versions[0]] + versions[1..];
  }

  /** Position of the first version in `versions` without a checkpoint, if any. */
  function FirstMissing(store: Store, versions: seq<string>): (r: Option<nat>)
    ensures r.Some? ==> r.value < |versions| && !Has(store, versions[r.value])
    ensures r.Some? ==> forall j :: 0 <= j < r.value ==> Has(store, versions[j])
    ensures r.None? <==> forall j :: 0 <= j < |versions| ==> Has(store, versions[j])
  {
    if |versions| == 0 then None
    else if !Has(store, versions[0]) then Some(0)
    else match FirstMissing(store, versions[1..])
      case None => None
      case Some(j) => Some(j + 1)
  }

  /**
   * `validateRequiredMigrations`, with the user count and the clock passed
   * in. Freshness is decided once, from the count, before any version is
   * looked at. A fresh install always returns, with every required version
   * checkpointed and no earlier row rewritten. An existing install is never
   * written to: it returns when every required version has a checkpoint, and
   * otherwise stops at the first one, in list order, that has none.
   */
  function Validate(store: Store, requiredVersions: seq<string>, userCount: nat, now: int, completedAt: string)
    : (o: Outcome)
    ensures userCount == 0 ==> o.Ok?
    ensures userCount == 0 ==> forall i :: 0 <= i < |requiredVersions| ==> Has(o.store, requiredVersions[i])
    ensures userCount == 0 ==> forall k :: k in store ==> k in o.store && o.store[k] == store[k]
    ensures userCount == 0 ==> forall k :: k in o.store && k !in store ==>
              o.store[k] == Entry(completedAt, now, now) && exists v :: v in requiredVersions && k == Key(v)
    ensures userCount != 0 ==>
              (o.Fatal? <==> exists i :: 0 <= i < |requiredVersions| && !Has(store, requiredVersions[i]))
    ensures userCount != 0 && o.Fatal? ==>
              exists i :: 0 <= i < |requiredVersions| && requiredVersions[i] == o.version
                          && !Has(store, requiredVersions[i])
                          && forall j :: 0 <= j < i ==> Has(store, requiredVersions[j])
    ensures userCount != 0 && o.Ok? ==> o.store == store
  {
    var isFreshInstall := userCount == 0;
    if isFreshInstall then
      var store' := Bootstrap(store, requiredVersions, now, completedAt);
      assert forall k :: k in store' && k !in store ==> exists v :: v in requiredVersions && k == Key(v);
      Ok(store')
    else
      match FirstMissing(store, requiredVersions)
      case None => Ok(store)
      case Some(i) => Fatal(requiredVersions[i])
  }

  /** The user count matters only through the one freshness test. */
  lemma OnlyFreshnessMatters(store: Store, vs: seq<string>, c1: nat, c2: nat, now: int, completedAt: string)
    requires (c1 == 0) == (c2 == 0)
    ensures Validate(store, vs, c1, now, completedAt) == Validate(store, vs, c2, now, completedAt)
  {
  }

  /** Fresh install with versions v1 and v2 and no checkpoints: both are bootstrapped. */
  lemma FreshInstallBootstraps(now: int, completedAt: string)
    ensures var o := Validate(map[], ["v1", "v2"], 0, now, completedAt);
            o.Ok? && Has(o.store, "v1") && Has(o.store, "v2") && |o.store| == 2
  {
    var o := Validate(map[], ["v1", "v2"], 0, now, completedAt);
    assert o.store.Keys == {Key("v1"), Key("v2")};
    KeyInjective("v1", "v2");
  }

  /** An existing install that ran v1 but not v2 stops at v2 without recording it. */
  lemma SkippedMigrationIsFatal(now: int, completedAt: string, e: Entry)
    ensures Validate(map[Key("v1") := e], ["v1", "v2"], 1, now, completedAt) == Fatal("v2")
  {
    var store := map[Key("v1") := e];
    KeyInjective("v1", "v2");
    assert Has(store, "v1") && !Has(store, "v2");
    assert ["v1", "v2"][1..] == ["v2"];
    assert FirstMissing(store, ["v1", "v2"]) == Some(1);
  }
}
