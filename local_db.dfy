/**
 * The client-side cache of src/data/local-storage/LocalDb.ts: a database of
 * named object stores holding API records by their numeric `id`, and a
 * creation flag kept in the browser's localStorage under
 * `name + "_db_created"`.
 *
 * Each promise-returning operation is a method that returns how its promise
 * settles. The storage engine is reduced to its observable rules: opening
 * the database at a version (an absent or older database is upgraded, a
 * newer one refuses with a VersionError), a transaction on a missing store
 * (NotFoundError), and `get`, `add`, `put`, `delete` and a forward cursor on
 * one store.
 */
module LocalStorage {
  import opened Wrappers

  // ---------------------------------------------------------------------------
  // Records, stores, outcomes
  // ---------------------------------------------------------------------------

  /** The fields of a record other than its key; the cache never looks into them. */
  type Fields = map<string, string>

  /** `ApiData`: the cached API records, each keyed by its numeric `id`. */
  datatype ApiData =
    | Game(id: int, fields: Fields)
    | Platform(id: int, fields: Fields)
    | Publisher(id: int, fields: Fields)
    | Genre(id: int, fields: Fields)
    | Tag(id: int, fields: Fields)

  /** One object store: the records by key. */
  type Store = map<int, ApiData>

  /** Every record sits under its own `id` (the stores use `id` as key path). */
  predicate KeyedById(store: Store)
  {
    forall k :: k in store ==> store[k].id == k
  }

  /** A store to create at schema creation, by its name. */
  datatype StoreDescriptor = StoreDescriptor(name: string)

  /** The value a promise rejects with. */
  datatype Reason =
    | Text(text: string)              // a string
    | FalseValue                      // the boolean `false`
    | DomException(errorName: string) // an engine error, by its DOMException name

  /** How a returned promise settles; `Pending` is a promise that never settles. */
  datatype Outcome<T> = Resolved(value: T) | Rejected(reason: Reason) | Pending

  /**
   * What `openObjectStore` yields: a store handle, the open request's error,
   * or nothing at all when `transaction` throws NotFoundError inside the
   * 'success' listener and the promise is left unsettled.
   */
  datatype StoreAccess = Granted | OpenFailed(error: Reason) | NotFound

  const AlreadyCreated: string := "database already created"
  const StoresFailed: string := "failed to create object stores: "
  const VersionError: Reason := DomException("VersionError")
  const ConstraintError: Reason := DomException("ConstraintError")
  const DataError: Reason := DomException("DataError")

  /** A promise settles once: a later resolve or reject leaves a settled promise as it was. */
  function Settle<T>(current: Outcome<T>, next: Outcome<T>): (r: Outcome<T>)
    ensures !current.Pending? ==> r == current
    ensures current.Pending? ==> r == next
  {
    if current.Pending? then next else current
  }

  // ---------------------------------------------------------------------------
  // The engine's rules on one store
  // ---------------------------------------------------------------------------

  /** `get`: the record under `key`, or `undefined`. */
  function Get(store: Store, key: int): (r: Option<ApiData>)
    ensures r.Some? <==> key in store
    ensures r.Some? ==> r.value == store[key]
  {
    if key in store then Some(store[key]) else None
  }

  /** `add`: fails on a key already present, leaving the store as it was; otherwise inserts. */
  function Add(store: Store, obj: ApiData): (r: Option<Store>)
    ensures r.None? <==> obj.id in store
    ensures r.Some? ==> r.value.Keys == store.Keys + {obj.id} && r.value[obj.id] == obj
    ensures r.Some? ==> forall k :: k in store ==> r.value[k] == store[k]
  {
    if obj.id in store then None else Some(store[obj.id := obj])
  }

  /** `put`: inserts the record, or replaces the one under the same key. */
  function Put(store: Store, obj: ApiData): (r: Store)
    ensures r.Keys == store.Keys + {obj.id} && r[obj.id] == obj
    ensures forall k :: k in store && k != obj.id ==> r[k] == store[k]
  {
    store[obj.id := obj]
  }

  /** `delete`: removes the key; an absent key is no error and changes nothing. */
  function Delete(store: Store, key: int): (r: Store)
    ensures r.Keys == store.Keys - {key}
    ensures forall k :: k in r ==> r[k] == store[k]
    ensures key !in store ==> r == store
  {
    store - {key}
  }

  // ---------------------------------------------------------------------------
  // The cursor: ascending key order
  // ---------------------------------------------------------------------------

  lemma {:induction false} LeastExists(keys: set<int>)
    requires keys != {}
    ensures exists m :: m in keys && forall k :: k in keys ==> m <= k
    decreases keys
  {
    if forall k :: k !in keys {
      assert false;
    }
    var x :| x in keys;
    var rest := keys - {x};
    if rest == {} {
      forall k | k in keys ensures x <= k {
        assert k !in rest;
      }
    } else {
      LeastExists(rest);
      var m :| m in rest && forall k :: k in rest ==> m <= k;
      var least := if x < m then x else m;
      forall k | k in keys ensures least <= k {
        if k != x { assert k in rest; }
      }
    }
  }

  /** The keys in the order a forward cursor visits them: strictly ascending, each once. */
  ghost function AscendingKeys(keys: set<int>): (ks: seq<int>)
    ensures |ks| == |keys|
    ensures forall i :: 0 <= i < |ks| ==> ks[i] in keys
    ensures forall k :: k in keys ==> k in ks
    ensures forall i, j :: 0 <= i < j < |ks| ==> ks[i] < ks[j]
    decreases keys
  {
    if keys == {} then []
    else
      LeastExists(keys);
      var m :| m in keys && forall k :: k in keys ==> m <= k;
      var rest := AscendingKeys(keys - {m});
      assert forall k :: k in keys ==> k == m || k in rest;
      [m] + rest
  }

  lemma AscendingKeysUnfold(keys: set<int>, m: int)
    requires m in keys && forall k :: k in keys ==> m <= k
    ensures AscendingKeys(keys) == [m] + AscendingKeys(keys - {m})
  {
  }

  /** The records under `keys`, in that order. */
  function Project(store: Store, keys: seq<int>): (rs: seq<ApiData>)
    requires forall i :: 0 <= i < |keys| ==> keys[i] in store
    ensures |rs| == |keys|
    ensures forall i :: 0 <= i < |keys| ==> rs[i] == store[keys[i]]
  {
    seq(|keys|, i requires 0 <= i < |keys| => store[keys[i]])
  }

  /** The records of a store in cursor order. */
  ghost function InKeyOrder(store: Store): seq<ApiData>
  {
    Project(store, AscendingKeys(store.Keys))
  }

  /** Reading `key` and then `later` appends the record under `key` before those under `later`. */
  lemma ProjectCons(store: Store, visited: seq<ApiData>, key: int, later: seq<int>)
    requires key in store && forall i :: 0 <= i < |later| ==> later[i] in store
    ensures visited + Project(store, [key] + later) == (visited + [store[key]]) + Project(store, later)
  {
    var ks := [key] + later;
    assert forall i :: 0 < i < |ks| ==> ks[i] == later[i - 1];
    var rest := Project(store, later);
    assert Project(store, ks) == [store[key]] + rest;
    assert visited + ([store[key]] + rest) == (visited + [store[key]]) + rest;
  }

  /**
   * Pushing the record under the least remaining key onto the records
   * visited so far leaves the other keys to visit in cursor order.
   */
  lemma ScanStep(store: Store, visited: seq<ApiData>, unvisited: set<int>, key: int)
    requires unvisited <= store.Keys
    requires key in unvisited && forall k :: k in unvisited ==> key <= k
    ensures visited + Project(store, AscendingKeys(unvisited)) ==
      (visited + [store[key]]) + Project(store, AscendingKeys(unvisited - {key}))
  {
    AscendingKeysUnfold(unvisited, key);
    ProjectCons(store, visited, key, AscendingKeys(unvisited - {key}));
  }

  /**
   * The cursor loop of `getAll`: push the value under the cursor, continue to
   * the next key, and stop when the cursor runs out.
   */
  method CursorScan(store: Store) returns (results: seq<ApiData>)
    ensures results == InKeyOrder(store)
  {
    results := [];
    var unvisited := store.Keys;
    while unvisited != {}
      invariant unvisited <= store.Keys
      invariant results + Project(store, AscendingKeys(unvisited)) == InKeyOrder(store)
      decreases unvisited
    {
      LeastExists(unvisited);
      var key :| key in unvisited && forall k :: k in unvisited ==> key <= k;
      ScanStep(store, results, unvisited, key);
      results := results + [store[key]];
      unvisited := unvisited - {key};
    }
  }

  /** A scan yields every record of a keyed store exactly once, in ascending `id` order. */
  lemma ScanYieldsEachRecordOnce(store: Store)
    requires KeyedById(store)
    ensures |InKeyOrder(store)| == |store|
    ensures forall i, j :: 0 <= i < j < |InKeyOrder(store)| ==> InKeyOrder(store)[i].id < InKeyOrder(store)[j].id
    ensures forall k :: k in store ==> store[k] in InKeyOrder(store)
    ensures forall r :: r in InKeyOrder(store) ==> r.id in store && store[r.id] == r
  {
    var ks := AscendingKeys(store.Keys);
    var rs := InKeyOrder(store);
    assert |rs| == |ks| == |store.Keys|;
    forall i | 0 <= i < |rs| ensures rs[i].id == ks[i] && ks[i] in store && store[ks[i]] == rs[i] {
    }
    forall k | k in store ensures store[k] in rs {
      var i :| 0 <= i < |ks| && ks[i] == k;
      assert rs[i] == store[k];
    }
    forall r | r in rs ensures r.id in store && store[r.id] == r {
      var i :| 0 <= i < |rs| && rs[i] == r;
    }
  }

  // ---------------------------------------------------------------------------
  // createStores and addBulk, as functions of the store contents
  // ---------------------------------------------------------------------------

  /** The stores and whether every creation succeeded. */
  datatype Upgrade = Upgrade(stores: map<string, Store>, ok: bool)

  /**
   * `storages.forEach(store => createObjectStore(store.name, store))` inside a
   * try: one empty store per descriptor, in order, stopping at the first name
   * already taken (ConstraintError); the stores created before it stay.
   */
  function Materialize(existing: map<string, Store>, storages: seq<StoreDescriptor>): (u: Upgrade)
    ensures existing.Keys <= u.stores.Keys
    ensures forall n :: n in existing ==> u.stores[n] == existing[n]
    decreases |storages|
  {
    if storages == [] then Upgrade(existing, true)
    else if storages[0].name in existing then Upgrade(existing, false)
    else Materialize(existing[storages[0].name := map[]], storages[1..])
  }

  function Names(storages: seq<StoreDescriptor>): set<string>
  {
    set i | 0 <= i < |storages| :: storages[i].name
  }

  predicate DistinctNames(storages: seq<StoreDescriptor>)
  {
    forall i, j :: 0 <= i < j < |storages| ==> storages[i].name != storages[j].name
  }

  lemma NamesCons(storages: seq<StoreDescriptor>)
    requires storages != []
    ensures Names(storages) == {storages[0].name} + Names(storages[1..])
    ensures DistinctNames(storages) <==>
      storages[0].name !in Names(storages[1..]) && DistinctNames(storages[1..])
  {
    var rest := storages[1..];
    assert forall i :: 0 < i < |storages| ==> storages[i] == rest[i - 1];
    forall n | n in Names(storages) ensures n in {storages[0].name} + Names(rest) {
      var i :| 0 <= i < |storages| && storages[i].name == n;
      if i > 0 { assert rest[i - 1].name == n; }
    }
    if storages[0].name !in Names(rest) && DistinctNames(rest) {
      forall i, j | 0 <= i < j < |storages| ensures storages[i].name != storages[j].name {
        if i == 0 { assert rest[j - 1].name in Names(rest); }
        else { assert rest[i - 1] == storages[i] && rest[j - 1] == storages[j]; }
      }
    }
  }

  /**
   * Store creation succeeds exactly when the names are distinct and new; it
   * never touches an existing store, and every store it adds is empty.
   */
  lemma {:induction false} MaterializeOutcome(existing: map<string, Store>, storages: seq<StoreDescriptor>)
    ensures Materialize(existing, storages).ok <==>
      DistinctNames(storages) && Names(storages) !! existing.Keys
    ensures existing.Keys <= Materialize(existing, storages).stores.Keys <= existing.Keys + Names(storages)
    ensures forall n :: n in existing ==> Materialize(existing, storages).stores[n] == existing[n]
    ensures forall n :: n in Materialize(existing, storages).stores && n !in existing ==>
      Materialize(existing, storages).stores[n] == map[]
    ensures Materialize(existing, storages).ok ==>
      Materialize(existing, storages).stores.Keys == existing.Keys + Names(storages)
    decreases |storages|
  {
    if storages != [] {
      NamesCons(storages);
      var n := storages[0].name;
      if n !in existing {
        MaterializeOutcome(existing[n := map[]], storages[1..]);
      }
    }
  }

  /** The store after a batch, and the records whose `add` succeeded, in order. */
  datatype Batch = Batch(store: Store, added: seq<ApiData>)

  /** `addBulk` in input order: each record is `add`ed, and kept in the result when that succeeds. */
  function AddEach(store: Store, objects: seq<ApiData>): (b: Batch)
    ensures store.Keys <= b.store.Keys
    ensures forall k :: k in store ==> b.store[k] == store[k]
    ensures |b.added| <= |objects|
    decreases |objects|
  {
    if objects == [] then Batch(store, [])
    else
      var before := AddEach(store, objects[..|objects| - 1]);
      var obj := objects[|objects| - 1];
      match Add(before.store, obj)
      case Some(next) => Batch(next, before.added + [obj])
      case None => before
  }

  lemma AddEachStep(store: Store, objects: seq<ApiData>, i: int)
    requires 0 <= i < |objects|
    ensures AddEach(store, objects[..i + 1]) ==
      match Add(AddEach(store, objects[..i]).store, objects[i])
      case Some(next) => Batch(next, AddEach(store, objects[..i]).added + [objects[i]])
      case None => AddEach(store, objects[..i])
  {
    assert objects[..i + 1][..i] == objects[..i];
    assert objects[..i + 1][i] == objects[i];
  }

  function Ids(objects: seq<ApiData>): set<int>
  {
    set i | 0 <= i < |objects| :: objects[i].id
  }

  lemma IdsSnoc(objects: seq<ApiData>, obj: ApiData)
    ensures Ids(objects + [obj]) == Ids(objects) + {obj.id}
  {
    var all := objects + [obj];
    forall k | k in Ids(all) ensures k in Ids(objects) + {obj.id} {
      var i :| 0 <= i < |all| && all[i].id == k;
      if i < |objects| { assert objects[i].id == k; }
    }
    forall k | k in Ids(objects) ensures k in Ids(all) {
      var i :| 0 <= i < |objects| && objects[i].id == k;
      assert all[i].id == k;
    }
    assert all[|objects|].id == obj.id;
  }

  /**
   * What a batch does to the store: the new keys are those of the batch, no
   * record already present is overwritten, and the first record of the batch
   * with a new key is the one stored.
   */
  lemma {:induction false} AddEachStore(store: Store, objects: seq<ApiData>)
    ensures AddEach(store, objects).store.Keys == store.Keys + Ids(objects)
    ensures forall k :: k in store ==> AddEach(store, objects).store[k] == store[k]
    ensures forall i :: (0 <= i < |objects| && objects[i].id !in store &&
      (forall j :: 0 <= j < i ==> objects[j].id != objects[i].id)) ==>
        AddEach(store, objects).store[objects[i].id] == objects[i]
    ensures KeyedById(store) ==> KeyedById(AddEach(store, objects).store)
    decreases |objects|
  {
    if objects != [] {
      var prefix := objects[..|objects| - 1];
      var obj := objects[|objects| - 1];
      assert objects == prefix + [obj];
      AddEachStore(store, prefix);
      IdsSnoc(prefix, obj);
      var before := AddEach(store, prefix);
      forall i | 0 <= i < |objects| && objects[i].id !in store &&
          (forall j :: 0 <= j < i ==> objects[j].id != objects[i].id)
        ensures AddEach(store, objects).store[objects[i].id] == objects[i]
      {
        if i < |prefix| {
          assert prefix[i] == objects[i];
          assert objects[i].id in before.store;
        } else {
          assert obj.id !in Ids(prefix);
        }
      }
    }
  }

  /** Each record a batch returns is a record of the batch, and the one now stored under its key. */
  lemma {:induction false} AddEachAddedStored(store: Store, objects: seq<ApiData>)
    ensures |AddEach(store, objects).added| <= |objects|
    ensures forall r :: r in AddEach(store, objects).added ==>
      r in objects && r.id in AddEach(store, objects).store && AddEach(store, objects).store[r.id] == r
    decreases |objects|
  {
    if objects != [] {
      var prefix := objects[..|objects| - 1];
      var obj := objects[|objects| - 1];
      assert objects == prefix + [obj];
      AddEachAddedStored(store, prefix);
      var before := AddEach(store, prefix);
      if obj.id !in before.store {
        var added := before.added + [obj];
        forall r | r in added
          ensures r in objects && r.id in AddEach(store, objects).store && AddEach(store, objects).store[r.id] == r
        {
          if r in before.added { assert r.id in before.store; }
        }
      }
    }
  }

  /** A batch never returns two records with the same key. */
  lemma {:induction false} AddEachAddedDistinct(store: Store, objects: seq<ApiData>)
    ensures forall i, j :: 0 <= i < j < |AddEach(store, objects).added| ==>
      AddEach(store, objects).added[i].id != AddEach(store, objects).added[j].id
    decreases |objects|
  {
    if objects != [] {
      var prefix := objects[..|objects| - 1];
      var obj := objects[|objects| - 1];
      assert objects == prefix + [obj];
      AddEachAddedDistinct(store, prefix);
      AddEachAddedStored(store, prefix);
      var before := AddEach(store, prefix);
      if obj.id !in before.store {
        var added := before.added + [obj];
        forall i, j | 0 <= i < j < |added| ensures added[i].id != added[j].id {
          if j == |before.added| { assert added[i] in before.added; }
          else { assert added[i] == before.added[i] && added[j] == before.added[j]; }
        }
      }
    }
  }

  /** The keys a batch returns are exactly its keys that were not yet in the store. */
  lemma {:induction false} AddEachAddedIds(store: Store, objects: seq<ApiData>)
    ensures Ids(AddEach(store, objects).added) == Ids(objects) - store.Keys
    decreases |objects|
  {
    if objects != [] {
      var prefix := objects[..|objects| - 1];
      var obj := objects[|objects| - 1];
      assert objects == prefix + [obj];
      AddEachAddedIds(store, prefix);
      AddEachStore(store, prefix);
      IdsSnoc(prefix, obj);
      var before := AddEach(store, prefix);
      if obj.id !in before.store {
        IdsSnoc(before.added, obj);
      }
    }
  }

  // ---------------------------------------------------------------------------
  // LocalDb
  // ---------------------------------------------------------------------------

  class LocalDb {
    const name: string
    const version: nat
    const loadKey: string

    /** The browser's localStorage, which holds the creation flag. */
    var localStorage: map<string, string>
    /** The version of the database `name` on disk; 0 when there is none. */
    var onDiskVersion: nat
    /** The object stores of the database `name`. */
    var stores: map<string, Store>

    ghost predicate Valid()
      reads this
    {
      && loadKey == name + "_db_created"
      && version >= 1
      && (onDiskVersion == 0 ==> stores == map[])
      && forall n :: n in stores ==> KeyedById(stores[n])
    }

    /** `new LocalDb(name, version)`, over the persisted state the browser already holds. */
    constructor (name: string, version: nat, localStorage: map<string, string>,
                 onDiskVersion: nat, stores: map<string, Store>)
      requires version >= 1
      requires onDiskVersion == 0 ==> stores == map[]
      requires forall n :: n in stores ==> KeyedById(stores[n])
      ensures Valid()
      ensures this.name == name && this.version == version
      ensures this.localStorage == localStorage
      ensures this.onDiskVersion == onDiskVersion && this.stores == stores
    {
      this.name := name;
      this.version := version;
      this.loadKey := name + "_db_created";
      this.localStorage := localStorage;
      this.onDiskVersion := onDiskVersion;
      this.stores := stores;
    }

    /** `isCreated`: the flag `name + "_db_created"` is present. */
    function IsCreated(): (created: bool)
      reads this
      requires Valid()
      ensures created <==> name + "_db_created" in localStorage
    {
      loadKey in localStorage
    }

    /** What opening `storageName` yields in the current state. */
    function AccessTo(storageName: string): (access: StoreAccess)
      reads this
      ensures access.OpenFailed? <==> version < onDiskVersion
      ensures access.OpenFailed? ==> access.error == VersionError
      ensures access == Granted <==> onDiskVersion <= version && storageName in stores
    {
      if version < onDiskVersion then OpenFailed(VersionError)
      else if storageName in stores then Granted
      else NotFound
    }

    /** The on-disk version once `indexedDB.open(name, version)` has completed. */
    function VersionAfterOpen(): (v: nat)
      reads this
      ensures v >= version && v >= onDiskVersion
      ensures v == version || v == onDiskVersion
    {
      if onDiskVersion < version then version else onDiskVersion
    }

    /**
     * `openObjectStore`: open the database (an absent or older one is upgraded
     * to `version` with no store added, a newer one fails) and start a
     * transaction on `storageName`.
     */
    method OpenObjectStore(storageName: string) returns (access: StoreAccess)
      requires Valid()
      modifies this`onDiskVersion
      ensures Valid()
      ensures access == old(AccessTo(storageName))
      ensures onDiskVersion == old(VersionAfterOpen())
    {
      if version < onDiskVersion {
        return OpenFailed(VersionError);
      }
      onDiskVersion := version;
      access := if storageName in stores then Granted else NotFound;
    }

    /**
     * `createStores`: the 'upgradeneeded' handler. A thrown error becomes the
     * rejection "failed to create object stores: ..." and the stores created
     * before it remain.
     */
    method CreateStores(storages: seq<StoreDescriptor>) returns (failure: Option<Reason>)
      requires Valid() && onDiskVersion >= 1
      modifies this`stores
      ensures Valid()
      ensures stores == Materialize(old(stores), storages).stores
      ensures failure.None? <==> Materialize(old(stores), storages).ok
      ensures failure.Some? ==> failure.value == Text(StoresFailed + "ConstraintError")
    {
      for i := 0 to |storages|
        invariant Valid()
        invariant Materialize(stores, storages[i..]) == Materialize(old(stores), storages)
      {
        assert storages[i..][0] == storages[i] && storages[i..][1..] == storages[i + 1..];
        if storages[i].name in stores {
          return Some(Text(StoresFailed + "ConstraintError"));
        }
        stores := stores[storages[i].name := map[]];
      }
      assert storages[|storages|..] == [];
      failure := None;
    }

    /**
     * `create`: refuse when the flag is present; otherwise open the database,
     * creating the stores if it is upgraded, and on success write the flag,
     * whatever `createStores` reported.
     */
    method Create(storages: seq<StoreDescriptor>) returns (r: Outcome<bool>)
      requires Valid()
      modifies this`onDiskVersion, this`stores, this`localStorage
      ensures Valid()
      ensures old(IsCreated()) ==> r == Rejected(Text(AlreadyCreated)) && unchanged(this)
      ensures !old(IsCreated()) && version < old(onDiskVersion) ==>
        r == Rejected(VersionError) && unchanged(this)
      ensures !old(IsCreated()) && old(onDiskVersion) == version ==>
        && r == Resolved(true) && IsCreated()
        && localStorage == old(localStorage)[loadKey := "true"]
        && onDiskVersion == version && stores == old(stores)
      ensures !old(IsCreated()) && old(onDiskVersion) < version ==>
        && IsCreated() && localStorage == old(localStorage)[loadKey := "true"]
        && onDiskVersion == version
        && stores == Materialize(old(stores), storages).stores
        && r == if Materialize(old(stores), storages).ok then Resolved(true)
                else Rejected(Text(StoresFailed + "ConstraintError"))
    {
      if IsCreated() {
        return Rejected(Text(AlreadyCreated));
      }
      if version < onDiskVersion {
        return Rejected(VersionError);
      }
      var failure: Option<Reason> := None;
      if onDiskVersion < version {
        onDiskVersion := version;
        failure := CreateStores(storages);
      }
      localStorage := localStorage[loadKey := "true"];
      r := if failure.Some? then Rejected(failure.value) else Resolved(true);
    }

    /** `getObjectById`: the record under `key`, `undefined` (None) when there is none. */
    method GetObjectById(storageName: string, key: int) returns (r: Outcome<Option<ApiData>>)
      requires Valid()
      modifies this`onDiskVersion
      ensures Valid() && onDiskVersion == old(VersionAfterOpen())
      ensures r == match old(AccessTo(storageName))
        case Granted => Resolved(Get(stores[storageName], key))
        case OpenFailed(e) => Rejected(e)
        case NotFound => Pending
    {
      var access := OpenObjectStore(storageName);
      match access
      case Granted => r := Resolved(Get(stores[storageName], key));
      case OpenFailed(e) => r := Rejected(e);
      case NotFound => r := Pending;
    }

    /** `getAll`: every record of the store, in cursor order. */
    method GetAll(storageName: string) returns (r: Outcome<seq<ApiData>>)
      requires Valid()
      modifies this`onDiskVersion
      ensures Valid() && onDiskVersion == old(VersionAfterOpen())
      ensures r == match old(AccessTo(storageName))
        case Granted => Resolved(InKeyOrder(stores[storageName]))
        case OpenFailed(e) => Rejected(e)
        case NotFound => Pending
    {
      var access := OpenObjectStore(storageName);
      match access
      case Granted =>
        var results := CursorScan(stores[storageName]);
        r := Resolved(results);
      case OpenFailed(e) => r := Rejected(e);
      case NotFound => r := Pending;
    }

    /** `handleAddObject`: `add` on an open store; true on success, the engine's error otherwise. */
    method HandleAddObject(storageName: string, record: ApiData) returns (r: Outcome<bool>)
      requires Valid() && storageName in stores
      modifies this`stores
      ensures Valid()
      ensures match Add(old(stores)[storageName], record)
        case Some(next) => r == Resolved(true) && stores == old(stores)[storageName := next]
        case None => r == Rejected(ConstraintError) && stores == old(stores)
    {
      match Add(stores[storageName], record)
      case Some(next) =>
        stores := stores[storageName := next];
        r := Resolved(true);
      case None =>
        r := Rejected(ConstraintError);
    }

    /**
     * `addObject`: rejects with false when the database is not created or the
     * record is missing (`None`), but goes on to open the store and `add`
     * all the same; the rejection stands, since a promise settles once.
     */
    method AddObject(storageName: string, record: Option<ApiData>) returns (r: Outcome<bool>)
      requires Valid()
      modifies this`onDiskVersion, this`stores
      ensures Valid() && onDiskVersion == old(VersionAfterOpen())
      ensures stores == match old(AccessTo(storageName))
        case Granted =>
          (if record.Some? && Add(old(stores)[storageName], record.value).Some?
           then old(stores)[storageName := Add(old(stores)[storageName], record.value).value]
           else old(stores))
        case _ => old(stores)
      ensures !old(IsCreated()) || record.None? ==> r == Rejected(FalseValue)
      ensures old(IsCreated()) && record.Some? ==> r == match old(AccessTo(storageName))
        case Granted =>
          if record.value.id in old(stores)[storageName] then Rejected(ConstraintError) else Resolved(true)
        case OpenFailed(e) => Rejected(e)
        case NotFound => Pending
    {
      r := Pending;
      if !IsCreated() || record.None? {
        r := Rejected(FalseValue);
      }
      var access := OpenObjectStore(storageName);
      match access
      case Granted =>
        if record.Some? {
          var reply := HandleAddObject(storageName, record.value);
          r := Settle(r, reply);
        } else {
          // `add(undefined)` throws, and the `catch` rejects with that error
          r := Settle(r, Rejected(DataError));
        }
      case OpenFailed(e) => r := Settle(r, Rejected(e));
      case NotFound =>
    }

    /**
     * `updateObject`: rejects with false when the database is not created or
     * the record is missing, but goes on to `put` all the same; otherwise
     * resolves true once the record is stored.
     */
    method UpdateObject(storageName: string, newObject: Option<ApiData>) returns (r: Outcome<bool>)
      requires Valid()
      modifies this`onDiskVersion, this`stores
      ensures Valid() && onDiskVersion == old(VersionAfterOpen())
      ensures stores == match old(AccessTo(storageName))
        case Granted =>
          (if newObject.Some?
           then old(stores)[storageName := Put(old(stores)[storageName], newObject.value)]
           else old(stores))
        case _ => old(stores)
      ensures !old(IsCreated()) || newObject.None? ==> r == Rejected(FalseValue)
      ensures old(IsCreated()) && newObject.Some? ==> r == match old(AccessTo(storageName))
        case Granted => Resolved(true)
        case OpenFailed(e) => Rejected(e)
        case NotFound => Pending
    {
      r := Pending;
      if !IsCreated() || newObject.None? {
        r := Rejected(FalseValue);
      }
      var access := OpenObjectStore(storageName);
      match access
      case Granted =>
        if newObject.Some? {
          stores := stores[storageName := Put(stores[storageName], newObject.value)];
          r := Settle(r, Resolved(true));
        } else {
          // `put(undefined)` throws, and the `catch` rejects with that error
          r := Settle(r, Rejected(DataError));
        }
      case OpenFailed(e) => r := Settle(r, Rejected(e));
      case NotFound =>
    }

    /**
     * `removeObject`: rejects with false when the database is not created, but
     * goes on to `delete` all the same; otherwise resolves true, whether or
     * not the key was present.
     */
    method RemoveObject(storageName: string, key: int) returns (r: Outcome<bool>)
      requires Valid()
      modifies this`onDiskVersion, this`stores
      ensures Valid() && onDiskVersion == old(VersionAfterOpen())
      ensures stores == match old(AccessTo(storageName))
        case Granted => old(stores)[storageName := Delete(old(stores)[storageName], key)]
        case _ => old(stores)
      ensures r == if !old(IsCreated()) then Rejected(FalseValue) else match old(AccessTo(storageName))
        case Granted => Resolved(true)
        case OpenFailed(e) => Rejected(e)
        case NotFound => Pending
    {
      r := Pending;
      if !IsCreated() {
        r := Rejected(FalseValue);
      }
      var access := OpenObjectStore(storageName);
      match access
      case Granted =>
        stores := stores[storageName := Delete(stores[storageName], key)];
        r := Settle(r, Resolved(true));
      case OpenFailed(e) => r := Settle(r, Rejected(e));
      case NotFound =>
    }

    /**
     * `addBulk`: rejects with false when the database is not created or the
     * batch is empty, and runs the batch all the same. Every record gets its
     * own store handle and `add`; each of the three ends of that chain (add
     * succeeded, add failed, open failed) bumps `completed`, and the batch
     * resolves with the records whose `add` succeeded once `completed`
     * reaches the batch size. A chain whose store is missing never ends, and
     * neither does the batch.
     */
    method AddBulk(storageName: string, objects: seq<ApiData>) returns (r: Outcome<seq<ApiData>>)
      requires Valid()
      modifies this`onDiskVersion, this`stores
      ensures Valid()
      ensures onDiskVersion == if |objects| == 0 then old(onDiskVersion) else old(VersionAfterOpen())
      ensures stores == if old(AccessTo(storageName)).Granted?
        then old(stores)[storageName := AddEach(old(stores)[storageName], objects).store]
        else old(stores)
      ensures !old(IsCreated()) || |objects| < 1 ==> r == Rejected(FalseValue)
      ensures old(IsCreated()) && |objects| >= 1 ==> r == match old(AccessTo(storageName))
        case Granted => Resolved(AddEach(old(stores)[storageName], objects).added)
        case OpenFailed(_) => Resolved([])
        case NotFound => Pending
    {
      r := Pending;
      if !IsCreated() || |objects| < 1 {
        r := Rejected(FalseValue);
      }
      var addedObjects: seq<ApiData> := [];
      var completed := 0;
      ghost var access0 := AccessTo(storageName);
      for i := 0 to |objects|
        invariant Valid()
        invariant onDiskVersion == if i == 0 then old(onDiskVersion) else old(VersionAfterOpen())
        invariant AccessTo(storageName) == access0
        invariant completed <= i
        invariant access0.Granted? ==>
          && completed == i
          && stores == old(stores)[storageName := stores[storageName]]
          && AddEach(old(stores)[storageName], objects[..i]) == Batch(stores[storageName], addedObjects)
        invariant access0.OpenFailed? ==> completed == i && addedObjects == [] && stores == old(stores)
        invariant access0.NotFound? ==> completed == 0 && stores == old(stores)
        invariant r == if !old(IsCreated()) || |objects| < 1 then Rejected(FalseValue)
          else if completed == |objects| then Resolved(addedObjects) else Pending
      {
        if access0.Granted? {
          AddEachStep(old(stores)[storageName], objects, i);
        }
        var record := objects[i];
        var access := OpenObjectStore(storageName);
        match access
        case Granted =>
          var reply := HandleAddObject(storageName, record);
          if reply.Resolved? {
            addedObjects := addedObjects + [record];
          }
          completed := completed + 1;
          if completed == |objects| {
            r := Settle(r, Resolved(addedObjects));
          }
        case OpenFailed(_) =>
          completed := completed + 1;
          if completed == |objects| {
            r := Settle(r, Resolved(addedObjects));
          }
        case NotFound =>
      }
      assert objects[..|objects|] == objects;
    }

    /** `reset`: delete the database and remove the creation flag. */
    method Reset()
      requires Valid()
      modifies this`onDiskVersion, this`stores, this`localStorage
      ensures Valid() && !IsCreated()
      ensures onDiskVersion == 0 && stores == map[]
      ensures localStorage == old(localStorage) - {loadKey}
    {
      onDiskVersion, stores := 0, map[];
      localStorage := localStorage - {loadKey};
    }
  }
}
