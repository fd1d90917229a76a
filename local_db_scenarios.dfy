/**
 * Sequences of `LocalDb` calls and what the cache promises across them.
 */
module LocalDbScenarios {
  import opened Wrappers
  import opened LocalStorage

  /** `updateObject` is an upsert: a following `getObjectById` reads the new record back. */
  method UpdateThenGet(db: LocalDb, storageName: string, record: ApiData)
    returns (updated: Outcome<bool>, fetched: Outcome<Option<ApiData>>)
    requires db.Valid() && db.IsCreated() && db.AccessTo(storageName) == Granted
    modifies db
    ensures db.Valid()
    ensures updated == Resolved(true)
    ensures fetched == Resolved(Some(record))
  {
    updated := db.UpdateObject(storageName, Some(record));
    fetched := db.GetObjectById(storageName, record.id);
  }

  /**
   * `removeObject` resolves true whether or not the key was there; afterwards
   * `getObjectById` resolves with `undefined`, and every other record stays.
   */
  method RemoveThenGet(db: LocalDb, storageName: string, key: int)
    returns (removed: Outcome<bool>, fetched: Outcome<Option<ApiData>>)
    requires db.Valid() && db.IsCreated() && db.AccessTo(storageName) == Granted
    modifies db
    ensures db.Valid()
    ensures removed == Resolved(true)
    ensures fetched == Resolved(None)
    ensures storageName in db.stores
    ensures forall k :: k in old(db.stores[storageName]) && k != key ==>
      k in db.stores[storageName] && db.stores[storageName][k] == old(db.stores[storageName][k])
  {
    removed := db.RemoveObject(storageName, key);
    fetched := db.GetObjectById(storageName, key);
  }

  /**
   * Adding two records with the same key: the first is stored and resolves
   * true, the second rejects and leaves the first in place.
   */
  method AddSameKeyTwice(db: LocalDb, storageName: string, first: ApiData, second: ApiData)
    returns (r1: Outcome<bool>, r2: Outcome<bool>, fetched: Outcome<Option<ApiData>>)
    requires db.Valid() && db.IsCreated() && db.AccessTo(storageName) == Granted
    requires first.id !in db.stores[storageName] && second.id == first.id
    modifies db
    ensures db.Valid()
    ensures r1 == Resolved(true)
    ensures r2 == Rejected(ConstraintError)
    ensures fetched == Resolved(Some(first))
  {
    r1 := db.AddObject(storageName, Some(first));
    r2 := db.AddObject(storageName, Some(second));
    fetched := db.GetObjectById(storageName, first.id);
  }

  /** A second `create` is refused before anything is opened, and changes nothing. */
  method CreateTwice(db: LocalDb, storages: seq<StoreDescriptor>)
    returns (first: Outcome<bool>, second: Outcome<bool>)
    requires db.Valid() && !db.IsCreated() && db.onDiskVersion <= db.version
    modifies db
    ensures db.Valid() && db.IsCreated()
    ensures first.Resolved? || first == Rejected(Text(StoresFailed + "ConstraintError"))
    ensures second == Rejected(Text(AlreadyCreated))
  {
    first := db.Create(storages);
    second := db.Create(storages);
  }

  /**
   * `reset` forgets the database; a `create` with distinct store names then
   * resolves true with exactly those stores, all empty.
   */
  method ResetThenCreate(db: LocalDb, storages: seq<StoreDescriptor>) returns (created: Outcome<bool>)
    requires db.Valid() && DistinctNames(storages)
    modifies db
    ensures db.Valid() && db.IsCreated()
    ensures created == Resolved(true)
    ensures db.stores.Keys == Names(storages)
    ensures forall n :: n in db.stores ==> db.stores[n] == map[]
  {
    db.Reset();
    assert !db.IsCreated();
    MaterializeOutcome(map[], storages);
    created := db.Create(storages);
  }

  /**
   * `addBulk` then `getAll`: the batch returns one record per new key, and
   * the scan afterwards shows those records next to every record that was
   * already stored.
   */
  method AddBulkThenGetAll(db: LocalDb, storageName: string, objects: seq<ApiData>)
    returns (bulk: Outcome<seq<ApiData>>, all: Outcome<seq<ApiData>>)
    requires db.Valid() && db.IsCreated() && db.AccessTo(storageName) == Granted
    requires |objects| >= 1
    modifies db
    ensures db.Valid()
    ensures bulk.Resolved? && all.Resolved?
    ensures Ids(bulk.value) == Ids(objects) - old(db.stores[storageName]).Keys
    ensures forall r :: r in bulk.value ==> r in objects && r in all.value
    ensures forall k :: k in old(db.stores[storageName]) ==> old(db.stores[storageName][k]) in all.value
  {
    ghost var before := db.stores[storageName];
    bulk := db.AddBulk(storageName, objects);
    AddEachAddedIds(before, objects);
    AddEachAddedStored(before, objects);
    AddEachStore(before, objects);
    all := db.GetAll(storageName);
    ScanYieldsEachRecordOnce(db.stores[storageName]);
  }
}
