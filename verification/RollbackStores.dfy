/** The three versioned stores a rollback restores (rollback-executor.ts), as classes over a value model. */
module RollbackStores {
  import opened Strings
  import opened TargetOrder

  /** A stored value; `falsy` is its JavaScript truthiness, which `getVersion` confuses with absence. */
  datatype Value = Value(content: int, falsy: bool)

  type Table = map<string, Value>

  /** Everything the stores hold. A cache entry None is the value `undefined`. */
  datatype Stores = Stores(data: map<string, Value>, history: map<string, seq<Value>>,
                           cache: map<string, Option<Value>>, versions: map<string, seq<Value>>,
                           tables: map<string, Table>, snapshots: map<string, Table>)

  function SnapshotKey(table: string): string {
    table + ":snapshot"
  }

  /** `hist[v]`: None outside the array and for NaN. */
  function At(hist: seq<Value>, v: Option<int>): Option<Value> {
    if v.Some? && 0 <= v.value < |hist| then Some(hist[v.value]) else None
  }

  function HistoryOf(history: map<string, seq<Value>>, key: string): seq<Value> {
    if key in history then history[key] else []
  }

  /** `getVersion`: a falsy stored value reads as missing. */
  function VersionOf(history: map<string, seq<Value>>, key: string, v: Option<int>): Option<Value> {
    var found := At(HistoryOf(history, key), v);
    if found.Some? && found.value.falsy then None else found
  }

  predicate CacheHas(versions: map<string, seq<Value>>, key: string, v: Option<int>) {
    key in versions && (v.Some? ==> 0 <= v.value < |versions[key]|)
  }

  class StateStore {
    var data: map<string, Value>
    var history: map<string, seq<Value>>

    constructor ()
      ensures data == map[] && history == map[]
    {
      data, history := map[], map[];
    }

    method Set(key: string, value: Value)
      modifies this
      ensures data == old(data)[key := value]
      ensures history == old(history)[key := HistoryOf(old(history), key) + [value]]
    {
      if key !in history {
        history := history[key := []];
      }
      history := history[key := history[key] + [value]];
      data := data[key := value];
    }

    method Rollback(key: string, targetVersion: Option<int>) returns (done: bool)
      modifies this
      ensures history == old(history)
      ensures done <==> VersionOf(history, key, targetVersion).Some?
      ensures data == if done then old(data)[key := VersionOf(history, key, targetVersion).value] else old(data)
    {
      var version := VersionOf(history, key, targetVersion);
      if version.None? {
        return false;
      }
      data := data[key := version.value];
      return true;
    }
  }

  class DatabaseRollback {
    var db: map<string, Table>
    var snapshots: map<string, Table>

    constructor ()
      ensures db == map[] && snapshots == map[]
    {
      db, snapshots := map[], map[];
    }

    method Insert(table: string, id: string, record: Value)
      modifies this
      ensures snapshots == old(snapshots)
      ensures db == old(db)[table := (if table in old(db) then old(db)[table] else map[])[id := record]]
    {
      if table !in db {
        db := db[table := map[]];
      }
      db := db[table := db[table][id := record]];
    }

    method Snapshot(table: string)
      modifies this
      ensures db == old(db)
      ensures snapshots == if table in db then old(snapshots)[SnapshotKey(table) := db[table]] else old(snapshots)
    {
      if table in db {
        snapshots := snapshots[SnapshotKey(table) := db[table]];
      }
    }

    method RollbackToSnapshot(table: string) returns (done: bool)
      modifies this
      ensures snapshots == old(snapshots)
      ensures done <==> SnapshotKey(table) in snapshots
      ensures db == if done then old(db)[table := snapshots[SnapshotKey(table)]] else old(db)
    {
      if SnapshotKey(table) !in snapshots {
        return false;
      }
      db := db[table := snapshots[SnapshotKey(table)]];
      return true;
    }
  }

  class CacheRollback {
    var cache: map<string, Option<Value>>
    var versions: map<string, seq<Value>>

    constructor ()
      ensures cache == map[] && versions == map[]
    {
      cache, versions := map[], map[];
    }

    method Set(key: string, value: Value)
      modifies this
      ensures cache == old(cache)[key := Some(value)]
      ensures versions == old(versions)[key := HistoryOf(old(versions), key) + [value]]
    {
      if key !in versions {
        versions := versions[key := []];
      }
      versions := versions[key := versions[key] + [value]];
      cache := cache[key := Some(value)];
    }

    method Invalidate(key: string)
      modifies this
      ensures cache == old(cache) - {key} && versions == old(versions)
    {
      cache := cache - {key};
    }

    /** Both range comparisons are false for NaN, so a version that is no number is taken. */
    method Rollback(key: string, version: Option<int>) returns (done: bool)
      modifies this
      ensures versions == old(versions)
      ensures done <==> CacheHas(versions, key, version)
      ensures cache == if done then old(cache)[key := At(versions[key], version)] else old(cache)
    {
      if key !in versions || (version.Some? && (version.value < 0 || version.value >= |versions[key]|)) {
        return false;
      }
      cache := cache[key := At(versions[key], version)];
      return true;
    }
  }
}
