/**
 * The cache of finished flow fields (src/flowfields/fields/mod.rs), keyed by
 * the sector id and the portal the field leads to, so that every actor
 * heading through the same portal reads the same field.
 */
module FieldCache {
  import opened Options
  import opened Flow

  /** The key `(sector_id, portal_id)`: the sector's `(column, row)` and the portal cell's `(column, row)`. */
  datatype CacheKey = CacheKey(sectorId: (nat, nat), portalId: (nat, nat))

  /** The map after `insert_field`: the key holds the new field, replacing any earlier one. */
  function Inserted(m: map<CacheKey, FlowField>, key: CacheKey, field: FlowField): (r: map<CacheKey, FlowField>)
    ensures key in r && r[key] == field
    ensures forall k :: k != key ==> (k in r <==> k in m) && (k in m ==> r[k] == m[k])
  {
    m[key := field]
  }

  /** The map after `remove_field`: the key is gone, present or not before. */
  function Removed(m: map<CacheKey, FlowField>, key: CacheKey): (r: map<CacheKey, FlowField>)
    ensures key !in r
    ensures forall k :: k != key ==> (k in r <==> k in m) && (k in m ==> r[k] == m[k])
  {
    m - {key}
  }

  /** A change to the cache. */
  datatype CacheOp = Insert(key: CacheKey, field: FlowField) | Remove(key: CacheKey)

  /** The cache after a series of changes, applied in order. */
  function Replay(m: map<CacheKey, FlowField>, ops: seq<CacheOp>): map<CacheKey, FlowField>
    decreases |ops|
  {
    if ops == [] then m
    else
      var before := Replay(m, ops[..|ops| - 1]);
      match ops[|ops| - 1]
      case Insert(key, field) => Inserted(before, key, field)
      case Remove(key) => Removed(before, key)
  }

  /** Position of the last change to `key`, `None` when no change touches it. */
  function LastChangeOf(ops: seq<CacheOp>, key: CacheKey): (r: Option<nat>)
    ensures r.Some? ==> r.value < |ops| && ops[r.value].key == key && forall j :: r.value < j < |ops| ==> ops[j].key != key
    ensures r.None? ==> forall j :: 0 <= j < |ops| ==> ops[j].key != key
    decreases |ops|
  {
    if ops == [] then None
    else if ops[|ops| - 1].key == key then Some(|ops| - 1)
    else LastChangeOf(ops[..|ops| - 1], key)
  }

  /**
   * Starting from an empty cache, a key is present after a series of changes
   * exactly when its last change was an insertion, and it then holds the
   * field that insertion stored.
   */
  lemma {:induction false} ReplayFromEmpty(ops: seq<CacheOp>, key: CacheKey)
    ensures key in Replay(map[], ops) <==> LastChangeOf(ops, key).Some? && ops[LastChangeOf(ops, key).value].Insert?
    ensures key in Replay(map[], ops) ==> Replay(map[], ops)[key] == ops[LastChangeOf(ops, key).value].field
    decreases |ops|
  {
    if ops != [] && ops[|ops| - 1].key != key {
      ReplayFromEmpty(ops[..|ops| - 1], key);
    }
  }

  /** A key no change ever inserted is absent from a cache that started empty. */
  lemma NeverInsertedIsAbsent(ops: seq<CacheOp>, key: CacheKey)
    requires forall i :: 0 <= i < |ops| ==> !(ops[i].Insert? && ops[i].key == key)
    ensures key !in Replay(map[], ops)
  {
    ReplayFromEmpty(ops, key);
  }

  /** `FlowFieldCache`: a `BTreeMap` from sector and portal to flow field, changed in place. */
  class FlowFieldCache {
    var fields: map<CacheKey, FlowField>

    /** `FlowFieldCache::default`: an empty cache. */
    constructor ()
      ensures fields == map[]
    {
      fields := map[];
    }

    /** `get_field`: the cached field, `None` when the cache has no record for the key. */
    function GetField(sectorId: (nat, nat), portalId: (nat, nat)): (r: Option<FlowField>)
      reads this
      ensures r.Some? <==> CacheKey(sectorId, portalId) in fields
      ensures r.Some? ==> r.value == fields[CacheKey(sectorId, portalId)]
    {
      if CacheKey(sectorId, portalId) in fields then Some(fields[CacheKey(sectorId, portalId)]) else None
    }

    /** `insert_field`: afterwards the key returns the new field and every other key is as before. */
    method InsertField(sectorId: (nat, nat), portalId: (nat, nat), field: FlowField)
      modifies this
      ensures fields == Inserted(old(fields), CacheKey(sectorId, portalId), field)
      ensures GetField(sectorId, portalId) == Some(field)
    {
      fields := fields[CacheKey(sectorId, portalId) := field];
    }

    /** `remove_field`: afterwards the key returns `None` and every other key is as before. */
    method RemoveField(sectorId: (nat, nat), portalId: (nat, nat))
      modifies this
      ensures fields == Removed(old(fields), CacheKey(sectorId, portalId))
      ensures GetField(sectorId, portalId) == None
    {
      fields := fields - {CacheKey(sectorId, portalId)};
    }
  }
}
