/**
 * `SectorPortals` (src/flowfields/sectors/sector_portals.rs): the portals
 * of every sector, kept in one map that is updated in place. When the cost
 * field of a sector changes, the portals of that sector and of the sectors
 * next to it are recalculated, which brings every sector's portals back in
 * line with the cost fields.
 */
module SectorPortalsMap {
  import opened Options
  import opened Geometry
  import opened Sectors
  import opened FieldCost
  import opened Portal

  /** The sectors `update_portals` recalculates: the neighbours of the changed sector, then the sector itself. */
  function UpdatedSectors(dims: MapDimensions, changed: SectorID): seq<SectorID>
    requires dims.sectorResolution > 0 && dims.Columns() > 0 && dims.Rows() > 0
  {
    IdsOfNeighbouringSectors(dims, changed) + [changed]
  }

  /** For a sector of the map, the recalculated sectors are it and the sectors across its sides. */
  lemma UpdatedSectorsMeaning(dims: MapDimensions, changed: SectorID, id: SectorID)
    requires dims.sectorResolution > 0 && dims.Columns() > 0 && dims.Rows() > 0 && InGrid(dims, changed)
    ensures id in UpdatedSectors(dims, changed) <==> id == changed || exists side :: NeighbourAcross(dims, changed, side) == Some(id)
  {
    var both, ids := OrdinalAndIdsOfNeighbouringSectors(dims, changed), IdsOfNeighbouringSectors(dims, changed);
    NeighbouringSectorsIds(dims, changed);
    NeighbouringSectorsMeaning(dims, changed);
    if id in ids {
      var k :| 0 <= k < |ids| && ids[k] == id;
      assert NeighbourAcross(dims, changed, both[k].0) == Some(id);
    }
    if exists side :: NeighbourAcross(dims, changed, side) == Some(id) {
      var side :| NeighbourAcross(dims, changed, side) == Some(id);
      var k :| 0 <= k < |both| && both[k] == (side, id);
      assert ids[k] == id;
    }
  }

  /** Every sector in `ps` can be recalculated. */
  predicate UpdateSucceeds(ps: map<SectorID, Portals>, fields: map<SectorID, CostField>, dims: MapDimensions, changed: SectorID)
    requires dims.sectorResolution > 0 && dims.Columns() > 0 && dims.Rows() > 0
  {
    forall id :: id in UpdatedSectors(dims, changed) ==> id in ps && RecalculatedPortals(fields, dims, id).Some?
  }

  /** The portals after `update_portals`: recalculated in the updated sectors, kept elsewhere. */
  function Updated(ps: map<SectorID, Portals>, fields: map<SectorID, CostField>, dims: MapDimensions, changed: SectorID)
    : map<SectorID, Portals>
    requires dims.sectorResolution > 0 && dims.Columns() > 0 && dims.Rows() > 0 && UpdateSucceeds(ps, fields, dims, changed)
  {
    map id | id in ps :: if id in UpdatedSectors(dims, changed) then RecalculatedPortals(fields, dims, id).value else ps[id]
  }

  /** Every sector of the map has portals, and only those. */
  ghost predicate CoversMap(ps: map<SectorID, Portals>, dims: MapDimensions)
    requires dims.sectorResolution > 0
  {
    forall id :: id in ps <==> InGrid(dims, id)
  }

  /** The portals of every sector are those recalculation gives for `fields`. */
  ghost predicate Current(ps: map<SectorID, Portals>, fields: map<SectorID, CostField>, dims: MapDimensions)
    requires dims.sectorResolution > 0 && dims.Columns() > 0 && dims.Rows() > 0
  {
    forall id :: id in ps ==> RecalculatedPortals(fields, dims, id) == Some(ps[id])
  }

  /** `fields` and `fields'` hold the same cost field, or none, for `id`. */
  predicate SameField(fields: map<SectorID, CostField>, fields': map<SectorID, CostField>, id: SectorID) {
    (id in fields <==> id in fields') && (id in fields ==> fields[id] == fields'[id])
  }

  /** Recalculation reads only the sector's own field and those of the sectors it lists. */
  lemma RecalculationIsLocal(fields: map<SectorID, CostField>, fields': map<SectorID, CostField>, dims: MapDimensions, id: SectorID)
    requires dims.sectorResolution > 0 && dims.Columns() > 0 && dims.Rows() > 0
    requires SameField(fields, fields', id)
    requires forall k :: 0 <= k < |OrdinalAndIdsOfNeighbouringSectors(dims, id)| ==>
      SameField(fields, fields', OrdinalAndIdsOfNeighbouringSectors(dims, id)[k].1)
    ensures RecalculatedPortals(fields, dims, id) == RecalculatedPortals(fields', dims, id)
  {
    var ns := OrdinalAndIdsOfNeighbouringSectors(dims, id);
    if id in fields && NeighboursHaveFields(fields, ns) {
      forall side | IsOrthogonal(side) ensures SideAfter(fields, id, ns, side) == SideAfter(fields', id, ns, side) {
        var listed := ListedNeighbour(ns, side);
        if listed.Some? {
          var k :| 0 <= k < |ns| && ns[k] == (side, listed.value);
        }
      }
    }
  }

  /**
   * The purpose of `update_portals`: if the portals were current and only
   * the cost field of `changed` has since changed, recalculating `changed`
   * and its neighbours makes every sector's portals current again.
   */
  lemma UpdateRestoresCurrency(ps: map<SectorID, Portals>, fields: map<SectorID, CostField>, fields': map<SectorID, CostField>,
                               dims: MapDimensions, changed: SectorID)
    requires dims.sectorResolution > 0 && dims.Columns() > 0 && dims.Rows() > 0
    requires CoversMap(ps, dims) && Current(ps, fields, dims)
    requires forall id :: id != changed ==> SameField(fields, fields', id)
    requires UpdateSucceeds(ps, fields', dims, changed)
    ensures Current(Updated(ps, fields', dims, changed), fields', dims)
  {
    var q := Updated(ps, fields', dims, changed);
    assert changed in UpdatedSectors(dims, changed);
    forall id | id in q && id !in UpdatedSectors(dims, changed)
      ensures RecalculatedPortals(fields', dims, id) == Some(q[id])
    {
      var ns := OrdinalAndIdsOfNeighbouringSectors(dims, id);
      UpdatedSectorsMeaning(dims, changed, id);
      NeighbouringSectorsMeaning(dims, id);
      forall k | 0 <= k < |ns| ensures SameField(fields, fields', ns[k].1) {
        NeighbourAcrossInverse(dims, id, ns[k].0);
      }
      RecalculationIsLocal(fields, fields', dims, id);
    }
  }

  /** `ps` is `before` with the sectors of `done` recalculated. */
  ghost predicate UpdatedUpTo(ps: map<SectorID, Portals>, before: map<SectorID, Portals>, fields: map<SectorID, CostField>,
                              dims: MapDimensions, done: seq<SectorID>)
    requires dims.sectorResolution > 0 && dims.Columns() > 0 && dims.Rows() > 0
  {
    forall id :: id in ps ==>
      if id in done then RecalculatedPortals(fields, dims, id) == Some(ps[id]) else id in before && ps[id] == before[id]
  }

  lemma UpdatedUpToStep(ps: map<SectorID, Portals>, before: map<SectorID, Portals>, fields: map<SectorID, CostField>,
                        dims: MapDimensions, done: seq<SectorID>, id: SectorID, p: Portals)
    requires dims.sectorResolution > 0 && dims.Columns() > 0 && dims.Rows() > 0
    requires UpdatedUpTo(ps, before, fields, dims, done) && RecalculatedPortals(fields, dims, id) == Some(p)
    ensures UpdatedUpTo(ps[id := p], before, fields, dims, done + [id])
  {
  }

  lemma UpdatedUpToAll(ps: map<SectorID, Portals>, before: map<SectorID, Portals>, fields: map<SectorID, CostField>,
                       dims: MapDimensions, changed: SectorID)
    requires dims.sectorResolution > 0 && dims.Columns() > 0 && dims.Rows() > 0
    requires UpdateSucceeds(before, fields, dims, changed) && ps.Keys == before.Keys
    requires UpdatedUpTo(ps, before, fields, dims, UpdatedSectors(dims, changed))
    ensures ps == Updated(before, fields, dims, changed)
  {
  }

  class SectorPortals {
    var portals: map<SectorID, Portals>

    /** `new`: empty portals for every sector of the map, filled column by column. */
    constructor (dims: MapDimensions)
      requires dims.sectorResolution > 0
      ensures CoversMap(portals, dims) && forall id :: id in portals ==> portals[id] == NO_PORTALS
    {
      var ps: map<SectorID, Portals> := map[];
      var m := 0;
      while m < dims.Columns()
        invariant m <= dims.Columns()
        invariant forall id :: id in ps <==> id.column < m && id.row < dims.Rows()
        invariant forall id :: id in ps ==> ps[id] == NO_PORTALS
      {
        var n := 0;
        while n < dims.Rows()
          invariant n <= dims.Rows()
          invariant forall id :: id in ps <==> (id.column < m && id.row < dims.Rows()) || (id.column == m && id.row < n)
          invariant forall id :: id in ps ==> ps[id] == NO_PORTALS
        {
          ps := ps[SectorID(m, n) := NO_PORTALS];
          n := n + 1;
        }
        m := m + 1;
      }
      portals := ps;
    }

    /**
     * `update_portals`: recalculates the portals of `changed` and of its
     * neighbours. `ok` is false where the source panics, on a listed sector
     * without portals or without a cost field; the sectors keep their keys
     * in any case.
     */
    method UpdatePortals(changed: SectorID, fields: map<SectorID, CostField>, dims: MapDimensions) returns (ok: bool)
      requires dims.sectorResolution > 0 && dims.Columns() > 0 && dims.Rows() > 0
      modifies this
      ensures portals.Keys == old(portals).Keys
      ensures ok <==> UpdateSucceeds(old(portals), fields, dims, changed)
      ensures ok ==> portals == Updated(old(portals), fields, dims, changed)
    {
      var changedIds := IdsOfNeighbouringSectors(dims, changed);
      changedIds := changedIds + [changed];
      assert changedIds == UpdatedSectors(dims, changed);
      ok := RecalculateEach(changedIds, fields, dims);
      if ok {
        UpdatedUpToAll(portals, old(portals), fields, dims, changed);
      }
    }

    /** The loop of `update_portals`, recalculating the sectors of `ids` in turn. */
    method RecalculateEach(ids: seq<SectorID>, fields: map<SectorID, CostField>, dims: MapDimensions) returns (ok: bool)
      requires dims.sectorResolution > 0 && dims.Columns() > 0 && dims.Rows() > 0
      modifies this
      ensures portals.Keys == old(portals).Keys
      ensures ok <==> forall id :: id in ids ==> id in old(portals) && RecalculatedPortals(fields, dims, id).Some?
      ensures ok ==> UpdatedUpTo(portals, old(portals), fields, dims, ids)
    {
      ghost var before := portals;
      for k := 0 to |ids|
        invariant portals.Keys == before.Keys
        invariant forall id :: id in ids[..k] ==> id in before && RecalculatedPortals(fields, dims, id).Some?
        invariant UpdatedUpTo(portals, before, fields, dims, ids[..k])
      {
        var id := ids[k];
        if id !in portals {
          return false;
        }
        var r := RecalculatePortals(portals[id], fields, dims, id);
        if r.None? {
          return false;
        }
        UpdatedUpToStep(portals, before, fields, dims, ids[..k], id, r.value);
        assert ids[..k + 1] == ids[..k] + [id];
        portals := portals[id := r.value];
      }
      assert ids[..|ids|] == ids;
      return true;
    }
  }
}
