/**
 * The older per-sector containers of src/flowfields/sectors.rs, keyed by
 * plain `(column, row)` pairs: the cost field of every sector, the portals
 * of every sector and their update after a cost change, the boundary test
 * of a grid cell, and the neighbour helpers that delegate to the ordinal
 * functions of src/flowfields/utilities.rs.
 *
 * The older `Portals::recalculate_portals` this file calls is not part of
 * this model. Its newer form starts by clearing every side, so its outcome
 * is a function of the sector and the cost fields alone; it is taken here
 * as a parameter `recalculated` giving that outcome for each sector.
 */
module LegacySectors {
  import opened Options
  import opened Geometry
  import opened FieldCost
  import opened Portal

  /** A sector id of the older code: `(column, row)`. */
  type Id = (nat, nat)

  /** The `(x / 10) x (z / 10)` sector ids of a map `x` by `z` units. */
  ghost function MapIds(mapX: nat, mapZ: nat): set<Id> {
    set m: nat, n: nat | m < mapX / SECTOR_RESOLUTION && n < mapZ / SECTOR_RESOLUTION :: (m, n)
  }

  /** The ids of the first `columns` columns of a grid `rows` high. */
  ghost function GridIds(columns: nat, rows: nat): set<Id> {
    set m: nat, n: nat | m < columns && n < rows :: (m, n)
  }

  /** The ids of one column. */
  ghost function ColumnIds(m: nat, rows: nat): set<Id> {
    set n: nat | n < rows :: (m, n)
  }

  lemma {:induction false} ColumnIdsCount(m: nat, rows: nat)
    ensures |ColumnIds(m, rows)| == rows
  {
    if rows > 0 {
      ColumnIdsCount(m, rows - 1);
      assert ColumnIds(m, rows) == ColumnIds(m, rows - 1) + {(m, rows - 1)};
    }
  }

  /** The grid splits into its first columns and its last one. */
  lemma GridIdsSplit(columns: nat, rows: nat)
    requires columns > 0
    ensures GridIds(columns, rows) == GridIds(columns - 1, rows) + ColumnIds(columns - 1, rows)
  {
    forall k | k in GridIds(columns, rows) ensures k in GridIds(columns - 1, rows) + ColumnIds(columns - 1, rows) {
      if k.0 < columns - 1 {
        assert k in GridIds(columns - 1, rows);
      } else {
        assert k in ColumnIds(columns - 1, rows);
      }
    }
  }

  /** The last column shares no id with the columns before it. */
  lemma LastColumnApart(columns: nat, rows: nat)
    requires columns > 0
    ensures GridIds(columns - 1, rows) !! ColumnIds(columns - 1, rows)
  {
    assert forall k :: k in GridIds(columns - 1, rows) ==> k.0 < columns - 1;
  }

  /** A grid of `columns` by `rows` sectors has `columns * rows` ids. */
  lemma {:induction false} GridIdsCount(columns: nat, rows: nat)
    ensures |GridIds(columns, rows)| == columns * rows
  {
    if columns > 0 {
      var front, last := GridIds(columns - 1, rows), ColumnIds(columns - 1, rows);
      GridIdsCount(columns - 1, rows);
      ColumnIdsCount(columns - 1, rows);
      GridIdsSplit(columns, rows);
      LastColumnApart(columns, rows);
      assert |front + last| == |front| + |last|;
      calc {
        columns * rows;
        ((columns - 1) + 1) * rows;
        (columns - 1) * rows + rows;
      }
    }
  }

  /** Both constructors create exactly `(x / 10) * (z / 10)` entries. */
  lemma MapIdsCount(mapX: nat, mapZ: nat)
    ensures |MapIds(mapX, mapZ)| == (mapX / SECTOR_RESOLUTION) * (mapZ / SECTOR_RESOLUTION)
  {
    assert MapIds(mapX, mapZ) == GridIds(mapX / SECTOR_RESOLUTION, mapZ / SECTOR_RESOLUTION);
    GridIdsCount(mapX / SECTOR_RESOLUTION, mapZ / SECTOR_RESOLUTION);
  }

  /** `SectorCostFields`: a `BTreeMap` from sector id to cost field. */
  class SectorCostFields {
    var fields: map<Id, CostField>

    /** `SectorCostFields::new`: the nested loops that give every sector of the map a default cost field. */
    constructor (mapX: nat, mapZ: nat)
      ensures fields.Keys == MapIds(mapX, mapZ)
      ensures forall k :: k in fields ==> fields[k] == DefaultCostField()
    {
      var columnCount, rowCount := mapX / SECTOR_RESOLUTION, mapZ / SECTOR_RESOLUTION;
      var m := map[];
      for i := 0 to columnCount
        invariant m.Keys == GridIds(i, rowCount)
        invariant forall k :: k in m ==> m[k] == DefaultCostField()
      {
        for j := 0 to rowCount
          invariant m.Keys == GridIds(i, rowCount) + set n: nat | n < j :: (i, n)
          invariant forall k :: k in m ==> m[k] == DefaultCostField()
        {
          m := m[(i, j) := DefaultCostField()];
        }
        assert GridIds(i + 1, rowCount) == GridIds(i, rowCount) + set n: nat | n < rowCount :: (i, n);
      }
      fields := m;
    }
  }

  /** The sectors `update_portals` recalculates: the neighbours of the changed sector, then the sector itself. */
  function UpdatedIds(changed: Id, mapX: nat, mapZ: nat): seq<Id>
    requires mapX >= SECTOR_RESOLUTION && mapZ >= SECTOR_RESOLUTION
  {
    SectorNeighbours(changed, mapX, mapZ) + [changed]
  }

  /** No sector is recalculated twice in one update. */
  lemma UpdatedIdsDistinct(changed: Id, mapX: nat, mapZ: nat)
    requires mapX >= SECTOR_RESOLUTION && mapZ >= SECTOR_RESOLUTION
    ensures var ids := UpdatedIds(changed, mapX, mapZ); forall i, j :: 0 <= i < j < |ids| ==> ids[i] != ids[j]
  {
  }

  /** The map after recalculating the listed sectors one after the other; `None` at the first one missing. */
  function RecalculatedAll(ps: map<Id, Portals>, ids: seq<Id>, recalculated: Id -> Portals): Option<map<Id, Portals>>
    decreases |ids|
  {
    if ids == [] then Some(ps)
    else
      match RecalculatedAll(ps, ids[..|ids| - 1], recalculated)
      case None => None
      case Some(q) => if ids[|ids| - 1] in q then Some(q[ids[|ids| - 1] := recalculated(ids[|ids| - 1])]) else None
  }

  /**
   * Recalculating a list of sectors succeeds exactly when all of them are in
   * the map; afterwards the listed sectors hold their recalculated portals,
   * every other sector keeps its own, and no sector is added.
   */
  lemma {:induction false} RecalculatedAllMeaning(ps: map<Id, Portals>, ids: seq<Id>, recalculated: Id -> Portals)
    ensures RecalculatedAll(ps, ids, recalculated).Some? <==> forall i :: 0 <= i < |ids| ==> ids[i] in ps
    ensures RecalculatedAll(ps, ids, recalculated).Some? ==>
      var q := RecalculatedAll(ps, ids, recalculated).value;
      q.Keys == ps.Keys && forall k :: k in q ==> q[k] == if k in ids then recalculated(k) else ps[k]
    decreases |ids|
  {
    if ids != [] {
      var front := ids[..|ids| - 1];
      RecalculatedAllMeaning(ps, front, recalculated);
      assert ids == front + [ids[|ids| - 1]];
      assert forall i :: 0 <= i < |front| ==> front[i] == ids[i];
    }
  }

  /** `SectorPortals`: a `BTreeMap` from sector id to portals. */
  class SectorPortals {
    var portals: map<Id, Portals>

    /** `SectorPortals::new`: the nested loops that give every sector of the map an empty set of portals. */
    constructor (mapX: nat, mapZ: nat)
      ensures portals.Keys == MapIds(mapX, mapZ)
      ensures forall k :: k in portals ==> portals[k] == NO_PORTALS
    {
      var columnCount, rowCount := mapX / SECTOR_RESOLUTION, mapZ / SECTOR_RESOLUTION;
      var m := map[];
      for i := 0 to columnCount
        invariant m.Keys == GridIds(i, rowCount)
        invariant forall k :: k in m ==> m[k] == NO_PORTALS
      {
        for j := 0 to rowCount
          invariant m.Keys == GridIds(i, rowCount) + set n: nat | n < j :: (i, n)
          invariant forall k :: k in m ==> m[k] == NO_PORTALS
        {
          m := m[(i, j) := NO_PORTALS];
        }
        assert GridIds(i + 1, rowCount) == GridIds(i, rowCount) + set n: nat | n < rowCount :: (i, n);
      }
      portals := m;
    }

    /**
     * `update_portals`: the changed sector and its orthogonal neighbours get
     * recalculated portals and every other sector keeps its own; `ok` is
     * false where the source's `unwrap` panics on a sector the map lacks.
     * The map sides must be at least one sector long, since the neighbour
     * limits are `u32` arithmetic that underflows below that.
     */
    method UpdatePortals(changed: Id, mapX: nat, mapZ: nat, recalculated: Id -> Portals) returns (ok: bool)
      requires mapX >= SECTOR_RESOLUTION && mapZ >= SECTOR_RESOLUTION
      modifies this
      ensures ok <==> RecalculatedAll(old(portals), UpdatedIds(changed, mapX, mapZ), recalculated).Some?
      ensures ok ==> portals == RecalculatedAll(old(portals), UpdatedIds(changed, mapX, mapZ), recalculated).value
    {
      var ids := SectorNeighbours(changed, mapX, mapZ);
      ids := ids + [changed];
      for k := 0 to |ids|
        invariant RecalculatedAll(old(portals), ids[..k], recalculated) == Some(portals)
      {
        assert ids[..k + 1][..k] == ids[..k];
        if ids[k] !in portals {
          RecalculatedAllMeaning(old(portals), ids, recalculated);
          RecalculatedAllMeaning(old(portals), ids[..k], recalculated);
          return false;
        }
        portals := portals[ids[k] := recalculated(ids[k])];
      }
      assert ids[..|ids|] == ids;
      return true;
    }
  }

  /** Every sector of the map has every orthogonal neighbour inside the map as well. */
  lemma NeighboursInMap(changed: Id, mapX: nat, mapZ: nat)
    requires mapX >= SECTOR_RESOLUTION && mapZ >= SECTOR_RESOLUTION && changed in MapIds(mapX, mapZ)
    ensures forall i :: 0 <= i < |UpdatedIds(changed, mapX, mapZ)| ==> UpdatedIds(changed, mapX, mapZ)[i] in MapIds(mapX, mapZ)
  {
    var ids := UpdatedIds(changed, mapX, mapZ);
    forall i | 0 <= i < |ids| ensures ids[i] in MapIds(mapX, mapZ) {
      assert ids[i].0 < mapX / SECTOR_RESOLUTION && ids[i].1 < mapZ / SECTOR_RESOLUTION;
    }
  }

  /**
   * On a map whose portals cover every sector, an update of any sector
   * succeeds and recalculates exactly that sector and its orthogonal
   * neighbours.
   */
  lemma UpdateOnFullMap(ps: map<Id, Portals>, changed: Id, mapX: nat, mapZ: nat, recalculated: Id -> Portals)
    requires mapX >= SECTOR_RESOLUTION && mapZ >= SECTOR_RESOLUTION
    requires ps.Keys == MapIds(mapX, mapZ) && changed in ps
    ensures RecalculatedAll(ps, UpdatedIds(changed, mapX, mapZ), recalculated).Some?
    ensures var q := RecalculatedAll(ps, UpdatedIds(changed, mapX, mapZ), recalculated).value;
      q.Keys == ps.Keys &&
      forall k :: k in q ==> q[k] == if k == changed || k in SectorNeighbours(changed, mapX, mapZ) then recalculated(k) else ps[k]
  {
    NeighboursInMap(changed, mapX, mapZ);
    RecalculatedAllMeaning(ps, UpdatedIds(changed, mapX, mapZ), recalculated);
  }

  /**
   * `get_boundary_ordinal_from_grid_cell`: the sides of the sector a cell
   * touches, in North, East, South, West order; `None` where the source
   * panics, for a cell on no side.
   */
  function BoundaryOrdinalsOfGridCell(cell: (nat, nat)): (r: Option<seq<Ordinal>>)
  {
    var boundaries :=
      (if cell.1 == 0 then [North] else [])
      + (if cell.0 == FIELD_RESOLUTION - 1 then [East] else [])
      + (if cell.1 == FIELD_RESOLUTION - 1 then [South] else [])
      + (if cell.0 == 0 then [West] else []);
    if boundaries != [] then Some(boundaries) else None
  }

  /**
   * A cell is on a boundary exactly when its row or column is 0 or 9; each
   * side it touches is listed once, in order, so a corner of the field gives
   * two entries and any other boundary cell one. On the field it agrees
   * with the boundary helper of the newer portals.
   */
  lemma BoundaryOrdinalsOfGridCellMeaning(cell: (nat, nat))
    ensures BoundaryOrdinalsOfGridCell(cell).Some? <==> cell.0 == 0 || cell.1 == 0 || cell.0 == FIELD_RESOLUTION - 1 || cell.1 == FIELD_RESOLUTION - 1
    ensures BoundaryOrdinalsOfGridCell(cell).Some? ==> var r := BoundaryOrdinalsOfGridCell(cell).value;
      (North in r <==> cell.1 == 0) && (East in r <==> cell.0 == FIELD_RESOLUTION - 1) &&
      (South in r <==> cell.1 == FIELD_RESOLUTION - 1) && (West in r <==> cell.0 == 0) &&
      (forall i, j :: 0 <= i < j < |r| ==> OrthogonalRank(r[i]) < OrthogonalRank(r[j]))
    ensures cell.0 < FIELD_RESOLUTION && cell.1 < FIELD_RESOLUTION && BoundaryOrdinalsOfGridCell(cell).Some? ==>
      BoundaryOrdinalsOfGridCell(cell).value == BoundaryOrdinals(FieldCell(cell.0, cell.1)) &&
      (|BoundaryOrdinalsOfGridCell(cell).value| == 2 <==> (cell.0 == 0 || cell.0 == FIELD_RESOLUTION - 1) && (cell.1 == 0 || cell.1 == FIELD_RESOLUTION - 1))
  {
    if BoundaryOrdinalsOfGridCell(cell).Some? {
      var r := BoundaryOrdinalsOfGridCell(cell).value;
      forall i, j | 0 <= i < j < |r| ensures OrthogonalRank(r[i]) < OrthogonalRank(r[j]) {
      }
    }
  }

  /** `get_ids_of_neighbouring_sectors`: delegates to `get_sector_neighbours`. */
  function IdsOfNeighbouringSectors(id: Id, mapX: nat, mapZ: nat): seq<Id>
    requires mapX >= SECTOR_RESOLUTION && mapZ >= SECTOR_RESOLUTION
  {
    SectorNeighbours(id, mapX, mapZ)
  }

  /** `get_ordinal_and_ids_of_neighbouring_sectors`: delegates to `get_sector_neighbours_with_ordinal`. */
  function OrdinalAndIdsOfNeighbouringSectors(id: Id, mapX: nat, mapZ: nat): seq<(Ordinal, Id)>
    requires mapX >= SECTOR_RESOLUTION && mapZ >= SECTOR_RESOLUTION
  {
    SectorNeighboursWithOrdinal(id, mapX, mapZ)
  }

  /** The unit tests of the two neighbour helpers, on a map of 200 x 200 units. */
  lemma NeighbourHelperExamples()
    ensures IdsOfNeighbouringSectors((4, 0), 200, 200) == [(5, 0), (4, 1), (3, 0)]
    ensures IdsOfNeighbouringSectors((19, 3), 200, 200) == [(19, 2), (19, 4), (18, 3)]
    ensures IdsOfNeighbouringSectors((5, 19), 200, 200) == [(5, 18), (6, 19), (4, 19)]
    ensures IdsOfNeighbouringSectors((0, 5), 200, 200) == [(0, 4), (1, 5), (0, 6)]
    ensures IdsOfNeighbouringSectors((5, 7), 200, 200) == [(5, 6), (6, 7), (5, 8), (4, 7)]
    ensures OrdinalAndIdsOfNeighbouringSectors((4, 0), 200, 200) == [(East, (5, 0)), (South, (4, 1)), (West, (3, 0))]
    ensures OrdinalAndIdsOfNeighbouringSectors((19, 3), 200, 200) == [(North, (19, 2)), (South, (19, 4)), (West, (18, 3))]
    ensures OrdinalAndIdsOfNeighbouringSectors((5, 19), 200, 200) == [(North, (5, 18)), (East, (6, 19)), (West, (4, 19))]
    ensures OrdinalAndIdsOfNeighbouringSectors((0, 5), 200, 200) == [(North, (0, 4)), (East, (1, 5)), (South, (0, 6))]
    ensures OrdinalAndIdsOfNeighbouringSectors((5, 7), 200, 200) == [(North, (5, 6)), (East, (6, 7)), (South, (5, 8)), (West, (4, 7))]
  {
  }
}
