/**
 * Sector identifiers and the map dimensions they are derived from
 * (src/flowfields/sectors/mod.rs).
 */
module Sectors {
  import opened Options
  import opened Geometry

  /** A sector `(column, row)` of the map. */
  datatype SectorID = SectorID(column: nat, row: nat) {
    /** The `(column, row)` pair. */
    function Get(): (p: (nat, nat))
      ensures SectorID(p.0, p.1) == this
    {
      (column, row)
    }
  }

  /** The derived ordering of sector ids: lexicographic on `(column, row)`. */
  predicate SectorLess(a: SectorID, b: SectorID) {
    a.column < b.column || (a.column == b.column && a.row < b.row)
  }

  lemma SectorLessIsStrictTotalOrder(a: SectorID, b: SectorID, c: SectorID)
    ensures !SectorLess(a, a)
    ensures SectorLess(a, b) && SectorLess(b, c) ==> SectorLess(a, c)
    ensures a == b || SectorLess(a, b) || SectorLess(b, a)
  {
  }

  /** The world size, the units per sector and the actor scaling factor. */
  datatype MapDimensions = MapDimensions(length: nat, depth: nat, sectorResolution: nat, actorScale: nat) {
    /** Sectors along the x axis. */
    function Columns(): nat
      requires sectorResolution > 0
    {
      length / sectorResolution
    }

    /** Sectors along the z axis. */
    function Rows(): nat
      requires sectorResolution > 0
    {
      depth / sectorResolution
    }
  }

  /** Smallest integer not below `x`. */
  function Ceiling(x: real): (n: int)
    ensures n as real >= x && (n as real) - 1.0 < x
  {
    var f := x.Floor;
    if f as real == x then f else f + 1
  }

  /**
   * `MapDimensions::new`: `None` where the source panics, namely when a side
   * is not a whole number of sectors (a zero resolution panics on the
   * remainder) or the actor size is negative. The actor scale is the actor
   * size measured in cells, rounded up.
   */
  function NewMapDimensions(length: nat, depth: nat, sectorResolution: nat, actorSize: real): (r: Option<MapDimensions>)
    ensures r.Some? <==>
      sectorResolution > 0 && length % sectorResolution == 0 && depth % sectorResolution == 0 && actorSize >= 0.0
    ensures r.Some? ==>
      r.value.length == length && r.value.depth == depth && r.value.sectorResolution == sectorResolution &&
      r.value.actorScale as real >= actorSize * 10.0 / sectorResolution as real &&
      (r.value.actorScale as real) - 1.0 < actorSize * 10.0 / sectorResolution as real
  {
    if sectorResolution == 0 then None
    else if length % sectorResolution > 0 || depth % sectorResolution > 0 then None
    else if actorSize < 0.0 then None
    else
      var scale := Ceiling(actorSize / (sectorResolution as real / 10.0));
      assert actorSize / (sectorResolution as real / 10.0) == actorSize * 10.0 / sectorResolution as real;
      Some(MapDimensions(length, depth, sectorResolution, scale))
  }

  /** Examples from the test suite: a 30 x 30 world of 3 x 3 sectors, a 1920 x 1920 world with 640 px sectors. */
  lemma NewMapDimensionsExamples()
    ensures NewMapDimensions(30, 30, 10, 0.5) == Some(MapDimensions(30, 30, 10, 1))
    ensures NewMapDimensions(1920, 1920, 640, 16.0) == Some(MapDimensions(1920, 1920, 640, 1))
    ensures NewMapDimensions(99, 30, 10, 0.5) == None
    ensures NewMapDimensions(30, 30, 10, -1.0) == None
  {
    assert Ceiling(0.5) == 1;
    assert Ceiling(0.25) == 1;
  }

  /** The eastward move allowed by `get_sector_id_from_ordinal`. */
  predicate MovesEast(dims: MapDimensions, id: SectorID)
    requires dims.sectorResolution > 0
  {
    id.column + 1 < dims.Columns() - 1
  }

  /** The southward move allowed by `get_sector_id_from_ordinal`. */
  predicate MovesSouth(dims: MapDimensions, id: SectorID)
    requires dims.sectorResolution > 0
  {
    id.row + 1 < dims.Rows() - 1
  }

  /**
   * `get_sector_id_from_ordinal`: the sector one step from `id` towards
   * `ordinal`. North and West stop at row and column 0 (`checked_sub`);
   * East and South compare against `count - 1` exactly as written, so the
   * last column and row are never reached. `Zero` gives `None`.
   */
  function SectorIdFromOrdinal(dims: MapDimensions, ordinal: Ordinal, id: SectorID): (r: Option<SectorID>)
    requires dims.sectorResolution > 0
    ensures ordinal == North ==> (r.Some? <==> id.row > 0)
    ensures ordinal == West ==> (r.Some? <==> id.column > 0)
    ensures ordinal == East ==> (r.Some? <==> MovesEast(dims, id))
    ensures ordinal == South ==> (r.Some? <==> MovesSouth(dims, id))
    ensures ordinal == Zero ==> r.None?
    ensures r.Some? ==>
      r.value.column == id.column + Offset(ordinal).0 && r.value.row == id.row + Offset(ordinal).1
  {
    match ordinal
    case North => if id.row > 0 then Some(SectorID(id.column, id.row - 1)) else None
    case East => if MovesEast(dims, id) then Some(SectorID(id.column + 1, id.row)) else None
    case South => if MovesSouth(dims, id) then Some(SectorID(id.column, id.row + 1)) else None
    case West => if id.column > 0 then Some(SectorID(id.column - 1, id.row)) else None
    case NorthEast =>
      if id.row > 0 then
        if MovesEast(dims, id) then Some(SectorID(id.column + 1, id.row - 1)) else None
      else None
    case SouthEast =>
      if MovesSouth(dims, id) then
        if MovesEast(dims, id) then Some(SectorID(id.column + 1, id.row + 1)) else None
      else None
    case SouthWest =>
      if MovesSouth(dims, id) then
        if id.column > 0 then Some(SectorID(id.column - 1, id.row + 1)) else None
      else None
    case NorthWest =>
      if id.row > 0 then
        if id.column > 0 then Some(SectorID(id.column - 1, id.row - 1)) else None
      else None
    case Zero => None
  }

  /**
   * A diagonal move exists exactly when both of its orthogonal components
   * exist, and it lands on the column of the east/west move and the row of
   * the north/south move.
   */
  lemma {:induction false} DiagonalMovesCompose(dims: MapDimensions, id: SectorID, diagonal: Ordinal, vertical: Ordinal, horizontal: Ordinal)
    requires dims.sectorResolution > 0
    requires (diagonal, vertical, horizontal) in
      {(NorthEast, North, East), (SouthEast, South, East), (SouthWest, South, West), (NorthWest, North, West)}
    ensures var d, v, h := SectorIdFromOrdinal(dims, diagonal, id), SectorIdFromOrdinal(dims, vertical, id), SectorIdFromOrdinal(dims, horizontal, id);
      (d.Some? <==> v.Some? && h.Some?) &&
      (d.Some? ==> d.value == SectorID(h.value.column, v.value.row))
  {
  }

  /** The test-suite moves from sector (1, 1) of a 300 x 300 map, and the out-of-bounds North move from (1, 0). */
  lemma SectorIdFromOrdinalExamples()
    ensures var dims := MapDimensions(300, 300, 10, 1);
      SectorIdFromOrdinal(dims, North, SectorID(1, 1)) == Some(SectorID(1, 0)) &&
      SectorIdFromOrdinal(dims, East, SectorID(1, 1)) == Some(SectorID(2, 1)) &&
      SectorIdFromOrdinal(dims, South, SectorID(1, 1)) == Some(SectorID(1, 2)) &&
      SectorIdFromOrdinal(dims, West, SectorID(1, 1)) == Some(SectorID(0, 1)) &&
      SectorIdFromOrdinal(dims, NorthEast, SectorID(1, 1)) == Some(SectorID(2, 0)) &&
      SectorIdFromOrdinal(dims, SouthEast, SectorID(1, 1)) == Some(SectorID(2, 2)) &&
      SectorIdFromOrdinal(dims, SouthWest, SectorID(1, 1)) == Some(SectorID(0, 2)) &&
      SectorIdFromOrdinal(dims, NorthWest, SectorID(1, 1)) == Some(SectorID(0, 0)) &&
      SectorIdFromOrdinal(dims, North, SectorID(1, 0)) == None
  {
  }

  /** As written, the East move from the second-to-last column of a 30-sector-wide map is refused. */
  lemma EastStopsBeforeLastColumn()
    ensures SectorIdFromOrdinal(MapDimensions(300, 300, 10, 1), East, SectorID(28, 0)) == None
  {
  }

  /** `id` is one of the `columns x rows` sectors of the map. */
  predicate InGrid(dims: MapDimensions, id: SectorID)
    requires dims.sectorResolution > 0
  {
    id.column < dims.Columns() && id.row < dims.Rows()
  }

  /**
   * The sector across `side` of `id`: one step in that direction, provided it
   * is a sector of the map. Only the four orthogonal sides have one.
   */
  function NeighbourAcross(dims: MapDimensions, id: SectorID, side: Ordinal): (r: Option<SectorID>)
    requires dims.sectorResolution > 0
    ensures r.Some? ==> IsOrthogonal(side) && InGrid(dims, r.value)
  {
    var column, row := id.column + Offset(side).0, id.row + Offset(side).1;
    if IsOrthogonal(side) && 0 <= column < dims.Columns() && 0 <= row < dims.Rows() then Some(SectorID(column, row))
    else None
  }

  /**
   * `get_ordinal_and_ids_of_neighbouring_sectors`: the neighbour test of
   * `get_sector_neighbours_with_ordinal` with the map's own sector
   * resolution. The limits `columns - 1` and `rows - 1` are `u32` arithmetic
   * in the source and underflow for a map without sectors; the precondition
   * excludes that case.
   */
  function OrdinalAndIdsOfNeighbouringSectors(dims: MapDimensions, id: SectorID): (r: seq<(Ordinal, SectorID)>)
    requires dims.sectorResolution > 0 && dims.Columns() > 0 && dims.Rows() > 0
    ensures forall i :: 0 <= i < |r| ==> IsOrthogonal(r[i].0)
  {
    (if id.row > 0 then [(North, SectorID(id.column, id.row - 1))] else [])
    + (if id.column < dims.Columns() - 1 then [(East, SectorID(id.column + 1, id.row))] else [])
    + (if id.row < dims.Rows() - 1 then [(South, SectorID(id.column, id.row + 1))] else [])
    + (if id.column > 0 then [(West, SectorID(id.column - 1, id.row))] else [])
  }

  /** `get_ids_of_neighbouring_sectors`: the same neighbours without their sides. */
  function IdsOfNeighbouringSectors(dims: MapDimensions, id: SectorID): seq<SectorID>
    requires dims.sectorResolution > 0 && dims.Columns() > 0 && dims.Rows() > 0
  {
    (if id.row > 0 then [SectorID(id.column, id.row - 1)] else [])
    + (if id.column < dims.Columns() - 1 then [SectorID(id.column + 1, id.row)] else [])
    + (if id.row < dims.Rows() - 1 then [SectorID(id.column, id.row + 1)] else [])
    + (if id.column > 0 then [SectorID(id.column - 1, id.row)] else [])
  }

  /** The id-only list is the neighbour list without its sides. */
  lemma NeighbouringSectorsIds(dims: MapDimensions, id: SectorID)
    requires dims.sectorResolution > 0 && dims.Columns() > 0 && dims.Rows() > 0
    ensures var both, ids := OrdinalAndIdsOfNeighbouringSectors(dims, id), IdsOfNeighbouringSectors(dims, id);
      |both| == |ids| <= 4 && forall i :: 0 <= i < |both| ==> both[i].1 == ids[i]
  {
  }

  /**
   * For a sector of the map, every entry of the neighbour list pairs a side
   * with the sector across it, the sides come in North, East, South, West
   * order, and every side that faces another sector is listed.
   */
  lemma NeighbouringSectorsMeaning(dims: MapDimensions, id: SectorID)
    requires dims.sectorResolution > 0 && dims.Columns() > 0 && dims.Rows() > 0 && InGrid(dims, id)
    ensures var both := OrdinalAndIdsOfNeighbouringSectors(dims, id);
      (forall i :: 0 <= i < |both| ==> NeighbourAcross(dims, id, both[i].0) == Some(both[i].1)) &&
      (forall i, j :: 0 <= i < j < |both| ==> OrthogonalRank(both[i].0) < OrthogonalRank(both[j].0)) &&
      (forall side :: NeighbourAcross(dims, id, side).Some? ==> (side, NeighbourAcross(dims, id, side).value) in both)
  {
    var both := OrdinalAndIdsOfNeighbouringSectors(dims, id);
    forall i, j | 0 <= i < j < |both|
      ensures OrthogonalRank(both[i].0) < OrthogonalRank(both[j].0)
    {
    }
  }

  /** With the standard resolution of 10, the neighbour list is the one of `get_sector_neighbours_with_ordinal`. */
  lemma NeighbouringSectorsAtStandardResolution(dims: MapDimensions, id: SectorID)
    requires dims.sectorResolution == SECTOR_RESOLUTION && dims.length >= SECTOR_RESOLUTION && dims.depth >= SECTOR_RESOLUTION
    ensures var both, other := OrdinalAndIdsOfNeighbouringSectors(dims, id), SectorNeighboursWithOrdinal(id.Get(), dims.length, dims.depth);
      |both| == |other| && forall i :: 0 <= i < |both| ==> both[i].0 == other[i].0 && both[i].1.Get() == other[i].1
  {
  }

  /** Being across a side is symmetric: the sector across `side` has this one across the inverse side. */
  lemma NeighbourAcrossInverse(dims: MapDimensions, id: SectorID, side: Ordinal)
    requires dims.sectorResolution > 0 && InGrid(dims, id) && NeighbourAcross(dims, id, side).Some?
    ensures NeighbourAcross(dims, NeighbourAcross(dims, id, side).value, Inverse(side)) == Some(id)
  {
  }
}
