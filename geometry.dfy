/**
 * Grid geometry shared by every field: the `Ordinal` directions, the
 * `(column, row)` field cell, neighbour enumeration of cells and of sectors,
 * direction inversion and the direction from one cell or sector to the next
 * (src/flowfields/utilities.rs).
 *
 * Row 0 is the northern edge of a field and column 0 its western edge, so
 * North decreases the row and East increases the column.
 */
module Geometry {
  import opened Options

  /** Cells along each side of every field. */
  const FIELD_RESOLUTION: nat := 10
  /** World units per sector assumed by the sector neighbour helpers. */
  const SECTOR_RESOLUTION: nat := 10

  /** A column or row index inside a field. */
  type Coord = x: nat | x < 10

  /** A cell of a field, `(column, row)`. */
  datatype FieldCell = FieldCell(column: Coord, row: Coord)

  datatype Ordinal =
    | North | East | South | West
    | NorthEast | SouthEast | SouthWest | NorthWest
    /** No direction: marks an impassable cell of a flow field. */
    | Zero

  const ORTHOGONALS: seq<Ordinal> := [North, East, South, West]
  const DIAGONALS: seq<Ordinal> := [NorthEast, SouthEast, SouthWest, NorthWest]

  /** Column and row change of one step towards `o`. */
  function Offset(o: Ordinal): (int, int) {
    match o
    case North => (0, -1)
    case East => (1, 0)
    case South => (0, 1)
    case West => (-1, 0)
    case NorthEast => (1, -1)
    case SouthEast => (1, 1)
    case SouthWest => (-1, 1)
    case NorthWest => (-1, -1)
    case Zero => (0, 0)
  }

  predicate IsOrthogonal(o: Ordinal) {
    o == North || o == East || o == South || o == West
  }

  function Abs(x: int): nat {
    if x < 0 then -x else x
  }

  /** `b` is one of the four orthogonal neighbours of `a`. */
  predicate OrthogonallyAdjacent(a: FieldCell, b: FieldCell) {
    Abs(b.column - a.column) + Abs(b.row - a.row) == 1
  }

  /** `b` is one of the eight neighbours of `a`. */
  predicate Adjacent(a: FieldCell, b: FieldCell) {
    a != b && Abs(b.column - a.column) <= 1 && Abs(b.row - a.row) <= 1
  }

  /**
   * The cell one step from `cell` towards `o` when it lies inside the field.
   * Stands for `Ordinal::get_cell_neighbour`, whose body is not part of this
   * model; its callers only rely on this behaviour.
   */
  function CellNeighbour(cell: FieldCell, o: Ordinal): Option<FieldCell> {
    var c := cell.column + Offset(o).0;
    var r := cell.row + Offset(o).1;
    if o != Zero && 0 <= c < FIELD_RESOLUTION && 0 <= r < FIELD_RESOLUTION then
      Some(FieldCell(c, r))
    else
      None
  }

  /** Reference enumeration: the in-field cells one step from `cell` towards each of `dirs`, in the order of `dirs`. */
  function StepsToward(cell: FieldCell, dirs: seq<Ordinal>): seq<FieldCell> {
    if dirs == [] then []
    else
      (match CellNeighbour(cell, dirs[0]) case Some(n) => [n] case None => [])
      + StepsToward(cell, dirs[1..])
  }

  /** `get_orthogonal_cell_neighbours`: the northern, eastern, southern and western neighbours that exist. */
  function OrthogonalNeighbours(cell: FieldCell): (r: seq<FieldCell>)
    ensures |r| <= 4
    ensures forall n :: n in r <==> OrthogonallyAdjacent(cell, n)
  {
    (if cell.row > 0 then [FieldCell(cell.column, cell.row - 1)] else [])
    + (if cell.column < FIELD_RESOLUTION - 1 then [FieldCell(cell.column + 1, cell.row)] else [])
    + (if cell.row < FIELD_RESOLUTION - 1 then [FieldCell(cell.column, cell.row + 1)] else [])
    + (if cell.column > 0 then [FieldCell(cell.column - 1, cell.row)] else [])
  }

  /** `get_all_cell_neighbours`: the orthogonal neighbours, then the diagonal ones that exist. */
  function AllNeighbours(cell: FieldCell): (r: seq<FieldCell>)
    ensures |r| <= 8
    ensures |OrthogonalNeighbours(cell)| <= |r| && r[..|OrthogonalNeighbours(cell)|] == OrthogonalNeighbours(cell)
    ensures forall n :: n in r <==> Adjacent(cell, n)
  {
    OrthogonalNeighbours(cell) + DiagonalNeighbours(cell)
  }

  /** The north-eastern, south-eastern, south-western and north-western neighbours that exist. */
  function DiagonalNeighbours(cell: FieldCell): seq<FieldCell> {
    var c, w := cell.column, cell.row;
    (if w > 0 && c < FIELD_RESOLUTION - 1 then [FieldCell(c + 1, w - 1)] else [])
    + (if w < FIELD_RESOLUTION - 1 && c < FIELD_RESOLUTION - 1 then [FieldCell(c + 1, w + 1)] else [])
    + (if w < FIELD_RESOLUTION - 1 && c > 0 then [FieldCell(c - 1, w + 1)] else [])
    + (if w > 0 && c > 0 then [FieldCell(c - 1, w - 1)] else [])
  }

  /** The orthogonal neighbours come in North, East, South, West order. */
  lemma OrthogonalNeighboursInOrder(cell: FieldCell)
    ensures OrthogonalNeighbours(cell) == StepsToward(cell, ORTHOGONALS)
  {
    StepsTowardFour(cell, ORTHOGONALS);
    OrthogonalSteps(cell);
  }

  /** The single steps towards each entry of `ORTHOGONALS`. */
  lemma OrthogonalSteps(cell: FieldCell)
    ensures ORTHOGONALS[0] == North && ORTHOGONALS[1] == East && ORTHOGONALS[2] == South && ORTHOGONALS[3] == West
    ensures Step(cell, North) == if cell.row > 0 then [FieldCell(cell.column, cell.row - 1)] else []
    ensures Step(cell, East) == if cell.column < FIELD_RESOLUTION - 1 then [FieldCell(cell.column + 1, cell.row)] else []
    ensures Step(cell, South) == if cell.row < FIELD_RESOLUTION - 1 then [FieldCell(cell.column, cell.row + 1)] else []
    ensures Step(cell, West) == if cell.column > 0 then [FieldCell(cell.column - 1, cell.row)] else []
  {
  }

  /** The in-field cell one step from `cell` towards `o`, as a list of at most one cell. */
  function Step(cell: FieldCell, o: Ordinal): seq<FieldCell> {
    match CellNeighbour(cell, o) case Some(n) => [n] case None => []
  }

  /** Stepping towards four directions enumerates the four single steps in order. */
  lemma StepsTowardFour(cell: FieldCell, dirs: seq<Ordinal>)
    requires |dirs| == 4
    ensures StepsToward(cell, dirs) == Step(cell, dirs[0]) + Step(cell, dirs[1]) + Step(cell, dirs[2]) + Step(cell, dirs[3])
  {
    var d1 := dirs[1..];
    var d2 := d1[1..];
    var d3 := d2[1..];
    StepsTowardCons(cell, dirs);
    StepsTowardCons(cell, d1);
    StepsTowardCons(cell, d2);
    StepsTowardCons(cell, d3);
    assert d3[1..] == [];
    var sa, sb, sc, sd := Step(cell, dirs[0]), Step(cell, dirs[1]), Step(cell, dirs[2]), Step(cell, dirs[3]);
    assert sa + (sb + (sc + (sd + []))) == sa + sb + sc + sd;
  }

  /** Stepping towards a non-empty list is the first step followed by the steps towards the rest. */
  lemma StepsTowardCons(cell: FieldCell, dirs: seq<Ordinal>)
    requires |dirs| > 0
    ensures StepsToward(cell, dirs) == Step(cell, dirs[0]) + StepsToward(cell, dirs[1..])
  {
  }

  /** Stepping towards `a + b` enumerates the steps towards `a` and then those towards `b`. */
  lemma {:induction false} StepsTowardAppend(cell: FieldCell, a: seq<Ordinal>, b: seq<Ordinal>)
    ensures StepsToward(cell, a + b) == StepsToward(cell, a) + StepsToward(cell, b)
  {
    if a == [] {
      assert a + b == b;
    } else {
      assert (a + b)[0] == a[0];
      assert (a + b)[1..] == a[1..] + b;
      StepsTowardAppend(cell, a[1..], b);
    }
  }

  /** All neighbours come in North, East, South, West, NorthEast, SouthEast, SouthWest, NorthWest order. */
  lemma AllNeighboursInOrder(cell: FieldCell)
    ensures AllNeighbours(cell) == StepsToward(cell, ORTHOGONALS + DIAGONALS)
  {
    OrthogonalNeighboursInOrder(cell);
    StepsTowardAppend(cell, ORTHOGONALS, DIAGONALS);
    DiagonalNeighboursInOrder(cell);
  }

  lemma DiagonalNeighboursInOrder(cell: FieldCell)
    ensures DiagonalNeighbours(cell) == StepsToward(cell, DIAGONALS)
  {
    StepsTowardFour(cell, DIAGONALS);
    DiagonalSteps(cell);
  }

  /** The single steps towards each entry of `DIAGONALS`. */
  lemma DiagonalSteps(cell: FieldCell)
    ensures DIAGONALS[0] == NorthEast && DIAGONALS[1] == SouthEast && DIAGONALS[2] == SouthWest && DIAGONALS[3] == NorthWest
    ensures Step(cell, NorthEast) == if cell.row > 0 && cell.column < FIELD_RESOLUTION - 1 then [FieldCell(cell.column + 1, cell.row - 1)] else []
    ensures Step(cell, SouthEast) == if cell.row < FIELD_RESOLUTION - 1 && cell.column < FIELD_RESOLUTION - 1 then [FieldCell(cell.column + 1, cell.row + 1)] else []
    ensures Step(cell, SouthWest) == if cell.row < FIELD_RESOLUTION - 1 && cell.column > 0 then [FieldCell(cell.column - 1, cell.row + 1)] else []
    ensures Step(cell, NorthWest) == if cell.row > 0 && cell.column > 0 then [FieldCell(cell.column - 1, cell.row - 1)] else []
  {
  }

  /** `inverse`: the opposite direction; Zero stays Zero. */
  function Inverse(o: Ordinal): (r: Ordinal)
    ensures Offset(r) == (-Offset(o).0, -Offset(o).1)
  {
    match o
    case North => South
    case East => West
    case South => North
    case West => East
    case NorthEast => SouthWest
    case SouthEast => NorthWest
    case SouthWest => NorthEast
    case NorthWest => SouthEast
    case Zero => Zero
  }

  lemma InverseIsInvolution(o: Ordinal)
    ensures Inverse(Inverse(o)) == o
    ensures IsOrthogonal(o) <==> IsOrthogonal(Inverse(o))
  {
  }

  /** Stepping back in the inverse direction returns to the starting cell. */
  lemma CellNeighbourInverse(cell: FieldCell, o: Ordinal)
    requires CellNeighbour(cell, o).Some?
    ensures CellNeighbour(CellNeighbour(cell, o).value, Inverse(o)) == Some(cell)
  {
  }

  /**
   * `cell_to_cell_direction(target, source)`: the direction of the step from
   * `source` to `target`; `None` where the source panics because the cells
   * are not neighbours.
   */
  function CellToCellDirection(target: FieldCell, source: FieldCell): (r: Option<Ordinal>)
    ensures r.Some? <==> Adjacent(source, target)
    ensures r.Some? ==> r.value != Zero && CellNeighbour(source, r.value) == Some(target)
  {
    var d := (target.column - source.column, target.row - source.row);
    if d == (0, -1) then Some(North)
    else if d == (1, -1) then Some(NorthEast)
    else if d == (1, 0) then Some(East)
    else if d == (1, 1) then Some(SouthEast)
    else if d == (0, 1) then Some(South)
    else if d == (-1, 1) then Some(SouthWest)
    else if d == (-1, 0) then Some(West)
    else if d == (-1, -1) then Some(NorthWest)
    else None
  }

  /** The direction of a step is recovered from its two cells. */
  lemma CellToCellDirectionOfStep(cell: FieldCell, o: Ordinal)
    requires CellNeighbour(cell, o).Some?
    ensures CellToCellDirection(CellNeighbour(cell, o).value, cell) == Some(o)
  {
  }

  /** Sector id offsets as the source computes them, `(column, row)` of `u32`. */
  predicate SectorsOrthogonallyAdjacent(a: (nat, nat), b: (nat, nat)) {
    Abs(b.0 - a.0) + Abs(b.1 - a.1) == 1
  }

  /**
   * `sector_to_sector_direction(target, source)`: the direction from `source`
   * to an orthogonally adjacent `target`, `None` (logged as an error) for any
   * other pair.
   */
  function SectorToSectorDirection(target: (nat, nat), source: (nat, nat)): (r: Option<Ordinal>)
    ensures r.Some? <==> SectorsOrthogonallyAdjacent(source, target)
    ensures r.Some? ==> IsOrthogonal(r.value) && Offset(r.value) == (target.0 - source.0, target.1 - source.1)
  {
    var d := (target.0 - source.0, target.1 - source.1);
    if d == (0, -1) then Some(North)
    else if d == (1, 0) then Some(East)
    else if d == (0, 1) then Some(South)
    else if d == (-1, 0) then Some(West)
    else None
  }

  /** Largest sector column (or row) index of a map side `size` units long: `size / 10 - 1`. */
  function SectorLimit(size: nat): int {
    size / SECTOR_RESOLUTION - 1
  }

  /** `id` names a sector of a map `mapX` by `mapZ` units. */
  predicate SectorInMap(id: (nat, nat), mapX: nat, mapZ: nat) {
    id.0 <= SectorLimit(mapX) && id.1 <= SectorLimit(mapZ)
  }

  /** Position of an orthogonal ordinal in the North, East, South, West order. */
  function OrthogonalRank(o: Ordinal): nat {
    match o
    case North => 0
    case East => 1
    case South => 2
    case West => 3
    case _ => 4
  }

  /**
   * `get_sector_neighbours`. The limits are `u32` arithmetic in the source,
   * which underflows (and panics) for a map narrower than one sector; the
   * precondition excludes that case.
   */
  function SectorNeighbours(id: (nat, nat), mapX: nat, mapZ: nat): seq<(nat, nat)>
    requires mapX >= SECTOR_RESOLUTION && mapZ >= SECTOR_RESOLUTION
  {
    var columnLimit := SectorLimit(mapX);
    var rowLimit := SectorLimit(mapZ);
    (if id.1 > 0 then [(id.0, id.1 - 1)] else [])
    + (if id.0 < columnLimit then [(id.0 + 1, id.1)] else [])
    + (if id.1 < rowLimit then [(id.0, id.1 + 1)] else [])
    + (if id.0 > 0 then [(id.0 - 1, id.1)] else [])
  }

  /** `get_sector_portal_ordinals`: the sides of `id` that face another sector. */
  function SectorPortalOrdinals(id: (nat, nat), mapX: nat, mapZ: nat): seq<Ordinal>
    requires mapX >= SECTOR_RESOLUTION && mapZ >= SECTOR_RESOLUTION
  {
    var columnLimit := SectorLimit(mapX);
    var rowLimit := SectorLimit(mapZ);
    (if id.1 > 0 then [North] else [])
    + (if id.0 < columnLimit then [East] else [])
    + (if id.1 < rowLimit then [South] else [])
    + (if id.0 > 0 then [West] else [])
  }

  /** `get_sector_neighbours_with_ordinal`. */
  function SectorNeighboursWithOrdinal(id: (nat, nat), mapX: nat, mapZ: nat): seq<(Ordinal, (nat, nat))>
    requires mapX >= SECTOR_RESOLUTION && mapZ >= SECTOR_RESOLUTION
  {
    var columnLimit := SectorLimit(mapX);
    var rowLimit := SectorLimit(mapZ);
    (if id.1 > 0 then [(North, (id.0, id.1 - 1))] else [])
    + (if id.0 < columnLimit then [(East, (id.0 + 1, id.1))] else [])
    + (if id.1 < rowLimit then [(South, (id.0, id.1 + 1))] else [])
    + (if id.0 > 0 then [(West, (id.0 - 1, id.1))] else [])
  }

  /** The three sector neighbour functions agree entry by entry. */
  lemma SectorNeighbourFunctionsAgree(id: (nat, nat), mapX: nat, mapZ: nat)
    requires mapX >= SECTOR_RESOLUTION && mapZ >= SECTOR_RESOLUTION
    ensures var ids, ords, both := SectorNeighbours(id, mapX, mapZ), SectorPortalOrdinals(id, mapX, mapZ), SectorNeighboursWithOrdinal(id, mapX, mapZ);
      |ids| == |ords| == |both| <= 4 &&
      forall i :: 0 <= i < |both| ==> both[i] == (ords[i], ids[i])
  {
  }

  /**
   * Each entry pairs a side with the sector across it, the sides come in
   * North, East, South, West order, and for a sector of the map the entries
   * are exactly its orthogonal neighbours inside the map.
   */
  lemma SectorNeighboursWithOrdinalMeaning(id: (nat, nat), mapX: nat, mapZ: nat)
    requires mapX >= SECTOR_RESOLUTION && mapZ >= SECTOR_RESOLUTION
    ensures var both := SectorNeighboursWithOrdinal(id, mapX, mapZ);
      (forall i :: 0 <= i < |both| ==> IsOrthogonal(both[i].0) && SectorToSectorDirection(both[i].1, id) == Some(both[i].0)) &&
      (forall i, j :: 0 <= i < j < |both| ==> OrthogonalRank(both[i].0) < OrthogonalRank(both[j].0)) &&
      (SectorInMap(id, mapX, mapZ) ==>
        forall n :: n in SectorNeighbours(id, mapX, mapZ) <==> SectorsOrthogonallyAdjacent(id, n) && SectorInMap(n, mapX, mapZ))
  {
    var both := SectorNeighboursWithOrdinal(id, mapX, mapZ);
    forall i, j | 0 <= i < j < |both|
      ensures OrthogonalRank(both[i].0) < OrthogonalRank(both[j].0)
    {
    }
  }

  /** Unit-test examples: a corner sector of a 300 x 550 map and a middle sector of a 200 x 200 map. */
  lemma SectorNeighbourExamples()
    ensures SectorNeighbours((29, 54), 300, 550) == [(29, 53), (28, 54)]
    ensures SectorNeighbours((0, 0), 300, 550) == [(1, 0), (0, 1)]
    ensures SectorPortalOrdinals((5, 7), 200, 200) == [North, East, South, West]
    ensures SectorNeighboursWithOrdinal((0, 5), 200, 200) == [(North, (0, 4)), (East, (1, 5)), (South, (0, 6))]
  {
  }

  /** Unit-test examples of the cell neighbour helpers. */
  lemma CellNeighbourExamples()
    ensures OrthogonalNeighbours(FieldCell(5, 0)) == [FieldCell(6, 0), FieldCell(5, 1), FieldCell(4, 0)]
    ensures OrthogonalNeighbours(FieldCell(9, 9)) == [FieldCell(9, 8), FieldCell(8, 9)]
    ensures CellToCellDirection(FieldCell(3, 2), FieldCell(4, 3)) == Some(NorthWest)
  {
  }
}
