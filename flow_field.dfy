/**
 * The flow field of one sector (src/flowfields/fields/flow_field.rs): one
 * byte per cell whose low nibble encodes a direction and whose high nibble
 * carries the pathable, line-of-sight, goal and portal-goal flags, and the
 * calculation that points every cell at its cheapest neighbour in the
 * sector's integration field.
 *
 * The integration field this file reads holds 16-bit costs (it compares them
 * with `u16::MAX` and returns them as `u16`), so it is taken here as a grid of
 * 16-bit values rather than the 32-bit field with flag bits of
 * src/flowfields/fields/integration_field.rs.
 */
module Flow {
  import opened Options
  import opened Geometry
  import opened Grids
  import opened Portal

  const BITS_NORTH: bv8 := 0x01
  const BITS_EAST: bv8 := 0x02
  const BITS_SOUTH: bv8 := 0x04
  const BITS_WEST: bv8 := 0x08
  const BITS_NORTH_EAST: bv8 := 0x03
  const BITS_SOUTH_EAST: bv8 := 0x06
  const BITS_SOUTH_WEST: bv8 := 0x0C
  const BITS_NORTH_WEST: bv8 := 0x09
  /** An impassable cell: no direction. */
  const BITS_ZERO: bv8 := 0x00
  /** Every cell of a new flow field. */
  const BITS_DEFAULT: bv8 := 0x0F
  const BITS_PATHABLE: bv8 := 0x10
  const BITS_HAS_LOS: bv8 := 0x20
  const BITS_GOAL: bv8 := 0x40
  const BITS_PORTAL_GOAL: bv8 := 0x80

  const DIRECTION_FILTER: bv8 := 0x0F
  const FLAG_FILTER: bv8 := 0xF0

  /** Largest 16-bit value, `u16::MAX`: an unreached or impassable cell of the integration field. */
  const U16_MAX: nat := 65535

  type U16 = x: nat | x <= U16_MAX

  /** A 16-bit integration field, indexed like every other field. */
  type IntCosts = s: seq<U16> | |s| == CELL_COUNT witness seq(CELL_COUNT, _ => U16_MAX)

  type FlowGrid = s: seq<bv8> | |s| == CELL_COUNT witness seq(CELL_COUNT, _ => BITS_DEFAULT)

  datatype FlowField = FlowField(cells: FlowGrid)

  /** `convert_ordinal_to_bits_dir`: every code fits the low nibble. */
  function ConvertOrdinalToBitsDir(o: Ordinal): (b: bv8)
    ensures b & FLAG_FILTER == 0
  {
    match o
    case North => BITS_NORTH
    case East => BITS_EAST
    case South => BITS_SOUTH
    case West => BITS_WEST
    case NorthEast => BITS_NORTH_EAST
    case SouthEast => BITS_SOUTH_EAST
    case SouthWest => BITS_SOUTH_WEST
    case NorthWest => BITS_NORTH_WEST
    case Zero => BITS_ZERO
  }

  /** Distinct directions have distinct codes. */
  lemma BitsDirInjective(a: Ordinal, b: Ordinal)
    requires ConvertOrdinalToBitsDir(a) == ConvertOrdinalToBitsDir(b)
    ensures a == b
  {
  }

  /**
   * `get_ordinal_from_bits`: the direction in the low nibble, `None` where
   * the source panics on a nibble that is not one of the nine codes.
   */
  function OrdinalFromBits(v: bv8): (r: Option<Ordinal>)
    ensures r.Some? ==> ConvertOrdinalToBitsDir(r.value) == v & DIRECTION_FILTER
  {
    var dir := v & DIRECTION_FILTER;
    if dir == BITS_NORTH then Some(North)
    else if dir == BITS_EAST then Some(East)
    else if dir == BITS_SOUTH then Some(South)
    else if dir == BITS_WEST then Some(West)
    else if dir == BITS_NORTH_EAST then Some(NorthEast)
    else if dir == BITS_SOUTH_EAST then Some(SouthEast)
    else if dir == BITS_SOUTH_WEST then Some(SouthWest)
    else if dir == BITS_NORTH_WEST then Some(NorthWest)
    else if dir == BITS_ZERO then Some(Zero)
    else None
  }

  /** Any flags combined with a direction code decode back to that direction. */
  lemma OrdinalBitsRoundTrip(o: Ordinal, flags: bv8)
    requires flags & DIRECTION_FILTER == 0
    ensures OrdinalFromBits(flags | ConvertOrdinalToBitsDir(o)) == Some(o)
  {
    assert (flags | ConvertOrdinalToBitsDir(o)) & DIRECTION_FILTER == ConvertOrdinalToBitsDir(o);
  }

  /**
   * Decoding ignores the high nibble and succeeds exactly on the nine
   * direction codes; the default `0b1111` is not one of them.
   */
  lemma OrdinalFromBitsDomain(v: bv8)
    ensures OrdinalFromBits(v) == OrdinalFromBits(v & DIRECTION_FILTER)
    ensures OrdinalFromBits(v).Some? <==> exists o :: ConvertOrdinalToBitsDir(o) == v & DIRECTION_FILTER
    ensures OrdinalFromBits(BITS_DEFAULT) == None
  {
    if exists o :: ConvertOrdinalToBitsDir(o) == v & DIRECTION_FILTER {
      var o :| ConvertOrdinalToBitsDir(o) == v & DIRECTION_FILTER;
      assert OrdinalFromBits(v) == Some(o);
    }
  }

  /** `has_line_of_sight`: the high nibble is exactly `0b0010`. */
  predicate HasLineOfSight(v: bv8) {
    v & FLAG_FILTER == BITS_HAS_LOS
  }

  /** A cell has line of sight exactly when the LOS flag is set and no other flag is. */
  lemma HasLineOfSightMeaning(v: bv8)
    ensures HasLineOfSight(v) <==>
      v & BITS_HAS_LOS != 0 && v & BITS_PATHABLE == 0 && v & BITS_GOAL == 0 && v & BITS_PORTAL_GOAL == 0
  {
  }

  /** `FlowField::default`. */
  function DefaultFlowField(): (f: FlowField)
    ensures forall column: nat, row: nat :: column < FIELD_RESOLUTION && row < FIELD_RESOLUTION ==>
      GetFieldCellValue(f, column, row) == Some(BITS_DEFAULT)
  {
    FlowField(seq(CELL_COUNT, _ => BITS_DEFAULT))
  }

  /** Value of a cell, `None` where the source panics on an index of 10 or more. */
  function GetFieldCellValue(f: FlowField, column: nat, row: nat): (r: Option<bv8>)
    ensures r.Some? <==> column < FIELD_RESOLUTION && row < FIELD_RESOLUTION
  {
    if column < FIELD_RESOLUTION && row < FIELD_RESOLUTION then Some(f.cells[Index(FieldCell(column, row))]) else None
  }

  /**
   * `set_field_cell_value`: `None` where the source panics; otherwise a read
   * of the same cell returns `value` and every other cell keeps its value.
   */
  function SetFieldCellValue(f: FlowField, value: bv8, column: nat, row: nat): (r: Option<FlowField>)
    ensures r.Some? <==> column < FIELD_RESOLUTION && row < FIELD_RESOLUTION
    ensures r.Some? ==> GetFieldCellValue(r.value, column, row) == Some(value)
    ensures r.Some? ==> forall c: nat, w: nat :: (c, w) != (column, row) ==>
      GetFieldCellValue(r.value, c, w) == GetFieldCellValue(f, c, w)
  {
    if column < FIELD_RESOLUTION && row < FIELD_RESOLUTION then
      var cell := FieldCell(column, row);
      assert forall other: FieldCell :: other != cell ==> Index(other) != Index(cell) by {
        forall other: FieldCell | other != cell ensures Index(other) != Index(cell) {
          CellAtIndex(other);
          CellAtIndex(cell);
        }
      }
      Some(FlowField(f.cells[Index(cell) := value]))
    else
      None
  }

  /**
   * The running minimum of the source's neighbour loops: the position of the
   * first entry whose cost is strictly lower than `bound` and than every
   * entry before it, each later entry replacing it only when strictly lower.
   */
  function FirstCheapest(costs: seq<nat>, bound: nat): (r: Option<nat>)
    ensures r.Some? ==> r.value < |costs| && costs[r.value] < bound
  {
    if |costs| == 0 then None
    else
      var p := FirstCheapest(costs[..|costs| - 1], bound);
      var best := if p.Some? then costs[p.value] else bound;
      if costs[|costs| - 1] < best then Some(|costs| - 1) else p
  }

  /** The cheapest position holds the first of the lowest costs, and there is none when no cost is below `bound`. */
  lemma {:induction false} FirstCheapestMeaning(costs: seq<nat>, bound: nat)
    ensures FirstCheapest(costs, bound).None? <==> forall j :: 0 <= j < |costs| ==> costs[j] >= bound
    ensures FirstCheapest(costs, bound).Some? ==> var k := FirstCheapest(costs, bound).value;
      (forall j :: 0 <= j < k ==> costs[j] > costs[k]) && (forall j :: k < j < |costs| ==> costs[j] >= costs[k])
  {
    if |costs| > 0 {
      var front := costs[..|costs| - 1];
      FirstCheapestMeaning(front, bound);
      assert forall j :: 0 <= j < |front| ==> front[j] == costs[j];
    }
  }

  /** Conversely, any position that is the first of the lowest costs below `bound` is the one chosen. */
  lemma FirstCheapestUnique(costs: seq<nat>, bound: nat, k: nat)
    requires k < |costs| && costs[k] < bound
    requires forall j :: 0 <= j < k ==> costs[j] > costs[k]
    requires forall j :: k < j < |costs| ==> costs[j] >= costs[k]
    ensures FirstCheapest(costs, bound) == Some(k)
  {
    FirstCheapestMeaning(costs, bound);
    assert FirstCheapest(costs, bound).Some?;
    var m := FirstCheapest(costs, bound).value;
    assert !(m < k) && !(k < m);
  }

  /** The loop with the running cheapest value, as the source writes it. */
  method Cheapest(costs: seq<nat>) returns (cheapest: Option<nat>)
    ensures cheapest == FirstCheapest(costs, U16_MAX)
  {
    var cheapestValue := U16_MAX;
    cheapest := None;
    for k := 0 to |costs|
      invariant cheapest == FirstCheapest(costs[..k], U16_MAX)
      invariant cheapestValue == if cheapest.Some? then costs[cheapest.value] else U16_MAX
    {
      assert costs[..k + 1][..k] == costs[..k];
      if costs[k] < cheapestValue {
        cheapestValue := costs[k];
        cheapest := Some(k);
      }
    }
    assert costs[..|costs|] == costs;
  }

  /** Position of `cell` along the boundary it shares with the sector across `side`. */
  function Lateral(side: Ordinal, o: Ordinal): int {
    if side == North || side == South then Offset(o).0 else Offset(o).1
  }

  /** `o` moves across the boundary towards `side`: its component across the boundary is the side's own. */
  predicate Towards(o: Ordinal, side: Ordinal) {
    if side == North || side == South then Offset(o).1 == Offset(side).1 else Offset(o).0 == Offset(side).0
  }

  /**
   * The cell one step from `goal` towards `o`, in the coordinates of the
   * sector across the boundary: a coordinate that leaves the field wraps
   * round to the opposite edge.
   */
  function StepAcross(goal: FieldCell, o: Ordinal): FieldCell {
    FieldCell((goal.column + Offset(o).0 + FIELD_RESOLUTION) % FIELD_RESOLUTION,
              (goal.row + Offset(o).1 + FIELD_RESOLUTION) % FIELD_RESOLUTION)
  }

  /** The lateral step of `o` keeps the goal inside the field along the boundary. */
  predicate LateralInRange(goal: FieldCell, side: Ordinal, o: Ordinal) {
    var along := if side == North || side == South then goal.column else goal.row;
    0 <= along + Lateral(side, o) < FIELD_RESOLUTION
  }

  /**
   * `lookup_portal_goal_neighbour_costs_in_previous_sector`: the costs of the
   * cells of the previous sector touching `goal` across the boundary towards
   * `side`, the orthogonal one first and then the two diagonal ones that
   * exist; `None` where the source panics on a diagonal or zero ordinal.
   */
  function PortalGoalNeighbourCosts(goal: FieldCell, previous: IntCosts, side: Ordinal): (r: Option<seq<(Ordinal, U16)>>)
    ensures r.Some? <==> IsOrthogonal(side)
    ensures r.Some? ==> 1 <= |r.value| <= 3 && r.value[0].0 == side
  {
    var c, w := goal.column, goal.row;
    match side
    case North =>
      Some([(North, previous[Index(FieldCell(c, 9))])]
        + (if c > 0 then [(NorthWest, previous[Index(FieldCell(c - 1, 9))])] else [])
        + (if c < FIELD_RESOLUTION - 1 then [(NorthEast, previous[Index(FieldCell(c + 1, 9))])] else []))
    case East =>
      Some([(East, previous[Index(FieldCell(0, w))])]
        + (if w > 0 then [(NorthEast, previous[Index(FieldCell(0, w - 1))])] else [])
        + (if w < FIELD_RESOLUTION - 1 then [(SouthEast, previous[Index(FieldCell(0, w + 1))])] else []))
    case South =>
      Some([(South, previous[Index(FieldCell(c, 0))])]
        + (if c > 0 then [(SouthWest, previous[Index(FieldCell(c - 1, 0))])] else [])
        + (if c < FIELD_RESOLUTION - 1 then [(SouthEast, previous[Index(FieldCell(c + 1, 0))])] else []))
    case West =>
      Some([(West, previous[Index(FieldCell(9, w))])]
        + (if w > 0 then [(NorthWest, previous[Index(FieldCell(9, w - 1))])] else [])
        + (if w < FIELD_RESOLUTION - 1 then [(SouthWest, previous[Index(FieldCell(9, w + 1))])] else []))
    case _ => None
  }

  /**
   * For a goal on the boundary towards `side`, the entries are exactly the
   * cells of the previous sector that touch the goal across that boundary:
   * each entry's direction crosses the boundary, keeps to the field along it,
   * and carries the cost of the cell it reaches; every such direction has an
   * entry.
   */
  lemma PortalGoalNeighbourCostsMeaning(goal: FieldCell, previous: IntCosts, side: Ordinal)
    requires IsOrthogonal(side) && OnSide(side, goal)
    ensures var r := PortalGoalNeighbourCosts(goal, previous, side).value;
      (forall k :: 0 <= k < |r| ==>
        Towards(r[k].0, side) && LateralInRange(goal, side, r[k].0) && r[k].1 == previous[Index(StepAcross(goal, r[k].0))]) &&
      (forall o :: Towards(o, side) && LateralInRange(goal, side, o) ==> exists k :: 0 <= k < |r| && r[k].0 == o)
  {
    var r := PortalGoalNeighbourCosts(goal, previous, side).value;
    forall k | 0 <= k < |r|
      ensures Towards(r[k].0, side) && LateralInRange(goal, side, r[k].0) && r[k].1 == previous[Index(StepAcross(goal, r[k].0))]
    {
      EntryMeaning(goal, previous, side, k);
    }
    forall o | Towards(o, side) && LateralInRange(goal, side, o)
      ensures exists k :: 0 <= k < |r| && r[k].0 == o
    {
      var k := EntryFor(goal, previous, side, o);
    }
  }

  lemma EntryMeaning(goal: FieldCell, previous: IntCosts, side: Ordinal, k: nat)
    requires IsOrthogonal(side) && OnSide(side, goal)
    requires k < |PortalGoalNeighbourCosts(goal, previous, side).value|
    ensures var e := PortalGoalNeighbourCosts(goal, previous, side).value[k];
      Towards(e.0, side) && LateralInRange(goal, side, e.0) && e.1 == previous[Index(StepAcross(goal, e.0))]
  {
    if side == North || side == South {
      VerticalEntryMeaning(goal, previous, side, k);
    } else {
      HorizontalEntryMeaning(goal, previous, side, k);
    }
  }

  lemma VerticalEntryMeaning(goal: FieldCell, previous: IntCosts, side: Ordinal, k: nat)
    requires (side == North || side == South) && OnSide(side, goal)
    requires k < |PortalGoalNeighbourCosts(goal, previous, side).value|
    ensures var e := PortalGoalNeighbourCosts(goal, previous, side).value[k];
      Towards(e.0, side) && LateralInRange(goal, side, e.0) && e.1 == previous[Index(StepAcross(goal, e.0))]
  {
    var e := PortalGoalNeighbourCosts(goal, previous, side).value[k];
    var far := if side == North then 9 else 0;
    assert e.0 == side || Offset(e.0) == (-1, Offset(side).1) || Offset(e.0) == (1, Offset(side).1);
    assert StepAcross(goal, e.0) == FieldCell(goal.column + Offset(e.0).0, far);
  }

  lemma HorizontalEntryMeaning(goal: FieldCell, previous: IntCosts, side: Ordinal, k: nat)
    requires (side == East || side == West) && OnSide(side, goal)
    requires k < |PortalGoalNeighbourCosts(goal, previous, side).value|
    ensures var e := PortalGoalNeighbourCosts(goal, previous, side).value[k];
      Towards(e.0, side) && LateralInRange(goal, side, e.0) && e.1 == previous[Index(StepAcross(goal, e.0))]
  {
    var e := PortalGoalNeighbourCosts(goal, previous, side).value[k];
    var far := if side == West then 9 else 0;
    assert e.0 == side || Offset(e.0) == (Offset(side).0, -1) || Offset(e.0) == (Offset(side).0, 1);
    assert StepAcross(goal, e.0) == FieldCell(far, goal.row + Offset(e.0).1);
  }

  lemma EntryFor(goal: FieldCell, previous: IntCosts, side: Ordinal, o: Ordinal) returns (k: nat)
    requires IsOrthogonal(side) && OnSide(side, goal)
    requires Towards(o, side) && LateralInRange(goal, side, o)
    ensures var r := PortalGoalNeighbourCosts(goal, previous, side).value;
      k < |r| && r[k].0 == o
  {
    var r := PortalGoalNeighbourCosts(goal, previous, side).value;
    var along := if side == North || side == South then goal.column else goal.row;
    if IsOrthogonal(o) {
      k := 0;
    } else if Lateral(side, o) < 0 {
      k := 1;
    } else {
      k := if along > 0 then 2 else 1;
    }
  }

  /** The costs of the entries of a lookup, in order. */
  function EntryCosts(entries: seq<(Ordinal, U16)>): (costs: seq<nat>)
    ensures |costs| == |entries| && forall k :: 0 <= k < |entries| ==> costs[k] == entries[k].1
  {
    seq(|entries|, k requires 0 <= k < |entries| => entries[k].1)
  }

  /**
   * The value a portal goal of `calculate` receives with a previous sector:
   * flagged as a portal goal and pointed at the cheapest cell touching it in
   * the previous sector; `None`, leaving the cell alone, when no such cell is
   * cheaper than `u16::MAX` or the ordinal is not orthogonal.
   */
  function PortalGoalCode(goal: FieldCell, previous: IntCosts, side: Ordinal): Option<bv8> {
    match PortalGoalNeighbourCosts(goal, previous, side)
    case None => None
    case Some(entries) => EntriesCode(entries)
  }

  /** The portal-goal flag with the direction of the first of the cheapest entries, if any is below `u16::MAX`. */
  function EntriesCode(entries: seq<(Ordinal, U16)>): Option<bv8> {
    match FirstCheapest(EntryCosts(entries), U16_MAX)
    case None => None
    case Some(k) => Some(BITS_PORTAL_GOAL | ConvertOrdinalToBitsDir(entries[k].0))
  }

  function PortalGoalValue(cells: FlowGrid, goal: FieldCell, previous: IntCosts, side: Ordinal): FlowGrid {
    match PortalGoalCode(goal, previous, side)
    case None => cells
    case Some(v) => cells[Index(goal) := v]
  }

  /** The portal goals handled one after the other. */
  function SeedPortalGoals(cells: FlowGrid, goals: seq<FieldCell>, previous: IntCosts, side: Ordinal): FlowGrid
    decreases |goals|
  {
    if goals == [] then cells
    else PortalGoalValue(SeedPortalGoals(cells, goals[..|goals| - 1], previous, side), goals[|goals| - 1], previous, side)
  }

  /**
   * The first phase of `calculate`: the portal goals pointed into the
   * previous sector, or else the single goal `goals[0]` flagged as the goal;
   * `None` where the source panics, on a diagonal ordinal or an empty goal
   * list without a previous sector.
   */
  function Seeded(cells: FlowGrid, goals: seq<FieldCell>, previousSector: Option<(Ordinal, IntCosts)>): Option<FlowGrid> {
    match previousSector
    case Some((side, previous)) =>
      if goals != [] && !IsOrthogonal(side) then None else Some(SeedPortalGoals(cells, goals, previous, side))
    case None =>
      if goals == [] then None else var goal: FlowGrid := cells[Index(goals[0]) := BITS_GOAL]; Some(goal)
  }

  /** Integration costs of the neighbours of `cell`, in the order of `get_all_cell_neighbours`. */
  function NeighbourCosts(cell: FieldCell, integration: IntCosts): (costs: seq<nat>)
    ensures |costs| == |AllNeighbours(cell)|
    ensures forall k :: 0 <= k < |costs| ==> costs[k] == integration[Index(AllNeighbours(cell)[k])]
  {
    var ns := AllNeighbours(cell);
    seq(|ns|, k requires 0 <= k < |ns| => integration[Index(ns[k])])
  }

  /**
   * The second phase of `calculate` at one cell: a cell already set is kept,
   * an unreachable one becomes impassable, a goal of cost 0 is kept, and any
   * other points at its first cheapest neighbour and is flagged pathable.
   */
  function CellFlow(value: bv8, cell: FieldCell, integration: IntCosts): bv8 {
    var cost := integration[Index(cell)];
    if value != BITS_DEFAULT then value
    else if cost == U16_MAX then BITS_ZERO
    else if cost == 0 then value
    else
      match FirstCheapest(NeighbourCosts(cell, integration), U16_MAX)
      case None => value
      case Some(k) =>
        var target := AllNeighbours(cell)[k];
        assert target in AllNeighbours(cell);
        ConvertOrdinalToBitsDir(CellToCellDirection(target, cell).value) | BITS_PATHABLE
  }

  /** `FlowField::calculate`: `None` where the source panics. */
  function Calculated(flow: FlowField, goals: seq<FieldCell>, previousSector: Option<(Ordinal, IntCosts)>, integration: IntCosts): Option<FlowField> {
    match Seeded(flow.cells, goals, previousSector)
    case None => None
    case Some(seeded) =>
      Some(FlowField(seq(CELL_COUNT, i requires 0 <= i < CELL_COUNT => CellFlow(seeded[i], CellAt(i), integration))))
  }

  /** The cells before position `n` have been through the second phase and the rest are as seeded. */
  ghost predicate PassedUpTo(cells: FlowGrid, seeded: FlowGrid, integration: IntCosts, n: nat) {
    forall x :: 0 <= x < CELL_COUNT ==> cells[x] == if x < n then CellFlow(seeded[x], CellAt(x), integration) else seeded[x]
  }

  /** `calculate` as the source performs it, phase by phase. */
  method Calculate(flow: FlowField, goals: seq<FieldCell>, previousSector: Option<(Ordinal, IntCosts)>, integration: IntCosts)
    returns (r: Option<FlowField>)
    ensures r == Calculated(flow, goals, previousSector, integration)
  {
    var cells := flow.cells;
    if previousSector.Some? {
      var (side, previous) := previousSector.value;
      var ok;
      ok, cells := SeedPortalGoalsLoop(cells, goals, previous, side);
      if !ok {
        return None;
      }
    } else {
      if |goals| == 0 {
        return None;
      }
      cells := cells[Index(goals[0]) := BITS_GOAL];
    }
    cells := FlowPass(cells, integration);
    return Some(FlowField(cells));
  }

  /** The loop of the first phase over the portal goals; `ok` is false where the source panics. */
  method SeedPortalGoalsLoop(start: FlowGrid, goals: seq<FieldCell>, previous: IntCosts, side: Ordinal)
    returns (ok: bool, cells: FlowGrid)
    ensures ok <==> goals == [] || IsOrthogonal(side)
    ensures ok ==> cells == SeedPortalGoals(start, goals, previous, side)
  {
    cells := start;
    for k := 0 to |goals|
      invariant k > 0 ==> IsOrthogonal(side)
      invariant cells == SeedPortalGoals(start, goals[..k], previous, side)
    {
      assert goals[..k + 1][..k] == goals[..k];
      var possible := PortalGoalNeighbourCosts(goals[k], previous, side);
      if possible.None? {
        return false, cells;
      }
      var entries := possible.value;
      var cheapest := Cheapest(EntryCosts(entries));
      if cheapest.Some? {
        cells := cells[Index(goals[k]) := BITS_PORTAL_GOAL | ConvertOrdinalToBitsDir(entries[cheapest.value].0)];
      }
    }
    assert goals[..|goals|] == goals;
    return true, cells;
  }

  /** The nested loops of the second phase of `calculate`. */
  method FlowPass(seeded: FlowGrid, integration: IntCosts) returns (cells: FlowGrid)
    ensures cells == seq(CELL_COUNT, i requires 0 <= i < CELL_COUNT => CellFlow(seeded[i], CellAt(i), integration))
  {
    cells := seeded;
    for i := 0 to FIELD_RESOLUTION
      invariant PassedUpTo(cells, seeded, integration, i * FIELD_RESOLUTION)
    {
      for j := 0 to FIELD_RESOLUTION
        invariant PassedUpTo(cells, seeded, integration, i * FIELD_RESOLUTION + j)
      {
        var cell := FieldCell(i, j);
        CellAtIndex(cell);
        var value := CellStep(cells[Index(cell)], cell, integration);
        PassedStep(cells, seeded, integration, i * FIELD_RESOLUTION + j);
        cells := cells[Index(cell) := value];
      }
    }
  }

  lemma PassedStep(cells: FlowGrid, seeded: FlowGrid, integration: IntCosts, n: nat)
    requires n < CELL_COUNT && PassedUpTo(cells, seeded, integration, n)
    ensures cells[n] == seeded[n]
    ensures PassedUpTo(cells[n := CellFlow(cells[n], CellAt(n), integration)], seeded, integration, n + 1)
  {
  }

  /** One cell of the second phase of `calculate`, with the source's branches and its neighbour loop. */
  method CellStep(value: bv8, cell: FieldCell, integration: IntCosts) returns (w: bv8)
    ensures w == CellFlow(value, cell, integration)
  {
    w := value;
    if value == BITS_DEFAULT {
      var currentCost := integration[Index(cell)];
      if currentCost == U16_MAX {
        w := BITS_ZERO;
      } else if currentCost != 0 {
        var neighbours := AllNeighbours(cell);
        var cheapest := Cheapest(NeighbourCosts(cell, integration));
        if cheapest.Some? {
          var target := neighbours[cheapest.value];
          assert target in neighbours;
          var ord := CellToCellDirection(target, cell).value;
          w := ConvertOrdinalToBitsDir(ord) | BITS_PATHABLE;
        }
      }
    }
  }

  /**
   * The code of a portal goal is the portal-goal flag with the direction of
   * the first of the cheapest entries of the lookup, and there is one exactly
   * when some entry costs less than `u16::MAX`.
   */
  lemma PortalGoalCodeMeaning(goal: FieldCell, previous: IntCosts, side: Ordinal)
    requires IsOrthogonal(side)
    ensures var entries := PortalGoalNeighbourCosts(goal, previous, side).value;
      var code := PortalGoalCode(goal, previous, side);
      (code.Some? <==> exists k :: 0 <= k < |entries| && entries[k].1 < U16_MAX) &&
      (code.Some? ==>
        exists k :: 0 <= k < |entries| &&
          code.value == BITS_PORTAL_GOAL | ConvertOrdinalToBitsDir(entries[k].0) &&
          OrdinalFromBits(code.value) == Some(entries[k].0) && code.value & FLAG_FILTER == BITS_PORTAL_GOAL &&
          (forall j :: 0 <= j < k ==> entries[j].1 > entries[k].1) &&
          (forall j :: k < j < |entries| ==> entries[j].1 >= entries[k].1))
  {
    EntriesCodeMeaning(PortalGoalNeighbourCosts(goal, previous, side).value);
  }

  lemma EntriesCodeMeaning(entries: seq<(Ordinal, U16)>)
    ensures var code := EntriesCode(entries);
      (code.Some? <==> exists k :: 0 <= k < |entries| && entries[k].1 < U16_MAX) &&
      (code.Some? ==>
        exists k :: 0 <= k < |entries| &&
          code.value == BITS_PORTAL_GOAL | ConvertOrdinalToBitsDir(entries[k].0) &&
          OrdinalFromBits(code.value) == Some(entries[k].0) && code.value & FLAG_FILTER == BITS_PORTAL_GOAL &&
          (forall j :: 0 <= j < k ==> entries[j].1 > entries[k].1) &&
          (forall j :: k < j < |entries| ==> entries[j].1 >= entries[k].1))
  {
    var costs := EntryCosts(entries);
    FirstCheapestMeaning(costs, U16_MAX);
    if FirstCheapest(costs, U16_MAX).Some? {
      var k := FirstCheapest(costs, U16_MAX).value;
      PortalGoalCodeBits(entries[k].0);
      assert costs[k] == entries[k].1;
    } else {
      assert forall k :: 0 <= k < |entries| ==> costs[k] >= U16_MAX;
    }
  }

  /** A direction flagged as a portal goal keeps its flag in the high nibble and decodes back to the direction. */
  lemma PortalGoalCodeBits(o: Ordinal)
    ensures var w := BITS_PORTAL_GOAL | ConvertOrdinalToBitsDir(o);
      w & FLAG_FILTER == BITS_PORTAL_GOAL && OrdinalFromBits(w) == Some(o)
  {
    OrdinalBitsRoundTrip(o, BITS_PORTAL_GOAL);
  }

  /**
   * After the portal goals are handled, each goal with a code holds it and
   * every cell that is not a goal keeps its value, whatever the goals' order
   * or repetitions.
   */
  lemma {:induction false} SeedPortalGoalsAt(cells: FlowGrid, goals: seq<FieldCell>, previous: IntCosts, side: Ordinal, i: nat)
    requires i < CELL_COUNT
    ensures SeedPortalGoals(cells, goals, previous, side)[i] ==
      if CellAt(i) in goals && PortalGoalCode(CellAt(i), previous, side).Some? then PortalGoalCode(CellAt(i), previous, side).value
      else cells[i]
    decreases |goals|
  {
    if goals != [] {
      var front := goals[..|goals| - 1];
      var last := goals[|goals| - 1];
      var before := SeedPortalGoals(cells, front, previous, side);
      assert SeedPortalGoals(cells, goals, previous, side) == PortalGoalValue(before, last, previous, side);
      SeedPortalGoalsAt(cells, front, previous, side, i);
      assert goals == front + [last];
      CellAtIndex(last);
      if Index(last) == i {
        assert CellAt(i) == last;
      } else {
        assert CellAt(i) != last;
        assert PortalGoalValue(before, last, previous, side)[i] == before[i];
      }
    }
  }

  /**
   * The seeded goals of `calculate`: without a previous sector `goals[0]`
   * holds the goal flag; with one, every portal goal with a code holds it;
   * the second phase never recomputes those cells.
   */
  lemma CalculatedGoals(flow: FlowField, goals: seq<FieldCell>, previousSector: Option<(Ordinal, IntCosts)>, integration: IntCosts)
    requires Calculated(flow, goals, previousSector, integration).Some?
    ensures var r := Calculated(flow, goals, previousSector, integration).value.cells;
      (previousSector.None? ==> r[Index(goals[0])] == BITS_GOAL) &&
      (previousSector.Some? ==> forall g :: g in goals && PortalGoalCode(g, previousSector.value.1, previousSector.value.0).Some? ==>
        r[Index(g)] == PortalGoalCode(g, previousSector.value.1, previousSector.value.0).value)
  {
    var seeded := Seeded(flow.cells, goals, previousSector).value;
    if previousSector.None? {
      CellAtIndex(goals[0]);
    } else {
      var (side, previous) := previousSector.value;
      forall g | g in goals && PortalGoalCode(g, previous, side).Some?
        ensures seeded[Index(g)] == PortalGoalCode(g, previous, side).value
      {
        CellAtIndex(g);
        SeedPortalGoalsAt(flow.cells, goals, previous, side, Index(g));
      }
    }
  }

  /** `calculate` fails exactly where the source panics. */
  lemma CalculatedSucceeds(flow: FlowField, goals: seq<FieldCell>, previousSector: Option<(Ordinal, IntCosts)>, integration: IntCosts)
    ensures Calculated(flow, goals, previousSector, integration).Some? <==>
      if previousSector.None? then goals != [] else goals == [] || IsOrthogonal(previousSector.value.0)
  {
  }

  /**
   * The second phase at one cell: a cell already set is kept; an unset cell
   * of cost `u16::MAX` becomes impassable and one of cost 0 stays unset, as
   * does any other unset cell none of whose neighbours costs less than
   * `u16::MAX`.
   */
  lemma CellFlowKept(value: bv8, cell: FieldCell, integration: IntCosts)
    ensures value != BITS_DEFAULT ==> CellFlow(value, cell, integration) == value
    ensures value == BITS_DEFAULT && integration[Index(cell)] == U16_MAX ==> CellFlow(value, cell, integration) == BITS_ZERO
    ensures value == BITS_DEFAULT && integration[Index(cell)] == 0 ==> CellFlow(value, cell, integration) == BITS_DEFAULT
    ensures (value == BITS_DEFAULT && integration[Index(cell)] < U16_MAX &&
             forall n :: Adjacent(cell, n) ==> integration[Index(n)] == U16_MAX) ==>
      CellFlow(value, cell, integration) == BITS_DEFAULT
  {
    if value == BITS_DEFAULT && 0 < integration[Index(cell)] < U16_MAX && forall n :: Adjacent(cell, n) ==> integration[Index(n)] == U16_MAX {
      var costs := NeighbourCosts(cell, integration);
      var ns := AllNeighbours(cell);
      forall j | 0 <= j < |costs| ensures costs[j] >= U16_MAX {
        assert ns[j] in ns;
      }
      FirstCheapestMeaning(costs, U16_MAX);
    }
  }

  /**
   * Any other unset cell with a neighbour cheaper than `u16::MAX` is flagged
   * pathable and points at the first of its cheapest neighbours in the order
   * of `get_all_cell_neighbours`.
   */
  lemma CellFlowPoints(cell: FieldCell, integration: IntCosts, n: FieldCell)
    requires 0 < integration[Index(cell)] < U16_MAX
    requires Adjacent(cell, n) && integration[Index(n)] < U16_MAX
    ensures var w := CellFlow(BITS_DEFAULT, cell, integration);
      var ns := AllNeighbours(cell);
      w & FLAG_FILTER == BITS_PATHABLE && OrdinalFromBits(w).Some? &&
      exists k :: 0 <= k < |ns| && CellToCellDirection(ns[k], cell) == OrdinalFromBits(w) &&
        integration[Index(ns[k])] < U16_MAX &&
        (forall j :: 0 <= j < k ==> integration[Index(ns[j])] > integration[Index(ns[k])]) &&
        (forall j :: k < j < |ns| ==> integration[Index(ns[j])] >= integration[Index(ns[k])])
  {
    var k := CheapestNeighbour(cell, integration, n);
    var o := CellFlowAt(cell, integration, k);
    PathableCode(o);
  }

  /** With a neighbour cheaper than `u16::MAX`, the chosen neighbour is the first of the cheapest. */
  lemma CheapestNeighbour(cell: FieldCell, integration: IntCosts, n: FieldCell) returns (k: nat)
    requires Adjacent(cell, n) && integration[Index(n)] < U16_MAX
    ensures FirstCheapest(NeighbourCosts(cell, integration), U16_MAX) == Some(k)
    ensures var ns := AllNeighbours(cell);
      k < |ns| && integration[Index(ns[k])] < U16_MAX &&
      (forall j :: 0 <= j < k ==> integration[Index(ns[j])] > integration[Index(ns[k])]) &&
      (forall j :: k < j < |ns| ==> integration[Index(ns[j])] >= integration[Index(ns[k])])
  {
    var costs := NeighbourCosts(cell, integration);
    var ns := AllNeighbours(cell);
    assert n in ns;
    var j :| 0 <= j < |ns| && ns[j] == n;
    assert costs[j] < U16_MAX;
    FirstCheapestMeaning(costs, U16_MAX);
    k := FirstCheapest(costs, U16_MAX).value;
  }

  /** A direction flagged pathable keeps its flag in the high nibble and decodes back to the direction. */
  lemma PathableCode(o: Ordinal)
    ensures var w := ConvertOrdinalToBitsDir(o) | BITS_PATHABLE;
      w & FLAG_FILTER == BITS_PATHABLE && OrdinalFromBits(w) == Some(o)
  {
    OrdinalBitsRoundTrip(o, BITS_PATHABLE);
    assert ConvertOrdinalToBitsDir(o) | BITS_PATHABLE == BITS_PATHABLE | ConvertOrdinalToBitsDir(o);
  }

  lemma CellFlowAt(cell: FieldCell, integration: IntCosts, k: nat) returns (o: Ordinal)
    requires 0 < integration[Index(cell)] < U16_MAX
    requires FirstCheapest(NeighbourCosts(cell, integration), U16_MAX) == Some(k)
    ensures k < |AllNeighbours(cell)| && CellToCellDirection(AllNeighbours(cell)[k], cell) == Some(o)
    ensures CellFlow(BITS_DEFAULT, cell, integration) == ConvertOrdinalToBitsDir(o) | BITS_PATHABLE
  {
    var ns := AllNeighbours(cell);
    assert ns[k] in ns;
    o := CellToCellDirection(ns[k], cell).value;
  }

  /** Integration costs of a uniform field whose goals are the southern edge: the distance to that edge. */
  const SOUTH_DISTANCES: IntCosts := seq(CELL_COUNT, i requires 0 <= i < CELL_COUNT => FIELD_RESOLUTION - 1 - i % FIELD_RESOLUTION)

  /** The southern edge of a field, west to east. */
  const SOUTH_EDGE: seq<FieldCell> := seq(FIELD_RESOLUTION, c requires 0 <= c < FIELD_RESOLUTION => FieldCell(c, FIELD_RESOLUTION - 1))

  lemma SouthDistanceAt(cell: FieldCell)
    ensures SOUTH_DISTANCES[Index(cell)] == FIELD_RESOLUTION - 1 - cell.row
  {
  }

  /** Each goal on the southern edge looks into the sector to the south, where all three cells cost 9. */
  lemma SouthGoalCode(goal: FieldCell)
    requires goal.row == FIELD_RESOLUTION - 1
    ensures PortalGoalCode(goal, SOUTH_DISTANCES, South) == Some(BITS_PORTAL_GOAL | BITS_SOUTH)
  {
    var entries := PortalGoalNeighbourCosts(goal, SOUTH_DISTANCES, South).value;
    var costs := EntryCosts(entries);
    forall k | 0 <= k < |entries| ensures costs[k] == 9 {
      VerticalEntryMeaning(goal, SOUTH_DISTANCES, South, k);
      SouthDistanceAt(StepAcross(goal, entries[k].0));
    }
    FirstCheapestUnique(costs, U16_MAX, 0);
  }

  /** Above the southern edge, the southern neighbour is the first of the cheapest. */
  lemma SouthIsCheapest(cell: FieldCell) returns (k: nat)
    requires cell.row < FIELD_RESOLUTION - 1
    ensures k < |AllNeighbours(cell)| && AllNeighbours(cell)[k] == FieldCell(cell.column, cell.row + 1)
    ensures FirstCheapest(NeighbourCosts(cell, SOUTH_DISTANCES), U16_MAX) == Some(k)
  {
    var ns := AllNeighbours(cell);
    var costs := NeighbourCosts(cell, SOUTH_DISTANCES);
    var orth := OrthogonalNeighbours(cell);
    k := SouthInOrthogonal(cell);
    assert ns[k] == orth[k];
    forall j | 0 <= j < |ns| ensures costs[j] == FIELD_RESOLUTION - 1 - ns[j].row {
      SouthDistanceAt(ns[j]);
    }
    forall j | 0 <= j < k ensures costs[j] > costs[k] {
      assert ns[j] == orth[j];
    }
    forall j | k < j < |ns| ensures costs[j] >= costs[k] {
      assert ns[j] in ns;
    }
    FirstCheapestUnique(costs, U16_MAX, k);
  }

  /** The southern neighbour comes after the northern and eastern ones only. */
  lemma SouthInOrthogonal(cell: FieldCell) returns (k: nat)
    requires cell.row < FIELD_RESOLUTION - 1
    ensures var orth := OrthogonalNeighbours(cell);
      k < |orth| && orth[k] == FieldCell(cell.column, cell.row + 1) && forall j :: 0 <= j < k ==> orth[j].row <= cell.row
  {
    var c, r := cell.column, cell.row;
    var north := if r > 0 then [FieldCell(c, r - 1)] else [];
    var east := if c < FIELD_RESOLUTION - 1 then [FieldCell(c + 1, r)] else [];
    var west := if c > 0 then [FieldCell(c - 1, r)] else [];
    assert OrthogonalNeighbours(cell) == north + east + [FieldCell(c, r + 1)] + west;
    k := |north| + |east|;
  }

  /** A cell above the southern edge points south, at the first of its neighbours one step nearer the edge. */
  lemma SouthCellFlow(cell: FieldCell)
    requires cell.row < FIELD_RESOLUTION - 1
    ensures CellFlow(BITS_DEFAULT, cell, SOUTH_DISTANCES) == BITS_SOUTH | BITS_PATHABLE
  {
    var k := SouthIsCheapest(cell);
    SouthDistanceAt(cell);
    var o := CellFlowAt(cell, SOUTH_DISTANCES, k);
    assert CellToCellDirection(FieldCell(cell.column, cell.row + 1), cell) == Some(South);
  }

  /**
   * The south-portal case of the source's unit tests: a default flow field
   * whose goals are the southern edge, with the previous sector to the south
   * and both fields holding the distance to that edge; every goal becomes a
   * portal goal pointing south and every other cell a pathable cell pointing
   * south, so no default value is left.
   */
  lemma CalculateFlowTargetSouth()
    ensures var r := Calculated(DefaultFlowField(), SOUTH_EDGE, Some((South, SOUTH_DISTANCES)), SOUTH_DISTANCES);
      r.Some? &&
      forall cell: FieldCell :: r.value.cells[Index(cell)] ==
        if cell.row == FIELD_RESOLUTION - 1 then BITS_PORTAL_GOAL | BITS_SOUTH else BITS_PATHABLE | BITS_SOUTH
  {
    var seeded := SeedPortalGoals(DefaultFlowField().cells, SOUTH_EDGE, SOUTH_DISTANCES, South);
    var r := Calculated(DefaultFlowField(), SOUTH_EDGE, Some((South, SOUTH_DISTANCES)), SOUTH_DISTANCES);
    forall cell: FieldCell
      ensures r.value.cells[Index(cell)] ==
        if cell.row == FIELD_RESOLUTION - 1 then BITS_PORTAL_GOAL | BITS_SOUTH else BITS_PATHABLE | BITS_SOUTH
    {
      CellAtIndex(cell);
      SeedPortalGoalsAt(DefaultFlowField().cells, SOUTH_EDGE, SOUTH_DISTANCES, South, Index(cell));
      if cell.row == FIELD_RESOLUTION - 1 {
        assert cell == SOUTH_EDGE[cell.column];
        SouthGoalCode(cell);
        CellFlowKept(seeded[Index(cell)], cell, SOUTH_DISTANCES);
      } else {
        assert cell !in SOUTH_EDGE;
        SouthCellFlow(cell);
        assert BITS_SOUTH | BITS_PATHABLE == BITS_PATHABLE | BITS_SOUTH;
      }
    }
  }

  /** Integration costs of a uniform field whose goals are the western edge: the distance to that edge. */
  const WEST_DISTANCES: IntCosts := seq(CELL_COUNT, i requires 0 <= i < CELL_COUNT => i / FIELD_RESOLUTION)

  /** The western edge of a field, north to south. */
  const WEST_EDGE: seq<FieldCell> := seq(FIELD_RESOLUTION, r requires 0 <= r < FIELD_RESOLUTION => FieldCell(0, r))

  lemma WestDistanceAt(cell: FieldCell)
    ensures WEST_DISTANCES[Index(cell)] == cell.column
  {
  }

  /** Each goal on the western edge looks into the sector to the west, where all three cells cost 9. */
  lemma WestGoalCode(goal: FieldCell)
    requires goal.column == 0
    ensures PortalGoalCode(goal, WEST_DISTANCES, West) == Some(BITS_PORTAL_GOAL | BITS_WEST)
  {
    var entries := PortalGoalNeighbourCosts(goal, WEST_DISTANCES, West).value;
    var costs := EntryCosts(entries);
    forall k | 0 <= k < |entries| ensures costs[k] == 9 {
      HorizontalEntryMeaning(goal, WEST_DISTANCES, West, k);
      WestDistanceAt(StepAcross(goal, entries[k].0));
    }
    FirstCheapestUnique(costs, U16_MAX, 0);
  }

  /** East of the western edge, the western neighbour is the first of the cheapest. */
  lemma WestIsCheapest(cell: FieldCell) returns (k: nat)
    requires cell.column > 0
    ensures k < |AllNeighbours(cell)| && AllNeighbours(cell)[k] == FieldCell(cell.column - 1, cell.row)
    ensures FirstCheapest(NeighbourCosts(cell, WEST_DISTANCES), U16_MAX) == Some(k)
  {
    var ns := AllNeighbours(cell);
    var costs := NeighbourCosts(cell, WEST_DISTANCES);
    var orth := OrthogonalNeighbours(cell);
    k := WestInOrthogonal(cell);
    assert ns[k] == orth[k];
    forall j | 0 <= j < |ns| ensures costs[j] == ns[j].column {
      WestDistanceAt(ns[j]);
    }
    forall j | 0 <= j < k ensures costs[j] > costs[k] {
      assert ns[j] == orth[j];
    }
    forall j | k < j < |ns| ensures costs[j] >= costs[k] {
      assert ns[j] in ns;
    }
    FirstCheapestUnique(costs, U16_MAX, k);
  }

  /** The western neighbour is the last of the orthogonal ones. */
  lemma WestInOrthogonal(cell: FieldCell) returns (k: nat)
    requires cell.column > 0
    ensures var orth := OrthogonalNeighbours(cell);
      k < |orth| && orth[k] == FieldCell(cell.column - 1, cell.row) && forall j :: 0 <= j < k ==> orth[j].column >= cell.column
  {
    var c, r := cell.column, cell.row;
    var north := if r > 0 then [FieldCell(c, r - 1)] else [];
    var east := if c < FIELD_RESOLUTION - 1 then [FieldCell(c + 1, r)] else [];
    var south := if r < FIELD_RESOLUTION - 1 then [FieldCell(c, r + 1)] else [];
    assert OrthogonalNeighbours(cell) == north + east + south + [FieldCell(c - 1, r)];
    k := |north| + |east| + |south|;
  }

  /** A cell east of the western edge points west, at the first of its neighbours one step nearer the edge. */
  lemma WestCellFlow(cell: FieldCell)
    requires cell.column > 0
    ensures CellFlow(BITS_DEFAULT, cell, WEST_DISTANCES) == BITS_WEST | BITS_PATHABLE
  {
    var k := WestIsCheapest(cell);
    WestDistanceAt(cell);
    var o := CellFlowAt(cell, WEST_DISTANCES, k);
    assert CellToCellDirection(FieldCell(cell.column - 1, cell.row), cell) == Some(West);
  }

  /**
   * The west-portal case of the source's unit tests: the goals are the
   * western edge and the previous sector lies to the west; every goal
   * becomes a portal goal pointing west and every other cell a pathable
   * cell pointing west.
   */
  lemma CalculateFlowTargetWest()
    ensures var r := Calculated(DefaultFlowField(), WEST_EDGE, Some((West, WEST_DISTANCES)), WEST_DISTANCES);
      r.Some? &&
      forall cell: FieldCell :: r.value.cells[Index(cell)] ==
        if cell.column == 0 then BITS_PORTAL_GOAL | BITS_WEST else BITS_PATHABLE | BITS_WEST
  {
    var seeded := SeedPortalGoals(DefaultFlowField().cells, WEST_EDGE, WEST_DISTANCES, West);
    var r := Calculated(DefaultFlowField(), WEST_EDGE, Some((West, WEST_DISTANCES)), WEST_DISTANCES);
    forall cell: FieldCell
      ensures r.value.cells[Index(cell)] ==
        if cell.column == 0 then BITS_PORTAL_GOAL | BITS_WEST else BITS_PATHABLE | BITS_WEST
    {
      CellAtIndex(cell);
      SeedPortalGoalsAt(DefaultFlowField().cells, WEST_EDGE, WEST_DISTANCES, West, Index(cell));
      if cell.column == 0 {
        assert cell == WEST_EDGE[cell.row];
        WestGoalCode(cell);
        CellFlowKept(seeded[Index(cell)], cell, WEST_DISTANCES);
      } else {
        assert cell !in WEST_EDGE;
        WestCellFlow(cell);
        assert BITS_WEST | BITS_PATHABLE == BITS_PATHABLE | BITS_WEST;
      }
    }
  }
}
