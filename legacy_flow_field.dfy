/**
 * The older flow field of src/flowfields/flow_field.rs: a 10 x 10 array of
 * flow bytes indexed `[column][row]`, with the same direction and flag
 * codes as src/flowfields/fields/flow_field.rs (so those constants,
 * `convert_ordinal_to_bits_dir` and `get_ordinal_from_bits` are the ones of
 * module Flow), its own goal seeding in `calculate`, and the flag check `abc`.
 *
 * Goals are `(usize, usize)` pairs that nothing checks against the grid, so
 * they are taken as pairs of naturals here; the integration field `calculate`
 * reads is the older 16-bit one, taken as a grid of 16-bit costs.
 */
module LegacyFlowField {
  import opened Options
  import opened Geometry
  import opened Grids
  import opened Flow

  /** A cell as the older code passes it: `(column, row)`, unchecked. */
  type GridCell = (nat, nat)

  predicate InGrid(g: GridCell) {
    g.0 < FIELD_RESOLUTION && g.1 < FIELD_RESOLUTION
  }

  function ToCell(g: GridCell): FieldCell
    requires InGrid(g)
  {
    FieldCell(g.0, g.1)
  }

  /** The code every goal gets when there is a previous sector: the portal-goal flag and the direction of `o`. */
  function PortalGoalBits(o: Ordinal): bv8 {
    BITS_PORTAL_GOAL | ConvertOrdinalToBitsDir(o)
  }

  /** The loop over the goals that writes `code` into each, `None` at the first goal off the grid. */
  function PortalGoalsSeeded(cells: FlowGrid, goals: seq<GridCell>, code: bv8): Option<FlowGrid>
    decreases |goals|
  {
    if goals == [] then Some(cells)
    else
      match PortalGoalsSeeded(cells, goals[..|goals| - 1], code)
      case None => None
      case Some(s) =>
        var g := goals[|goals| - 1];
        if InGrid(g) then var t: FlowGrid := s[Index(ToCell(g)) := code]; Some(t) else None
  }

  /**
   * The goal loop succeeds exactly when every goal lies on the grid, and then
   * the goals hold `code` and every other cell is as before.
   */
  lemma {:induction false} PortalGoalsSeededMeaning(cells: FlowGrid, goals: seq<GridCell>, code: bv8)
    ensures PortalGoalsSeeded(cells, goals, code).Some? <==> forall k :: 0 <= k < |goals| ==> InGrid(goals[k])
    ensures PortalGoalsSeeded(cells, goals, code).Some? ==> forall cell: FieldCell ::
      PortalGoalsSeeded(cells, goals, code).value[Index(cell)] ==
        if (cell.column, cell.row) in goals then code else cells[Index(cell)]
    decreases |goals|
  {
    if goals != [] {
      var front := goals[..|goals| - 1];
      PortalGoalsSeededMeaning(cells, front, code);
      assert forall k :: 0 <= k < |front| ==> front[k] == goals[k];
      assert goals == front + [goals[|goals| - 1]];
      if PortalGoalsSeeded(cells, goals, code).Some? {
        forall cell: FieldCell
          ensures PortalGoalsSeeded(cells, goals, code).value[Index(cell)] ==
            if (cell.column, cell.row) in goals then code else cells[Index(cell)]
        {
          var g := goals[|goals| - 1];
          if Index(cell) == Index(ToCell(g)) {
            IndexInjective(cell, ToCell(g));
          } else {
            assert cell != ToCell(g);
          }
        }
      }
    }
  }

  /** The first phase of `calculate`; `None` where the source panics (no goal, or a goal off the grid). */
  function SeededGoals(cells: FlowGrid, goals: seq<GridCell>, previous: Option<Ordinal>): Option<FlowGrid> {
    match previous
    case None =>
      if goals == [] || !InGrid(goals[0]) then None
      else var s: FlowGrid := cells[Index(ToCell(goals[0])) := BITS_GOAL]; Some(s)
    case Some(o) => PortalGoalsSeeded(cells, goals, PortalGoalBits(o))
  }

  /** `calculate` as a whole: the goals seeded, then every cell through the second phase of module Flow. */
  function CalculatedGrid(cells: FlowGrid, goals: seq<GridCell>, previous: Option<Ordinal>, integration: IntCosts): Option<FlowGrid> {
    match SeededGoals(cells, goals, previous)
    case None => None
    case Some(seeded) =>
      var r: FlowGrid := seq(CELL_COUNT, i requires 0 <= i < CELL_COUNT => CellFlow(seeded[i], CellAt(i), integration));
      Some(r)
  }

  /** Whether `cell` is one of the cells the first phase writes. */
  predicate IsSeeded(cell: FieldCell, goals: seq<GridCell>, previous: Option<Ordinal>) {
    if previous.None? then goals != [] && goals[0] == (cell.column, cell.row) else (cell.column, cell.row) in goals
  }

  /**
   * `calculate` succeeds exactly when the source does not panic. Without a
   * previous sector the first goal ends as `BITS_GOAL`; with one, every goal
   * ends as the portal-goal flag with the direction of the previous sector's
   * ordinal, which decodes back to that ordinal. Every other cell is what
   * the second phase makes of its value before the call.
   */
  lemma CalculatedGridMeaning(cells: FlowGrid, goals: seq<GridCell>, previous: Option<Ordinal>, integration: IntCosts)
    ensures CalculatedGrid(cells, goals, previous, integration).Some? <==>
      if previous.None? then goals != [] && InGrid(goals[0]) else forall k :: 0 <= k < |goals| ==> InGrid(goals[k])
    ensures previous.None? && CalculatedGrid(cells, goals, previous, integration).Some? ==>
      CalculatedGrid(cells, goals, previous, integration).value[Index(ToCell(goals[0]))] == BITS_GOAL
    ensures previous.Some? && CalculatedGrid(cells, goals, previous, integration).Some? ==>
      forall k :: 0 <= k < |goals| ==> var v := CalculatedGrid(cells, goals, previous, integration).value[Index(ToCell(goals[k]))];
        v == PortalGoalBits(previous.value) && OrdinalFromBits(v) == previous
    ensures CalculatedGrid(cells, goals, previous, integration).Some? ==> forall cell: FieldCell :: !IsSeeded(cell, goals, previous) ==>
      CalculatedGrid(cells, goals, previous, integration).value[Index(cell)] == CellFlow(cells[Index(cell)], cell, integration)
  {
    if previous.Some? {
      PortalGoalsSeededMeaning(cells, goals, PortalGoalBits(previous.value));
      OrdinalBitsRoundTrip(previous.value, BITS_PORTAL_GOAL);
    }
    if CalculatedGrid(cells, goals, previous, integration).Some? {
      var seeded := SeededGoals(cells, goals, previous).value;
      var r := CalculatedGrid(cells, goals, previous, integration).value;
      forall cell: FieldCell ensures r[Index(cell)] == CellFlow(seeded[Index(cell)], cell, integration) {
        CellAtIndex(cell);
      }
      if previous.None? {
        forall cell: FieldCell | !IsSeeded(cell, goals, previous) ensures seeded[Index(cell)] == cells[Index(cell)] {
          if Index(cell) == Index(ToCell(goals[0])) {
            IndexInjective(cell, ToCell(goals[0]));
          }
        }
      } else {
        forall k | 0 <= k < |goals| ensures (ToCell(goals[k]).column, ToCell(goals[k]).row) in goals {
        }
      }
    }
  }

  /**
   * `abc`: true where the source returns and false where it panics, that is
   * when the high nibble is exactly one of the four single flags.
   */
  predicate FlagsRecognised(v: bv8) {
    var flags := v & FLAG_FILTER;
    flags == BITS_GOAL || flags == BITS_PORTAL_GOAL || flags == BITS_HAS_LOS || flags == BITS_PATHABLE
  }

  /**
   * The check accepts a value exactly when one bit of the high nibble is
   * set, whatever the low nibble; it refuses the unset sentinel and the
   * impassable code.
   */
  lemma FlagsRecognisedMeaning(v: bv8)
    ensures FlagsRecognised(v) <==> var flags := v & FLAG_FILTER; flags != 0 && flags & (flags - 1) == 0
    ensures FlagsRecognised(v) <==> FlagsRecognised(v & FLAG_FILTER)
    ensures !FlagsRecognised(BITS_DEFAULT) && !FlagsRecognised(BITS_ZERO)
  {
  }

  /**
   * Every cell the second phase of `calculate` points somewhere passes the
   * check with a decodable direction; the others stay unset or become
   * impassable, which the check refuses.
   */
  lemma CellFlowRecognised(cell: FieldCell, integration: IntCosts)
    ensures var w := CellFlow(BITS_DEFAULT, cell, integration);
      w == BITS_DEFAULT || w == BITS_ZERO || (FlagsRecognised(w) && OrdinalFromBits(w).Some?)
  {
    var cost := integration[Index(cell)];
    if 0 < cost < U16_MAX {
      var p := FirstCheapest(NeighbourCosts(cell, integration), U16_MAX);
      if p.Some? {
        var o := CellFlowAt(cell, integration, p.value);
        OrdinalBitsRoundTrip(o, BITS_PATHABLE);
        assert ConvertOrdinalToBitsDir(o) | BITS_PATHABLE == BITS_PATHABLE | ConvertOrdinalToBitsDir(o);
        assert ConvertOrdinalToBitsDir(o) & FLAG_FILTER == 0;
      }
    }
  }

  /** A goal off the grid stops the goal loop, whatever follows it. */
  lemma PortalGoalsFailure(cells: FlowGrid, goals: seq<GridCell>, code: bv8, k: nat)
    requires k < |goals| && !InGrid(goals[k])
    ensures PortalGoalsSeeded(cells, goals, code).None?
  {
    PortalGoalsSeededMeaning(cells, goals, code);
  }

  class FlowField {
    /** The grid, indexed `[column][row]`. */
    const cells: array2<bv8>

    ghost predicate Valid()
      reads this
    {
      cells.Length0 == FIELD_RESOLUTION && cells.Length1 == FIELD_RESOLUTION
    }

    /** `get_field`: the grid read as a column-major sequence, the form `calculate` is specified on. */
    ghost function Grid(): FlowGrid
      reads this, cells
      requires Valid()
    {
      seq(CELL_COUNT, i requires 0 <= i < CELL_COUNT reads cells => cells[i / FIELD_RESOLUTION, i % FIELD_RESOLUTION])
    }

    lemma GridAt(cell: FieldCell)
      requires Valid()
      ensures Grid()[Index(cell)] == cells[cell.column, cell.row]
    {
      CellAtIndex(cell);
    }

    /** `FlowField::default`: every cell holds the sentinel. */
    constructor ()
      ensures Valid() && fresh(cells)
      ensures forall c, r :: 0 <= c < FIELD_RESOLUTION && 0 <= r < FIELD_RESOLUTION ==> cells[c, r] == BITS_DEFAULT
    {
      cells := new bv8[FIELD_RESOLUTION, FIELD_RESOLUTION]((_, _) => BITS_DEFAULT);
    }

    /** `get_grid_value`: the byte at `[column][row]`, `None` where the source panics. */
    function GetGridValue(column: nat, row: nat): (value: Option<bv8>)
      reads this, cells
      requires Valid()
      ensures value.Some? <==> column < FIELD_RESOLUTION && row < FIELD_RESOLUTION
      ensures value.Some? ==> value.value == cells[column, row]
    {
      if column >= cells.Length0 || row >= cells.Length1 then None else Some(cells[column, row])
    }

    /**
     * `set_grid_value`: `done` is false where the source panics, and then no
     * cell changes; otherwise a read of the same cell returns the new value
     * and every other cell reads as before.
     */
    method SetGridValue(value: bv8, column: nat, row: nat) returns (done: bool)
      requires Valid()
      modifies cells
      ensures done <==> column < FIELD_RESOLUTION && row < FIELD_RESOLUTION
      ensures done ==> cells[column, row] == value
      ensures forall c: nat, r: nat :: (c, r) != (column, row) ==> GetGridValue(c, r) == old(GetGridValue(c, r))
      ensures !done ==> unchanged(cells)
    {
      if column >= cells.Length0 || row >= cells.Length1 {
        return false;
      }
      cells[column, row] := value;
      return true;
    }

    /** The cells hold `grid`, cell by cell. */
    ghost predicate Holds(grid: FlowGrid)
      reads this, cells
      requires Valid()
    {
      forall cell: FieldCell :: cells[cell.column, cell.row] == grid[Index(cell)]
    }

    /**
     * `calculate`: `ok` is false where the source panics; otherwise the grid
     * is what `Calculated` makes of the grid before the call.
     */
    method Calculate(goals: seq<GridCell>, previous: Option<Ordinal>, integration: IntCosts) returns (ok: bool)
      requires Valid()
      modifies cells
      ensures ok <==> CalculatedGrid(old(Grid()), goals, previous, integration).Some?
      ensures ok ==> Holds(CalculatedGrid(old(Grid()), goals, previous, integration).value)
    {
      ghost var start := Grid();
      assert Holds(start) by {
        forall cell: FieldCell ensures cells[cell.column, cell.row] == start[Index(cell)] {
          GridAt(cell);
        }
      }
      ghost var seeded: FlowGrid;
      ok, seeded := SeedGoals(start, goals, previous);
      if !ok {
        return;
      }
      FlowPass(seeded, integration);
      ghost var r := CalculatedGrid(start, goals, previous, integration).value;
      assert Holds(r) by {
        forall cell: FieldCell ensures cells[cell.column, cell.row] == r[Index(cell)] {
          CellAtIndex(cell);
        }
      }
    }

    /** The first phase of `calculate`, writing the goal cells one by one. */
    method SeedGoals(ghost start: FlowGrid, goals: seq<GridCell>, previous: Option<Ordinal>) returns (ok: bool, ghost seeded: FlowGrid)
      requires Valid() && Holds(start)
      modifies cells
      ensures ok <==> SeededGoals(start, goals, previous).Some?
      ensures ok ==> seeded == SeededGoals(start, goals, previous).value && Holds(seeded)
    {
      if previous.None? {
        if |goals| == 0 {
          return false, start;
        }
        var done := SetGridValue(BITS_GOAL, goals[0].0, goals[0].1);
        if !done {
          return false, start;
        }
        seeded := start[Index(ToCell(goals[0])) := BITS_GOAL];
        forall cell: FieldCell ensures cells[cell.column, cell.row] == seeded[Index(cell)] {
          if cell != ToCell(goals[0]) {
            assert GetGridValue(cell.column, cell.row) == old(GetGridValue(cell.column, cell.row));
            IndexInjective(cell, ToCell(goals[0]));
          }
        }
        return true, seeded;
      }
      var ordinalBits := ConvertOrdinalToBitsDir(previous.value);
      seeded := start;
      for k := 0 to |goals|
        invariant PortalGoalsSeeded(start, goals[..k], PortalGoalBits(previous.value)) == Some(seeded)
        invariant Holds(seeded)
      {
        assert goals[..k + 1][..k] == goals[..k];
        var value: bv8 := 0;
        value := value | BITS_PORTAL_GOAL;
        value := value | ordinalBits;
        assert value == PortalGoalBits(previous.value);
        label BeforeWrite:
        var done := SetGridValue(value, goals[k].0, goals[k].1);
        if !done {
          PortalGoalsFailure(start, goals, PortalGoalBits(previous.value), k);
          return false, start;
        }
        seeded := seeded[Index(ToCell(goals[k])) := value];
        forall cell: FieldCell ensures cells[cell.column, cell.row] == seeded[Index(cell)] {
          if cell != ToCell(goals[k]) {
            assert GetGridValue(cell.column, cell.row) == old@BeforeWrite(GetGridValue(cell.column, cell.row));
            IndexInjective(cell, ToCell(goals[k]));
          }
        }
      }
      assert goals[..|goals|] == goals;
      return true, seeded;
    }

    /** The cells before position `n` have been through the second phase and the rest are as seeded. */
    ghost predicate PassedTo(seeded: FlowGrid, integration: IntCosts, n: nat)
      reads this, cells
      requires Valid()
    {
      forall cell: FieldCell :: cells[cell.column, cell.row] ==
        if Index(cell) < n then CellFlow(seeded[Index(cell)], cell, integration) else seeded[Index(cell)]
    }

    /** The nested loops of the second phase, one cell at a time through the per-cell step of module Flow. */
    method FlowPass(ghost seeded: FlowGrid, integration: IntCosts)
      requires Valid() && Holds(seeded)
      modifies cells
      ensures forall cell: FieldCell :: cells[cell.column, cell.row] == CellFlow(seeded[Index(cell)], cell, integration)
    {
      for i := 0 to FIELD_RESOLUTION
        invariant PassedTo(seeded, integration, i * FIELD_RESOLUTION)
      {
        for j := 0 to FIELD_RESOLUTION
          invariant PassedTo(seeded, integration, i * FIELD_RESOLUTION + j)
        {
          var cell := FieldCell(i, j);
          var value := CellStep(cells[i, j], cell, integration);
          label BeforeWrite:
          cells[i, j] := value;
          forall other: FieldCell
            ensures cells[other.column, other.row] ==
              if Index(other) < i * FIELD_RESOLUTION + j + 1 then CellFlow(seeded[Index(other)], other, integration) else seeded[Index(other)]
          {
            if other != cell {
              IndexInjective(other, cell);
              assert cells[other.column, other.row] == old@BeforeWrite(cells[other.column, other.row]);
            }
          }
        }
      }
    }
  }
}
