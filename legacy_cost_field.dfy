/**
 * The older cost field of src/flowfields/cost_field.rs: a 10 x 10 grid of
 * 8-bit costs updated in place, bounds-checked getters and setters, and the
 * breadth-first search that decides whether two portals of a sector can see
 * each other and how many rounds it takes.
 */
module LegacyCostField {
  import opened Options
  import opened Geometry
  import opened Grids
  import opened Reachability

  class CostField {
    /** The grid, indexed `[column][row]`. */
    const cells: array2<U8>

    ghost predicate Valid()
      reads this
    {
      cells.Length0 == FIELD_RESOLUTION && cells.Length1 == FIELD_RESOLUTION
    }

    /** The grid read as a column-major sequence, the form the search is specified on. */
    ghost function Costs(): CostGrid
      reads this, cells
      requires Valid()
    {
      seq(CELL_COUNT, i requires 0 <= i < CELL_COUNT reads cells => cells[i / FIELD_RESOLUTION, i % FIELD_RESOLUTION])
    }

    lemma CostsAt(cell: FieldCell)
      requires Valid()
      ensures Costs()[Index(cell)] == cells[cell.column, cell.row]
    {
      CellAtIndex(cell);
    }

    /** `CostField::default`: every cell costs 1. */
    constructor ()
      ensures Valid() && fresh(cells)
      ensures forall c, r :: 0 <= c < FIELD_RESOLUTION && 0 <= r < FIELD_RESOLUTION ==> cells[c, r] == 1
    {
      cells := new U8[FIELD_RESOLUTION, FIELD_RESOLUTION]((_, _) => 1);
    }

    /** `get_grid_value`: `None` where the source panics, for a column or row of 10 or more. */
    method GetGridValue(column: nat, row: nat) returns (value: Option<U8>)
      requires Valid()
      ensures value.Some? <==> column < FIELD_RESOLUTION && row < FIELD_RESOLUTION
      ensures value.Some? ==> value.value == cells[column, row]
    {
      if column >= cells.Length0 || row >= cells.Length1 {
        return None;
      }
      return Some(cells[column, row]);
    }

    /**
     * `set_grid_value`: `done` is false where the source panics, and then no
     * cell changes; otherwise exactly the one cell takes the new value.
     */
    method SetGridValue(value: U8, column: nat, row: nat) returns (done: bool)
      requires Valid()
      modifies cells
      ensures done <==> column < FIELD_RESOLUTION && row < FIELD_RESOLUTION
      ensures done ==> cells[column, row] == value
      ensures forall c, r :: 0 <= c < FIELD_RESOLUTION && 0 <= r < FIELD_RESOLUTION && (c, r) != (column, row) ==>
        cells[c, r] == old(cells[c, r])
      ensures !done ==> forall c, r :: 0 <= c < FIELD_RESOLUTION && 0 <= r < FIELD_RESOLUTION ==> cells[c, r] == old(cells[c, r])
    {
      if column >= cells.Length0 || row >= cells.Length1 {
        return false;
      }
      cells[column, row] := value;
      return true;
    }

    /**
     * `can_internal_portal_pair_see_each_other`: a cell sees itself after 0
     * steps; otherwise the pair is visible exactly when a route joins them,
     * and the step count is the length of the shortest such route.
     */
    method CanInternalPortalPairSeeEachOther(source: FieldCell, target: FieldCell) returns (visible: bool, steps: nat)
      requires Valid()
      ensures source == target ==> visible && steps == 0
      ensures source != target ==> (visible <==> Connected(Costs(), source, target))
      ensures source != target && visible ==>
        ConnectedIn(Costs(), source, target, steps) && forall j :: 0 <= j < steps ==> !ConnectedIn(Costs(), source, target, j)
    {
      if source == target {
        return true, 0;
      }
      ghost var costs := Costs();
      SourceReached(costs, source);
      assert !ConnectedIn(costs, source, target, 0);
      assert Covered(costs, source, {}, [source], 0) by {
        forall x: FieldCell, j: nat | j <= 0 && ReachesIn(costs, source, x, j) ensures x in [source] {
          var p :| |p| == j + 1 && IsExploration(costs, source, p) && p[j] == x;
        }
      }
      visible, steps := ProcessNeighbours(costs, source, target, [source], {}, 0);
    }

    /** `process_neighbours`: one round, counted in `stepsTaken`, then a recursive call on the new ring. */
    method ProcessNeighbours(ghost costs: CostGrid, ghost source: FieldCell, target: FieldCell,
                             queue: seq<FieldCell>, visited: set<FieldCell>, stepsTaken: nat)
      returns (found: bool, steps: nat)
      requires Valid() && costs == Costs()
      requires source in visited || source in queue
      requires forall q :: q in queue ==> ReachesIn(costs, source, q, stepsTaken)
      requires Covered(costs, source, visited, queue, stepsTaken)
      requires Frontier(costs, target, visited, queue)
      requires forall j :: 0 <= j <= stepsTaken ==> !ConnectedIn(costs, source, target, j)
      ensures found <==> Connected(costs, source, target)
      ensures found ==> ConnectedIn(costs, source, target, steps) && forall j :: 0 <= j < steps ==> !ConnectedIn(costs, source, target, j)
      decreases AllCells() - visited, if forall q :: q in queue ==> q in visited then 1 else 0
    {
      var hit, seen, nextNeighbours := Round(costs, source, target, queue, visited, stepsTaken);
      if hit {
        return true, stepsTaken + 1;
      }
      assert forall x: FieldCell, j: nat {:trigger ReachesIn(costs, source, x, j)} :: j <= stepsTaken && ReachesIn(costs, source, x, j) ==> x in seen;
      RoundExtendsReach(costs, source, target, stepsTaken, seen, nextNeighbours);
      RoundExcludesLength(costs, source, target, stepsTaken, seen, nextNeighbours);
      if |nextNeighbours| > 0 {
        assert nextNeighbours[0] !in visited;
        found, steps := ProcessNeighbours(costs, source, target, nextNeighbours, seen, stepsTaken + 1);
      } else {
        ClosedRegionBlocksTarget(costs, source, target, seen);
        found, steps := false, stepsTaken + 1;
      }
    }

    /** The loop of `process_neighbours` over the queue, stopping when a neighbour is the target. */
    method Round(ghost costs: CostGrid, ghost source: FieldCell, target: FieldCell,
                 queue: seq<FieldCell>, visited: set<FieldCell>, stepsTaken: nat)
      returns (hit: bool, seen: set<FieldCell>, nextNeighbours: seq<FieldCell>)
      requires Valid() && costs == Costs()
      requires forall q :: q in queue ==> ReachesIn(costs, source, q, stepsTaken)
      requires Frontier(costs, target, visited, queue)
      ensures hit ==> ConnectedIn(costs, source, target, stepsTaken + 1)
      ensures !hit ==> visited <= seen && (forall q :: q in queue ==> q in seen)
      ensures !hit ==> (forall q :: q in queue ==> q in visited) ==> seen == visited
      ensures !hit ==> Frontier(costs, target, seen, nextNeighbours)
      ensures !hit ==> forall n :: n in nextNeighbours ==> ReachesIn(costs, source, n, stepsTaken + 1) && n !in visited
    {
      nextNeighbours, seen := [], visited;
      var i := 0;
      while i < |queue|
        invariant 0 <= i <= |queue|
        invariant visited <= seen
        invariant forall k :: 0 <= k < i ==> queue[k] in seen
        invariant (forall q :: q in queue ==> q in visited) ==> seen == visited
        invariant Frontier(costs, target, seen, queue + nextNeighbours)
        invariant forall n :: n in nextNeighbours ==> ReachesIn(costs, source, n, stepsTaken + 1) && n !in visited
      {
        var cell := queue[i];
        ghost var done := seen;
        seen := seen + {cell};
        var found, next' := ScanNeighbours(costs, source, target, cell, stepsTaken, seen, nextNeighbours);
        if found {
          return true, seen, next';
        }
        FrontierGrows(costs, target, done, queue + nextNeighbours, queue + next');
        FrontierAddsCell(costs, target, done, cell, queue + next');
        nextNeighbours := next';
        i := i + 1;
      }
      FrontierAbsorbs(costs, target, seen, queue, nextNeighbours);
      hit := false;
    }

    /** The inner loop of `process_neighbours` over the neighbours of one queued cell. */
    method ScanNeighbours(ghost costs: CostGrid, ghost source: FieldCell, target: FieldCell, cell: FieldCell,
                          ghost stepsTaken: nat, seen: set<FieldCell>, next: seq<FieldCell>)
      returns (hit: bool, next': seq<FieldCell>)
      requires Valid() && costs == Costs()
      requires cell in seen && ReachesIn(costs, source, cell, stepsTaken)
      ensures hit ==> ConnectedIn(costs, source, target, stepsTaken + 1)
      ensures !hit ==> forall n :: n in OrthogonalNeighbours(cell) ==>
        n != target && (!Passable(costs, n) || n in seen || n in next')
      ensures forall n :: n in next ==> n in next'
      ensures forall n :: n in next' ==> n in next || (ReachesIn(costs, source, n, stepsTaken + 1) && n !in seen)
    {
      next' := next;
      var neighbours := OrthogonalNeighbours(cell);
      var j := 0;
      while j < |neighbours|
        invariant 0 <= j <= |neighbours|
        invariant forall k :: 0 <= k < j ==>
          neighbours[k] != target && (!Passable(costs, neighbours[k]) || neighbours[k] in seen || neighbours[k] in next')
        invariant forall n :: n in next ==> n in next'
        invariant forall n :: n in next' ==> n in next || (ReachesIn(costs, source, n, stepsTaken + 1) && n !in seen)
      {
        var n := neighbours[j];
        if n == target {
          RouteThrough(costs, source, cell, stepsTaken, target);
          return true, next';
        }
        var cellCost := cells[n.column, n.row];
        CostsAt(n);
        if cellCost != 255 && n !in seen {
          ReachesNeighbourIn(costs, source, cell, stepsTaken, n);
          next' := next' + [n];
        }
        j := j + 1;
      }
      hit := false;
    }
  }

  /** Every cell explored from `source` in at most `steps` steps is in `done` or `pending`. */
  ghost predicate Covered(costs: CostGrid, source: FieldCell, done: set<FieldCell>, pending: seq<FieldCell>, steps: nat) {
    forall x: FieldCell, j: nat {:trigger ReachesIn(costs, source, x, j)} :: j <= steps && ReachesIn(costs, source, x, j) ==> x in done || x in pending
  }
}
