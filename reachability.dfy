/**
 * What the breadth-first searches over a cost field compute, stated as
 * walks through the field. Both cost fields (src/flowfields/fields/cost_field.rs
 * and src/flowfields/cost_field.rs) explore orthogonal neighbours, never step
 * onto a cell of cost 255, and accept the target as soon as it is adjacent
 * to an explored cell, whatever the target's own cost.
 */
module Reachability {
  import opened Geometry
  import opened Grids

  /** The cost values of one field, stored by `Index`. */
  type CostGrid = s: seq<U8> | |s| == CELL_COUNT witness seq(CELL_COUNT, _ => 1)

  const IMPASSABLE: U8 := 255

  predicate Passable(costs: CostGrid, cell: FieldCell) {
    costs[Index(cell)] != IMPASSABLE
  }

  /** Consecutive cells of `p` are orthogonal neighbours. */
  ghost predicate IsWalk(p: seq<FieldCell>) {
    forall i :: 0 <= i < |p| - 1 ==> OrthogonallyAdjacent(p[i], p[i + 1])
  }

  /** A walk from `source` that only enters passable cells. */
  ghost predicate IsExploration(costs: CostGrid, source: FieldCell, p: seq<FieldCell>) {
    |p| >= 1 && p[0] == source && IsWalk(p) &&
    forall i :: 1 <= i < |p| ==> Passable(costs, p[i])
  }

  /** A walk from `source` to `target` whose intermediate cells are passable. */
  ghost predicate IsRoute(costs: CostGrid, source: FieldCell, target: FieldCell, p: seq<FieldCell>) {
    |p| >= 2 && p[0] == source && p[|p| - 1] == target && IsWalk(p) &&
    forall i :: 0 < i < |p| - 1 ==> Passable(costs, p[i])
  }

  /** `cell` can be explored from `source`. */
  ghost predicate Reaches(costs: CostGrid, source: FieldCell, cell: FieldCell) {
    exists p :: IsExploration(costs, source, p) && p[|p| - 1] == cell
  }

  /** `cell` can be explored from `source` in exactly `steps` steps. */
  ghost predicate ReachesIn(costs: CostGrid, source: FieldCell, cell: FieldCell, steps: nat) {
    exists p :: |p| == steps + 1 && IsExploration(costs, source, p) && p[steps] == cell
  }

  /** Some route leads from `source` to `target`. */
  ghost predicate Connected(costs: CostGrid, source: FieldCell, target: FieldCell) {
    exists p :: IsRoute(costs, source, target, p)
  }

  /** Some route of exactly `steps` steps leads from `source` to `target`. */
  ghost predicate ConnectedIn(costs: CostGrid, source: FieldCell, target: FieldCell, steps: nat) {
    exists p :: |p| == steps + 1 && IsRoute(costs, source, target, p)
  }

  /**
   * Every orthogonal neighbour of a cell in `done` differs from `target` and
   * is impassable, in `done` or in `pending`: the search has nothing left to
   * find around `done`.
   */
  ghost predicate Frontier(costs: CostGrid, target: FieldCell, done: set<FieldCell>, pending: seq<FieldCell>) {
    forall v, n {:trigger n in OrthogonalNeighbours(v), v in done} :: v in done && n in OrthogonalNeighbours(v) ==>
      n != target && (!Passable(costs, n) || n in done || n in pending)
  }

  /** `Frontier` only weakens as more cells become pending. */
  lemma FrontierGrows(costs: CostGrid, target: FieldCell, done: set<FieldCell>, pending: seq<FieldCell>, more: seq<FieldCell>)
    requires Frontier(costs, target, done, pending)
    requires forall x :: x in pending ==> x in more
    ensures Frontier(costs, target, done, more)
  {
  }

  /** A cell whose neighbours have all been dealt with joins `done`. */
  lemma FrontierAddsCell(costs: CostGrid, target: FieldCell, done: set<FieldCell>, cell: FieldCell, pending: seq<FieldCell>)
    requires Frontier(costs, target, done, pending)
    requires forall n :: n in OrthogonalNeighbours(cell) ==>
      n != target && (!Passable(costs, n) || n in done + {cell} || n in pending)
    ensures Frontier(costs, target, done + {cell}, pending)
  {
  }

  /** Pending cells that are already done can be dropped. */
  lemma FrontierAbsorbs(costs: CostGrid, target: FieldCell, done: set<FieldCell>, absorbed: seq<FieldCell>, pending: seq<FieldCell>)
    requires Frontier(costs, target, done, absorbed + pending)
    requires forall x :: x in absorbed ==> x in done
    ensures Frontier(costs, target, done, pending)
  {
  }

  lemma ExtendExploration(costs: CostGrid, source: FieldCell, p: seq<FieldCell>, n: FieldCell)
    requires IsExploration(costs, source, p)
    requires n in OrthogonalNeighbours(p[|p| - 1]) && Passable(costs, n)
    ensures IsExploration(costs, source, p + [n])
  {
    var q := p + [n];
    forall i | 0 <= i < |q| - 1
      ensures OrthogonallyAdjacent(q[i], q[i + 1])
    {
      if i < |p| - 1 {
        assert q[i] == p[i] && q[i + 1] == p[i + 1];
      }
    }
  }

  lemma CompleteRoute(costs: CostGrid, source: FieldCell, target: FieldCell, p: seq<FieldCell>)
    requires IsExploration(costs, source, p)
    requires target in OrthogonalNeighbours(p[|p| - 1])
    ensures IsRoute(costs, source, target, p + [target])
  {
    var q := p + [target];
    forall i | 0 <= i < |q| - 1
      ensures OrthogonallyAdjacent(q[i], q[i + 1])
    {
      if i < |p| - 1 {
        assert q[i] == p[i] && q[i + 1] == p[i + 1];
      }
    }
    forall i | 0 < i < |q| - 1
      ensures Passable(costs, q[i])
    {
      assert q[i] == p[i];
    }
  }

  /** A cell next to an explored cell is explored one step later. */
  lemma ReachesNeighbour(costs: CostGrid, source: FieldCell, cell: FieldCell, n: FieldCell)
    requires Reaches(costs, source, cell)
    requires n in OrthogonalNeighbours(cell) && Passable(costs, n)
    ensures Reaches(costs, source, n)
  {
    var p :| IsExploration(costs, source, p) && p[|p| - 1] == cell;
    ExtendExploration(costs, source, p, n);
    assert (p + [n])[|p + [n]| - 1] == n;
  }

  lemma ReachesNeighbourIn(costs: CostGrid, source: FieldCell, cell: FieldCell, steps: nat, n: FieldCell)
    requires ReachesIn(costs, source, cell, steps)
    requires n in OrthogonalNeighbours(cell) && Passable(costs, n)
    ensures ReachesIn(costs, source, n, steps + 1)
  {
    var p :| |p| == steps + 1 && IsExploration(costs, source, p) && p[steps] == cell;
    ExtendExploration(costs, source, p, n);
    assert (p + [n])[steps + 1] == n;
  }

  /** Reaching the target's neighbour in `steps` steps gives a route of `steps + 1` steps. */
  lemma RouteThrough(costs: CostGrid, source: FieldCell, cell: FieldCell, steps: nat, target: FieldCell)
    requires ReachesIn(costs, source, cell, steps)
    requires target in OrthogonalNeighbours(cell)
    ensures ConnectedIn(costs, source, target, steps + 1)
  {
    var p :| |p| == steps + 1 && IsExploration(costs, source, p) && p[steps] == cell;
    CompleteRoute(costs, source, target, p);
  }

  lemma ConnectedThrough(costs: CostGrid, source: FieldCell, cell: FieldCell, target: FieldCell)
    requires Reaches(costs, source, cell)
    requires target in OrthogonalNeighbours(cell)
    ensures Connected(costs, source, target)
  {
    var p :| IsExploration(costs, source, p) && p[|p| - 1] == cell;
    CompleteRoute(costs, source, target, p);
  }

  /** The next-to-last cell of a route is an orthogonal neighbour of the target, and either the source or an intermediate, passable, cell. */
  lemma RouteEntersNeighbour(costs: CostGrid, source: FieldCell, target: FieldCell, p: seq<FieldCell>)
    requires IsRoute(costs, source, target, p)
    ensures p[|p| - 2] in OrthogonalNeighbours(target) && target in OrthogonalNeighbours(p[|p| - 2])
    ensures |p| == 2 ==> p[0] == source
    ensures |p| > 2 ==> Passable(costs, p[|p| - 2])
  {
    assert OrthogonallyAdjacent(p[|p| - 2], p[|p| - 1]);
  }

  /** No route leads out of a closed region around the source: every cell but the last of a route would stay in it. */
  lemma {:induction false} ClosedRegionHasNoRoute(costs: CostGrid, source: FieldCell, target: FieldCell, done: set<FieldCell>, p: seq<FieldCell>)
    requires source in done && Frontier(costs, target, done, [])
    ensures !IsRoute(costs, source, target, p)
  {
    if IsRoute(costs, source, target, p) {
      var i := 0;
      while i < |p| - 2
        invariant 0 <= i <= |p| - 2
        invariant p[i] in done
      {
        assert p[i + 1] in OrthogonalNeighbours(p[i]);
        i := i + 1;
      }
      RouteEntersNeighbour(costs, source, target, p);
      assert false;
    }
  }

  /** A search that has explored a closed region around the source finds no route. */
  lemma ClosedRegionBlocksTarget(costs: CostGrid, source: FieldCell, target: FieldCell, done: set<FieldCell>)
    requires source in done && Frontier(costs, target, done, [])
    ensures !Connected(costs, source, target)
  {
    forall p
      ensures !IsRoute(costs, source, target, p)
    {
      ClosedRegionHasNoRoute(costs, source, target, done, p);
    }
  }

  /**
   * A target whose orthogonal neighbours are all impassable cannot be
   * reached from a source that is not itself one of those neighbours.
   */
  lemma EnclosedTargetUnreachable(costs: CostGrid, source: FieldCell, target: FieldCell)
    requires forall n :: n in OrthogonalNeighbours(target) ==> !Passable(costs, n)
    requires source !in OrthogonalNeighbours(target)
    ensures !Connected(costs, source, target)
  {
    forall p | IsRoute(costs, source, target, p)
      ensures false
    {
      RouteEntersNeighbour(costs, source, target, p);
    }
  }

  /**
   * One breadth-first round completed: the cells `done` reached in at most
   * `steps` steps are surrounded by `done` and `pending`, so every cell
   * reached in `steps + 1` steps is in `done` or `pending`.
   */
  lemma RoundExtendsReach(costs: CostGrid, source: FieldCell, target: FieldCell, steps: nat,
                          done: set<FieldCell>, pending: seq<FieldCell>)
    requires forall x: FieldCell, j: nat {:trigger ReachesIn(costs, source, x, j)} :: j <= steps && ReachesIn(costs, source, x, j) ==> x in done
    requires Frontier(costs, target, done, pending)
    ensures forall x: FieldCell, j: nat {:trigger ReachesIn(costs, source, x, j)} :: j <= steps + 1 && ReachesIn(costs, source, x, j) ==> x in done || x in pending
  {
    forall x: FieldCell, j: nat | j <= steps + 1 && ReachesIn(costs, source, x, j)
      ensures x in done || x in pending
    {
      if j == steps + 1 {
        var p :| |p| == j + 1 && IsExploration(costs, source, p) && p[j] == x;
        var q := p[..j];
        assert IsExploration(costs, source, q) by {
          forall i | 0 <= i < |q| - 1 ensures OrthogonallyAdjacent(q[i], q[i + 1]) {
            assert q[i] == p[i] && q[i + 1] == p[i + 1];
          }
        }
        assert ReachesIn(costs, source, p[j - 1], steps);
        assert OrthogonallyAdjacent(p[j - 1], p[j]);
        assert x in OrthogonalNeighbours(p[j - 1]);
      }
    }
  }

  /** Under the same conditions no route of exactly `steps + 1` steps exists (the target would be next to `done`). */
  lemma RoundExcludesLength(costs: CostGrid, source: FieldCell, target: FieldCell, steps: nat,
                            done: set<FieldCell>, pending: seq<FieldCell>)
    requires forall x: FieldCell, j: nat {:trigger ReachesIn(costs, source, x, j)} :: j <= steps && ReachesIn(costs, source, x, j) ==> x in done
    requires Frontier(costs, target, done, pending)
    ensures !ConnectedIn(costs, source, target, steps + 1)
  {
    forall p | |p| == steps + 2 && IsRoute(costs, source, target, p)
      ensures false
    {
      RouteDropsLastStep(costs, source, target, steps, p);
    }
  }

  /** Without its last step a route of `steps + 1` steps explores the target's neighbour in `steps` steps. */
  lemma RouteDropsLastStep(costs: CostGrid, source: FieldCell, target: FieldCell, steps: nat, p: seq<FieldCell>)
    requires |p| == steps + 2 && IsRoute(costs, source, target, p)
    ensures ReachesIn(costs, source, p[steps], steps) && target in OrthogonalNeighbours(p[steps])
  {
    var q := p[..steps + 1];
    assert IsExploration(costs, source, q) by {
      forall i | 0 <= i < |q| - 1 ensures OrthogonallyAdjacent(q[i], q[i + 1]) {
        assert q[i] == p[i] && q[i + 1] == p[i + 1];
      }
      forall i | 1 <= i < |q| ensures Passable(costs, q[i]) {
        assert q[i] == p[i];
      }
    }
    assert q[steps] == p[steps];
    RouteEntersNeighbour(costs, source, target, p);
  }

  lemma ReachesInReaches(costs: CostGrid, source: FieldCell, cell: FieldCell, steps: nat)
    requires ReachesIn(costs, source, cell, steps)
    ensures Reaches(costs, source, cell)
  {
    var p :| |p| == steps + 1 && IsExploration(costs, source, p) && p[steps] == cell;
  }

  lemma ConnectedInConnected(costs: CostGrid, source: FieldCell, target: FieldCell, steps: nat)
    requires ConnectedIn(costs, source, target, steps)
    ensures Connected(costs, source, target)
  {
    var p :| |p| == steps + 1 && IsRoute(costs, source, target, p);
  }

  /** The source is reached in zero steps. */
  lemma SourceReached(costs: CostGrid, source: FieldCell)
    ensures ReachesIn(costs, source, source, 0)
    ensures Reaches(costs, source, source)
  {
    assert IsExploration(costs, source, [source]);
  }
}
