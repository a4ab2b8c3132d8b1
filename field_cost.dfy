/**
 * The cost field of one sector: 8-bit movement costs, 1 by default and 255
 * for impassable cells, plus the breadth-first searches that decide whether
 * two cells of the field can reach each other and how costly the way is
 * (src/flowfields/fields/cost_field.rs).
 */
module FieldCost {
  import opened Options
  import opened Geometry
  import opened Grids
  import opened Reachability

  /** A `CostField`: its values indexed `[column][row]`. */
  datatype CostField = CostField(costs: CostGrid)

  /** `CostField::default`. */
  function DefaultCostField(): (f: CostField)
    ensures forall cell :: GetCost(f, cell) == 1
  {
    CostField(seq(CELL_COUNT, _ => 1))
  }

  /** `new_with_cost`. */
  function NewWithCost(cost: U8): (f: CostField)
    ensures forall cell :: GetCost(f, cell) == cost
  {
    CostField(seq(CELL_COUNT, _ => cost))
  }

  /** `get_field_cell_value`. */
  function GetCost(f: CostField, cell: FieldCell): U8 {
    f.costs[Index(cell)]
  }

  /** `set_field_cell_value`: the updated field. */
  function SetCost(f: CostField, value: U8, cell: FieldCell): (g: CostField)
    ensures GetCost(g, cell) == value
    ensures forall other :: other != cell ==> GetCost(g, other) == GetCost(f, other)
  {
    forall other | other != cell ensures Index(other) != Index(cell) {
      CellAtIndex(other);
      CellAtIndex(cell);
    }
    CostField(f.costs[Index(cell) := value])
  }

  /** Two fields agreeing on every cell are the same field. */
  lemma CostFieldsEqual(f: CostField, g: CostField)
    requires forall cell :: GetCost(f, cell) == GetCost(g, cell)
    ensures f == g
  {
    forall i | 0 <= i < CELL_COUNT ensures f.costs[i] == g.costs[i] {
      assert GetCost(f, CellAt(i)) == GetCost(g, CellAt(i));
    }
  }

  /** Sum of a list of step costs. */
  function Sum(xs: seq<int>): int {
    if xs == [] then 0 else xs[0] + Sum(xs[1..])
  }

  lemma {:induction false} SumAppend(xs: seq<int>, x: int)
    ensures Sum(xs + [x]) == Sum(xs) + x
  {
    if xs == [] {
      assert [x][1..] == [];
    } else {
      assert (xs + [x])[1..] == xs[1..] + [x];
      SumAppend(xs[1..], x);
    }
  }

  /** Sum of a list whose entries lie in `0..bound`. */
  lemma {:induction false} SumBounds(xs: seq<int>, bound: int)
    requires forall i :: 0 <= i < |xs| ==> 0 <= xs[i] <= bound
    ensures 0 <= Sum(xs) <= bound * |xs|
  {
    if xs != [] {
      SumBounds(xs[1..], bound);
    }
  }

  /** The integer mean of step costs that are all below 255 is itself below 255. */
  lemma MeanOfCosts(xs: seq<int>)
    requires |xs| > 0
    requires forall i :: 0 <= i < |xs| ==> 0 <= xs[i] < 255
    ensures 0 <= Sum(xs) / |xs| < 255
  {
    SumBounds(xs, 254);
  }

  /**
   * The inner loop of `process_neighbours` for one queued `cell`: walks its
   * orthogonal neighbours in order, stops with `hit` when one of them is the
   * target, and otherwise appends each passable neighbour not yet `seen` to
   * the cells to explore next.
   */
  method ScanNeighbours(field: CostField, ghost source: FieldCell, target: FieldCell, cell: FieldCell,
                        seen: set<FieldCell>, next: seq<FieldCell>) returns (hit: bool, next': seq<FieldCell>)
    requires cell in seen && Reaches(field.costs, source, cell)
    ensures hit ==> Connected(field.costs, source, target)
    ensures !hit ==> forall n :: n in OrthogonalNeighbours(cell) ==>
      n != target && (!Passable(field.costs, n) || n in seen || n in next')
    ensures forall n :: n in next ==> n in next'
    ensures forall n :: n in next' ==> n in next || (Reaches(field.costs, source, n) && n !in seen)
  {
    var costs := field.costs;
    next' := next;
    var neighbours := OrthogonalNeighbours(cell);
    var j := 0;
    while j < |neighbours|
      invariant 0 <= j <= |neighbours|
      invariant forall k :: 0 <= k < j ==>
        neighbours[k] != target && (!Passable(costs, neighbours[k]) || neighbours[k] in seen || neighbours[k] in next')
      invariant forall n :: n in next ==> n in next'
      invariant forall n :: n in next' ==> n in next || (Reaches(costs, source, n) && n !in seen)
    {
      var n := neighbours[j];
      if n == target {
        ConnectedThrough(costs, source, cell, target);
        return true, next';
      }
      var cellCost := GetCost(field, n);
      if cellCost != 255 && n !in seen {
        ReachesNeighbour(costs, source, cell, n);
        next' := next' + [n];
      }
      j := j + 1;
    }
    hit := false;
  }

  /**
   * One round of `process_neighbours`: the loop over the queue, stopping
   * early when a neighbour of a queued cell is the target.
   */
  method SearchRound(field: CostField, ghost source: FieldCell, target: FieldCell,
                     queue: seq<FieldCell>, visited: set<FieldCell>)
    returns (hit: bool, seen: set<FieldCell>, nextNeighbours: seq<FieldCell>)
    requires forall q :: q in queue ==> Reaches(field.costs, source, q)
    requires Frontier(field.costs, target, visited, queue)
    ensures hit ==> Connected(field.costs, source, target)
    ensures !hit ==> visited <= seen && (forall q :: q in queue ==> q in seen)
    ensures !hit ==> (forall q :: q in queue ==> q in visited) ==> seen == visited
    ensures !hit ==> Frontier(field.costs, target, seen, nextNeighbours)
    ensures !hit ==> forall n :: n in nextNeighbours ==> Reaches(field.costs, source, n) && n !in visited
  {
    var costs := field.costs;
    nextNeighbours, seen := [], visited;
    var i := 0;
    while i < |queue|
      invariant 0 <= i <= |queue|
      invariant visited <= seen
      invariant forall k :: 0 <= k < i ==> queue[k] in seen
      invariant (forall q :: q in queue ==> q in visited) ==> seen == visited
      invariant Frontier(costs, target, seen, queue + nextNeighbours)
      invariant forall n :: n in nextNeighbours ==> Reaches(costs, source, n) && n !in visited
    {
      var cell := queue[i];
      ghost var done := seen;
      seen := seen + {cell};
      var found, next' := ScanNeighbours(field, source, target, cell, seen, nextNeighbours);
      if found {
        return true, seen, next';
      }
      FrontierGrows(costs, target, done, queue + nextNeighbours, queue + next');
      FrontierAddsCell(costs, target, done, cell, queue + next');
      nextNeighbours := next';
      i := i + 1;
    }
    FrontierAbsorbs(costs, target, seen, queue, nextNeighbours);
    hit := false;
  }

  /**
   * `process_neighbours`: one breadth-first round over `queue`, then a
   * recursive call on the cells it enqueued. The target is found as soon as
   * it is a neighbour of a queued cell; impassable and visited cells are
   * never enqueued. The ghost `source` is where the search started.
   */
  method ProcessNeighbours(field: CostField, ghost source: FieldCell, target: FieldCell,
                           queue: seq<FieldCell>, visited: set<FieldCell>) returns (found: bool)
    requires source in visited || source in queue
    requires forall q :: q in queue ==> Reaches(field.costs, source, q)
    requires Frontier(field.costs, target, visited, queue)
    ensures found <==> Connected(field.costs, source, target)
    decreases AllCells() - visited, if forall q :: q in queue ==> q in visited then 1 else 0
  {
    var hit, seen, nextNeighbours := SearchRound(field, source, target, queue, visited);
    if hit {
      return true;
    }
    if |nextNeighbours| > 0 {
      assert nextNeighbours[0] !in visited;
      found := ProcessNeighbours(field, source, target, nextNeighbours, seen);
    } else {
      ClosedRegionBlocksTarget(field.costs, source, target, seen);
      found := false;
    }
  }

  /** `is_cell_pair_reachable`: a cell reaches itself; any other pair is decided by the search. */
  method IsCellPairReachable(field: CostField, source: FieldCell, target: FieldCell) returns (reachable: bool)
    ensures reachable <==> source == target || Connected(field.costs, source, target)
  {
    if source == target {
      return true;
    }
    SourceReached(field.costs, source);
    reachable := ProcessNeighbours(field, source, target, [source], {});
  }

  /** `longer` is `shorter` followed by further cell costs, each below 255. */
  predicate ExtendsWithCosts(shorter: seq<int>, longer: seq<int>) {
    |shorter| <= |longer| && longer[..|shorter|] == shorter &&
    forall k :: |shorter| <= k < |longer| ==> 0 <= longer[k] < 255
  }

  lemma ExtendsWithCostsTransitive(a: seq<int>, b: seq<int>, c: seq<int>)
    requires ExtendsWithCosts(a, b) && ExtendsWithCosts(b, c)
    ensures ExtendsWithCosts(a, c)
  {
    assert c[..|b|][..|a|] == c[..|a|];
  }

  /** The costs of `cells`, in order. */
  function CostsOf(field: CostField, cells: seq<FieldCell>): (r: seq<int>)
    ensures |r| == |cells|
  {
    seq(|cells|, k requires 0 <= k < |cells| => GetCost(field, cells[k]))
  }

  lemma CostsOfAt(field: CostField, cells: seq<FieldCell>)
    ensures forall k :: 0 <= k < |cells| ==> CostsOf(field, cells)[k] == GetCost(field, cells[k])
  {
  }

  lemma CostsOfConcat(field: CostField, a: seq<FieldCell>, b: seq<FieldCell>)
    ensures CostsOf(field, a + b) == CostsOf(field, a) + CostsOf(field, b)
  {
  }

  /**
   * The breadth-first search of `process_neighbours_distance`, one neighbour
   * at a time: from position `j` of the neighbours `ns`, `true` as soon as
   * one is the target, and otherwise `next` followed by every passable
   * neighbour not `seen`, in order, duplicates included.
   */
  function ScanAt(costs: CostGrid, target: FieldCell, ns: seq<FieldCell>, j: nat, seen: set<FieldCell>, next: seq<FieldCell>)
    : (r: (bool, seq<FieldCell>))
    requires j <= |ns|
    ensures |next| <= |r.1| && r.1[..|next|] == next
    ensures forall k :: |next| <= k < |r.1| ==> Passable(costs, r.1[k]) && r.1[k] !in seen
    decreases |ns| - j
  {
    if j == |ns| then (false, next)
    else if ns[j] == target then (true, next)
    else if Passable(costs, ns[j]) && ns[j] !in seen then
      var r := ScanAt(costs, target, ns, j + 1, seen, next + [ns[j]]);
      assert r.1[..|next|] == r.1[..|next| + 1][..|next|];
      r
    else ScanAt(costs, target, ns, j + 1, seen, next)
  }

  /**
   * A scan stops only at the target, enqueues only neighbours from `ns`, and
   * when it does not stop leaves every remaining neighbour impassable, seen
   * or enqueued.
   */
  lemma {:induction false} ScanAtCovers(costs: CostGrid, target: FieldCell, ns: seq<FieldCell>, j: nat, seen: set<FieldCell>, next: seq<FieldCell>)
    requires j <= |ns|
    ensures var r := ScanAt(costs, target, ns, j, seen, next);
      && (forall k :: |next| <= k < |r.1| ==> r.1[k] in ns[j..])
      && (r.0 ==> target in ns[j..])
      && (!r.0 ==> forall k :: j <= k < |ns| ==> ns[k] != target && (!Passable(costs, ns[k]) || ns[k] in seen || ns[k] in r.1))
    decreases |ns| - j
  {
    if j < |ns| && ns[j] != target {
      var next' := if Passable(costs, ns[j]) && ns[j] !in seen then next + [ns[j]] else next;
      ScanAtCovers(costs, target, ns, j + 1, seen, next');
      var r := ScanAt(costs, target, ns, j + 1, seen, next');
      assert ns[j + 1..] == ns[j..][1..];
      if next' != next {
        assert r.1[..|next'|] == next';
        assert r.1[|next|] == ns[j];
      }
    }
  }

  /**
   * One round of the search from position `i` of the queue: each queued cell
   * is marked seen and its orthogonal neighbours scanned, stopping at the
   * target. The result is whether the target was met, the cells seen and
   * the cells to explore next.
   */
  function RoundAt(costs: CostGrid, target: FieldCell, queue: seq<FieldCell>, i: nat, seen: set<FieldCell>, next: seq<FieldCell>)
    : (r: (bool, set<FieldCell>, seq<FieldCell>))
    requires i <= |queue|
    ensures seen <= r.1 && (i < |queue| ==> queue[i] in r.1)
    ensures |next| <= |r.2| && r.2[..|next|] == next
    ensures forall k :: |next| <= k < |r.2| ==> Passable(costs, r.2[k]) && r.2[k] !in seen && (i < |queue| ==> r.2[k] != queue[i])
    decreases |queue| - i
  {
    if i == |queue| then (false, seen, next)
    else
      var seen' := seen + {queue[i]};
      var scan := ScanAt(costs, target, OrthogonalNeighbours(queue[i]), 0, seen', next);
      if scan.0 then (true, seen', scan.1)
      else
        var r := RoundAt(costs, target, queue, i + 1, seen', scan.1);
        assert r.2[..|next|] == r.2[..|scan.1|][..|next|];
        r
  }

  /**
   * A round that does not meet the target has seen every queued cell, and
   * one whose queued cells were all seen already sees nothing new.
   */
  lemma {:induction false} RoundAtGrows(costs: CostGrid, target: FieldCell, queue: seq<FieldCell>, i: nat,
                                        seen: set<FieldCell>, next: seq<FieldCell>)
    requires i <= |queue|
    ensures var r := RoundAt(costs, target, queue, i, seen, next);
      && (!r.0 ==> forall k :: i <= k < |queue| ==> queue[k] in r.1)
      && ((forall k :: i <= k < |queue| ==> queue[k] in seen) ==> r.1 == seen)
    decreases |queue| - i
  {
    if i < |queue| {
      var seen' := seen + {queue[i]};
      var scan := ScanAt(costs, target, OrthogonalNeighbours(queue[i]), 0, seen', next);
      if !scan.0 {
        RoundAtGrows(costs, target, queue, i + 1, seen', scan.1);
      }
    }
  }

  /**
   * `process_neighbours_distance` as a function: `Some` of the cells the
   * search enqueues from `queue` on, in order, when it meets the target, and
   * `None` when it runs out of cells. The cells are passable, and none was
   * visited before or is the first queued cell.
   */
  function SearchFrom(costs: CostGrid, target: FieldCell, queue: seq<FieldCell>, visited: set<FieldCell>): (r: Option<seq<FieldCell>>)
    ensures r.Some? ==> forall n :: n in r.value ==> Passable(costs, n) && n !in visited && (|queue| > 0 ==> n != queue[0])
    decreases AllCells() - visited, if forall q :: q in queue ==> q in visited then 1 else 0
  {
    var round := RoundAt(costs, target, queue, 0, visited, []);
    RoundAtGrows(costs, target, queue, 0, visited, []);
    if round.0 then Some(round.2)
    else if |round.2| == 0 then None
    else
      assert round.2[0] !in visited;
      assert (forall q :: q in queue ==> q in visited) ==> round.1 == visited by {
        if forall q :: q in queue ==> q in visited {
          assert forall k :: 0 <= k < |queue| ==> queue[k] in visited;
        }
      }
      assert (exists q :: q in queue && q !in visited) ==> round.1 != visited by {
        if q :| q in queue && q !in visited {
          var k :| 0 <= k < |queue| && queue[k] == q;
          assert q in round.1;
        }
      }
      match SearchFrom(costs, target, round.2, round.1)
      case None => None
      case Some(later) => Some(round.2 + later)
  }

  /**
   * `get_distance_between_cells` as a function: `Some(1)` for a cell and
   * itself; otherwise, when the search from `source` meets `target`, the
   * integer mean of `0` followed by the costs of the cells it enqueued.
   */
  function DistanceBetween(field: CostField, source: FieldCell, target: FieldCell): Option<int> {
    if source == target then Some(1)
    else match SearchFrom(field.costs, target, [source], {})
      case None => None
      case Some(enqueued) => Some(Sum([0] + CostsOf(field, enqueued)) / (1 + |enqueued|))
  }

  /** The sum of `0` followed by step costs is the sum of the step costs. */
  lemma SumLeadingZero(xs: seq<int>)
    ensures Sum([0] + xs) == Sum(xs)
  {
    assert ([0] + xs)[1..] == xs;
  }

  /** The costs of passable cells all lie below 255. */
  lemma PassableCosts(field: CostField, cells: seq<FieldCell>)
    requires forall n :: n in cells ==> Passable(field.costs, n)
    ensures forall k :: 0 <= k < |CostsOf(field, cells)| ==> 0 <= CostsOf(field, cells)[k] < 255
  {
    CostsOfAt(field, cells);
    forall k | 0 <= k < |cells| ensures GetCost(field, cells[k]) < 255 {
      assert Passable(field.costs, cells[k]);
    }
  }

  /** Every distance lies in `0..254`. */
  lemma DistanceBounds(field: CostField, source: FieldCell, target: FieldCell)
    ensures DistanceBetween(field, source, target).Some? ==> 0 <= DistanceBetween(field, source, target).value < 255
  {
    if source != target && SearchFrom(field.costs, target, [source], {}).Some? {
      var enqueued := SearchFrom(field.costs, target, [source], {}).value;
      var costs := CostsOf(field, enqueued);
      PassableCosts(field, enqueued);
      SumBounds(costs, 254);
      SumLeadingZero(costs);
      MeanBelow(Sum([0] + costs), 1 + |enqueued|, 255);
    }
  }

  /**
   * The leading `0` pulls the mean down: between two different cells, a
   * field whose passable cells cost at most `m` gives a distance below `m`.
   */
  lemma DistanceBelowCostBound(field: CostField, source: FieldCell, target: FieldCell, m: nat)
    requires m >= 1
    requires forall cell :: Passable(field.costs, cell) ==> GetCost(field, cell) <= m
    ensures source != target && DistanceBetween(field, source, target).Some? ==> DistanceBetween(field, source, target).value < m
  {
    if source != target && SearchFrom(field.costs, target, [source], {}).Some? {
      var enqueued := SearchFrom(field.costs, target, [source], {}).value;
      var costs := CostsOf(field, enqueued);
      CostsOfAt(field, enqueued);
      forall k | 0 <= k < |costs| ensures 0 <= costs[k] <= m {
        assert enqueued[k] in enqueued;
      }
      SumBounds(costs, m);
      SumLeadingZero(costs);
      var total := Sum([0] + costs);
      MeanBelow(total, 1 + |enqueued|, m);
    }
  }

  /** A total below `m` per entry has an integer mean below `m`. */
  lemma MeanBelow(total: int, count: int, m: int)
    requires 0 <= total < m * count && count > 0
    ensures total / count < m
  {
  }

  /** On the default field, where every cell costs 1, two different cells are at distance 0. */
  lemma DefaultFieldDistanceIsZero(source: FieldCell, target: FieldCell)
    ensures source != target && DistanceBetween(DefaultCostField(), source, target).Some? ==>
      DistanceBetween(DefaultCostField(), source, target) == Some(0)
  {
    DistanceBounds(DefaultCostField(), source, target);
    DistanceBelowCostBound(DefaultCostField(), source, target, 1);
  }

  /** The inner loop of `process_neighbours_distance`: as `ScanNeighbours`, also recording the cost of every enqueued cell. */
  method ScanNeighboursDistance(field: CostField, ghost source: FieldCell, target: FieldCell, cell: FieldCell,
                                seen: set<FieldCell>, next: seq<FieldCell>, steps: seq<int>)
    returns (hit: bool, next': seq<FieldCell>, steps': seq<int>)
    requires cell in seen && Reaches(field.costs, source, cell)
    ensures hit ==> Connected(field.costs, source, target)
    ensures !hit ==> forall n :: n in OrthogonalNeighbours(cell) ==>
      n != target && (!Passable(field.costs, n) || n in seen || n in next')
    ensures forall n :: n in next ==> n in next'
    ensures forall n :: n in next' ==> n in next || (Reaches(field.costs, source, n) && n !in seen)
    ensures ExtendsWithCosts(steps, steps')
    ensures (hit, next') == ScanAt(field.costs, target, OrthogonalNeighbours(cell), 0, seen, next)
    ensures steps' == steps + CostsOf(field, next'[|next|..])
  {
    var neighbours := OrthogonalNeighbours(cell);
    next', steps' := next, steps;
    var j := 0;
    while j < |neighbours|
      invariant 0 <= j <= |neighbours| && |next| <= |next'| && next'[..|next|] == next
      invariant ScanAt(field.costs, target, neighbours, j, seen, next') == ScanAt(field.costs, target, neighbours, 0, seen, next)
      invariant steps' == steps + CostsOf(field, next'[|next|..])
    {
      var n := neighbours[j];
      if n == target {
        ScanDistanceFacts(field, source, target, cell, seen, next, steps, true, next', steps');
        return true, next', steps';
      }
      var cellCost := GetCost(field, n);
      if cellCost != 255 && n !in seen {
        StepsGrow(field, next, next', n);
        steps' := steps' + [cellCost];
        next' := next' + [n];
      }
      j := j + 1;
    }
    hit := false;
    ScanDistanceFacts(field, source, target, cell, seen, next, steps, hit, next', steps');
  }

  lemma StepsGrow(field: CostField, next: seq<FieldCell>, next': seq<FieldCell>, n: FieldCell)
    requires |next| <= |next'|
    ensures CostsOf(field, (next' + [n])[|next|..]) == CostsOf(field, next'[|next|..]) + [GetCost(field, n)]
  {
    assert (next' + [n])[|next|..] == next'[|next|..] + [n];
    CostsOfConcat(field, next'[|next|..], [n]);
  }

  /** What a scan of a reached cell's neighbours promises about reachability and the recorded costs. */
  lemma ScanDistanceFacts(field: CostField, source: FieldCell, target: FieldCell, cell: FieldCell,
                          seen: set<FieldCell>, next: seq<FieldCell>, steps: seq<int>,
                          hit: bool, next': seq<FieldCell>, steps': seq<int>)
    requires cell in seen && Reaches(field.costs, source, cell)
    requires (hit, next') == ScanAt(field.costs, target, OrthogonalNeighbours(cell), 0, seen, next)
    requires steps' == steps + CostsOf(field, next'[|next|..])
    ensures hit ==> Connected(field.costs, source, target)
    ensures !hit ==> forall n :: n in OrthogonalNeighbours(cell) ==>
      n != target && (!Passable(field.costs, n) || n in seen || n in next')
    ensures forall n :: n in next ==> n in next'
    ensures forall n :: n in next' ==> n in next || (Reaches(field.costs, source, n) && n !in seen)
    ensures ExtendsWithCosts(steps, steps')
  {
    var ns := OrthogonalNeighbours(cell);
    ScanAtCovers(field.costs, target, ns, 0, seen, next);
    assert ns[0..] == ns;
    if hit {
      ConnectedThrough(field.costs, source, cell, target);
    }
    forall n | n in next ensures n in next' {
      assert next'[..|next|] == next;
      var k :| 0 <= k < |next| && next[k] == n;
      assert next'[k] == n;
    }
    forall n | n in next' ensures n in next || (Reaches(field.costs, source, n) && n !in seen) {
      var k :| 0 <= k < |next'| && next'[k] == n;
      if k < |next| {
        assert next'[..|next|][k] == n;
      } else {
        ReachesNeighbour(field.costs, source, cell, n);
      }
    }
    PassableCosts(field, next'[|next|..]);
  }

  /**
   * One round of `process_neighbours_distance`: the loop over the queue,
   * stopping early when a neighbour of a queued cell is the target.
   */
  method DistanceRound(field: CostField, ghost source: FieldCell, target: FieldCell,
                       queue: seq<FieldCell>, visited: set<FieldCell>, steps: seq<int>)
    returns (hit: bool, seen: set<FieldCell>, nextNeighbours: seq<FieldCell>, stepsTaken: seq<int>)
    requires forall q :: q in queue ==> Reaches(field.costs, source, q)
    requires Frontier(field.costs, target, visited, queue)
    ensures hit ==> Connected(field.costs, source, target)
    ensures ExtendsWithCosts(steps, stepsTaken)
    ensures !hit ==> visited <= seen && (forall q :: q in queue ==> q in seen)
    ensures !hit ==> (forall q :: q in queue ==> q in visited) ==> seen == visited
    ensures !hit ==> Frontier(field.costs, target, seen, nextNeighbours)
    ensures !hit ==> forall n :: n in nextNeighbours ==> Reaches(field.costs, source, n) && n !in visited
    ensures (hit, seen, nextNeighbours) == RoundAt(field.costs, target, queue, 0, visited, [])
    ensures stepsTaken == steps + CostsOf(field, nextNeighbours)
    ensures forall n :: n in nextNeighbours ==> Reaches(field.costs, source, n)
  {
    var costs := field.costs;
    nextNeighbours, stepsTaken, seen := [], steps, visited;
    var i := 0;
    while i < |queue|
      invariant 0 <= i <= |queue|
      invariant visited <= seen
      invariant forall k :: 0 <= k < i ==> queue[k] in seen
      invariant (forall q :: q in queue ==> q in visited) ==> seen == visited
      invariant Frontier(costs, target, seen, queue + nextNeighbours)
      invariant forall n :: n in nextNeighbours ==> Reaches(costs, source, n) && n !in visited
      invariant RoundAt(costs, target, queue, i, seen, nextNeighbours) == RoundAt(costs, target, queue, 0, visited, [])
      invariant stepsTaken == steps + CostsOf(field, nextNeighbours)
    {
      var found, seen', next', steps' := DistanceCell(field, source, target, queue, i, seen, nextNeighbours, steps, stepsTaken);
      if found {
        ExtendsByPassable(field, steps, next');
        return true, seen', next', steps';
      }
      seen, nextNeighbours, stepsTaken := seen', next', steps';
      i := i + 1;
    }
    FrontierAbsorbs(costs, target, seen, queue, nextNeighbours);
    ExtendsByPassable(field, steps, nextNeighbours);
    hit := false;
  }

  /** The body of the loop over the queue in `process_neighbours_distance`, for the queued cell at `i`. */
  method DistanceCell(field: CostField, ghost source: FieldCell, target: FieldCell, queue: seq<FieldCell>, i: nat,
                      seen: set<FieldCell>, next: seq<FieldCell>, ghost steps: seq<int>, stepsTaken: seq<int>)
    returns (found: bool, seen': set<FieldCell>, next': seq<FieldCell>, steps': seq<int>)
    requires i < |queue| && forall q :: q in queue ==> Reaches(field.costs, source, q)
    requires Frontier(field.costs, target, seen, queue + next)
    requires stepsTaken == steps + CostsOf(field, next)
    ensures seen' == seen + {queue[i]}
    ensures RoundAt(field.costs, target, queue, i, seen, next) ==
      if found then (true, seen', next') else RoundAt(field.costs, target, queue, i + 1, seen', next')
    ensures steps' == steps + CostsOf(field, next')
    ensures found ==> Connected(field.costs, source, target)
    ensures !found ==> Frontier(field.costs, target, seen', queue + next')
    ensures forall n :: n in next' ==> n in next || (Reaches(field.costs, source, n) && n !in seen)
  {
    var cell := queue[i];
    seen' := seen + {cell};
    found, next', steps' := ScanNeighboursDistance(field, source, target, cell, seen', next, stepsTaken);
    DistanceRoundStep(field.costs, target, queue, i, seen, next, found, next');
    StepsJoin(field, next, next', steps, steps');
    if !found {
      FrontierGrows(field.costs, target, seen, queue + next, queue + next');
      FrontierAddsCell(field.costs, target, seen, cell, queue + next');
    }
  }

  /** Recording the costs of passable cells extends a list with costs below 255. */
  lemma ExtendsByPassable(field: CostField, steps: seq<int>, cells: seq<FieldCell>)
    requires forall k :: 0 <= k < |cells| ==> Passable(field.costs, cells[k])
    ensures ExtendsWithCosts(steps, steps + CostsOf(field, cells))
  {
    forall k | 0 <= k < |cells| ensures cells[k] in cells {
    }
    PassableCosts(field, cells);
  }

  /** One queued cell of a round: its scan continues the round. */
  lemma DistanceRoundStep(costs: CostGrid, target: FieldCell, queue: seq<FieldCell>, i: nat, seen: set<FieldCell>,
                          next: seq<FieldCell>, found: bool, next': seq<FieldCell>)
    requires i < |queue|
    requires (found, next') == ScanAt(costs, target, OrthogonalNeighbours(queue[i]), 0, seen + {queue[i]}, next)
    ensures RoundAt(costs, target, queue, i, seen, next) ==
      if found then (true, seen + {queue[i]}, next') else RoundAt(costs, target, queue, i + 1, seen + {queue[i]}, next')
  {
  }

  /** The recorded costs follow the enqueued cells. */
  lemma StepsJoin(field: CostField, next: seq<FieldCell>, next': seq<FieldCell>, steps: seq<int>, steps': seq<int>)
    requires |next| <= |next'| && next'[..|next|] == next
    requires steps' == steps + CostsOf(field, next) + CostsOf(field, next'[|next|..])
    ensures steps' == steps + CostsOf(field, next')
  {
    CostsJoin(field, next, next');
    AppendAssociates(steps, CostsOf(field, next), CostsOf(field, next'[|next|..]));
  }

  lemma AppendAssociates(x: seq<int>, y: seq<int>, z: seq<int>)
    ensures x + y + z == x + (y + z)
  {
  }

  /** The costs of a prefix and of the rest make the costs of the whole. */
  lemma CostsJoin(field: CostField, next: seq<FieldCell>, next': seq<FieldCell>)
    requires |next| <= |next'| && next'[..|next|] == next
    ensures CostsOf(field, next) + CostsOf(field, next'[|next|..]) == CostsOf(field, next')
  {
    assert next' == next + next'[|next|..];
    CostsOfConcat(field, next, next'[|next|..]);
  }

  /**
   * `process_neighbours_distance`: the search of `process_neighbours`,
   * answering with the integer mean of `steps` (which gains the cost of
   * every enqueued cell) when the target is found. The ghost `finalSteps`
   * is the list the mean was taken over.
   */
  method ProcessNeighboursDistance(field: CostField, ghost source: FieldCell, target: FieldCell,
                                   queue: seq<FieldCell>, visited: set<FieldCell>, steps: seq<int>)
    returns (distance: Option<int>, ghost finalSteps: seq<int>)
    requires source in visited || source in queue
    requires forall q :: q in queue ==> Reaches(field.costs, source, q)
    requires Frontier(field.costs, target, visited, queue)
    requires |steps| > 0
    ensures distance.Some? <==> Connected(field.costs, source, target)
    ensures ExtendsWithCosts(steps, finalSteps)
    ensures distance.Some? ==> distance.value == Sum(finalSteps) / |finalSteps|
    ensures distance.Some? <==> SearchFrom(field.costs, target, queue, visited).Some?
    ensures distance.Some? ==> finalSteps == steps + CostsOf(field, SearchFrom(field.costs, target, queue, visited).value)
    ensures distance.Some? ==> forall n :: n in SearchFrom(field.costs, target, queue, visited).value ==> Reaches(field.costs, source, n)
    decreases AllCells() - visited, if forall q :: q in queue ==> q in visited then 1 else 0
  {
    var hit, seen, nextNeighbours, stepsTaken := DistanceRound(field, source, target, queue, visited, steps);
    if hit {
      return Some(Sum(stepsTaken) / |stepsTaken|), stepsTaken;
    }
    if |nextNeighbours| > 0 {
      assert nextNeighbours[0] !in visited;
      distance, finalSteps := ProcessNeighboursDistance(field, source, target, nextNeighbours, seen, stepsTaken);
      ExtendsWithCostsTransitive(steps, stepsTaken, finalSteps);
      if distance.Some? {
        var later := SearchFrom(field.costs, target, nextNeighbours, seen).value;
        CostsOfConcat(field, nextNeighbours, later);
        AppendAssociates(steps, CostsOf(field, nextNeighbours), CostsOf(field, later));
      }
    } else {
      ClosedRegionBlocksTarget(field.costs, source, target, seen);
      distance, finalSteps := None, stepsTaken;
    }
  }

  /**
   * `get_distance_between_cells`: `Some(1)` for a cell and itself; otherwise
   * `Some` exactly when the cells are connected, holding the integer mean of
   * `[0]` followed by the costs of the cells the search enqueued, which is
   * always below 255.
   */
  method GetDistanceBetweenCells(field: CostField, source: FieldCell, target: FieldCell)
    returns (distance: Option<int>, ghost stepCosts: seq<int>)
    ensures distance.Some? <==> source == target || Connected(field.costs, source, target)
    ensures source == target ==> distance == Some(1)
    ensures source != target && distance.Some? ==>
      |stepCosts| >= 1 && stepCosts[0] == 0 &&
      (forall k :: 0 <= k < |stepCosts| ==> 0 <= stepCosts[k] < 255) &&
      distance.value == Sum(stepCosts) / |stepCosts|
    ensures distance.Some? ==> 0 <= distance.value < 255
    ensures distance == DistanceBetween(field, source, target)
    ensures source != target && distance.Some? ==>
      var enqueued := SearchFrom(field.costs, target, [source], {}).value;
      stepCosts == [0] + CostsOf(field, enqueued) &&
      forall n :: n in enqueued ==> Passable(field.costs, n) && Reaches(field.costs, source, n) && n != source
  {
    if source == target {
      return Some(1), [];
    }
    SourceReached(field.costs, source);
    distance, stepCosts := ProcessNeighboursDistance(field, source, target, [source], {}, [0]);
    if distance.Some? {
      assert stepCosts[..1] == [0];
      MeanOfCosts(stepCosts);
    }
  }

  /** A target walled in by 255 on every side is neither reachable nor at any distance from a non-adjacent source. */
  lemma EnclosedTargetHasNoDistance(field: CostField, source: FieldCell, target: FieldCell)
    requires forall n :: n in OrthogonalNeighbours(target) ==> GetCost(field, n) == 255
    requires source != target && source !in OrthogonalNeighbours(target)
    ensures !Connected(field.costs, source, target)
  {
    EnclosedTargetUnreachable(field.costs, source, target);
  }
}
