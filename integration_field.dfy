/**
 * The integration field of one sector (src/flowfields/fields/integration_field.rs):
 * 32-bit cells whose low 16 bits hold the cumulative cost of reaching the goal
 * and whose high 16 bits hold flags, built by a line-of-sight wavefront from
 * the goal and then a cost wavefront from the recorded corners.
 *
 * Cell values are kept as unsigned 32-bit integers. The source tests a flag
 * with `v & FLAG == FLAG` and reads the cost with `v & INT_FILTER_BITS_COST`;
 * every flag is a single bit at or above bit 16 (`FlagsPartition`), so these
 * are stated here as `(v / FLAG) % 2 == 1` and `v % 0x1_0000`.
 */
module Integration {
  import opened Options
  import opened Geometry
  import opened Grids
  import opened FieldCost

  /** Flags a cell as having line of sight to the goal. */
  const INT_BITS_LOS: bv32 := 0x0001_0000
  /** Flags a cell as the goal. */
  const INT_BITS_GOAL: bv32 := 0x0002_0000
  /** Flags a cell to stop the line-of-sight wavefront. */
  const INT_BITS_WAVE_BLOCKED: bv32 := 0x0004_0000
  /** Flags a cell as a portal. */
  const INT_BITS_PORTAL: bv32 := 0x0008_0000
  /** Flags a cell as impassable. */
  const INT_BITS_IMPASSABLE: bv32 := 0x0200_0000
  /** Flags a cell as a corner the cost wavefront starts from. */
  const INT_BITS_CORNER: bv32 := 0x0400_0000
  /** The cost half of a value. */
  const INT_FILTER_BITS_COST: bv32 := 0x0000_FFFF
  /** The flag half of a value. */
  const INT_FILTER_BITS_FLAGS: bv32 := 0xFFFF_0000

  // The flags as the numbers the field values add and test.
  const FLAG_LOS: U32 := INT_BITS_LOS as int
  const FLAG_GOAL: U32 := INT_BITS_GOAL as int
  const FLAG_WAVE_BLOCKED: U32 := INT_BITS_WAVE_BLOCKED as int
  const FLAG_PORTAL: U32 := INT_BITS_PORTAL as int
  const FLAG_IMPASSABLE: U32 := INT_BITS_IMPASSABLE as int
  const FLAG_CORNER: U32 := INT_BITS_CORNER as int

  const U16_MAX: nat := 65535

  /** The cost bits of a value, `v & INT_FILTER_BITS_COST`. */
  function CostBits(v: U32): (c: nat)
    ensures c <= U16_MAX && c <= v
    ensures v <= U16_MAX ==> c == v
  {
    v % 0x1_0000
  }

  /** `v & flag == flag` for a single-bit flag. */
  predicate HasFlag(v: U32, flag: U32)
    requires flag > 0
  {
    (v / flag) % 2 == 1
  }

  /** A cell the cost wavefront may write: neither impassable nor in line of sight. */
  predicate Writable(v: U32) {
    !HasFlag(v, FLAG_IMPASSABLE) && !HasFlag(v, FLAG_LOS)
  }

  /** A value made of cost bits alone has no flag set. */
  lemma BareHasNoFlags(v: U32)
    requires v <= U16_MAX
    ensures CostBits(v) == v
    ensures !HasFlag(v, FLAG_LOS) && !HasFlag(v, FLAG_GOAL) && !HasFlag(v, FLAG_WAVE_BLOCKED)
    ensures !HasFlag(v, FLAG_PORTAL) && !HasFlag(v, FLAG_IMPASSABLE) && !HasFlag(v, FLAG_CORNER)
  {
  }

  /**
   * The flags are pairwise disjoint single bits outside the cost half, and
   * the two filters split the 32 bits between them.
   */
  lemma FlagsPartition()
    ensures INT_BITS_LOS & INT_BITS_GOAL == 0
    ensures INT_BITS_LOS & INT_BITS_WAVE_BLOCKED == 0
    ensures INT_BITS_LOS & INT_BITS_PORTAL == 0
    ensures INT_BITS_LOS & INT_BITS_IMPASSABLE == 0
    ensures INT_BITS_LOS & INT_BITS_CORNER == 0
    ensures INT_BITS_GOAL & INT_BITS_WAVE_BLOCKED == 0
    ensures INT_BITS_GOAL & INT_BITS_PORTAL == 0
    ensures INT_BITS_GOAL & INT_BITS_IMPASSABLE == 0
    ensures INT_BITS_GOAL & INT_BITS_CORNER == 0
    ensures INT_BITS_WAVE_BLOCKED & INT_BITS_PORTAL == 0
    ensures INT_BITS_WAVE_BLOCKED & INT_BITS_IMPASSABLE == 0
    ensures INT_BITS_WAVE_BLOCKED & INT_BITS_CORNER == 0
    ensures INT_BITS_PORTAL & INT_BITS_IMPASSABLE == 0
    ensures INT_BITS_PORTAL & INT_BITS_CORNER == 0
    ensures INT_BITS_IMPASSABLE & INT_BITS_CORNER == 0
    ensures INT_FILTER_BITS_COST & INT_FILTER_BITS_FLAGS == 0
    ensures INT_FILTER_BITS_COST | INT_FILTER_BITS_FLAGS == 0xFFFF_FFFF
    ensures INT_BITS_LOS & INT_FILTER_BITS_FLAGS == INT_BITS_LOS
    ensures INT_BITS_GOAL & INT_FILTER_BITS_FLAGS == INT_BITS_GOAL
    ensures INT_BITS_WAVE_BLOCKED & INT_FILTER_BITS_FLAGS == INT_BITS_WAVE_BLOCKED
    ensures INT_BITS_PORTAL & INT_FILTER_BITS_FLAGS == INT_BITS_PORTAL
    ensures INT_BITS_IMPASSABLE & INT_FILTER_BITS_FLAGS == INT_BITS_IMPASSABLE
    ensures INT_BITS_CORNER & INT_FILTER_BITS_FLAGS == INT_BITS_CORNER
  {
  }

  /** The 100 values of a field, indexed as `Grids.Index` says. */
  type IntGrid = s: seq<U32> | |s| == CELL_COUNT witness seq(CELL_COUNT, _ => 0)

  /** An `IntegrationField`: its values and the corners the cost wavefront starts from. */
  datatype IntegrationField = IntegrationField(field: IntGrid, losCorners: seq<FieldCell>)

  /** `IntegrationField::default`: every cost at `u16::MAX`, no flag, no corner. */
  function DefaultField(): (f: IntegrationField)
    ensures forall cell :: GetValue(f, cell) == U16_MAX
    ensures f.losCorners == []
  {
    IntegrationField(seq(CELL_COUNT, _ => U16_MAX), [])
  }

  /** `get_field_cell_value`. */
  function GetValue(f: IntegrationField, cell: FieldCell): U32 {
    f.field[Index(cell)]
  }

  /** `set_field_cell_value`: the field with one value replaced. */
  function SetValue(f: IntegrationField, value: U32, cell: FieldCell): (g: IntegrationField)
    ensures GetValue(g, cell) == value
    ensures forall other :: other != cell ==> GetValue(g, other) == GetValue(f, other)
    ensures g.losCorners == f.losCorners
  {
    forall other | other != cell ensures Index(other) != Index(cell) {
      CellAtIndex(other);
      CellAtIndex(cell);
    }
    IntegrationField(f.field[Index(cell) := value], f.losCorners)
  }

  /** The value `new` gives a cell: the goal flag alone at the goal, an impassable flag over a 255 cost. */
  function NewValue(goal: FieldCell, cost: CostField, cell: FieldCell): U32 {
    if cell == goal then FLAG_GOAL
    else if GetCost(cost, cell) == 255 then U16_MAX + FLAG_IMPASSABLE
    else U16_MAX
  }

  /** `IntegrationField::new` as a value. */
  function NewField(goal: FieldCell, cost: CostField): IntegrationField {
    IntegrationField(seq(CELL_COUNT, i requires 0 <= i < CELL_COUNT => NewValue(goal, cost, CellAt(i))), [])
  }

  /** `IntegrationField::new`: the default field, every 255 cell marked impassable in place, then the goal written. */
  method New(goal: FieldCell, cost: CostField) returns (f: IntegrationField)
    ensures f == NewField(goal, cost)
  {
    f := DefaultField();
    for column := 0 to FIELD_RESOLUTION
      invariant f.losCorners == []
      invariant forall i :: 0 <= i < CELL_COUNT ==>
        f.field[i] == if i < column * FIELD_RESOLUTION && GetCost(cost, CellAt(i)) == 255 then U16_MAX + FLAG_IMPASSABLE else U16_MAX
    {
      for row := 0 to FIELD_RESOLUTION
        invariant f.losCorners == []
        invariant forall i :: 0 <= i < CELL_COUNT ==>
          f.field[i] == if i < column * FIELD_RESOLUTION + row && GetCost(cost, CellAt(i)) == 255 then U16_MAX + FLAG_IMPASSABLE else U16_MAX
      {
        var cell := FieldCell(column, row);
        if GetCost(cost, cell) == 255 {
          f := SetValue(f, U16_MAX + FLAG_IMPASSABLE, cell);
        }
      }
    }
    f := SetValue(f, FLAG_GOAL, goal);
    assert f.field == NewField(goal, cost).field;
  }

  /**
   * A new field: the goal holds the goal flag and cost 0, a 255 cell holds the
   * impassable flag and cost `u16::MAX`, and every other cell holds `u16::MAX`
   * with no flag, so only impassable cells are closed to the cost wavefront.
   */
  lemma NewFieldMeaning(goal: FieldCell, cost: CostField, cell: FieldCell)
    ensures var v := GetValue(NewField(goal, cost), cell);
      && (cell == goal ==> v == FLAG_GOAL && CostBits(v) == 0 && HasFlag(v, FLAG_GOAL) && Writable(v))
      && (cell != goal && GetCost(cost, cell) == 255 ==>
            CostBits(v) == U16_MAX && HasFlag(v, FLAG_IMPASSABLE) && !HasFlag(v, FLAG_LOS) && !Writable(v))
      && (cell != goal && GetCost(cost, cell) != 255 ==> v == U16_MAX && Writable(v))
    ensures NewField(goal, cost).losCorners == []
  {
    var v := GetValue(NewField(goal, cost), cell);
    assert v == NewValue(goal, cost, cell);
    if cell != goal && GetCost(cost, cell) != 255 {
      BareHasNoFlags(v);
    }
  }

  // The cost wavefront, `process_neighbours`.

  /** The sum of a weight over the values of a field. */
  function WeightSum(s: seq<U32>, w: U32 -> nat): nat {
    if s == [] then 0 else w(s[0]) + WeightSum(s[1..], w)
  }

  /** Lowering the weight of some values, and raising none, lowers the sum. */
  lemma {:induction false} WeightSumLowers(f: seq<U32>, g: seq<U32>, w: U32 -> nat, i: nat)
    requires |f| == |g|
    requires forall j :: 0 <= j < |f| ==> w(g[j]) <= w(f[j])
    ensures WeightSum(g, w) <= WeightSum(f, w)
    ensures i < |f| && w(g[i]) < w(f[i]) ==> WeightSum(g, w) < WeightSum(f, w)
  {
    if f != [] {
      WeightSumLowers(f[1..], g[1..], w, if i == 0 then 0 else i - 1);
      if i > 0 && i < |f| {
        assert f[1..][i - 1] == f[i] && g[1..][i - 1] == g[i];
      }
    }
  }

  /** A sum of weights that never exceed `bound` is at most `bound` per value. */
  lemma {:induction false} WeightSumBound(s: seq<U32>, w: U32 -> nat, bound: nat)
    requires forall j :: 0 <= j < |s| ==> w(s[j]) <= bound
    ensures WeightSum(s, w) <= bound * |s|
  {
    if s != [] {
      WeightSumBound(s[1..], w, bound);
    }
  }

  /**
   * `g` comes from `f` by cost-wavefront writes: impassable and line-of-sight
   * cells are untouched, and a changed cell holds a bare cost (no flag) below
   * the cost bits it had.
   */
  ghost predicate Lowers(f: IntGrid, g: IntGrid) {
    forall i :: 0 <= i < CELL_COUNT ==>
      && (Writable(g[i]) <==> Writable(f[i]))
      && (!Writable(f[i]) ==> g[i] == f[i])
      && (g[i] != f[i] ==> g[i] < CostBits(f[i]))
  }

  lemma LowersReflexive(f: IntGrid)
    ensures Lowers(f, f)
  {
  }

  lemma LowersTransitive(a: IntGrid, b: IntGrid, c: IntGrid)
    requires Lowers(a, b) && Lowers(b, c)
    ensures Lowers(a, c)
  {
  }

  /** Under `Lowers`, no cell's cost bits rise. */
  lemma LowersCosts(f: IntGrid, g: IntGrid)
    requires Lowers(f, g)
    ensures forall i :: 0 <= i < CELL_COUNT ==> CostBits(g[i]) <= CostBits(f[i]) && g[i] <= f[i]
  {
  }

  /** No open neighbour of `cell` costs more than one step from a cell of cost `prev`. */
  ghost predicate EntryRelaxed(g: IntGrid, cell: FieldCell, prev: U32, costs: CostField) {
    forall n :: OrthogonallyAdjacent(cell, n) && Writable(g[Index(n)]) ==>
      CostBits(g[Index(n)]) <= GetCost(costs, n) + CostBits(prev)
  }

  /** Lowering more cells keeps a relaxed entry relaxed. */
  lemma RelaxedKept(g: IntGrid, h: IntGrid, cell: FieldCell, prev: U32, costs: CostField)
    requires Lowers(g, h) && EntryRelaxed(g, cell, prev, costs)
    ensures EntryRelaxed(h, cell, prev, costs)
  {
    LowersCosts(g, h);
  }

  /** Where a lowered cell's cost comes from. */
  datatype Parent = Queued(k: nat) | Lowered(m: FieldCell)

  /**
   * Cell `c` of `g` costs one step from its parent: exactly one step from
   * the queue entry `k`, or at least one step from the lowered neighbour `m`.
   */
  ghost predicate Supports(f: IntGrid, queue: seq<(FieldCell, U32)>, costs: CostField, g: IntGrid, c: FieldCell, p: Parent) {
    match p
    case Queued(k) =>
      k < |queue| && OrthogonallyAdjacent(queue[k].0, c) && g[Index(c)] == GetCost(costs, c) + CostBits(queue[k].1)
    case Lowered(m) =>
      OrthogonallyAdjacent(m, c) && g[Index(m)] != f[Index(m)] && g[Index(c)] >= GetCost(costs, c) + g[Index(m)]
  }

  /**
   * What `process_neighbours(f, queue)` leaves: `g` lowers `f`; no open cell
   * next to a queue entry or to a lowered cell costs more than one step
   * from it; and every lowered cell costs one step from a parent.
   */
  ghost predicate Wavefront(f: IntGrid, queue: seq<(FieldCell, U32)>, costs: CostField, g: IntGrid, parents: seq<Parent>) {
    && Lowers(f, g)
    && (forall k :: 0 <= k < |queue| ==> EntryRelaxed(g, queue[k].0, queue[k].1, costs))
    && (forall c :: g[Index(c)] != f[Index(c)] ==> EntryRelaxed(g, c, g[Index(c)], costs))
    && |parents| == CELL_COUNT
    && (forall c :: g[Index(c)] != f[Index(c)] ==> Supports(f, queue, costs, g, c, parents[Index(c)]))
  }

  /** The four cells of `get_orthogonal_cell_neighbours` are distinct. */
  lemma OrthogonalNeighboursDistinct(cell: FieldCell)
    ensures forall a, b :: 0 <= a < b < |OrthogonalNeighbours(cell)| ==>
      Index(OrthogonalNeighbours(cell)[a]) != Index(OrthogonalNeighbours(cell)[b])
  {
  }

  /** After the first `j` neighbours of `cell`: the state the inner loop of `process_neighbours` keeps. */
  ghost predicate EntryScan(g: IntGrid, h: IntGrid, pushed: seq<(FieldCell, U32)>, cell: FieldCell, prev: U32, costs: CostField, j: nat) {
    var ns := OrthogonalNeighbours(cell);
    && j <= |ns|
    && Lowers(g, h)
    && (forall a :: 0 <= a < j && Writable(h[Index(ns[a])]) ==>
          CostBits(h[Index(ns[a])]) <= GetCost(costs, ns[a]) + CostBits(prev))
    && (forall c :: h[Index(c)] != g[Index(c)] ==>
          (c, h[Index(c)]) in pushed && OrthogonallyAdjacent(cell, c) && h[Index(c)] == GetCost(costs, c) + CostBits(prev))
    && (forall e :: e in pushed ==> h[Index(e.0)] == e.1 && h[Index(e.0)] != g[Index(e.0)])
    && (forall i :: 0 <= i < CELL_COUNT && (forall a :: 0 <= a < j ==> Index(ns[a]) != i) ==> h[i] == g[i])
  }

  /** `h2`, `pushed2` are `h`, `pushed` after looking at neighbour `j` of `cell`, written when a step from `cell` is cheaper. */
  ghost predicate ScanStep(h: IntGrid, pushed: seq<(FieldCell, U32)>, cell: FieldCell, prev: U32, costs: CostField, j: nat,
                           h2: IntGrid, pushed2: seq<(FieldCell, U32)>)
    requires j < |OrthogonalNeighbours(cell)|
  {
    var n := OrthogonalNeighbours(cell)[j];
    var intCost := GetCost(costs, n) + CostBits(prev);
    if Writable(h[Index(n)]) && intCost < CostBits(h[Index(n)])
    then intCost <= U16_MAX && h2 == h[Index(n) := intCost] && pushed2 == pushed + [(n, intCost)]
    else h2 == h && pushed2 == pushed
  }

  lemma ScanStepLowers(g: IntGrid, h: IntGrid, pushed: seq<(FieldCell, U32)>, cell: FieldCell, prev: U32, costs: CostField, j: nat,
                       h2: IntGrid, pushed2: seq<(FieldCell, U32)>)
    requires EntryScan(g, h, pushed, cell, prev, costs, j) && j < |OrthogonalNeighbours(cell)|
    requires ScanStep(h, pushed, cell, prev, costs, j, h2, pushed2)
    ensures Lowers(g, h2)
    ensures forall e :: e in pushed2 ==> h2[Index(e.0)] == e.1 && h2[Index(e.0)] != g[Index(e.0)]
  {
    var n := OrthogonalNeighbours(cell)[j];
    OrthogonalNeighboursDistinct(cell);
    assert h[Index(n)] == g[Index(n)];
    if h2 != h {
      BareHasNoFlags(h2[Index(n)]);
      forall e | e in pushed2
        ensures h2[Index(e.0)] == e.1 && h2[Index(e.0)] != g[Index(e.0)]
      {
        IndexInjective(e.0, n);
      }
    }
  }

  lemma ScanStepChanged(g: IntGrid, h: IntGrid, pushed: seq<(FieldCell, U32)>, cell: FieldCell, prev: U32, costs: CostField, j: nat,
                        h2: IntGrid, pushed2: seq<(FieldCell, U32)>)
    requires EntryScan(g, h, pushed, cell, prev, costs, j) && j < |OrthogonalNeighbours(cell)|
    requires ScanStep(h, pushed, cell, prev, costs, j, h2, pushed2)
    ensures forall c :: h2[Index(c)] != g[Index(c)] ==>
      (c, h2[Index(c)]) in pushed2 && OrthogonallyAdjacent(cell, c) && h2[Index(c)] == GetCost(costs, c) + CostBits(prev)
  {
    var ns := OrthogonalNeighbours(cell);
    var n := ns[j];
    assert OrthogonallyAdjacent(cell, n) by { assert n in ns; }
    if h2 != h {
      forall c | h2[Index(c)] != g[Index(c)]
        ensures (c, h2[Index(c)]) in pushed2 && OrthogonallyAdjacent(cell, c) && h2[Index(c)] == GetCost(costs, c) + CostBits(prev)
      {
        IndexInjective(c, n);
      }
    }
  }

  lemma ScanStepRelaxed(g: IntGrid, h: IntGrid, pushed: seq<(FieldCell, U32)>, cell: FieldCell, prev: U32, costs: CostField, j: nat,
                        h2: IntGrid, pushed2: seq<(FieldCell, U32)>)
    requires EntryScan(g, h, pushed, cell, prev, costs, j) && j < |OrthogonalNeighbours(cell)|
    requires ScanStep(h, pushed, cell, prev, costs, j, h2, pushed2)
    ensures var ns := OrthogonalNeighbours(cell);
      forall a :: 0 <= a < j + 1 && Writable(h2[Index(ns[a])]) ==>
        CostBits(h2[Index(ns[a])]) <= GetCost(costs, ns[a]) + CostBits(prev)
    ensures var ns := OrthogonalNeighbours(cell);
      forall i :: 0 <= i < CELL_COUNT && (forall a :: 0 <= a < j + 1 ==> Index(ns[a]) != i) ==> h2[i] == g[i]
  {
    var ns := OrthogonalNeighbours(cell);
    OrthogonalNeighboursDistinct(cell);
    if h2 != h {
      BareHasNoFlags(h2[Index(ns[j])]);
    }
  }

  /** Looking at neighbour `j`, and writing it when a step from `cell` is cheaper, extends the scan by one neighbour. */
  lemma EntryScanStep(g: IntGrid, h: IntGrid, pushed: seq<(FieldCell, U32)>, cell: FieldCell, prev: U32, costs: CostField, j: nat,
                      h2: IntGrid, pushed2: seq<(FieldCell, U32)>)
    requires EntryScan(g, h, pushed, cell, prev, costs, j) && j < |OrthogonalNeighbours(cell)|
    requires ScanStep(h, pushed, cell, prev, costs, j, h2, pushed2)
    ensures EntryScan(g, h2, pushed2, cell, prev, costs, j + 1)
  {
    ScanStepLowers(g, h, pushed, cell, prev, costs, j, h2, pushed2);
    ScanStepChanged(g, h, pushed, cell, prev, costs, j, h2, pushed2);
    ScanStepRelaxed(g, h, pushed, cell, prev, costs, j, h2, pushed2);
  }

  /** The inner loop of `process_neighbours` for one queue entry `(cell, prev)`. */
  method RelaxEntry(g: IntGrid, cell: FieldCell, prev: U32, costs: CostField) returns (h: IntGrid, pushed: seq<(FieldCell, U32)>)
    ensures Lowers(g, h)
    ensures EntryRelaxed(h, cell, prev, costs)
    ensures forall c :: h[Index(c)] != g[Index(c)] ==>
      (c, h[Index(c)]) in pushed && OrthogonallyAdjacent(cell, c) && h[Index(c)] == GetCost(costs, c) + CostBits(prev)
    ensures forall e :: e in pushed ==> h[Index(e.0)] == e.1 && h[Index(e.0)] != g[Index(e.0)]
  {
    var ns := OrthogonalNeighbours(cell);
    h, pushed := g, [];
    for j := 0 to |ns|
      invariant EntryScan(g, h, pushed, cell, prev, costs, j)
    {
      var n := ns[j];
      var nInt := h[Index(n)];
      ghost var before, pushedBefore := h, pushed;
      if !HasFlag(nInt, FLAG_IMPASSABLE) && !HasFlag(nInt, FLAG_LOS) {
        var intCost := GetCost(costs, n) + CostBits(prev);
        if intCost < CostBits(nInt) {
          h := h[Index(n) := intCost];
          pushed := pushed + [(n, intCost)];
        }
      }
      EntryScanStep(g, before, pushedBefore, cell, prev, costs, j, h, pushed);
    }
    forall n | OrthogonallyAdjacent(cell, n) && Writable(h[Index(n)])
      ensures CostBits(h[Index(n)]) <= GetCost(costs, n) + CostBits(prev)
    {
      assert n in ns;
      var a :| 0 <= a < |ns| && ns[a] == n;
    }
  }

  /** After the first `done` queue entries of one pass: the state the pass loop keeps. */
  ghost predicate RoundDone(f: IntGrid, queue: seq<(FieldCell, U32)>, costs: CostField,
                            cur: IntGrid, next: seq<(FieldCell, U32)>, parents: seq<Parent>, done: nat)
  {
    && done <= |queue|
    && Lowers(f, cur)
    && (forall k :: 0 <= k < done ==> EntryRelaxed(cur, queue[k].0, queue[k].1, costs))
    && |parents| == CELL_COUNT
    && (forall c :: cur[Index(c)] != f[Index(c)] ==>
          (c, cur[Index(c)]) in next && parents[Index(c)].Queued? && Supports(f, queue, costs, cur, c, parents[Index(c)]))
    && (forall e :: e in next ==> e.1 < U16_MAX && cur[Index(e.0)] <= e.1 && cur[Index(e.0)] != f[Index(e.0)])
  }

  /** Relaxing queue entry `k` extends the pass by one entry. */
  lemma RoundStep(f: IntGrid, queue: seq<(FieldCell, U32)>, costs: CostField,
                  cur: IntGrid, next: seq<(FieldCell, U32)>, parents: seq<Parent>, k: nat,
                  h: IntGrid, pushed: seq<(FieldCell, U32)>, ps: seq<Parent>)
    requires RoundDone(f, queue, costs, cur, next, parents, k) && k < |queue|
    requires Lowers(cur, h)
    requires EntryRelaxed(h, queue[k].0, queue[k].1, costs)
    requires forall c :: h[Index(c)] != cur[Index(c)] ==>
      (c, h[Index(c)]) in pushed && OrthogonallyAdjacent(queue[k].0, c) && h[Index(c)] == GetCost(costs, c) + CostBits(queue[k].1)
    requires forall e :: e in pushed ==> h[Index(e.0)] == e.1 && h[Index(e.0)] != cur[Index(e.0)]
    requires |ps| == CELL_COUNT && forall i :: 0 <= i < CELL_COUNT ==> ps[i] == if h[i] != cur[i] then Queued(k) else parents[i]
    ensures RoundDone(f, queue, costs, h, next + pushed, ps, k + 1)
  {
    LowersTransitive(f, cur, h);
    LowersCosts(f, cur);
    LowersCosts(cur, h);
    forall j | 0 <= j < k + 1
      ensures EntryRelaxed(h, queue[j].0, queue[j].1, costs)
    {
      if j < k {
        RelaxedKept(cur, h, queue[j].0, queue[j].1, costs);
      }
    }
    forall c | h[Index(c)] != f[Index(c)]
      ensures (c, h[Index(c)]) in next + pushed && ps[Index(c)].Queued? && Supports(f, queue, costs, h, c, ps[Index(c)])
    {
    }
    forall e | e in next + pushed
      ensures e.1 < U16_MAX && h[Index(e.0)] <= e.1 && h[Index(e.0)] != f[Index(e.0)]
    {
      if e in pushed {
        assert h[Index(e.0)] < CostBits(cur[Index(e.0)]);
      }
    }
  }

  /** One pass of `process_neighbours`: every queue entry relaxes its neighbours, the lowered ones queued in `next`. */
  method Round(f: IntGrid, queue: seq<(FieldCell, U32)>, costs: CostField)
    returns (cur: IntGrid, next: seq<(FieldCell, U32)>, ghost parents: seq<Parent>)
    ensures RoundDone(f, queue, costs, cur, next, parents, |queue|)
  {
    cur, next := f, [];
    parents := seq(CELL_COUNT, _ => Queued(0));
    for k := 0 to |queue|
      invariant RoundDone(f, queue, costs, cur, next, parents, k)
    {
      var h, pushed := RelaxEntry(cur, queue[k].0, queue[k].1, costs);
      ghost var ps := seq(CELL_COUNT, i requires 0 <= i < CELL_COUNT => if h[i] != cur[i] then Queued(k) else parents[i]);
      RoundStep(f, queue, costs, cur, next, parents, k, h, pushed, ps);
      parents := ps;
      cur, next := h, next + pushed;
    }
  }

  /** The parents after a pass and the passes that follow it. */
  ghost function Composed(cur: IntGrid, g: IntGrid, next: seq<(FieldCell, U32)>, roundParents: seq<Parent>, later: seq<Parent>): seq<Parent>
    requires |roundParents| == CELL_COUNT && |later| == CELL_COUNT
  {
    seq(CELL_COUNT, i requires 0 <= i < CELL_COUNT =>
      if g[i] == cur[i] then roundParents[i]
      else match later[i]
        case Queued(k) => if k < |next| then Lowered(next[k].0) else Queued(0)
        case Lowered(m) => Lowered(m))
  }

  /** A pass followed by the wavefront from its `next` queue is the wavefront from the pass's queue. */
  lemma WavefrontCompose(f: IntGrid, queue: seq<(FieldCell, U32)>, costs: CostField,
                         cur: IntGrid, next: seq<(FieldCell, U32)>, roundParents: seq<Parent>,
                         g: IntGrid, later: seq<Parent>)
    requires RoundDone(f, queue, costs, cur, next, roundParents, |queue|)
    requires Wavefront(cur, next, costs, g, later)
    ensures Wavefront(f, queue, costs, g, Composed(cur, g, next, roundParents, later))
  {
    var ps := Composed(cur, g, next, roundParents, later);
    LowersTransitive(f, cur, g);
    LowersCosts(f, cur);
    LowersCosts(cur, g);
    forall k | 0 <= k < |queue|
      ensures EntryRelaxed(g, queue[k].0, queue[k].1, costs)
    {
      RelaxedKept(cur, g, queue[k].0, queue[k].1, costs);
    }
    forall c | g[Index(c)] != f[Index(c)]
      ensures EntryRelaxed(g, c, g[Index(c)], costs)
    {
      if g[Index(c)] == cur[Index(c)] {
        assert (c, cur[Index(c)]) in next;
        var k :| 0 <= k < |next| && next[k] == (c, cur[Index(c)]);
        assert EntryRelaxed(g, next[k].0, next[k].1, costs);
      }
    }
    forall c | g[Index(c)] != f[Index(c)]
      ensures Supports(f, queue, costs, g, c, ps[Index(c)])
    {
      if g[Index(c)] != cur[Index(c)] {
        match later[Index(c)]
        case Queued(k) =>
          assert Supports(cur, next, costs, g, c, later[Index(c)]);
          var m := next[k].0;
          assert next[k] in next;
          assert g[Index(m)] <= cur[Index(m)] <= next[k].1;
        case Lowered(m) =>
          assert Supports(cur, next, costs, g, c, later[Index(c)]);
      }
    }
  }

  /**
   * `process_neighbours`: passes over the queue until a pass lowers nothing.
   * Every write strictly lowers a cell's cost bits, so the sum of cost bits
   * falls with each pass that queues a cell, and the recursion ends.
   */
  method ProcessNeighbours(f: IntGrid, queue: seq<(FieldCell, U32)>, costs: CostField)
    returns (g: IntGrid, ghost parents: seq<Parent>)
    ensures Wavefront(f, queue, costs, g, parents)
    decreases WeightSum(f, CostBits)
  {
    var cur, next, roundParents := Round(f, queue, costs);
    if |next| > 0 {
      assert next[0] in next;
      LowersCosts(f, cur);
      WeightSumLowers(f, cur, CostBits, Index(next[0].0));
      ghost var later;
      g, later := ProcessNeighbours(cur, next, costs);
      WavefrontCompose(f, queue, costs, cur, next, roundParents, g, later);
      parents := Composed(cur, g, next, roundParents, later);
    } else {
      g, parents := cur, roundParents;
    }
  }

  /** `add_los_corner`: the corner appended to the recorded corners. */
  function AddLosCorner(f: IntegrationField, corner: FieldCell): (g: IntegrationField)
    ensures g.field == f.field
    ensures |g.losCorners| == |f.losCorners| + 1 && g.losCorners[|f.losCorners|] == corner
    ensures g.losCorners[..|f.losCorners|] == f.losCorners
  {
    IntegrationField(f.field, f.losCorners + [corner])
  }

  /** The queue `calculate_field` starts from: each corner with its current value. */
  function CornerQueue(f: IntegrationField): (q: seq<(FieldCell, U32)>)
    ensures |q| == |f.losCorners|
    ensures forall k :: 0 <= k < |q| ==> q[k] == (f.losCorners[k], GetValue(f, f.losCorners[k]))
  {
    seq(|f.losCorners|, k requires 0 <= k < |f.losCorners| => (f.losCorners[k], GetValue(f, f.losCorners[k])))
  }

  /** `calculate_field`: queue every corner with its value, then run the cost wavefront. */
  method CalculateField(f: IntegrationField, costs: CostField) returns (r: IntegrationField, ghost parents: seq<Parent>)
    ensures r.losCorners == f.losCorners
    ensures Wavefront(f.field, CornerQueue(f), costs, r.field, parents)
  {
    var queue: seq<(FieldCell, U32)> := [];
    for k := 0 to |f.losCorners|
      invariant queue == CornerQueue(f)[..k]
    {
      queue := queue + [(f.losCorners[k], GetValue(f, f.losCorners[k]))];
    }
    var g;
    g, parents := ProcessNeighbours(f.field, queue, costs);
    r := IntegrationField(g, f.losCorners);
  }

  // `basic_field`: a uniform cost field and a goal as the only corner.

  /** Number of orthogonal steps between two cells. */
  function Manhattan(a: FieldCell, b: FieldCell): nat {
    Abs(a.column - b.column) + Abs(a.row - b.row)
  }

  /** The neighbour of `c` one step nearer `goal`. */
  function StepToward(c: FieldCell, goal: FieldCell): (m: FieldCell)
    requires c != goal
    ensures OrthogonallyAdjacent(m, c) && Manhattan(m, goal) + 1 == Manhattan(c, goal)
  {
    if c.column < goal.column then FieldCell(c.column + 1, c.row)
    else if c.column > goal.column then FieldCell(c.column - 1, c.row)
    else if c.row < goal.row then FieldCell(c.column, c.row + 1)
    else FieldCell(c.column, c.row - 1)
  }

  /**
   * The wavefront of `basic_field`: `f` holds the goal flag at the goal and
   * `u16::MAX` elsewhere, every cost is 1, and the goal is the only queue entry.
   */
  ghost predicate UniformWavefront(goal: FieldCell, f: IntGrid, costs: CostField, g: IntGrid, parents: seq<Parent>) {
    && (forall c :: f[Index(c)] == if c == goal then FLAG_GOAL else U16_MAX)
    && (forall c :: GetCost(costs, c) == 1)
    && Wavefront(f, [(goal, FLAG_GOAL)], costs, g, parents)
  }

  /** No cell costs less than its distance from the goal: every lowered cell extends a cheaper parent by one step. */
  lemma {:induction false} UniformLowerBound(goal: FieldCell, f: IntGrid, costs: CostField, g: IntGrid, parents: seq<Parent>, c: FieldCell)
    requires UniformWavefront(goal, f, costs, g, parents)
    ensures CostBits(g[Index(c)]) >= Manhattan(c, goal)
    decreases g[Index(c)]
  {
    var i := Index(c);
    if g[i] != f[i] {
      assert Supports(f, [(goal, FLAG_GOAL)], costs, g, c, parents[i]);
      match parents[i]
      case Queued(k) =>
      case Lowered(m) =>
        UniformLowerBound(goal, f, costs, g, parents, m);
    }
  }

  /** A cell of the `basic_field` wavefront costs at most one step more than an open neighbour that is the goal or was lowered. */
  lemma UniformRelaxed(goal: FieldCell, f: IntGrid, costs: CostField, g: IntGrid, parents: seq<Parent>, m: FieldCell, c: FieldCell)
    requires UniformWavefront(goal, f, costs, g, parents)
    requires OrthogonallyAdjacent(m, c) && c != goal
    requires m == goal || CostBits(g[Index(m)]) < U16_MAX
    ensures CostBits(g[Index(c)]) <= 1 + CostBits(g[Index(m)])
  {
    BareHasNoFlags(U16_MAX);
    assert f[Index(c)] == U16_MAX;
    if m == goal {
      var q := [(goal, FLAG_GOAL)];
      assert EntryRelaxed(g, q[0].0, q[0].1, costs);
      UniformGoal(goal, f, g);
    } else {
      assert f[Index(m)] == U16_MAX;
      assert EntryRelaxed(g, m, g[Index(m)], costs);
    }
  }

  /** The goal keeps its cost of 0: nothing costs less. */
  lemma UniformGoal(goal: FieldCell, f: IntGrid, g: IntGrid)
    requires Lowers(f, g) && f[Index(goal)] == FLAG_GOAL
    ensures CostBits(g[Index(goal)]) == 0
  {
    var i := Index(goal);
    assert g[i] != f[i] ==> g[i] < CostBits(f[i]);
  }

  /** No cell costs more than its distance from the goal: the neighbour one step nearer relaxes it. */
  lemma {:induction false} UniformUpperBound(goal: FieldCell, f: IntGrid, costs: CostField, g: IntGrid, parents: seq<Parent>, c: FieldCell)
    requires UniformWavefront(goal, f, costs, g, parents)
    ensures CostBits(g[Index(c)]) <= Manhattan(c, goal)
    decreases Manhattan(c, goal)
  {
    if c == goal {
      UniformGoal(goal, f, g);
    } else {
      var m := StepToward(c, goal);
      UniformUpperBound(goal, f, costs, g, parents, m);
      UniformRelaxed(goal, f, costs, g, parents, m, c);
    }
  }

  /**
   * `basic_field`: on a uniform cost field, with the goal of a new field as
   * its only corner, `calculate_field` leaves every cell's cost bits equal
   * to its Manhattan distance from the goal.
   */
  lemma UniformFieldIsManhattan(goal: FieldCell, g: IntGrid, parents: seq<Parent>)
    requires Wavefront(NewField(goal, DefaultCostField()).field, CornerQueue(AddLosCorner(NewField(goal, DefaultCostField()), goal)),
                       DefaultCostField(), g, parents)
    ensures forall c :: CostBits(g[Index(c)]) == Manhattan(c, goal)
  {
    var start := NewField(goal, DefaultCostField());
    CellAtIndex(goal);
    assert CornerQueue(AddLosCorner(start, goal)) == [(goal, FLAG_GOAL)];
    forall c ensures start.field[Index(c)] == if c == goal then FLAG_GOAL else U16_MAX {
      CellAtIndex(c);
    }
    forall c ensures CostBits(g[Index(c)]) == Manhattan(c, goal) {
      UniformLowerBound(goal, start.field, DefaultCostField(), g, parents, c);
      UniformUpperBound(goal, start.field, DefaultCostField(), g, parents, c);
    }
  }

  /** The first column of the `basic_field` table, goal (4, 4). */
  lemma BasicFieldExample(g: IntGrid, parents: seq<Parent>)
    requires Wavefront(NewField(FieldCell(4, 4), DefaultCostField()).field,
                       CornerQueue(AddLosCorner(NewField(FieldCell(4, 4), DefaultCostField()), FieldCell(4, 4))),
                       DefaultCostField(), g, parents)
    ensures CostBits(g[Index(FieldCell(0, 0))]) == 8 && CostBits(g[Index(FieldCell(0, 4))]) == 4
    ensures CostBits(g[Index(FieldCell(0, 9))]) == 9 && CostBits(g[Index(FieldCell(4, 4))]) == 0
    ensures CostBits(g[Index(FieldCell(9, 9))]) == 10
  {
    UniformFieldIsManhattan(FieldCell(4, 4), g, parents);
  }

  // The line-of-sight wavefront, `propagate_los` and `extend_los_corner`.

  /** A cell the line-of-sight wavefront stops at: in sight already, wave-blocked, the goal or impassable. */
  predicate Stopped(v: U32) {
    HasFlag(v, FLAG_LOS) || HasFlag(v, FLAG_WAVE_BLOCKED) || HasFlag(v, FLAG_GOAL) || HasFlag(v, FLAG_IMPASSABLE)
  }

  /** `wavefront_cost | INT_BITS_LOS`: a ring cost below `u16::MAX` with the line-of-sight flag, and no other flag. */
  lemma LosValueFlags(c: nat)
    requires c <= U16_MAX
    ensures (if HasFlag(c, FLAG_LOS) then c else c + FLAG_LOS) == c + FLAG_LOS
    ensures CostBits(c + FLAG_LOS) == c
    ensures HasFlag(c + FLAG_LOS, FLAG_LOS) && !HasFlag(c + FLAG_LOS, FLAG_WAVE_BLOCKED) && !HasFlag(c + FLAG_LOS, FLAG_GOAL)
    ensures !HasFlag(c + FLAG_LOS, FLAG_IMPASSABLE) && !HasFlag(c + FLAG_LOS, FLAG_CORNER)
  {
  }

  /** `cost + INT_BITS_WAVE_BLOCKED + INT_BITS_CORNER`: both flags set, and neither line of sight nor impassable. */
  lemma CornerValueFlags(c: nat)
    requires c <= U16_MAX
    ensures CostBits(c + FLAG_WAVE_BLOCKED + FLAG_CORNER) == c
    ensures HasFlag(c + FLAG_WAVE_BLOCKED + FLAG_CORNER, FLAG_WAVE_BLOCKED) && HasFlag(c + FLAG_WAVE_BLOCKED + FLAG_CORNER, FLAG_CORNER)
    ensures !HasFlag(c + FLAG_WAVE_BLOCKED + FLAG_CORNER, FLAG_LOS) && !HasFlag(c + FLAG_WAVE_BLOCKED + FLAG_CORNER, FLAG_IMPASSABLE)
  {
  }

  /** A line-of-sight write: an open cell given a ring cost in `lo..hi` and the line-of-sight flag. */
  predicate LosWritten(before: U32, after: U32, lo: nat, hi: nat) {
    !Stopped(before) && after == CostBits(after) + FLAG_LOS && lo <= CostBits(after) <= hi
  }

  /** A corner write: a cell neither impassable nor wave-blocked given the wave-blocked and corner flags. */
  predicate CornerWritten(before: U32, after: U32) {
    && !HasFlag(before, FLAG_IMPASSABLE) && !HasFlag(before, FLAG_WAVE_BLOCKED)
    && HasFlag(after, FLAG_WAVE_BLOCKED) && HasFlag(after, FLAG_CORNER) && !HasFlag(after, FLAG_LOS) && !HasFlag(after, FLAG_IMPASSABLE)
  }

  /**
   * `r` comes from `f` by line-of-sight writes with ring costs in `lo..hi`
   * and by corner writes, each recorded as a new corner after the old ones.
   */
  ghost predicate LosKeeps(f: IntegrationField, r: IntegrationField, lo: nat, hi: nat) {
    && (forall c :: GetValue(r, c) != GetValue(f, c) ==>
          LosWritten(GetValue(f, c), GetValue(r, c), lo, hi) || (CornerWritten(GetValue(f, c), GetValue(r, c)) && c in r.losCorners))
    && |f.losCorners| <= |r.losCorners| && r.losCorners[..|f.losCorners|] == f.losCorners
    && (forall j :: |f.losCorners| <= j < |r.losCorners| ==>
          CornerWritten(GetValue(f, r.losCorners[j]), GetValue(r, r.losCorners[j])))
  }

  /** How far a cell is from being wave-blocked: the line-of-sight wavefront lowers it with every write. */
  function Weight(v: U32): nat {
    if HasFlag(v, FLAG_WAVE_BLOCKED) then 0 else if HasFlag(v, FLAG_LOS) then 1 else 2
  }

  /** Impassable and wave-blocked cells are never written, a stopped cell stays stopped, and a written cell weighs less. */
  lemma LosKeepsMeaning(f: IntegrationField, r: IntegrationField, lo: nat, hi: nat, c: FieldCell)
    requires LosKeeps(f, r, lo, hi)
    ensures HasFlag(GetValue(f, c), FLAG_IMPASSABLE) || HasFlag(GetValue(f, c), FLAG_WAVE_BLOCKED) ==> GetValue(r, c) == GetValue(f, c)
    ensures Stopped(GetValue(f, c)) ==> Stopped(GetValue(r, c))
    ensures Weight(GetValue(r, c)) <= Weight(GetValue(f, c))
    ensures GetValue(r, c) != GetValue(f, c) ==> Weight(GetValue(r, c)) < Weight(GetValue(f, c))
  {
    if GetValue(r, c) != GetValue(f, c) && LosWritten(GetValue(f, c), GetValue(r, c), lo, hi) {
      LosValueFlags(CostBits(GetValue(r, c)));
    }
  }

  /** A written cell is stopped afterwards, and a stopped cell written again is no longer in sight. */
  lemma LosKeepsSettles(f: IntegrationField, r: IntegrationField, lo: nat, hi: nat, c: FieldCell)
    requires LosKeeps(f, r, lo, hi)
    ensures GetValue(r, c) != GetValue(f, c) ==> Stopped(GetValue(r, c))
    ensures GetValue(r, c) != GetValue(f, c) && Stopped(GetValue(f, c)) ==> !HasFlag(GetValue(r, c), FLAG_LOS)
  {
    if GetValue(r, c) != GetValue(f, c) && LosWritten(GetValue(f, c), GetValue(r, c), lo, hi) {
      LosValueFlags(CostBits(GetValue(r, c)));
    }
  }

  lemma LosKeepsReflexive(f: IntegrationField, lo: nat, hi: nat)
    ensures LosKeeps(f, f, lo, hi)
  {
  }

  /** Two runs of writes make one, with the union of their ring-cost ranges. */
  lemma LosKeepsTransitive(a: IntegrationField, b: IntegrationField, c: IntegrationField,
                           lo1: nat, hi1: nat, lo2: nat, hi2: nat, lo: nat, hi: nat)
    requires LosKeeps(a, b, lo1, hi1) && LosKeeps(b, c, lo2, hi2)
    requires lo <= lo1 && lo <= lo2 && hi1 <= hi && hi2 <= hi
    ensures LosKeeps(a, c, lo, hi)
  {
    forall x | GetValue(c, x) != GetValue(a, x)
      ensures LosWritten(GetValue(a, x), GetValue(c, x), lo, hi) || (CornerWritten(GetValue(a, x), GetValue(c, x)) && x in c.losCorners)
    {
      LosKeepsMeaning(a, b, lo1, hi1, x);
      LosKeepsMeaning(b, c, lo2, hi2, x);
      if GetValue(b, x) != GetValue(a, x) && GetValue(c, x) == GetValue(b, x) {
        assert x in b.losCorners ==> x in c.losCorners by {
          if x in b.losCorners {
            var j :| 0 <= j < |b.losCorners| && b.losCorners[j] == x;
            assert c.losCorners[j] == x;
          }
        }
      }
      if GetValue(b, x) != GetValue(a, x) && GetValue(c, x) != GetValue(b, x) && LosWritten(GetValue(a, x), GetValue(b, x), lo1, hi1) {
        LosValueFlags(CostBits(GetValue(b, x)));
      }
    }
    assert c.losCorners[..|a.losCorners|] == a.losCorners by {
      assert c.losCorners[..|a.losCorners|] == c.losCorners[..|b.losCorners|][..|a.losCorners|];
    }
    forall j | |a.losCorners| <= j < |c.losCorners|
      ensures CornerWritten(GetValue(a, c.losCorners[j]), GetValue(c, c.losCorners[j]))
    {
      var x := c.losCorners[j];
      LosKeepsMeaning(a, b, lo1, hi1, x);
      LosKeepsMeaning(b, c, lo2, hi2, x);
      if j < |b.losCorners| {
        assert b.losCorners[j] == x;
      }
    }
  }

  /** The sum of the weights of a field's values. */
  function LosPotential(f: IntegrationField): nat {
    WeightSum(f.field, Weight)
  }

  /** A run of writes that changes a cell lowers the potential strictly. */
  lemma LosPotentialLowers(f: IntegrationField, r: IntegrationField, lo: nat, hi: nat, c: FieldCell)
    requires LosKeeps(f, r, lo, hi)
    ensures LosPotential(r) <= LosPotential(f)
    ensures GetValue(r, c) != GetValue(f, c) ==> LosPotential(r) < LosPotential(f)
  {
    forall j | 0 <= j < CELL_COUNT
      ensures Weight(r.field[j]) <= Weight(f.field[j])
    {
      LosKeepsMeaning(f, r, lo, hi, CellAt(j));
    }
    LosKeepsMeaning(f, r, lo, hi, c);
    WeightSumLowers(f.field, r.field, Weight, Index(c));
  }

  /** `check_los_corner_propagation` for a corner in line with the goal; `None` for a diagonal line, which is not part of this model. */
  function CheckLosCornerPropagation(adj: FieldCell, goal: FieldCell): (r: Option<FieldCell>)
    ensures r.Some? <==> adj.column == goal.column || adj.row == goal.row
  {
    if adj.column == goal.column then
      if adj.row > goal.row then Some(FieldCell(adj.column, FIELD_RESOLUTION - 1)) else Some(FieldCell(adj.column, 0))
    else if adj.row == goal.row then
      if adj.column > goal.column then Some(FieldCell(FIELD_RESOLUTION - 1, adj.row)) else Some(FieldCell(0, adj.row))
    else None
  }

  /** Steps left from `cell` towards the orthogonal `o` before the field's edge. */
  function StepsLeft(cell: FieldCell, o: Ordinal): nat {
    match o
    case North => cell.row
    case South => FIELD_RESOLUTION - 1 - cell.row
    case East => FIELD_RESOLUTION - 1 - cell.column
    case West => cell.column
    case _ => 0
  }

  /** Reference walk: the last cell reached by stepping from `cell` towards `o` until the edge. */
  function Farthest(cell: FieldCell, o: Ordinal): (r: FieldCell)
    requires IsOrthogonal(o)
    ensures CellNeighbour(r, o).None?
    decreases StepsLeft(cell, o)
  {
    match CellNeighbour(cell, o)
    case None => cell
    case Some(n) => Farthest(n, o)
  }

  function Sign(x: int): int {
    if x > 0 then 1 else if x < 0 then -1 else 0
  }

  /**
   * For a corner straight on from the goal, towards `o`, the line ends at the
   * boundary cell reached by walking on from the corner towards `o`.
   */
  lemma {:induction false} StraightPropagationEndsAtEdge(adj: FieldCell, goal: FieldCell, o: Ordinal)
    requires IsOrthogonal(o) && adj != goal
    requires Sign(adj.column - goal.column) == Offset(o).0 && Sign(adj.row - goal.row) == Offset(o).1
    ensures CheckLosCornerPropagation(adj, goal) == Some(Farthest(adj, o))
    decreases StepsLeft(adj, o)
  {
    match CellNeighbour(adj, o)
    case None =>
    case Some(n) =>
      StraightPropagationEndsAtEdge(n, goal, o);
  }

  /** The four straight-line tests. */
  lemma StraightPropagationExamples()
    ensures CheckLosCornerPropagation(FieldCell(5, 3), FieldCell(4, 3)) == Some(FieldCell(9, 3))
    ensures CheckLosCornerPropagation(FieldCell(4, 3), FieldCell(5, 3)) == Some(FieldCell(0, 3))
    ensures CheckLosCornerPropagation(FieldCell(4, 5), FieldCell(4, 3)) == Some(FieldCell(4, 9))
    ensures CheckLosCornerPropagation(FieldCell(4, 3), FieldCell(4, 5)) == Some(FieldCell(4, 0))
  {
  }

  /** The end of the blocked line: the straight-line end, or `diagonalEnd` for a diagonal line. */
  function CornerEnd(adj: FieldCell, goal: FieldCell, diagonalEnd: (FieldCell, FieldCell) -> FieldCell): FieldCell {
    match CheckLosCornerPropagation(adj, goal)
    case Some(end) => end
    case None => diagonalEnd(adj, goal)
  }

  /** Both the `a` and the `b` neighbour of `cell` exist and are impassable. */
  predicate BothImpassable(f: IntegrationField, cell: FieldCell, a: Ordinal, b: Ordinal) {
    match (CellNeighbour(cell, a), CellNeighbour(cell, b))
    case (Some(x), Some(y)) => HasFlag(GetValue(f, x), FLAG_IMPASSABLE) && HasFlag(GetValue(f, y), FLAG_IMPASSABLE)
    case _ => false
  }

  /**
   * A diagonal step onto `cell` that squeezes between two impassable cells:
   * the two cells beside the step, on the side it came from. A step between
   * cells that are not neighbours has no direction and squeezes nothing.
   */
  predicate Squeezed(f: IntegrationField, cell: FieldCell, step: Option<Ordinal>) {
    match step
    case Some(NorthEast) => BothImpassable(f, cell, South, West)
    case Some(SouthEast) => BothImpassable(f, cell, North, West)
    case Some(SouthWest) => BothImpassable(f, cell, North, East)
    case Some(NorthWest) => BothImpassable(f, cell, South, East)
    case _ => false
  }

  /** The blocked line ends before cell `i`: it is impassable or reached through a squeezed diagonal. */
  predicate LineStops(f: IntegrationField, cells: seq<FieldCell>, i: nat)
    requires i < |cells|
  {
    HasFlag(GetValue(f, cells[i]), FLAG_IMPASSABLE) || (i > 0 && Squeezed(f, cells[i], CellToCellDirection(cells[i], cells[i - 1])))
  }

  /** The first position from `i` on where the blocked line ends, `|cells|` when it runs to the end. */
  function LineStop(f: IntegrationField, cells: seq<FieldCell>, i: nat): (r: nat)
    requires i <= |cells|
    ensures i <= r <= |cells|
    ensures forall j :: i <= j < r ==> !LineStops(f, cells, j)
    ensures r < |cells| ==> LineStops(f, cells, r)
    decreases |cells| - i
  {
    if i == |cells| || LineStops(f, cells, i) then i else LineStop(f, cells, i + 1)
  }

  /**
   * The cells `extend_los_corner` blocks: the neighbour of `neighbour` towards
   * `ord` is the corner; when it exists and is passable, the line from it to
   * the boundary up to where the line ends.
   */
  function CornerLine(f: IntegrationField, neighbour: FieldCell, ord: Ordinal, goal: FieldCell,
                      line: (FieldCell, FieldCell) -> seq<FieldCell>,
                      diagonalEnd: (FieldCell, FieldCell) -> FieldCell): seq<FieldCell>
  {
    match CellNeighbour(neighbour, ord)
    case None => []
    case Some(adj) =>
      if HasFlag(GetValue(f, adj), FLAG_IMPASSABLE) then []
      else
        var cells := line(adj, CornerEnd(adj, goal, diagonalEnd));
        cells[..LineStop(f, cells, 0)]
  }

  /** Writes keep which cells are impassable, so every stop of a blocked line stays where it was. */
  lemma LosKeepsStops(f: IntegrationField, r: IntegrationField, lo: nat, hi: nat, cells: seq<FieldCell>, i: nat)
    requires LosKeeps(f, r, lo, hi) && i < |cells|
    ensures LineStops(r, cells, i) == LineStops(f, cells, i)
  {
    forall c | true
      ensures HasFlag(GetValue(r, c), FLAG_IMPASSABLE) == HasFlag(GetValue(f, c), FLAG_IMPASSABLE)
    {
      LosKeepsMeaning(f, r, lo, hi, c);
    }
  }

  /** Marking a cell that is not yet wave-blocked as a corner keeps the run of writes one. */
  lemma CornerStep(f: IntegrationField, r: IntegrationField, lo: nat, hi: nat, cell: FieldCell, cost: nat)
    requires LosKeeps(f, r, lo, hi) && cost <= U16_MAX
    requires !HasFlag(GetValue(r, cell), FLAG_IMPASSABLE) && !HasFlag(GetValue(r, cell), FLAG_WAVE_BLOCKED)
    ensures LosKeeps(f, SetValue(AddLosCorner(r, cell), cost + FLAG_WAVE_BLOCKED + FLAG_CORNER, cell), lo, hi)
  {
    CornerValueFlags(cost);
    LosKeepsMeaning(f, r, lo, hi, cell);
    var r1 := AddLosCorner(r, cell);
    var r2 := SetValue(r1, cost + FLAG_WAVE_BLOCKED + FLAG_CORNER, cell);
    assert r2.losCorners == r.losCorners + [cell];
    assert GetValue(r, cell) != GetValue(f, cell) ==> LosWritten(GetValue(f, cell), GetValue(r, cell), lo, hi);
    if GetValue(r, cell) != GetValue(f, cell) {
      LosValueFlags(CostBits(GetValue(r, cell)));
    }
    assert CornerWritten(GetValue(f, cell), GetValue(r2, cell));
    forall c | GetValue(r2, c) != GetValue(f, c)
      ensures LosWritten(GetValue(f, c), GetValue(r2, c), lo, hi) || (CornerWritten(GetValue(f, c), GetValue(r2, c)) && c in r2.losCorners)
    {
      if c != cell {
        assert GetValue(r2, c) == GetValue(r, c);
        assert c in r.losCorners ==> c in r2.losCorners;
      }
    }
    assert r2.losCorners[..|f.losCorners|] == f.losCorners by {
      assert r2.losCorners[..|f.losCorners|] == r.losCorners[..|f.losCorners|];
    }
    forall j | |f.losCorners| <= j < |r2.losCorners|
      ensures CornerWritten(GetValue(f, r2.losCorners[j]), GetValue(r2, r2.losCorners[j]))
    {
      if j < |r.losCorners| && r.losCorners[j] != cell {
        assert r2.losCorners[j] == r.losCorners[j];
      }
    }
  }

  /**
   * The value `extend_los_corner` leaves at a line cell first met at
   * position `j`: unchanged when already wave-blocked, otherwise the ring
   * cost `cost + 1 + j` with the wave-blocked and corner flags.
   */
  function LineValue(f: IntegrationField, c: FieldCell, cost: nat, j: nat): nat {
    if HasFlag(GetValue(f, c), FLAG_WAVE_BLOCKED) then GetValue(f, c) else cost + 1 + j + FLAG_WAVE_BLOCKED + FLAG_CORNER
  }

  /** The cells `extend_los_corner` has written after `i` cells of the line, and what it wrote. */
  ghost predicate LineMarks(f: IntegrationField, r: IntegrationField, cells: seq<FieldCell>, cost: nat, i: nat)
    requires i <= |cells|
  {
    && (forall c :: GetValue(r, c) != GetValue(f, c) ==> c in cells[..i] && cost < CostBits(GetValue(r, c)) <= cost + i)
    && (forall j :: 0 <= j < i ==> HasFlag(GetValue(r, cells[j]), FLAG_WAVE_BLOCKED))
    && (forall j :: 0 <= j < i && cells[j] !in cells[..j] ==> GetValue(r, cells[j]) == LineValue(f, cells[j], cost, j))
  }

  /** A line cell already wave-blocked is passed over. */
  lemma LineMarksSkip(f: IntegrationField, r: IntegrationField, cells: seq<FieldCell>, cost: nat, i: nat)
    requires i < |cells| && LineMarks(f, r, cells, cost, i)
    requires HasFlag(GetValue(r, cells[i]), FLAG_WAVE_BLOCKED)
    ensures LineMarks(f, r, cells, cost, i + 1)
  {
    assert cells[..i + 1] == cells[..i] + [cells[i]];
    if cells[i] !in cells[..i] {
      assert GetValue(r, cells[i]) == GetValue(f, cells[i]);
    }
  }

  /** A line cell not yet wave-blocked becomes a corner costing one more than the `i`-th ring. */
  lemma LineMarksCorner(f: IntegrationField, r: IntegrationField, cells: seq<FieldCell>, cost: nat, i: nat, r2: IntegrationField)
    requires i < |cells| && LineMarks(f, r, cells, cost, i) && cost + 1 + i <= U16_MAX
    requires !HasFlag(GetValue(r, cells[i]), FLAG_WAVE_BLOCKED)
    requires r2.field == r.field[Index(cells[i]) := cost + 1 + i + FLAG_WAVE_BLOCKED + FLAG_CORNER]
    ensures LineMarks(f, r2, cells, cost, i + 1)
  {
    CornerValueFlags(cost + 1 + i);
    assert cells[..i + 1] == cells[..i] + [cells[i]];
    assert cells[i] !in cells[..i];
    assert GetValue(r, cells[i]) == GetValue(f, cells[i]);
    forall c | GetValue(r2, c) != GetValue(f, c)
      ensures c in cells[..i + 1] && cost < CostBits(GetValue(r2, c)) <= cost + i + 1
    {
      IndexInjective(c, cells[i]);
    }
    forall j | 0 <= j < i + 1
      ensures HasFlag(GetValue(r2, cells[j]), FLAG_WAVE_BLOCKED)
    {
      IndexInjective(cells[j], cells[i]);
    }
    forall j | 0 <= j < i + 1 && cells[j] !in cells[..j]
      ensures GetValue(r2, cells[j]) == LineValue(f, cells[j], cost, j)
    {
      if j < i {
        assert cells[j] in cells[..i];
        IndexInjective(cells[j], cells[i]);
      }
    }
  }

  /** The loop state of `extend_los_corner` after `i` cells of the line. */
  ghost predicate BlockState(f: IntegrationField, r: IntegrationField, cells: seq<FieldCell>, cost: nat, i: nat)
    requires i <= |cells|
  {
    LosKeeps(f, r, 1, 0) && LineMarks(f, r, cells, cost, i)
  }

  /** The step of `extend_los_corner` onto a line cell not yet wave-blocked. */
  lemma BlockCorner(f: IntegrationField, r: IntegrationField, cells: seq<FieldCell>, cost: nat, i: nat)
    requires i < |cells| && BlockState(f, r, cells, cost, i) && cost + 1 + i <= U16_MAX
    requires !HasFlag(GetValue(r, cells[i]), FLAG_IMPASSABLE) && !HasFlag(GetValue(r, cells[i]), FLAG_WAVE_BLOCKED)
    ensures BlockState(f, SetValue(AddLosCorner(r, cells[i]), cost + 1 + i + FLAG_WAVE_BLOCKED + FLAG_CORNER, cells[i]), cells, cost, i + 1)
  {
    CornerStep(f, r, 1, 0, cells[i], cost + 1 + i);
    LineMarksCorner(f, r, cells, cost, i, SetValue(AddLosCorner(r, cells[i]), cost + 1 + i + FLAG_WAVE_BLOCKED + FLAG_CORNER, cells[i]));
  }

  /** The loop of `extend_los_corner` over the cells of the blocked line, up to where the line ends. */
  method BlockLine(f: IntegrationField, cells: seq<FieldCell>, wavefrontCost: nat) returns (r: IntegrationField)
    requires wavefrontCost + |cells| <= U16_MAX
    ensures LosKeeps(f, r, 1, 0) && LineMarks(f, r, cells, wavefrontCost, LineStop(f, cells, 0))
  {
    r := f;
    ghost var stop := LineStop(f, cells, 0);
    var i := 0;
    while i < |cells|
      invariant i <= stop
      invariant BlockState(f, r, cells, wavefrontCost, i)
    {
      LosKeepsStops(f, r, 1, 0, cells, i);
      var value := GetValue(r, cells[i]);
      if HasFlag(value, FLAG_IMPASSABLE) {
        break;
      }
      if i > 0 && Squeezed(r, cells[i], CellToCellDirection(cells[i], cells[i - 1])) {
        break;
      }
      assert !LineStops(f, cells, i);
      if !HasFlag(value, FLAG_WAVE_BLOCKED) {
        BlockCorner(f, r, cells, wavefrontCost, i);
        r := AddLosCorner(r, cells[i]);
        r := SetValue(r, wavefrontCost + 1 + i + FLAG_WAVE_BLOCKED + FLAG_CORNER, cells[i]);
      } else {
        LineMarksSkip(f, r, cells, wavefrontCost, i);
      }
      i := i + 1;
    }
  }

  /**
   * `extend_los_corner`: the corner beside `neighbour` towards `ord`, when it
   * exists and is passable, starts a line away from the goal to the field's
   * edge (`line` is the Bresenham line between two cells, `diagonalEnd` the
   * edge cell of a diagonal line). Up to where the line ends, each cell not
   * yet wave-blocked is recorded as a corner and given one more than the
   * `i`-th ring cost, `wavefrontCost + 1 + i`, with the wave-blocked and
   * corner flags. Only corner writes happen, only on line cells, and every
   * cell of the line is wave-blocked afterwards.
   */
  method ExtendLosCorner(f: IntegrationField, neighbour: FieldCell, ord: Ordinal, goal: FieldCell, wavefrontCost: nat,
                         line: (FieldCell, FieldCell) -> seq<FieldCell>,
                         diagonalEnd: (FieldCell, FieldCell) -> FieldCell) returns (r: IntegrationField)
    requires wavefrontCost + FIELD_RESOLUTION < U16_MAX
    requires forall a: FieldCell, b: FieldCell :: |line(a, b)| <= FIELD_RESOLUTION
    ensures LosKeeps(f, r, 1, 0)
    ensures forall c :: GetValue(r, c) != GetValue(f, c) ==>
              c in CornerLine(f, neighbour, ord, goal, line, diagonalEnd)
              && wavefrontCost < CostBits(GetValue(r, c)) <= wavefrontCost + FIELD_RESOLUTION
    ensures forall c :: c in CornerLine(f, neighbour, ord, goal, line, diagonalEnd) ==> HasFlag(GetValue(r, c), FLAG_WAVE_BLOCKED)
    ensures var cells := CornerLine(f, neighbour, ord, goal, line, diagonalEnd);
      forall j :: 0 <= j < |cells| && cells[j] !in cells[..j] ==> GetValue(r, cells[j]) == LineValue(f, cells[j], wavefrontCost, j)
  {
    r := f;
    var next := CellNeighbour(neighbour, ord);
    if next.Some? && !HasFlag(GetValue(f, next.value), FLAG_IMPASSABLE) {
      var adj := next.value;
      var end := CornerEnd(adj, goal, diagonalEnd);
      var cells := line(adj, end);
      r := BlockLine(f, cells, wavefrontCost);
      var blocked := cells[..LineStop(f, cells, 0)];
      assert CornerLine(f, neighbour, ord, goal, line, diagonalEnd) == blocked;
      forall j | 0 <= j < |blocked| && blocked[j] !in blocked[..j]
        ensures GetValue(r, blocked[j]) == LineValue(f, blocked[j], wavefrontCost, j)
      {
        assert blocked[j] == cells[j] && blocked[..j] == cells[..j];
      }
    }
  }

  /** A run of corner writes only fits every ring-cost range. */
  lemma LosKeepsCornersOnly(f: IntegrationField, r: IntegrationField, lo: nat, hi: nat)
    requires LosKeeps(f, r, 1, 0)
    ensures LosKeeps(f, r, lo, hi) && LosMoved(f, r, [])
  {
  }

  /**
   * The cells a run of writes moved the line-of-sight wavefront onto: every
   * cell it gave the line-of-sight flag is among them, and each of them was
   * written.
   */
  ghost predicate LosMoved(f: IntegrationField, r: IntegrationField, moved: seq<FieldCell>) {
    && (forall c :: GetValue(r, c) != GetValue(f, c) && HasFlag(GetValue(r, c), FLAG_LOS) ==> c in moved)
    && (forall m :: m in moved ==> GetValue(r, m) != GetValue(f, m))
  }

  lemma LosMovedNone(f: IntegrationField)
    ensures LosMoved(f, f, [])
  {
  }

  /** The cells two runs of writes moved onto, one after the other. */
  lemma LosMovedCompose(a: IntegrationField, b: IntegrationField, c: IntegrationField, m1: seq<FieldCell>, m2: seq<FieldCell>,
                        lo1: nat, hi1: nat, lo2: nat, hi2: nat)
    requires LosKeeps(a, b, lo1, hi1) && LosKeeps(b, c, lo2, hi2)
    requires LosMoved(a, b, m1) && LosMoved(b, c, m2)
    ensures LosMoved(a, c, m1 + m2)
  {
    forall x | GetValue(c, x) != GetValue(a, x) && HasFlag(GetValue(c, x), FLAG_LOS)
      ensures x in m1 + m2
    {
      if GetValue(c, x) == GetValue(b, x) {
        assert x in m1;
      } else {
        assert x in m2;
      }
    }
    forall x | x in m1 + m2
      ensures GetValue(c, x) != GetValue(a, x)
    {
      LosKeepsMeaning(a, b, lo1, hi1, x);
      LosKeepsMeaning(b, c, lo2, hi2, x);
    }
  }

  /** Cells that were stopped stay stopped. */
  lemma StoppedKept(f: IntegrationField, r: IntegrationField, lo: nat, hi: nat)
    requires LosKeeps(f, r, lo, hi)
    ensures forall c :: Stopped(GetValue(f, c)) ==> Stopped(GetValue(r, c))
  {
    forall c | Stopped(GetValue(f, c))
      ensures Stopped(GetValue(r, c))
    {
      LosKeepsMeaning(f, r, lo, hi, c);
    }
  }

  /** Giving an open cell the ring cost with the line-of-sight flag. */
  lemma LosWriteStep(f: IntegrationField, n: FieldCell, cost: nat)
    requires !Stopped(GetValue(f, n)) && cost <= U16_MAX
    ensures LosKeeps(f, SetValue(f, cost + FLAG_LOS, n), cost, cost)
    ensures LosMoved(f, SetValue(f, cost + FLAG_LOS, n), [n])
    ensures Stopped(GetValue(SetValue(f, cost + FLAG_LOS, n), n))
  {
    LosValueFlags(cost);
    var r := SetValue(f, cost + FLAG_LOS, n);
    assert r.losCorners[..|f.losCorners|] == f.losCorners;
  }

  /**
   * The impassable branch of `propagate_los`: moving from the wavefront cell
   * `w` onto the impassable `n`, each side of `w` across the move that is
   * inside the field and passable may hold a corner beside `n`, which
   * `extend_los_corner` blocks the line behind.
   */
  method CornerChecks(f: IntegrationField, w: FieldCell, n: FieldCell, goal: FieldCell, wavefrontCost: nat,
                      line: (FieldCell, FieldCell) -> seq<FieldCell>,
                      diagonalEnd: (FieldCell, FieldCell) -> FieldCell) returns (r: IntegrationField)
    requires wavefrontCost + FIELD_RESOLUTION < U16_MAX
    requires forall a: FieldCell, b: FieldCell :: |line(a, b)| <= FIELD_RESOLUTION
    ensures LosKeeps(f, r, 1, 0)
  {
    match CellToCellDirection(n, w)
    case Some(North) | Some(South) =>
      var r1 := CornerBeside(f, w, n, West, goal, wavefrontCost, line, diagonalEnd);
      r := CornerBeside(r1, w, n, East, goal, wavefrontCost, line, diagonalEnd);
      LosKeepsTransitive(f, r1, r, 1, 0, 1, 0, 1, 0);
    case Some(East) | Some(West) =>
      var r1 := CornerBeside(f, w, n, North, goal, wavefrontCost, line, diagonalEnd);
      r := CornerBeside(r1, w, n, South, goal, wavefrontCost, line, diagonalEnd);
      LosKeepsTransitive(f, r1, r, 1, 0, 1, 0, 1, 0);
    case _ =>
      // `n` is an orthogonal neighbour of `w`; the source panics otherwise.
      r := f;
  }

  /** One side of `CornerChecks`: the neighbour of `w` towards `side`, when it exists and is passable, lets `n`'s neighbour towards `side` be a corner. */
  method CornerBeside(f: IntegrationField, w: FieldCell, n: FieldCell, side: Ordinal, goal: FieldCell, wavefrontCost: nat,
                      line: (FieldCell, FieldCell) -> seq<FieldCell>,
                      diagonalEnd: (FieldCell, FieldCell) -> FieldCell) returns (r: IntegrationField)
    requires wavefrontCost + FIELD_RESOLUTION < U16_MAX
    requires forall a: FieldCell, b: FieldCell :: |line(a, b)| <= FIELD_RESOLUTION
    ensures LosKeeps(f, r, 1, 0)
    ensures (match CellNeighbour(w, side)
             case Some(x) => HasFlag(GetValue(f, x), FLAG_IMPASSABLE)
             case None => true) ==> r == f
  {
    r := f;
    var beside := CellNeighbour(w, side);
    if beside.Some? && !HasFlag(GetValue(f, beside.value), FLAG_IMPASSABLE) {
      r := ExtendLosCorner(f, n, side, goal, wavefrontCost, line, diagonalEnd);
    } else {
      LosKeepsReflexive(f, 1, 0);
    }
  }

  /**
   * One neighbour `n` of the wavefront cell `w` in `propagate_los`: a
   * wave-blocked cell or the goal is passed over, an impassable cell looks
   * for corners beside it, and an open cell not yet in sight gets the ring
   * cost with the line-of-sight flag and joins the next wavefront.
   * Afterwards `n` is stopped.
   */
  method LosNeighbour(f: IntegrationField, w: FieldCell, n: FieldCell, goal: FieldCell, wavefrontCost: nat,
                      line: (FieldCell, FieldCell) -> seq<FieldCell>,
                      diagonalEnd: (FieldCell, FieldCell) -> FieldCell) returns (r: IntegrationField, moved: seq<FieldCell>)
    requires wavefrontCost + FIELD_RESOLUTION < U16_MAX
    requires forall a: FieldCell, b: FieldCell :: |line(a, b)| <= FIELD_RESOLUTION
    ensures LosKeeps(f, r, wavefrontCost, wavefrontCost) && LosMoved(f, r, moved)
    ensures Stopped(GetValue(r, n))
    ensures moved == (if Stopped(GetValue(f, n)) then [] else [n])
  {
    var cost := GetValue(f, n);
    if HasFlag(cost, FLAG_WAVE_BLOCKED) || HasFlag(cost, FLAG_GOAL) {
      r, moved := f, [];
      LosKeepsReflexive(f, wavefrontCost, wavefrontCost);
    } else if HasFlag(cost, FLAG_IMPASSABLE) {
      r := CornerChecks(f, w, n, goal, wavefrontCost, line, diagonalEnd);
      moved := [];
      LosKeepsCornersOnly(f, r, wavefrontCost, wavefrontCost);
      LosKeepsMeaning(f, r, 1, 0, n);
    } else if !HasFlag(cost, FLAG_LOS) {
      var value := wavefrontCost;
      if !HasFlag(value, FLAG_LOS) {
        value := value + FLAG_LOS;
      }
      LosValueFlags(wavefrontCost);
      LosWriteStep(f, n, wavefrontCost);
      r := SetValue(f, value, n);
      moved := [n];
    } else {
      r, moved := f, [];
      LosKeepsReflexive(f, wavefrontCost, wavefrontCost);
    }
  }

  /** `propagate_los` over the neighbours of one wavefront cell `w`: afterwards every one of them is stopped. */
  method LosEntry(f: IntegrationField, w: FieldCell, goal: FieldCell, wavefrontCost: nat,
                  line: (FieldCell, FieldCell) -> seq<FieldCell>,
                  diagonalEnd: (FieldCell, FieldCell) -> FieldCell) returns (r: IntegrationField, moved: seq<FieldCell>)
    requires wavefrontCost + FIELD_RESOLUTION < U16_MAX
    requires forall a: FieldCell, b: FieldCell :: |line(a, b)| <= FIELD_RESOLUTION
    ensures LosKeeps(f, r, wavefrontCost, wavefrontCost) && LosMoved(f, r, moved)
    ensures forall n :: OrthogonallyAdjacent(w, n) ==> Stopped(GetValue(r, n))
    ensures forall m :: m in moved ==> OrthogonallyAdjacent(w, m)
  {
    var neighbours := OrthogonalNeighbours(w);
    r, moved := f, [];
    LosKeepsReflexive(f, wavefrontCost, wavefrontCost);
    for i := 0 to |neighbours|
      invariant LosKeeps(f, r, wavefrontCost, wavefrontCost) && LosMoved(f, r, moved)
      invariant forall j :: 0 <= j < i ==> Stopped(GetValue(r, neighbours[j]))
      invariant forall m :: m in moved ==> OrthogonallyAdjacent(w, m)
    {
      var r2, m2 := LosNeighbour(r, w, neighbours[i], goal, wavefrontCost, line, diagonalEnd);
      LosMovedCompose(f, r, r2, moved, m2, wavefrontCost, wavefrontCost, wavefrontCost, wavefrontCost);
      LosKeepsTransitive(f, r, r2, wavefrontCost, wavefrontCost, wavefrontCost, wavefrontCost, wavefrontCost, wavefrontCost);
      StoppedKept(r, r2, wavefrontCost, wavefrontCost);
      r, moved := r2, moved + m2;
    }
  }

  /** One pass of `propagate_los` over the active wavefront: every neighbour of a wavefront cell is stopped afterwards. */
  method LosRound(f: IntegrationField, wavefront: seq<FieldCell>, goal: FieldCell, wavefrontCost: nat,
                  line: (FieldCell, FieldCell) -> seq<FieldCell>,
                  diagonalEnd: (FieldCell, FieldCell) -> FieldCell) returns (r: IntegrationField, moved: seq<FieldCell>)
    requires wavefrontCost + FIELD_RESOLUTION < U16_MAX
    requires forall a: FieldCell, b: FieldCell :: |line(a, b)| <= FIELD_RESOLUTION
    ensures LosKeeps(f, r, wavefrontCost, wavefrontCost) && LosMoved(f, r, moved)
    ensures forall w, n :: w in wavefront && OrthogonallyAdjacent(w, n) ==> Stopped(GetValue(r, n))
    ensures forall m :: m in moved ==> exists w :: w in wavefront && OrthogonallyAdjacent(w, m)
  {
    r, moved := f, [];
    LosKeepsReflexive(f, wavefrontCost, wavefrontCost);
    for i := 0 to |wavefront|
      invariant LosKeeps(f, r, wavefrontCost, wavefrontCost) && LosMoved(f, r, moved)
      invariant forall w, n :: w in wavefront[..i] && OrthogonallyAdjacent(w, n) ==> Stopped(GetValue(r, n))
      invariant forall m :: m in moved ==> exists w :: w in wavefront[..i] && OrthogonallyAdjacent(w, m)
    {
      var r2, m2 := LosEntry(r, wavefront[i], goal, wavefrontCost, line, diagonalEnd);
      LosMovedCompose(f, r, r2, moved, m2, wavefrontCost, wavefrontCost, wavefrontCost, wavefrontCost);
      LosKeepsTransitive(f, r, r2, wavefrontCost, wavefrontCost, wavefrontCost, wavefrontCost, wavefrontCost, wavefrontCost);
      StoppedKept(r, r2, wavefrontCost, wavefrontCost);
      assert wavefront[..i + 1] == wavefront[..i] + [wavefront[i]];
      r, moved := r2, moved + m2;
    }
    assert wavefront[..|wavefront|] == wavefront;
  }

  /** `c` was brought into sight by a run of writes from `f` to `r`. */
  ghost predicate NewLos(f: IntegrationField, r: IntegrationField, c: FieldCell) {
    GetValue(r, c) != GetValue(f, c) && HasFlag(GetValue(r, c), FLAG_LOS)
  }

  /** Each cell of `ring` was written and lies next to a cell of `previous`. */
  ghost predicate RingLinked(f: IntegrationField, r: IntegrationField, previous: seq<FieldCell>, ring: seq<FieldCell>) {
    forall c :: c in ring ==> GetValue(r, c) != GetValue(f, c) && exists p :: p in previous && OrthogonallyAdjacent(p, c)
  }

  /**
   * The rings of a line-of-sight wavefront: each cell of a ring after the
   * first was written and lies next to a cell of the ring before; a cell of
   * ring `i` still in sight carries the ring cost `cost + i - 1`; and every
   * cell brought into sight is in some ring after the first.
   */
  ghost predicate LosRings(f: IntegrationField, r: IntegrationField, rings: seq<seq<FieldCell>>, cost: nat) {
    && (forall i :: 0 < i < |rings| ==> RingLinked(f, r, rings[i - 1], rings[i]))
    && (forall i, c :: 0 < i < |rings| && c in rings[i] && HasFlag(GetValue(r, c), FLAG_LOS) ==>
          CostBits(GetValue(r, c)) == cost + i - 1)
    && (forall c :: NewLos(f, r, c) ==> exists i :: 0 < i < |rings| && c in rings[i])
  }

  /** Two neighbouring cells brought into sight differ in ring cost by at most one. */
  ghost predicate LosLayered(f: IntegrationField, r: IntegrationField) {
    forall c, d :: NewLos(f, r, c) && NewLos(f, r, d) && OrthogonallyAdjacent(c, d) ==>
      CostBits(GetValue(r, c)) <= CostBits(GetValue(r, d)) + 1
  }

  /** A neighbour of the wavefront brought into sight carries the first ring cost. */
  ghost predicate LosFirstRing(f: IntegrationField, r: IntegrationField, wavefront: seq<FieldCell>, cost: nat) {
    forall w, n :: w in wavefront && OrthogonallyAdjacent(w, n) && NewLos(f, r, n) ==> CostBits(GetValue(r, n)) == cost
  }

  /**
   * `propagate_los`: the line-of-sight wavefront moves out from the active
   * wavefront one ring per pass, the ring cost rising by one each pass, until
   * no open cell is left to move onto. Afterwards every neighbour of the
   * active wavefront, and every neighbour of a cell the wave brought into
   * sight, is stopped: in sight, wave-blocked, the goal or impassable. The
   * passes form rings starting at the active wavefront, each cell of a ring
   * next to one of the ring before and costed by its ring; the neighbours of
   * the active wavefront in sight cost `wavefrontCost`, and neighbouring
   * cells in sight differ in cost by at most one.
   */
  method PropagateLos(f: IntegrationField, wavefront: seq<FieldCell>, wavefrontCost: nat, goal: FieldCell,
                      line: (FieldCell, FieldCell) -> seq<FieldCell>,
                      diagonalEnd: (FieldCell, FieldCell) -> FieldCell) returns (r: IntegrationField, ghost rings: seq<seq<FieldCell>>)
    requires wavefrontCost + LosPotential(f) + FIELD_RESOLUTION < U16_MAX
    requires forall a: FieldCell, b: FieldCell :: |line(a, b)| <= FIELD_RESOLUTION
    ensures LosKeeps(f, r, wavefrontCost, wavefrontCost + LosPotential(f))
    ensures forall w, n :: w in wavefront && OrthogonallyAdjacent(w, n) ==> Stopped(GetValue(r, n))
    ensures forall c, n :: NewLos(f, r, c) && OrthogonallyAdjacent(c, n) ==> Stopped(GetValue(r, n))
    ensures |rings| > 0 && rings[0] == wavefront && LosRings(f, r, rings, wavefrontCost)
    ensures LosFirstRing(f, r, wavefront, wavefrontCost) && LosLayered(f, r)
    decreases LosPotential(f)
  {
    var r1, moved := LosRound(f, wavefront, goal, wavefrontCost, line, diagonalEnd);
    if |moved| > 0 {
      LosPotentialLowers(f, r1, wavefrontCost, wavefrontCost, moved[0]);
      ghost var rest;
      r, rest := PropagateLos(r1, moved, wavefrontCost + 1, goal, line, diagonalEnd);
      LosReach(f, r1, r, wavefront, moved, wavefrontCost);
      LosRingsStep(f, r1, r, wavefront, moved, rest, wavefrontCost);
      LosLayeredStep(f, r1, r, wavefront, moved, wavefrontCost);
      rings := [wavefront] + rest;
    } else {
      r := r1;
      LosKeepsTransitive(f, r1, r, wavefrontCost, wavefrontCost, wavefrontCost, wavefrontCost,
                         wavefrontCost, wavefrontCost + LosPotential(f));
      rings := [wavefront];
      LosLastRound(f, r, wavefront, wavefrontCost);
    }
  }

  /** The facts of one pass and of the passes after it make those of `propagate_los`. */
  lemma LosReach(f: IntegrationField, r1: IntegrationField, r: IntegrationField, wavefront: seq<FieldCell>, moved: seq<FieldCell>, k: nat)
    requires LosKeeps(f, r1, k, k) && LosMoved(f, r1, moved) && |moved| > 0
    requires forall w, n :: w in wavefront && OrthogonallyAdjacent(w, n) ==> Stopped(GetValue(r1, n))
    requires LosKeeps(r1, r, k + 1, k + 1 + LosPotential(r1))
    requires forall w, n :: w in moved && OrthogonallyAdjacent(w, n) ==> Stopped(GetValue(r, n))
    requires forall c, n :: NewLos(r1, r, c) && OrthogonallyAdjacent(c, n) ==> Stopped(GetValue(r, n))
    ensures LosKeeps(f, r, k, k + LosPotential(f))
    ensures forall w, n :: w in wavefront && OrthogonallyAdjacent(w, n) ==> Stopped(GetValue(r, n))
    ensures forall c, n :: NewLos(f, r, c) && OrthogonallyAdjacent(c, n) ==> Stopped(GetValue(r, n))
  {
    LosPotentialLowers(f, r1, k, k, moved[0]);
    LosKeepsTransitive(f, r1, r, k, k, k + 1, k + 1 + LosPotential(r1), k, k + LosPotential(f));
    StoppedKept(r1, r, k + 1, k + 1 + LosPotential(r1));
    forall c | NewLos(f, r, c) && GetValue(r, c) == GetValue(r1, c)
      ensures c in moved
    {
    }
  }

  /** A pass that moves nowhere brings nothing into sight: the rings stop at the active wavefront. */
  lemma LosLastRound(f: IntegrationField, r: IntegrationField, wavefront: seq<FieldCell>, k: nat)
    requires LosMoved(f, r, [])
    ensures LosRings(f, r, [wavefront], k) && LosFirstRing(f, r, wavefront, k) && LosLayered(f, r)
  {
    forall c | NewLos(f, r, c)
      ensures false
    {
    }
  }

  /**
   * A cell brought into sight by a pass and the passes after it was either
   * brought into sight by the pass, at its ring cost, or by the later passes,
   * at a higher cost.
   */
  lemma NewLosSplit(f: IntegrationField, r1: IntegrationField, r: IntegrationField, moved: seq<FieldCell>, k: nat, c: FieldCell)
    requires LosKeeps(f, r1, k, k) && LosMoved(f, r1, moved)
    requires LosKeeps(r1, r, k + 1, k + 1 + LosPotential(r1))
    requires NewLos(f, r, c)
    ensures (GetValue(r, c) == GetValue(r1, c) && c in moved && CostBits(GetValue(r, c)) == k) || (NewLos(r1, r, c) && CostBits(GetValue(r, c)) > k)
  {
    LosKeepsMeaning(f, r1, k, k, c);
    LosKeepsMeaning(r1, r, k + 1, k + 1 + LosPotential(r1), c);
    LosKeepsSettles(f, r1, k, k, c);
    LosKeepsSettles(r1, r, k + 1, k + 1 + LosPotential(r1), c);
  }

  /** The rings of a pass and of the passes after it: the active wavefront, then the rings of the later passes. */
  lemma LosRingsStep(f: IntegrationField, r1: IntegrationField, r: IntegrationField, wavefront: seq<FieldCell>,
                     moved: seq<FieldCell>, rest: seq<seq<FieldCell>>, k: nat)
    requires LosKeeps(f, r1, k, k) && LosMoved(f, r1, moved)
    requires forall m :: m in moved ==> exists w :: w in wavefront && OrthogonallyAdjacent(w, m)
    requires LosKeeps(r1, r, k + 1, k + 1 + LosPotential(r1))
    requires |rest| > 0 && rest[0] == moved && LosRings(r1, r, rest, k + 1)
    ensures LosRings(f, r, [wavefront] + rest, k)
  {
    var rings := [wavefront] + rest;
    forall i | 0 < i < |rings|
      ensures RingLinked(f, r, rings[i - 1], rings[i])
    {
      assert rings[i] == rest[i - 1] && rings[i - 1] == if i == 1 then wavefront else rest[i - 2];
      forall c | c in rings[i]
        ensures GetValue(r, c) != GetValue(f, c) && exists p :: p in rings[i - 1] && OrthogonallyAdjacent(p, c)
      {
        LosKeepsMeaning(f, r1, k, k, c);
        LosKeepsMeaning(r1, r, k + 1, k + 1 + LosPotential(r1), c);
      }
    }
    forall i, c | 0 < i < |rings| && c in rings[i] && HasFlag(GetValue(r, c), FLAG_LOS)
      ensures CostBits(GetValue(r, c)) == k + i - 1
    {
      assert rings[i] == rest[i - 1];
      LosKeepsSettles(f, r1, k, k, c);
      LosKeepsSettles(r1, r, k + 1, k + 1 + LosPotential(r1), c);
    }
    forall c | NewLos(f, r, c)
      ensures exists i :: 0 < i < |rings| && c in rings[i]
    {
      NewLosSplit(f, r1, r, moved, k, c);
      if c in moved {
        assert rings[1] == moved;
      } else {
        var i :| 0 < i < |rest| && c in rest[i];
        assert rings[i + 1] == rest[i];
      }
    }
  }

  /** Neighbouring cells in sight after a pass and the passes after it differ in cost by at most one. */
  lemma LosLayeredStep(f: IntegrationField, r1: IntegrationField, r: IntegrationField, wavefront: seq<FieldCell>,
                       moved: seq<FieldCell>, k: nat)
    requires LosKeeps(f, r1, k, k) && LosMoved(f, r1, moved)
    requires forall w, n :: w in wavefront && OrthogonallyAdjacent(w, n) ==> Stopped(GetValue(r1, n))
    requires LosKeeps(r1, r, k + 1, k + 1 + LosPotential(r1))
    requires LosFirstRing(r1, r, moved, k + 1) && LosLayered(r1, r)
    ensures LosFirstRing(f, r, wavefront, k) && LosLayered(f, r)
  {
    forall w, n | w in wavefront && OrthogonallyAdjacent(w, n) && NewLos(f, r, n)
      ensures CostBits(GetValue(r, n)) == k
    {
      LosKeepsSettles(r1, r, k + 1, k + 1 + LosPotential(r1), n);
      NewLosSplit(f, r1, r, moved, k, n);
    }
    forall c, d | NewLos(f, r, c) && NewLos(f, r, d) && OrthogonallyAdjacent(c, d)
      ensures CostBits(GetValue(r, c)) <= CostBits(GetValue(r, d)) + 1
    {
      NewLosSplit(f, r1, r, moved, k, c);
      NewLosSplit(f, r1, r, moved, k, d);
      assert OrthogonallyAdjacent(d, c);
    }
  }

  /** `set_initial_los`: the cell becomes the bare line-of-sight flag with cost 0, and stops the wavefront. */
  function SetInitialLos(f: IntegrationField, cell: FieldCell): (g: IntegrationField)
    ensures GetValue(g, cell) == FLAG_LOS && CostBits(GetValue(g, cell)) == 0 && Stopped(GetValue(g, cell))
    ensures forall c :: c != cell ==> GetValue(g, c) == GetValue(f, c)
    ensures g.losCorners == f.losCorners
  {
    LosValueFlags(0);
    SetValue(f, FLAG_LOS, cell)
  }

  /** No field weighs more than two per cell. */
  lemma LosPotentialBound(f: IntegrationField)
    ensures LosPotential(f) <= 2 * CELL_COUNT
  {
    WeightSumBound(f.field, Weight, 2);
  }

  /**
   * `calculate_sector_goal_los`: the line-of-sight wavefront from the goals of
   * the target sector with a first ring cost of 1. Cells brought into sight
   * carry a ring cost from 1 to 201; every neighbour of a goal, and of a cell
   * brought into sight, is stopped; the rings start at the goals, the goals'
   * neighbours in sight cost 1, and neighbouring cells in sight differ in
   * cost by at most one.
   */
  method CalculateSectorGoalLos(f: IntegrationField, activeWavefront: seq<FieldCell>, goal: FieldCell,
                                line: (FieldCell, FieldCell) -> seq<FieldCell>,
                                diagonalEnd: (FieldCell, FieldCell) -> FieldCell) returns (r: IntegrationField, ghost rings: seq<seq<FieldCell>>)
    requires forall a: FieldCell, b: FieldCell :: |line(a, b)| <= FIELD_RESOLUTION
    ensures LosKeeps(f, r, 1, 1 + 2 * CELL_COUNT)
    ensures forall w, n :: w in activeWavefront && OrthogonallyAdjacent(w, n) ==> Stopped(GetValue(r, n))
    ensures forall c, n :: NewLos(f, r, c) && OrthogonallyAdjacent(c, n) ==> Stopped(GetValue(r, n))
    ensures |rings| > 0 && rings[0] == activeWavefront && LosRings(f, r, rings, 1)
    ensures LosFirstRing(f, r, activeWavefront, 1) && LosLayered(f, r)
  {
    var wavefrontCost := 1;
    LosPotentialBound(f);
    r, rings := PropagateLos(f, activeWavefront, wavefrontCost, goal, line, diagonalEnd);
    LosKeepsReflexive(r, 1, 1);
    LosKeepsTransitive(f, r, r, 1, 1 + LosPotential(f), 1, 1, 1, 1 + 2 * CELL_COUNT);
  }
}
