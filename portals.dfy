/**
 * The portals of one sector (src/flowfields/portal/portals.rs). Along each
 * side that faces another sector, every maximal run of boundary positions
 * that is pathable on both sides of the boundary yields one portal cell, at
 * the integer mean of the run's positions. A portal can be expanded back
 * into the cells of its run, which become the goals of an integration field.
 */
module Portal {
  import opened Options
  import opened Geometry
  import opened Grids
  import opened Sectors
  import opened FieldCost

  /** `Portals`: the portal cells of the North, East, South and West sides. */
  datatype Portals = Portals(north: seq<FieldCell>, east: seq<FieldCell>, south: seq<FieldCell>, west: seq<FieldCell>)

  /** `Portals::default`: no portal on any side. */
  const NO_PORTALS: Portals := Portals([], [], [], [])

  // ---------------------------------------------------------------------
  // Access by side

  /** `get_portals_for_side`: `None` where the source panics, on any ordinal but the four sides. */
  function PortalsForSide(p: Portals, side: Ordinal): (r: Option<seq<FieldCell>>)
    ensures r.Some? <==> IsOrthogonal(side)
  {
    match side
    case North => Some(p.north)
    case East => Some(p.east)
    case South => Some(p.south)
    case West => Some(p.west)
    case _ => None
  }

  /**
   * A write through `get_portals_for_side_mut`: the list of `side` becomes
   * `cells` and the other sides keep theirs; `None` where the source panics.
   */
  function WithSide(p: Portals, side: Ordinal, cells: seq<FieldCell>): (r: Option<Portals>)
    ensures r.Some? <==> IsOrthogonal(side)
    ensures r.Some? ==> PortalsForSide(r.value, side) == Some(cells)
    ensures r.Some? ==> forall other :: other != side ==> PortalsForSide(r.value, other) == PortalsForSide(p, other)
  {
    match side
    case North => Some(p.(north := cells))
    case East => Some(p.(east := cells))
    case South => Some(p.(south := cells))
    case West => Some(p.(west := cells))
    case _ => None
  }

  /** `clear`: every side loses its portals. */
  function Clear(p: Portals): (r: Portals)
    ensures forall side :: IsOrthogonal(side) ==> PortalsForSide(r, side) == Some([])
  {
    NO_PORTALS
  }

  /** Portals are determined by their four sides. */
  lemma PortalsBySides(p: Portals, q: Portals)
    requires forall side :: IsOrthogonal(side) ==> PortalsForSide(p, side) == PortalsForSide(q, side)
    ensures p == q
  {
    assert PortalsForSide(p, North) == PortalsForSide(q, North);
    assert PortalsForSide(p, East) == PortalsForSide(q, East);
    assert PortalsForSide(p, South) == PortalsForSide(q, South);
    assert PortalsForSide(p, West) == PortalsForSide(q, West);
  }

  // ---------------------------------------------------------------------
  // Positions along a side

  /** `cell` lies on `side`: North is row 0, East column 9, South row 9, West column 0. */
  predicate OnSide(side: Ordinal, cell: FieldCell) {
    match side
    case North => cell.row == 0
    case East => cell.column == FIELD_RESOLUTION - 1
    case South => cell.row == FIELD_RESOLUTION - 1
    case West => cell.column == 0
    case _ => false
  }

  /** The position of `cell` along `side`: its column on North and South, its row on East and West. */
  function Along(side: Ordinal, cell: FieldCell): Coord {
    if side == East || side == West then cell.row else cell.column
  }

  /** The cell at position `i` along `side`. */
  function BoundaryCell(side: Ordinal, i: Coord): (cell: FieldCell)
    requires IsOrthogonal(side)
    ensures OnSide(side, cell) && Along(side, cell) == i
  {
    match side
    case North => FieldCell(i, 0)
    case East => FieldCell(FIELD_RESOLUTION - 1, i)
    case South => FieldCell(i, FIELD_RESOLUTION - 1)
    case West => FieldCell(0, i)
  }

  /** A cell on a side is the boundary cell at its own position. */
  lemma OnSideIsBoundaryCell(side: Ordinal, cell: FieldCell)
    requires OnSide(side, cell)
    ensures IsOrthogonal(side) && cell == BoundaryCell(side, Along(side, cell))
  {
  }

  /** The boundary cells at positions `idx`, in that order. */
  function Cells(side: Ordinal, idx: seq<nat>): (cells: seq<FieldCell>)
    requires IsOrthogonal(side) && forall k :: 0 <= k < |idx| ==> idx[k] < FIELD_RESOLUTION
    ensures |cells| == |idx| && forall k :: 0 <= k < |idx| ==> OnSide(side, cells[k]) && Along(side, cells[k]) == idx[k]
  {
    seq(|idx|, k requires 0 <= k < |idx| => BoundaryCell(side, idx[k]))
  }

  /**
   * Position `i` along `side` is pathable on both sides of the boundary: in
   * `here` at the cell on `side`, and in `there`, the neighbour across that
   * side, at the facing cell of its inverse side.
   */
  predicate OpenAt(here: CostField, there: CostField, side: Ordinal, i: Coord)
    requires IsOrthogonal(side)
  {
    InverseIsInvolution(side);
    GetCost(here, BoundaryCell(side, i)) != 255 && GetCost(there, BoundaryCell(Inverse(side), i)) != 255
  }

  /** Which positions along `side` are open. */
  function Openings(here: CostField, there: CostField, side: Ordinal): (open: seq<bool>)
    requires IsOrthogonal(side)
    ensures |open| == FIELD_RESOLUTION
    ensures forall i: Coord :: open[i] == OpenAt(here, there, side, i)
  {
    seq(FIELD_RESOLUTION, i requires 0 <= i < FIELD_RESOLUTION => OpenAt(here, there, side, i))
  }

  /** The boundary looks the same from either sector: swapping the fields and inverting the side keeps every opening. */
  lemma OpeningsSymmetric(here: CostField, there: CostField, side: Ordinal)
    requires IsOrthogonal(side)
    ensures IsOrthogonal(Inverse(side)) && Openings(here, there, side) == Openings(there, here, Inverse(side))
  {
    InverseIsInvolution(side);
  }

  // ---------------------------------------------------------------------
  // Maximal runs of open positions

  /** Positions `start` up to but excluding `end`. */
  datatype Run = Run(start: nat, end: nat)

  /** `r` is a maximal run of open positions: all open, and closed or off the side just beyond each end. */
  ghost predicate MaximalRun(open: seq<bool>, r: Run) {
    r.start < r.end <= |open|
    && (forall i :: r.start <= i < r.end ==> open[i])
    && (r.start == 0 || !open[r.start - 1])
    && (r.end == |open| || !open[r.end])
  }

  /** The runs of open positions, left to right, grown one position at a time. */
  function Runs(open: seq<bool>): (runs: seq<Run>)
    ensures forall k :: 0 <= k < |runs| ==> runs[k].start < runs[k].end <= |open|
  {
    if open == [] then []
    else
      var runs := Runs(open[..|open| - 1]);
      var n := |open| - 1;
      if !open[n] then runs
      else if runs != [] && runs[|runs| - 1].end == n then runs[..|runs| - 1] + [Run(runs[|runs| - 1].start, n + 1)]
      else runs + [Run(n, n + 1)]
  }

  /** The runs are separated by at least one closed position and appear in increasing order. */
  ghost predicate Separated(runs: seq<Run>) {
    forall k, l :: 0 <= k < l < |runs| ==> runs[k].end < runs[l].start
  }

  /** Every open position lies in one of `runs`. */
  ghost predicate Covers(open: seq<bool>, runs: seq<Run>) {
    forall i :: 0 <= i < |open| && open[i] ==> exists k :: 0 <= k < |runs| && runs[k].start <= i < runs[k].end
  }

  /** Every run of `runs` is a maximal run of `open`. */
  ghost predicate AllMaximal(open: seq<bool>, runs: seq<Run>) {
    forall k :: 0 <= k < |runs| ==> MaximalRun(open, runs[k])
  }

  /**
   * `Runs` lists maximal runs only, in increasing order with a closed
   * position between any two, and every open position lies in one of them.
   */
  lemma {:induction false} RunsMeaning(open: seq<bool>)
    ensures AllMaximal(open, Runs(open)) && Separated(Runs(open)) && Covers(open, Runs(open))
  {
    if open != [] {
      var n := |open| - 1;
      var prefix := open[..n];
      assert open == prefix + [open[n]];
      RunsMeaning(prefix);
      var before := Runs(prefix);
      if !open[n] {
        assert Runs(open) == before;
        RunsCloseStep(prefix, before);
      } else if before != [] && before[|before| - 1].end == n {
        assert Runs(open) == before[..|before| - 1] + [Run(before[|before| - 1].start, n + 1)];
        RunsExtendStep(prefix, before);
      } else {
        assert Runs(open) == before + [Run(n, n + 1)];
        RunsOpenStep(prefix, before);
      }
    }
  }

  /** A closed position appended to the side leaves the runs as they were. */
  lemma RunsCloseStep(prefix: seq<bool>, before: seq<Run>)
    requires AllMaximal(prefix, before) && Separated(before) && Covers(prefix, before)
    ensures AllMaximal(prefix + [false], before) && Covers(prefix + [false], before)
  {
    var open := prefix + [false];
    forall k | 0 <= k < |before| ensures MaximalRun(open, before[k]) {
      assert MaximalRun(prefix, before[k]);
    }
    forall i | 0 <= i < |open| && open[i]
      ensures exists k :: 0 <= k < |before| && before[k].start <= i < before[k].end
    {
      assert prefix[i];
    }
  }

  /** An open position appended just after the last run extends that run. */
  lemma RunsExtendStep(prefix: seq<bool>, before: seq<Run>)
    requires AllMaximal(prefix, before) && Separated(before) && Covers(prefix, before)
    requires before != [] && before[|before| - 1].end == |prefix|
    ensures var runs := before[..|before| - 1] + [Run(before[|before| - 1].start, |prefix| + 1)];
      AllMaximal(prefix + [true], runs) && Separated(runs) && Covers(prefix + [true], runs)
  {
    var open := prefix + [true];
    var last := |before| - 1;
    var runs := before[..last] + [Run(before[last].start, |prefix| + 1)];
    forall k | 0 <= k < last ensures MaximalRun(open, runs[k]) {
      assert MaximalRun(prefix, before[k]);
      assert runs[k] == before[k];
      assert before[k].end < before[last].start;
    }
    assert MaximalRun(prefix, before[last]);
    assert MaximalRun(open, runs[last]);
    forall k, l | 0 <= k < l < |runs| ensures runs[k].end < runs[l].start {
      assert before[k].end < before[l].start;
    }
    forall i | 0 <= i < |open| && open[i]
      ensures exists k :: 0 <= k < |runs| && runs[k].start <= i < runs[k].end
    {
      if i == |prefix| {
        assert runs[last].start <= i < runs[last].end;
      } else {
        assert prefix[i];
        var k :| 0 <= k < |before| && before[k].start <= i < before[k].end;
        assert runs[k].start <= i < runs[k].end;
      }
    }
  }

  /** An open position appended after a closed one starts a run of its own. */
  lemma RunsOpenStep(prefix: seq<bool>, before: seq<Run>)
    requires AllMaximal(prefix, before) && Separated(before) && Covers(prefix, before)
    requires before == [] || before[|before| - 1].end != |prefix|
    ensures var runs := before + [Run(|prefix|, |prefix| + 1)];
      AllMaximal(prefix + [true], runs) && Separated(runs) && Covers(prefix + [true], runs)
  {
    var n := |prefix|;
    var open := prefix + [true];
    var runs := before + [Run(n, n + 1)];
    forall k | 0 <= k < |before| ensures before[k].end < n {
      assert MaximalRun(prefix, before[k]);
      if k < |before| - 1 {
        assert before[k].end < before[|before| - 1].start;
      }
    }
    assert n == 0 || !prefix[n - 1];
    forall k | 0 <= k < |runs| ensures MaximalRun(open, runs[k]) {
      if k < |before| {
        assert MaximalRun(prefix, before[k]);
        assert runs[k] == before[k];
      }
    }
    forall i | 0 <= i < |open| && open[i]
      ensures exists k :: 0 <= k < |runs| && runs[k].start <= i < runs[k].end
    {
      if i == n {
        assert runs[|before|].start <= i < runs[|before|].end;
      } else {
        assert prefix[i];
        var k :| 0 <= k < |before| && before[k].start <= i < before[k].end;
        assert runs[k].start <= i < runs[k].end;
      }
    }
  }

  /** The first position of the run of open positions that reaches `i`, walking back from `i`. */
  function RunStartAt(open: seq<bool>, i: nat): (j: nat)
    requires i < |open|
    ensures j <= i
  {
    if i == 0 || !open[i - 1] then i else RunStartAt(open, i - 1)
  }

  /** One past the last position of the run of open positions that continues from `i`. */
  function RunEndAt(open: seq<bool>, i: nat): (j: nat)
    requires i < |open|
    ensures i < j <= |open|
    decreases |open| - i
  {
    if i + 1 == |open| || !open[i + 1] then i + 1 else RunEndAt(open, i + 1)
  }

  /** A maximal run is determined by any of its positions. */
  lemma {:induction false} MaximalRunAt(open: seq<bool>, r: Run, i: nat)
    requires MaximalRun(open, r) && r.start <= i < r.end
    ensures r.start == RunStartAt(open, i) && r.end == RunEndAt(open, i)
    decreases 0
  {
    MaximalRunStartAt(open, r, i);
    MaximalRunEndAt(open, r, i);
  }

  lemma {:induction false} MaximalRunStartAt(open: seq<bool>, r: Run, i: nat)
    requires MaximalRun(open, r) && r.start <= i < r.end
    ensures r.start == RunStartAt(open, i)
    decreases i
  {
    if i > r.start {
      assert open[i - 1];
      MaximalRunStartAt(open, r, i - 1);
    }
  }

  lemma {:induction false} MaximalRunEndAt(open: seq<bool>, r: Run, i: nat)
    requires MaximalRun(open, r) && r.start <= i < r.end
    ensures r.end == RunEndAt(open, i)
    decreases |open| - i
  {
    if i + 1 < r.end {
      assert open[i + 1];
      MaximalRunEndAt(open, r, i + 1);
    }
  }

  /** Two maximal runs that share a position are the same run. */
  lemma MaximalRunsAgree(open: seq<bool>, r: Run, q: Run, i: nat)
    requires MaximalRun(open, r) && MaximalRun(open, q)
    requires r.start <= i < r.end && q.start <= i < q.end
    ensures r == q
  {
    MaximalRunAt(open, r, i);
    MaximalRunAt(open, q, i);
  }

  /** `Runs` lists every maximal run: together with `RunsMeaning`, it lists exactly the maximal runs. */
  lemma RunsComplete(open: seq<bool>, r: Run)
    requires MaximalRun(open, r)
    ensures r in Runs(open)
  {
    RunsMeaning(open);
    assert open[r.start];
    var k :| 0 <= k < |Runs(open)| && Runs(open)[k].start <= r.start < Runs(open)[k].end;
    MaximalRunsAgree(open, r, Runs(open)[k], r.start);
  }

  // ---------------------------------------------------------------------
  // The portal of a run

  /** The positions of a run, in increasing order. */
  function Positions(r: Run): (idx: seq<nat>)
    requires r.start <= r.end
    ensures |idx| == r.end - r.start && forall k :: 0 <= k < |idx| ==> idx[k] == r.start + k
  {
    seq(r.end - r.start, k requires 0 <= k < r.end - r.start => r.start + k)
  }

  lemma PositionsAppend(start: nat, end: nat)
    requires start <= end
    ensures Positions(Run(start, end + 1)) == Positions(Run(start, end)) + [end]
  {
  }

  /** Twice the sum of the positions `a .. b - 1` is `(b - a) * (a + b - 1)`. */
  lemma {:induction false} PositionsSum(a: nat, b: nat)
    requires a <= b
    ensures 2 * Sum(Positions(Run(a, b))) == (b - a) * (a + b - 1)
  {
    if a < b {
      PositionsSum(a, b - 1);
      PositionsAppend(a, b - 1);
      SumAppend(Positions(Run(a, b - 1)), b - 1);
      var n := b - a;
      assert (n - 1) * (a + b - 2) == n * (a + b - 1) - n - (a + b - 2);
    } else {
      assert Positions(Run(a, b)) == [];
    }
  }

  /** Multiplication by a positive factor preserves strict order in both directions. */
  lemma MultiplyStrict(n: int, a: int, b: int)
    requires n > 0
    ensures a < b <==> n * a < n * b
  {
    assert n * b - n * a == n * (b - a);
  }

  /** Integer division by a positive `n` finds the `q` with `n * q <= s < n * q + n`. */
  lemma DivisionBetween(s: int, n: int, q: int)
    requires n > 0 && n * q <= s < n * q + n
    ensures s / n == q
  {
    var d := s / n;
    assert n * d <= s < n * d + n;
    MultiplyStrict(n, d, q + 1);
    MultiplyStrict(n, q, d + 1);
  }

  /** The integer mean of the positions of a run is the middle position, rounded down. */
  lemma MeanOfPositions(a: nat, b: nat)
    requires a < b
    ensures Sum(Positions(Run(a, b))) / (b - a) == (a + b - 1) / 2
  {
    PositionsSum(a, b);
    var s, n, q := Sum(Positions(Run(a, b))), b - a, (a + b - 1) / 2;
    if (a + b - 1) % 2 == 0 {
      assert a + b - 1 == 2 * q;
      assert 2 * s == 2 * (n * q);
      DivisionBetween(s, n, q);
    } else {
      assert a + b - 1 == 2 * q + 1;
      var h := (b - a) / 2;
      assert n == 2 * h;
      assert 2 * s == 2 * (n * q + h);
      DivisionBetween(s, n, q);
    }
  }

  /**
   * The portal position of a run: the source's integer mean of its
   * positions, which is the middle of the run rounded down and so lies in it.
   */
  function Midpoint(r: Run): (m: nat)
    requires r.start < r.end
    ensures m == (r.start + r.end - 1) / 2 && r.start <= m < r.end
  {
    MeanOfPositions(r.start, r.end);
    Sum(Positions(r)) / (r.end - r.start)
  }

  /** The portal cells of `runs` on `side`, one per run. */
  function PortalCells(side: Ordinal, runs: seq<Run>): (cells: seq<FieldCell>)
    requires IsOrthogonal(side) && forall k :: 0 <= k < |runs| ==> runs[k].start < runs[k].end <= FIELD_RESOLUTION
  {
    seq(|runs|, k requires 0 <= k < |runs| => BoundaryCell(side, Midpoint(runs[k])))
  }

  /** The portals of `side` of a sector with field `here` whose neighbour across that side has field `there`. */
  function SidePortals(here: CostField, there: CostField, side: Ordinal): seq<FieldCell>
    requires IsOrthogonal(side)
  {
    PortalCells(side, Runs(Openings(here, there, side)))
  }

  /**
   * One portal per maximal run of open positions: the `k`-th portal lies on
   * the side, at the middle of the `k`-th run, at an open position; the
   * portals come in strictly increasing position order.
   */
  lemma SidePortalsMeaning(here: CostField, there: CostField, side: Ordinal)
    requires IsOrthogonal(side)
    ensures var open, cells := Openings(here, there, side), SidePortals(here, there, side);
      var runs := Runs(open);
      |cells| == |runs| &&
      (forall k :: 0 <= k < |cells| ==>
        MaximalRun(open, runs[k]) && OnSide(side, cells[k]) &&
        Along(side, cells[k]) == (runs[k].start + runs[k].end - 1) / 2 &&
        runs[k].start <= Along(side, cells[k]) < runs[k].end &&
        OpenAt(here, there, side, Along(side, cells[k]))) &&
      (forall k, l :: 0 <= k < l < |cells| ==> Along(side, cells[k]) < Along(side, cells[l]))
  {
    var open := Openings(here, there, side);
    RunsMeaning(open);
    var runs := Runs(open);
    forall k | 0 <= k < |runs| ensures MaximalRun(open, runs[k]) {
    }
  }

  /** The neighbouring sector sees the same portal positions on its facing side. */
  lemma FacingSidesAgree(here: CostField, there: CostField, side: Ordinal)
    requires IsOrthogonal(side)
    ensures IsOrthogonal(Inverse(side))
    ensures var mine, theirs := SidePortals(here, there, side), SidePortals(there, here, Inverse(side));
      |mine| == |theirs| && forall k :: 0 <= k < |mine| ==> Along(side, mine[k]) == Along(Inverse(side), theirs[k])
  {
    OpeningsSymmetric(here, there, side);
  }

  // ---------------------------------------------------------------------
  // The boundary scan

  /** The portal of one run: the integer mean of the positions of its `pathable` cells, summed in a loop. */
  method RunPortal(side: Ordinal, pathable: seq<FieldCell>, ghost r: Run) returns (portal: FieldCell)
    requires IsOrthogonal(side) && r.start < r.end <= FIELD_RESOLUTION
    requires pathable == Cells(side, Positions(r))
    ensures portal == BoundaryCell(side, Midpoint(r))
  {
    ghost var idx := Positions(r);
    var sum := 0;
    for k := 0 to |pathable|
      invariant sum == Sum(idx[..k])
    {
      assert idx[..k + 1] == idx[..k] + [idx[k]];
      SumAppend(idx[..k], idx[k]);
      sum := sum + Along(side, pathable[k]);
    }
    assert idx[..|pathable|] == idx;
    assert sum / |pathable| == Midpoint(r);
    portal := BoundaryCell(side, sum / |pathable|);
  }

  /** An open position extends the current run, or starts one after a closed position. */
  lemma RunsStepOpen(open: seq<bool>, i: nat, done: seq<Run>, len: nat)
    requires i < |open| && open[i] && len <= i
    requires Runs(open[..i]) == if len == 0 then done else done + [Run(i - len, i)]
    requires len == 0 ==> done == [] || done[|done| - 1].end < i
    ensures Runs(open[..i + 1]) == done + [Run(i - len, i + 1)]
  {
    var pre := open[..i + 1];
    assert pre[..|pre| - 1] == open[..i] && pre[|pre| - 1];
    var runs := Runs(open[..i]);
    if len > 0 {
      assert runs != [] && runs[|runs| - 1] == Run(i - len, i);
      assert runs[..|runs| - 1] == done;
    } else {
      assert runs == done;
    }
  }

  /** A closed position leaves the runs as they were. */
  lemma RunsStepClosed(open: seq<bool>, i: nat)
    requires i < |open| && !open[i]
    ensures Runs(open[..i + 1]) == Runs(open[..i])
  {
    assert open[..i + 1][..i] == open[..i];
  }

  lemma CellsAppend(side: Ordinal, start: nat, end: nat)
    requires IsOrthogonal(side) && start <= end < FIELD_RESOLUTION
    ensures Cells(side, Positions(Run(start, end + 1))) == Cells(side, Positions(Run(start, end))) + [BoundaryCell(side, end)]
  {
    PositionsAppend(start, end);
  }

  lemma PortalCellsAppend(side: Ordinal, runs: seq<Run>, r: Run)
    requires IsOrthogonal(side) && forall k :: 0 <= k < |runs| ==> runs[k].start < runs[k].end <= FIELD_RESOLUTION
    requires r.start < r.end <= FIELD_RESOLUTION
    ensures PortalCells(side, runs + [r]) == PortalCells(side, runs) + [BoundaryCell(side, Midpoint(r))]
  {
  }

  /**
   * The state of the scan of `side` before position `i`: the current run
   * started at `start` (none when `start == i`) and `pathable` holds its
   * cells; the runs ended before it are `done`, and `cells` holds their portals.
   */
  ghost predicate Scanned(open: seq<bool>, side: Ordinal, i: nat, start: nat, done: seq<Run>,
                          pathable: seq<FieldCell>, cells: seq<FieldCell>)
  {
    IsOrthogonal(side) && |open| == FIELD_RESOLUTION && start <= i <= FIELD_RESOLUTION
    && pathable == Cells(side, Positions(Run(start, i)))
    && Runs(open[..i]) == (if start == i then done else done + [Run(start, i)])
    && (start == i ==> done == [] || done[|done| - 1].end < i)
    && (forall k :: 0 <= k < |done| ==> done[k].start < done[k].end <= i)
    && cells == PortalCells(side, done)
  }

  lemma ScannedOpen(open: seq<bool>, side: Ordinal, i: nat, start: nat, done: seq<Run>,
                    pathable: seq<FieldCell>, cells: seq<FieldCell>)
    requires Scanned(open, side, i, start, done, pathable, cells) && i < FIELD_RESOLUTION && open[i]
    ensures Scanned(open, side, i + 1, start, done, pathable + [BoundaryCell(side, i)], cells)
  {
    assert pathable == Cells(side, Positions(Run(start, i)));
    assert Runs(open[..i]) == (if i - start == 0 then done else done + [Run(i - (i - start), i)]);
    RunsStepOpen(open, i, done, i - start);
    CellsAppend(side, start, i);
    assert start != i + 1;
  }

  lemma ScannedClosed(open: seq<bool>, side: Ordinal, i: nat, start: nat, done: seq<Run>,
                      pathable: seq<FieldCell>, cells: seq<FieldCell>)
    requires Scanned(open, side, i, start, done, pathable, cells) && i < FIELD_RESOLUTION && !open[i]
    ensures start == i ==> Scanned(open, side, i + 1, i + 1, done, [], cells)
    ensures start < i ==> Scanned(open, side, i + 1, i + 1, done + [Run(start, i)], [],
                                  cells + [BoundaryCell(side, Midpoint(Run(start, i)))])
  {
    RunsStepClosed(open, i);
    if start < i {
      PortalCellsAppend(side, done, Run(start, i));
    }
    assert Positions(Run(i + 1, i + 1)) == [];
  }

  lemma ScannedAll(open: seq<bool>, side: Ordinal, start: nat, done: seq<Run>,
                   pathable: seq<FieldCell>, cells: seq<FieldCell>)
    requires Scanned(open, side, FIELD_RESOLUTION, start, done, pathable, cells)
    ensures start == FIELD_RESOLUTION ==> cells == PortalCells(side, Runs(open))
    ensures start < FIELD_RESOLUTION ==>
      cells + [BoundaryCell(side, Midpoint(Run(start, FIELD_RESOLUTION)))] == PortalCells(side, Runs(open))
  {
    assert open[..FIELD_RESOLUTION] == open;
    if start < FIELD_RESOLUTION {
      PortalCellsAppend(side, done, Run(start, FIELD_RESOLUTION));
    }
  }

  /**
   * The scan of one side in `recalculate_portals`: walks the ten positions,
   * collects the current run of cells open on both sides, and publishes its
   * portal when a closed position or the end of the side ends it.
   */
  method ScanSide(here: CostField, there: CostField, side: Ordinal) returns (cells: seq<FieldCell>)
    requires IsOrthogonal(side)
    ensures cells == SidePortals(here, there, side)
  {
    ghost var open := Openings(here, there, side);
    InverseIsInvolution(side);
    cells := [];
    var pathable: seq<FieldCell> := [];
    ghost var start := 0;
    ghost var done: seq<Run> := [];
    assert Positions(Run(0, 0)) == [];
    for i := 0 to FIELD_RESOLUTION
      invariant Scanned(open, side, i, start, done, pathable, cells)
    {
      var fieldCost := GetCost(here, BoundaryCell(side, i));
      var adjacentFieldCost := GetCost(there, BoundaryCell(Inverse(side), i));
      if fieldCost != 255 && adjacentFieldCost != 255 {
        ScannedOpen(open, side, i, start, done, pathable, cells);
        pathable := pathable + [BoundaryCell(side, i)];
      } else {
        ScannedClosed(open, side, i, start, done, pathable, cells);
        if pathable != [] {
          var portal := RunPortal(side, pathable, Run(start, i));
          cells := cells + [portal];
          done := done + [Run(start, i)];
          pathable := [];
        }
        start := i + 1;
      }
    }
    ScannedAll(open, side, start, done, pathable, cells);
    if pathable != [] {
      var portal := RunPortal(side, pathable, Run(start, FIELD_RESOLUTION));
      cells := cells + [portal];
    }
  }

  // ---------------------------------------------------------------------
  // Recalculating the portals of a sector

  /** The sector listed for `side`; a later entry replaces an earlier one, as the writes of the scan do. */
  function ListedNeighbour(ns: seq<(Ordinal, SectorID)>, side: Ordinal): (r: Option<SectorID>)
    ensures r.Some? ==> (side, r.value) in ns
  {
    if ns == [] then None
    else if ns[|ns| - 1].0 == side then Some(ns[|ns| - 1].1)
    else
      var r := ListedNeighbour(ns[..|ns| - 1], side);
      assert r.Some? ==> (side, r.value) in ns[..|ns| - 1];
      r
  }

  /** No side is listed twice. */
  ghost predicate DistinctSides(ns: seq<(Ordinal, SectorID)>) {
    forall k, l :: 0 <= k < l < |ns| ==> ns[k].0 != ns[l].0
  }

  /** With distinct sides, the sector listed for a side is the one paired with it. */
  lemma {:induction false} ListedNeighbourMeaning(ns: seq<(Ordinal, SectorID)>, side: Ordinal)
    requires DistinctSides(ns)
    ensures forall n :: ListedNeighbour(ns, side) == Some(n) <==> (side, n) in ns
  {
    if ns != [] {
      var init := ns[..|ns| - 1];
      assert ns == init + [ns[|ns| - 1]];
      ListedNeighbourMeaning(init, side);
      if ns[|ns| - 1].0 == side {
        forall n | (side, n) in ns ensures n == ns[|ns| - 1].1 {
          var k :| 0 <= k < |ns| && ns[k] == (side, n);
        }
      }
    }
  }

  /** For a sector of the map, the sector listed for a side is the one across it. */
  lemma ListedNeighbourIsAcross(dims: MapDimensions, id: SectorID, side: Ordinal)
    requires dims.sectorResolution > 0 && dims.Columns() > 0 && dims.Rows() > 0 && InGrid(dims, id)
    ensures ListedNeighbour(OrdinalAndIdsOfNeighbouringSectors(dims, id), side) == NeighbourAcross(dims, id, side)
  {
    var ns := OrdinalAndIdsOfNeighbouringSectors(dims, id);
    NeighbouringSectorsMeaning(dims, id);
    forall k, l | 0 <= k < l < |ns| ensures ns[k].0 != ns[l].0 {
      assert OrthogonalRank(ns[k].0) < OrthogonalRank(ns[l].0);
    }
    ListedNeighbourMeaning(ns, side);
    var listed := ListedNeighbour(ns, side);
    if listed.Some? {
      var k :| 0 <= k < |ns| && ns[k] == (side, listed.value);
    } else if NeighbourAcross(dims, id, side).Some? {
      assert (side, NeighbourAcross(dims, id, side).value) in ns;
    }
  }

  /** Every sector of the neighbour list has a cost field. */
  predicate NeighboursHaveFields(fields: map<SectorID, CostField>, ns: seq<(Ordinal, SectorID)>) {
    forall k :: 0 <= k < |ns| ==> ns[k].1 in fields
  }

  /** The portals of `side` after the scan: none without a listed neighbour. */
  function SideAfter(fields: map<SectorID, CostField>, id: SectorID, ns: seq<(Ordinal, SectorID)>, side: Ordinal): seq<FieldCell>
    requires id in fields && NeighboursHaveFields(fields, ns) && IsOrthogonal(side)
  {
    match ListedNeighbour(ns, side)
    case None => []
    case Some(n) => SidePortals(fields[id], fields[n], side)
  }

  /**
   * The portals `recalculate_portals` leaves for sector `id`, whatever the
   * portals were before; `None` where the source panics because the sector
   * or a listed neighbour has no cost field.
   */
  function RecalculatedPortals(fields: map<SectorID, CostField>, dims: MapDimensions, id: SectorID): Option<Portals>
    requires dims.sectorResolution > 0 && dims.Columns() > 0 && dims.Rows() > 0
  {
    var ns := OrdinalAndIdsOfNeighbouringSectors(dims, id);
    if id in fields && NeighboursHaveFields(fields, ns) then
      Some(Portals(SideAfter(fields, id, ns, North), SideAfter(fields, id, ns, East),
                   SideAfter(fields, id, ns, South), SideAfter(fields, id, ns, West)))
    else None
  }

  /**
   * `recalculate_portals`: clears the portals, then scans each side listed
   * by `get_ordinal_and_ids_of_neighbouring_sectors` against the cost field
   * of the sector across it.
   */
  method RecalculatePortals(portals: Portals, fields: map<SectorID, CostField>, dims: MapDimensions, id: SectorID)
    returns (r: Option<Portals>)
    requires dims.sectorResolution > 0 && dims.Columns() > 0 && dims.Rows() > 0
    ensures r == RecalculatedPortals(fields, dims, id)
  {
    var p := Clear(portals);
    var ns := OrdinalAndIdsOfNeighbouringSectors(dims, id);
    if id !in fields {
      return None;
    }
    var costField := fields[id];
    for k := 0 to |ns|
      invariant NeighboursHaveFields(fields, ns[..k])
      invariant SidesAfter(p, fields, id, ns[..k])
    {
      var (ord, adjoiningId) := ns[k];
      if adjoiningId !in fields {
        return None;
      }
      var sidePortals := ScanSide(costField, fields[adjoiningId], ord);
      assert ns[..k + 1] == ns[..k] + [(ord, adjoiningId)];
      SidesAfterStep(p, fields, id, ns[..k], ord, adjoiningId, sidePortals);
      p := WithSide(p, ord, sidePortals).value;
    }
    assert ns[..|ns|] == ns;
    PortalsBySides(p, RecalculatedPortals(fields, dims, id).value);
    return Some(p);
  }

  /** The sides of `p` are those the scan of `ns` leaves. */
  ghost predicate SidesAfter(p: Portals, fields: map<SectorID, CostField>, id: SectorID, ns: seq<(Ordinal, SectorID)>)
    requires id in fields && NeighboursHaveFields(fields, ns)
  {
    forall side :: IsOrthogonal(side) ==> PortalsForSide(p, side) == Some(SideAfter(fields, id, ns, side))
  }

  lemma SidesAfterStep(p: Portals, fields: map<SectorID, CostField>, id: SectorID, ns: seq<(Ordinal, SectorID)>,
                       ord: Ordinal, n: SectorID, cells: seq<FieldCell>)
    requires id in fields && NeighboursHaveFields(fields, ns) && SidesAfter(p, fields, id, ns)
    requires n in fields && IsOrthogonal(ord) && cells == SidePortals(fields[id], fields[n], ord)
    ensures NeighboursHaveFields(fields, ns + [(ord, n)])
    ensures SidesAfter(WithSide(p, ord, cells).value, fields, id, ns + [(ord, n)])
  {
    var ns' := ns + [(ord, n)];
    assert ns'[..|ns'| - 1] == ns;
  }

  /**
   * For a sector of the map, recalculation gives each side that faces
   * another sector the portals of that boundary and every other side none.
   */
  lemma RecalculatedSides(fields: map<SectorID, CostField>, dims: MapDimensions, id: SectorID, side: Ordinal)
    requires dims.sectorResolution > 0 && dims.Columns() > 0 && dims.Rows() > 0 && InGrid(dims, id)
    requires RecalculatedPortals(fields, dims, id).Some? && IsOrthogonal(side)
    ensures var p := RecalculatedPortals(fields, dims, id).value;
      match NeighbourAcross(dims, id, side)
      case None => PortalsForSide(p, side) == Some([])
      case Some(n) => id in fields && n in fields && PortalsForSide(p, side) == Some(SidePortals(fields[id], fields[n], side))
  {
    ListedNeighbourIsAcross(dims, id, side);
  }

  /** For a sector of the map, recalculation succeeds exactly when the sector and every sector next to it have cost fields. */
  lemma RecalculationSucceeds(fields: map<SectorID, CostField>, dims: MapDimensions, id: SectorID)
    requires dims.sectorResolution > 0 && dims.Columns() > 0 && dims.Rows() > 0 && InGrid(dims, id)
    ensures RecalculatedPortals(fields, dims, id).Some? <==>
      id in fields && forall side :: NeighbourAcross(dims, id, side).Some? ==> NeighbourAcross(dims, id, side).value in fields
  {
    NeighbouringSectorsMeaning(dims, id);
  }

  // ---------------------------------------------------------------------
  // Examples of the source's tests

  /** `n` open positions. */
  function AllOpen(n: nat): (open: seq<bool>)
    ensures |open| == n && forall i :: 0 <= i < n ==> open[i]
  {
    seq(n, _ => true)
  }

  /** One more open position extends the last run when that run reaches it, and starts a new run otherwise. */
  lemma RunsSnocOpen(s: seq<bool>)
    ensures var r := Runs(s);
      Runs(s + [true]) == if r != [] && r[|r| - 1].end == |s| then r[..|r| - 1] + [Run(r[|r| - 1].start, |s| + 1)]
                          else r + [Run(|s|, |s| + 1)]
  {
    assert (s + [true])[..|s|] == s;
  }

  /** An open position right after a run extends it. */
  lemma ExtendRun(t: seq<bool>, before: seq<Run>, a: nat)
    requires Runs(t) == before + [Run(a, |t|)]
    ensures Runs(t + [true]) == before + [Run(a, |t| + 1)]
  {
    RunsSnocOpen(t);
    var r := Runs(t);
    assert r[..|r| - 1] == before;
  }

  /** An open position after a closed one, or at the start, begins a new run. */
  lemma StartRun(t: seq<bool>)
    requires t == [] || !t[|t| - 1]
    ensures Runs(t + [true]) == Runs(t) + [Run(|t|, |t| + 1)]
  {
    RunsSnocOpen(t);
    if t != [] {
      assert Runs(t) == Runs(t[..|t| - 1]);
    }
  }

  /** Open positions after a closed one (or from the start) form one new run. */
  lemma {:induction false} RunsOpenTail(prefix: seq<bool>, s: seq<bool>)
    requires prefix == [] || !prefix[|prefix| - 1]
    requires |prefix| <= |s| && s[..|prefix|] == prefix && forall i :: |prefix| <= i < |s| ==> s[i]
    ensures Runs(s) == Runs(prefix) + (if |s| == |prefix| then [] else [Run(|prefix|, |s|)])
    decreases |s|
  {
    if |s| == |prefix| {
      assert s == prefix;
    } else {
      var t := s[..|s| - 1];
      assert s == t + [true];
      assert t[..|prefix|] == prefix;
      RunsOpenTail(prefix, t);
      if |t| == |prefix| {
        assert t == prefix;
        StartRun(prefix);
      } else {
        ExtendRun(t, Runs(prefix), |prefix|);
      }
    }
  }

  /** With no walls, every side facing another sector has one portal, in its middle. */
  lemma DefaultSidesHaveOnePortal(side: Ordinal)
    requires IsOrthogonal(side)
    ensures SidePortals(DefaultCostField(), DefaultCostField(), side) == [BoundaryCell(side, 4)]
  {
    OpenFieldsOpenings(DefaultCostField(), DefaultCostField(), side);
    RunsAllOpen(FIELD_RESOLUTION);
    assert Midpoint(Run(0, FIELD_RESOLUTION)) == 4;
  }

  /** Fields without walls leave every position open. */
  lemma OpenFieldsOpenings(here: CostField, there: CostField, side: Ordinal)
    requires IsOrthogonal(side) && forall cell :: GetCost(here, cell) != 255 && GetCost(there, cell) != 255
    ensures Openings(here, there, side) == AllOpen(FIELD_RESOLUTION)
  {
  }

  /** Open positions throughout form one run. */
  lemma RunsAllOpen(n: nat)
    ensures Runs(AllOpen(n)) == if n == 0 then [] else [Run(0, n)]
  {
    RunsOpenTail([], AllOpen(n));
  }

  /**
   * The rebuilding example of a 3 x 3 map: a wall at (4, 9) of sector (0, 0)
   * splits the boundary with (0, 1) into two runs, and both sectors then
   * see portals at positions 1 and 7 of it.
   */
  lemma RebuildingExample(fields: map<SectorID, CostField>)
    requires forall id :: InGrid(MapDimensions(30, 30, 10, 1), id) ==> id in fields
    requires SectorID(0, 0) in fields && SectorID(0, 1) in fields
    requires fields[SectorID(0, 0)] == SetCost(DefaultCostField(), 255, FieldCell(4, 9))
    requires fields[SectorID(0, 1)] == DefaultCostField()
    ensures var dims := MapDimensions(30, 30, 10, 1);
      RecalculatedPortals(fields, dims, SectorID(0, 0)).Some? &&
      RecalculatedPortals(fields, dims, SectorID(0, 0)).value.south == [FieldCell(1, 9), FieldCell(7, 9)] &&
      RecalculatedPortals(fields, dims, SectorID(0, 1)).Some? &&
      RecalculatedPortals(fields, dims, SectorID(0, 1)).value.north == [FieldCell(1, 0), FieldCell(7, 0)]
  {
    var dims := MapDimensions(30, 30, 10, 1);
    WallSplitsBoundary(fields[SectorID(0, 0)], fields[SectorID(0, 1)]);
    assert NeighbourAcross(dims, SectorID(0, 0), South) == Some(SectorID(0, 1));
    assert NeighbourAcross(dims, SectorID(0, 1), North) == Some(SectorID(0, 0));
    RecalculatedFacing(fields, dims, SectorID(0, 0), South, SectorID(0, 1));
    RecalculatedFacing(fields, dims, SectorID(0, 1), North, SectorID(0, 0));
  }

  /** Where every sector has a cost field, recalculation succeeds and gives a side facing `n` the portals of that boundary. */
  lemma RecalculatedFacing(fields: map<SectorID, CostField>, dims: MapDimensions, id: SectorID, side: Ordinal, n: SectorID)
    requires dims.sectorResolution > 0 && dims.Columns() > 0 && dims.Rows() > 0 && InGrid(dims, id)
    requires forall s :: InGrid(dims, s) ==> s in fields
    requires NeighbourAcross(dims, id, side) == Some(n)
    ensures RecalculatedPortals(fields, dims, id).Some? && id in fields && n in fields
    ensures PortalsForSide(RecalculatedPortals(fields, dims, id).value, side) == Some(SidePortals(fields[id], fields[n], side))
  {
    RecalculationSucceeds(fields, dims, id);
    RecalculatedSides(fields, dims, id, side);
  }

  /** A wall at position 4 of the south side of `first` gives two portals on that boundary, seen alike from both sides. */
  lemma WallSplitsBoundary(first: CostField, second: CostField)
    requires first == SetCost(DefaultCostField(), 255, FieldCell(4, 9)) && second == DefaultCostField()
    ensures SidePortals(first, second, South) == [FieldCell(1, 9), FieldCell(7, 9)]
    ensures SidePortals(second, first, North) == [FieldCell(1, 0), FieldCell(7, 0)]
  {
    WallOpenings(first, second);
    OpeningsSymmetric(first, second, South);
    RunsOfSplit();
    SplitPortals();
  }

  lemma WallOpenings(first: CostField, second: CostField)
    requires first == SetCost(DefaultCostField(), 255, FieldCell(4, 9)) && second == DefaultCostField()
    ensures Openings(first, second, South) == (AllOpen(4) + [false]) + AllOpen(5)
  {
    var split := (AllOpen(4) + [false]) + AllOpen(5);
    forall i: Coord ensures Openings(first, second, South)[i] == split[i] {
      assert BoundaryCell(South, i) == FieldCell(i, 9);
    }
  }

  lemma SplitPortals()
    ensures PortalCells(South, [Run(0, 4), Run(5, 10)]) == [FieldCell(1, 9), FieldCell(7, 9)]
    ensures PortalCells(North, [Run(0, 4), Run(5, 10)]) == [FieldCell(1, 0), FieldCell(7, 0)]
  {
    assert Midpoint(Run(0, 4)) == 1 && Midpoint(Run(5, 10)) == 7;
  }

  lemma RunsOfSplit()
    ensures Runs((AllOpen(4) + [false]) + AllOpen(5)) == [Run(0, 4), Run(5, 10)]
  {
    RunsAllOpen(4);
    assert (AllOpen(4) + [false])[..4] == AllOpen(4);
    RunsOpenTail(AllOpen(4) + [false], (AllOpen(4) + [false]) + AllOpen(5));
  }

  // ---------------------------------------------------------------------
  // Expanding a portal into goals

  /** The sides of its sector a cell lies on, in North, East, South, West order; a corner lies on two. */
  function BoundaryOrdinals(cell: FieldCell): (r: seq<Ordinal>)
    ensures forall k :: 0 <= k < |r| ==> IsOrthogonal(r[k]) && OnSide(r[k], cell)
    ensures forall side :: OnSide(side, cell) ==> side in r
    ensures forall k, l :: 0 <= k < l < |r| ==> r[k] != r[l]
  {
    (if cell.row == 0 then [North] else [])
    + (if cell.column == FIELD_RESOLUTION - 1 then [East] else [])
    + (if cell.row == FIELD_RESOLUTION - 1 then [South] else [])
    + (if cell.column == 0 then [West] else [])
  }

  /** The side that the first entry of `ns` listing `neighbour` pairs it with. */
  function FirstSideOf(ns: seq<(Ordinal, SectorID)>, neighbour: SectorID): (r: Option<Ordinal>)
    ensures r.Some? ==> (r.value, neighbour) in ns
    ensures r.None? ==> forall k :: 0 <= k < |ns| ==> ns[k].1 != neighbour
  {
    if ns == [] then None
    else if ns[0].1 == neighbour then Some(ns[0].0)
    else
      var r := FirstSideOf(ns[1..], neighbour);
      assert r.Some? ==> (r.value, neighbour) in ns[1..];
      r
  }

  /** `retain`: the entries of `os` equal to `o`. */
  function Retain(os: seq<Ordinal>, o: Ordinal): (r: seq<Ordinal>)
    ensures forall k :: 0 <= k < |r| ==> r[k] == o
    ensures |r| > 0 <==> o in os
  {
    if os == [] then [] else (if os[0] == o then [o] else []) + Retain(os[1..], o)
  }

  /**
   * The side `expand_portal_into_goals` walks: the side of the portal or, for
   * a corner, the side that the neighbour list pairs with `neighbour`.
   * `None` where the source panics: a cell off the boundary, a corner whose
   * neighbour is not listed, or a listed side the corner does not lie on.
   */
  function ExpansionSide(dims: MapDimensions, id: SectorID, portal: FieldCell, neighbour: SectorID): (r: Option<Ordinal>)
    requires dims.sectorResolution > 0 && dims.Columns() > 0 && dims.Rows() > 0
    ensures r.Some? ==> IsOrthogonal(r.value) && OnSide(r.value, portal)
  {
    var bs := BoundaryOrdinals(portal);
    var chosen :=
      if |bs| > 1 then
        match FirstSideOf(OrdinalAndIdsOfNeighbouringSectors(dims, id), neighbour)
        case None => bs
        case Some(o) => Retain(bs, o)
      else bs;
    if |chosen| == 1 then Some(chosen[0]) else None
  }

  /** The open positions met walking down from `p`, nearest first, up to the first closed one. */
  function Backward(open: seq<bool>, p: nat): (idx: seq<nat>)
    requires p <= |open|
    ensures forall k :: 0 <= k < |idx| ==> idx[k] < p
  {
    if p == 0 || !open[p - 1] then [] else [p - 1] + Backward(open, p - 1)
  }

  /** The open positions met walking up from `p`, nearest first, up to the first closed one or the end. */
  function Forward(open: seq<bool>, p: nat): (idx: seq<nat>)
    requires p < |open|
    ensures forall k :: 0 <= k < |idx| ==> p < idx[k] < |open|
    decreases |open| - p
  {
    if p + 1 == |open| || !open[p + 1] then [] else [p + 1] + Forward(open, p + 1)
  }

  /**
   * `expand_portal_into_goals`: the portal, then the open positions of its
   * boundary walking towards position 0, then those walking towards
   * position 9, each walk stopping at the first position closed on either
   * side; `None` where the source panics.
   */
  function ExpandedGoals(fields: map<SectorID, CostField>, dims: MapDimensions, id: SectorID, portal: FieldCell,
                         neighbour: SectorID): Option<seq<FieldCell>>
    requires dims.sectorResolution > 0 && dims.Columns() > 0 && dims.Rows() > 0
  {
    match ExpansionSide(dims, id, portal, neighbour)
    case None => None
    case Some(side) =>
      if id in fields && neighbour in fields then
        var open := Openings(fields[id], fields[neighbour], side);
        var p := Along(side, portal);
        Some([portal] + Cells(side, Backward(open, p)) + Cells(side, Forward(open, p)))
      else None
  }

  method ExpandPortalIntoGoals(fields: map<SectorID, CostField>, dims: MapDimensions, id: SectorID, portal: FieldCell,
                               neighbour: SectorID) returns (goals: Option<seq<FieldCell>>)
    requires dims.sectorResolution > 0 && dims.Columns() > 0 && dims.Rows() > 0
    ensures goals == ExpandedGoals(fields, dims, id, portal, neighbour)
  {
    var boundary := BoundaryToWalk(dims, id, portal, neighbour);
    if boundary.None? {
      return None;
    }
    var side := boundary.value;
    var out := [portal];
    if id !in fields || neighbour !in fields {
      return None;
    }
    var here, there := fields[id], fields[neighbour];
    var p := Along(side, portal);
    out := WalkBackward(here, there, side, p, out);
    out := WalkForward(here, there, side, p, out);
    return Some(out);
  }

  /** The first part of `expand_portal_into_goals`: the boundary ordinals of the portal, narrowed for a corner. */
  method BoundaryToWalk(dims: MapDimensions, id: SectorID, portal: FieldCell, neighbour: SectorID) returns (side: Option<Ordinal>)
    requires dims.sectorResolution > 0 && dims.Columns() > 0 && dims.Rows() > 0
    ensures side == ExpansionSide(dims, id, portal, neighbour)
  {
    var boundaryOrdinals := BoundaryOrdinals(portal);
    if |boundaryOrdinals| > 1 {
      var valid := OrdinalAndIdsOfNeighbouringSectors(dims, id);
      var k := 0;
      while k < |valid|
        invariant 0 <= k <= |valid|
        invariant boundaryOrdinals == BoundaryOrdinals(portal)
        invariant FirstSideOf(valid, neighbour) == FirstSideOf(valid[k..], neighbour)
      {
        if valid[k].1 == neighbour {
          boundaryOrdinals := Retain(boundaryOrdinals, valid[k].0);
          break;
        }
        assert valid[k..][1..] == valid[k + 1..];
        k := k + 1;
      }
      if |boundaryOrdinals| > 1 {
        return None;
      }
    }
    if |boundaryOrdinals| == 0 {
      return None;
    }
    return Some(boundaryOrdinals[0]);
  }

  /** The walk towards position 0, appending each open position to `goals`. */
  method WalkBackward(here: CostField, there: CostField, side: Ordinal, p: Coord, goals: seq<FieldCell>)
    returns (out: seq<FieldCell>)
    requires IsOrthogonal(side)
    ensures out == goals + Cells(side, Backward(Openings(here, there, side), p))
  {
    ghost var open := Openings(here, there, side);
    InverseIsInvolution(side);
    out := goals;
    var step := 1;
    while step <= p
      invariant 1 <= step <= p + 1
      invariant out + Cells(side, Backward(open, p + 1 - step)) == goals + Cells(side, Backward(open, p))
    {
      var i := p - step;
      if GetCost(here, BoundaryCell(side, i)) != 255 && GetCost(there, BoundaryCell(Inverse(side), i)) != 255 {
        assert open[i];
        assert Backward(open, i + 1) == [i] + Backward(open, i);
        CellsCons(side, i, Backward(open, i));
        out := out + [BoundaryCell(side, i)];
        step := step + 1;
      } else {
        assert !open[i] && Backward(open, i + 1) == [];
        assert out == goals + Cells(side, Backward(open, p));
        break;
      }
    }
  }

  /** The walk towards position 9, appending each open position to `goals`. */
  method WalkForward(here: CostField, there: CostField, side: Ordinal, p: Coord, goals: seq<FieldCell>)
    returns (out: seq<FieldCell>)
    requires IsOrthogonal(side)
    ensures out == goals + Cells(side, Forward(Openings(here, there, side), p))
  {
    ghost var open := Openings(here, there, side);
    InverseIsInvolution(side);
    out := goals;
    var step := 1;
    while p + step < FIELD_RESOLUTION
      invariant 1 <= step && p + step <= FIELD_RESOLUTION
      invariant out + Cells(side, Forward(open, p + step - 1)) == goals + Cells(side, Forward(open, p))
    {
      var i := p + step;
      if GetCost(here, BoundaryCell(side, i)) != 255 && GetCost(there, BoundaryCell(Inverse(side), i)) != 255 {
        assert open[i];
        assert Forward(open, i - 1) == [i] + Forward(open, i);
        CellsCons(side, i, Forward(open, i));
        out := out + [BoundaryCell(side, i)];
        step := step + 1;
      } else {
        assert !open[i] && Forward(open, i - 1) == [];
        assert out == goals + Cells(side, Forward(open, p));
        break;
      }
    }
    assert p + step == FIELD_RESOLUTION ==> Forward(open, p + step - 1) == [];
  }

  lemma CellsCons(side: Ordinal, i: Coord, idx: seq<nat>)
    requires IsOrthogonal(side) && forall k :: 0 <= k < |idx| ==> idx[k] < FIELD_RESOLUTION
    ensures Cells(side, [i] + idx) == [BoundaryCell(side, i)] + Cells(side, idx)
  {
  }

  /** Positions `b - 1` down to `a`. */
  function Descending(a: nat, b: nat): (idx: seq<nat>)
    requires a <= b
    ensures |idx| == b - a && forall k :: 0 <= k < |idx| ==> idx[k] == b - 1 - k
  {
    seq(b - a, k requires 0 <= k < b - a => b - 1 - k)
  }

  /** `RunStartAt` walks back over open positions only, to a closed one or the start. */
  lemma {:induction false} RunStartAtMeaning(open: seq<bool>, i: nat)
    requires i < |open|
    ensures var j := RunStartAt(open, i); (j == 0 || !open[j - 1]) && forall t :: j <= t < i ==> open[t]
    decreases i
  {
    if i > 0 && open[i - 1] {
      RunStartAtMeaning(open, i - 1);
    }
  }

  /** `RunEndAt` walks on over open positions only, to a closed one or the end. */
  lemma {:induction false} RunEndAtMeaning(open: seq<bool>, i: nat)
    requires i < |open|
    ensures var j := RunEndAt(open, i); (j == |open| || !open[j]) && forall t :: i < t < j ==> open[t]
    decreases |open| - i
  {
    if i + 1 < |open| && open[i + 1] {
      RunEndAtMeaning(open, i + 1);
    }
  }

  /** An open position lies in the maximal run that `RunStartAt` and `RunEndAt` delimit. */
  lemma RunAround(open: seq<bool>, p: nat)
    requires p < |open| && open[p]
    ensures MaximalRun(open, Run(RunStartAt(open, p), RunEndAt(open, p)))
  {
    RunStartAtMeaning(open, p);
    RunEndAtMeaning(open, p);
  }

  /** Walking down from a position of a maximal run meets the rest of the run below it, nearest first. */
  lemma {:induction false} BackwardInRun(open: seq<bool>, r: Run, p: nat)
    requires MaximalRun(open, r) && r.start <= p < r.end
    ensures Backward(open, p) == Descending(r.start, p)
    decreases p
  {
    if p > r.start {
      assert open[p - 1];
      BackwardInRun(open, r, p - 1);
      assert Descending(r.start, p) == [p - 1] + Descending(r.start, p - 1);
    }
  }

  /** Walking up from a position of a maximal run meets the rest of the run above it, nearest first. */
  lemma {:induction false} ForwardInRun(open: seq<bool>, r: Run, p: nat)
    requires MaximalRun(open, r) && r.start <= p < r.end
    ensures Forward(open, p) == Positions(Run(p + 1, r.end))
    decreases |open| - p
  {
    if p + 1 < r.end {
      assert open[p + 1];
      ForwardInRun(open, r, p + 1);
      assert Positions(Run(p + 1, r.end)) == [p + 1] + Positions(Run(p + 2, r.end));
    }
  }

  /**
   * Expanding an open portal gives the portal, then the positions of its
   * maximal run below it, nearest first, then those above it: every cell of
   * the run once and nothing else.
   */
  lemma ExpansionCoversRun(fields: map<SectorID, CostField>, dims: MapDimensions, id: SectorID, portal: FieldCell,
                           neighbour: SectorID, side: Ordinal)
    requires dims.sectorResolution > 0 && dims.Columns() > 0 && dims.Rows() > 0
    requires ExpansionSide(dims, id, portal, neighbour) == Some(side) && id in fields && neighbour in fields
    requires Openings(fields[id], fields[neighbour], side)[Along(side, portal)]
    ensures var open, p: nat := Openings(fields[id], fields[neighbour], side), Along(side, portal);
      var r := Run(RunStartAt(open, p), RunEndAt(open, p));
      MaximalRun(open, r) &&
      ExpandedGoals(fields, dims, id, portal, neighbour) == Some(RunGoals(side, portal, r.start, r.end)) &&
      |RunGoals(side, portal, r.start, r.end)| == r.end - r.start &&
      forall c :: c in RunGoals(side, portal, r.start, r.end) <==> OnSide(side, c) && r.start <= Along(side, c) < r.end
  {
    var open, p: nat := Openings(fields[id], fields[neighbour], side), Along(side, portal);
    var r := Run(RunStartAt(open, p), RunEndAt(open, p));
    RunAround(open, p);
    ExpandedGoalsOn(fields, dims, id, portal, neighbour, side);
    WalksInRun(open, side, portal, r);
    RunGoalsMeaning(side, portal, r.start, r.end);
  }

  /** From a position of a maximal run, the two walks together meet the rest of the run. */
  lemma WalksInRun(open: seq<bool>, side: Ordinal, portal: FieldCell, r: Run)
    requires IsOrthogonal(side) && |open| == FIELD_RESOLUTION && MaximalRun(open, r) && r.start <= Along(side, portal) < r.end
    ensures [portal] + Cells(side, Backward(open, Along(side, portal))) + Cells(side, Forward(open, Along(side, portal)))
      == RunGoals(side, portal, r.start, r.end)
  {
    BackwardInRun(open, r, Along(side, portal));
    ForwardInRun(open, r, Along(side, portal));
  }

  /** The goals of a portal at position `p` of the run from `a` to `b`: the portal, the run below it nearest first, the run above it. */
  function RunGoals(side: Ordinal, portal: FieldCell, a: nat, b: nat): seq<FieldCell>
    requires IsOrthogonal(side) && a <= Along(side, portal) < b <= FIELD_RESOLUTION
  {
    var p: nat := Along(side, portal);
    [portal] + Cells(side, Descending(a, p)) + Cells(side, Positions(Run(p + 1, b)))
  }

  /** The goals of a run are its cells, each once. */
  lemma RunGoalsMeaning(side: Ordinal, portal: FieldCell, a: nat, b: nat)
    requires IsOrthogonal(side) && OnSide(side, portal) && a <= Along(side, portal) < b <= FIELD_RESOLUTION
    ensures |RunGoals(side, portal, a, b)| == b - a
    ensures forall c :: c in RunGoals(side, portal, a, b) <==> OnSide(side, c) && a <= Along(side, c) < b
  {
    forall c | OnSide(side, c) && a <= Along(side, c) < b ensures c in RunGoals(side, portal, a, b) {
      RunGoalsHas(side, portal, a, b, c);
    }
  }

  lemma RunGoalsHas(side: Ordinal, portal: FieldCell, a: nat, b: nat, c: FieldCell)
    requires IsOrthogonal(side) && OnSide(side, portal) && a <= Along(side, portal) < b <= FIELD_RESOLUTION
    requires OnSide(side, c) && a <= Along(side, c) < b
    ensures c in RunGoals(side, portal, a, b)
  {
    var p: nat := Along(side, portal);
    var below, above := Cells(side, Descending(a, p)), Cells(side, Positions(Run(p + 1, b)));
    assert RunGoals(side, portal, a, b) == [portal] + below + above;
    var j := Along(side, c);
    OnSideIsBoundaryCell(side, c);
    if j < p {
      assert Descending(a, p)[p - 1 - j] == j;
      assert below[p - 1 - j] == c;
    } else if j > p {
      assert Positions(Run(p + 1, b))[j - p - 1] == j;
      assert above[j - p - 1] == c;
    } else {
      OnSideIsBoundaryCell(side, portal);
    }
  }

  /**
   * A portal that recalculation placed on a side expands into exactly the
   * cells of the run it stands for, given that the walk takes that side.
   */
  lemma PortalExpandsToItsRun(fields: map<SectorID, CostField>, dims: MapDimensions, id: SectorID, neighbour: SectorID,
                              side: Ordinal, k: nat)
    requires dims.sectorResolution > 0 && dims.Columns() > 0 && dims.Rows() > 0
    requires id in fields && neighbour in fields && IsOrthogonal(side)
    requires k < |SidePortals(fields[id], fields[neighbour], side)|
    requires ExpansionSide(dims, id, SidePortals(fields[id], fields[neighbour], side)[k], neighbour) == Some(side)
    ensures var r := Runs(Openings(fields[id], fields[neighbour], side))[k];
      var portal := SidePortals(fields[id], fields[neighbour], side)[k];
      ExpandedGoals(fields, dims, id, portal, neighbour).Some? &&
      forall c :: c in ExpandedGoals(fields, dims, id, portal, neighbour).value <==> OnSide(side, c) && r.start <= Along(side, c) < r.end
  {
    var open := Openings(fields[id], fields[neighbour], side);
    var portal := SidePortals(fields[id], fields[neighbour], side)[k];
    SidePortalsMeaning(fields[id], fields[neighbour], side);
    var r := Runs(open)[k];
    MaximalRunAt(open, r, Along(side, portal));
    ExpansionCoversRun(fields, dims, id, portal, neighbour, side);
  }

  /** A portal off the corners lies on one side, which the walk takes whatever the neighbour. */
  lemma NonCornerSide(dims: MapDimensions, id: SectorID, portal: FieldCell, neighbour: SectorID, side: Ordinal)
    requires dims.sectorResolution > 0 && dims.Columns() > 0 && dims.Rows() > 0
    requires OnSide(side, portal) && 0 < Along(side, portal) < FIELD_RESOLUTION - 1
    ensures ExpansionSide(dims, id, portal, neighbour) == Some(side)
  {
  }

  /** Once the side is known and both fields exist, the goals are the portal and the two walks. */
  lemma ExpandedGoalsOn(fields: map<SectorID, CostField>, dims: MapDimensions, id: SectorID, portal: FieldCell,
                        neighbour: SectorID, side: Ordinal)
    requires dims.sectorResolution > 0 && dims.Columns() > 0 && dims.Rows() > 0
    requires ExpansionSide(dims, id, portal, neighbour) == Some(side) && id in fields && neighbour in fields
    ensures var open := Openings(fields[id], fields[neighbour], side);
      ExpandedGoals(fields, dims, id, portal, neighbour) ==
        Some([portal] + Cells(side, Backward(open, Along(side, portal))) + Cells(side, Forward(open, Along(side, portal))))
  {
  }

  /** The source's test maps: 3 x 3 sectors of 10 x 10 cells. */
  const TEST_DIMENSIONS: MapDimensions := MapDimensions(30, 30, 10, 1)

  /** Expanding the north portal (4, 0) of sector (1, 1) without walls gives the whole north side, walking left and then right. */
  lemma ExpandNorthExample(fields: map<SectorID, CostField>)
    requires SectorID(1, 1) in fields && SectorID(1, 0) in fields
    requires fields[SectorID(1, 1)] == DefaultCostField() && fields[SectorID(1, 0)] == DefaultCostField()
    ensures ExpandedGoals(fields, TEST_DIMENSIONS, SectorID(1, 1), FieldCell(4, 0), SectorID(1, 0)) ==
      Some([FieldCell(4, 0), FieldCell(3, 0), FieldCell(2, 0), FieldCell(1, 0), FieldCell(0, 0),
            FieldCell(5, 0), FieldCell(6, 0), FieldCell(7, 0), FieldCell(8, 0), FieldCell(9, 0)])
  {
    var open := Openings(fields[SectorID(1, 1)], fields[SectorID(1, 0)], North);
    OpenFieldsOpenings(fields[SectorID(1, 1)], fields[SectorID(1, 0)], North);
    assert BoundaryOrdinals(FieldCell(4, 0)) == [North];
    assert ExpansionSide(TEST_DIMENSIONS, SectorID(1, 1), FieldCell(4, 0), SectorID(1, 0)) == Some(North);
    ExpandedGoalsOn(fields, TEST_DIMENSIONS, SectorID(1, 1), FieldCell(4, 0), SectorID(1, 0), North);
    assert Along(North, FieldCell(4, 0)) == 4;
    OpenNorthWalks(open);
  }

  lemma OpenNorthWalks(open: seq<bool>)
    requires open == AllOpen(FIELD_RESOLUTION)
    ensures [FieldCell(4, 0)] + Cells(North, Backward(open, 4)) + Cells(North, Forward(open, 4)) ==
      [FieldCell(4, 0), FieldCell(3, 0), FieldCell(2, 0), FieldCell(1, 0), FieldCell(0, 0),
       FieldCell(5, 0), FieldCell(6, 0), FieldCell(7, 0), FieldCell(8, 0), FieldCell(9, 0)]
  {
    BackwardInRun(open, Run(0, FIELD_RESOLUTION), 4);
    ForwardInRun(open, Run(0, FIELD_RESOLUTION), 4);
    var below, above := Cells(North, Backward(open, 4)), Cells(North, Forward(open, 4));
    assert below == [FieldCell(3, 0), FieldCell(2, 0), FieldCell(1, 0), FieldCell(0, 0)];
    assert above == [FieldCell(5, 0), FieldCell(6, 0), FieldCell(7, 0), FieldCell(8, 0), FieldCell(9, 0)];
  }

  /**
   * A wall at (3, 0) of sector (1, 1), or at (3, 9) of its northern
   * neighbour, cuts the expansion of portal (1, 0) short on its right.
   */
  lemma ExpandShortExample(fields: map<SectorID, CostField>)
    requires SectorID(1, 1) in fields && SectorID(1, 0) in fields
    requires (fields[SectorID(1, 1)] == SetCost(DefaultCostField(), 255, FieldCell(3, 0)) && fields[SectorID(1, 0)] == DefaultCostField())
          || (fields[SectorID(1, 1)] == DefaultCostField() && fields[SectorID(1, 0)] == SetCost(DefaultCostField(), 255, FieldCell(3, 9)))
    ensures ExpandedGoals(fields, TEST_DIMENSIONS, SectorID(1, 1), FieldCell(1, 0), SectorID(1, 0)) ==
      Some([FieldCell(1, 0), FieldCell(0, 0), FieldCell(2, 0)])
  {
    var open := Openings(fields[SectorID(1, 1)], fields[SectorID(1, 0)], North);
    ShortOpenings(fields[SectorID(1, 1)], fields[SectorID(1, 0)]);
    ShortWalks(open);
    assert BoundaryOrdinals(FieldCell(1, 0)) == [North];
    assert ExpansionSide(TEST_DIMENSIONS, SectorID(1, 1), FieldCell(1, 0), SectorID(1, 0)) == Some(North);
    ExpandedGoalsOn(fields, TEST_DIMENSIONS, SectorID(1, 1), FieldCell(1, 0), SectorID(1, 0), North);
    assert Along(North, FieldCell(1, 0)) == 1;
  }

  lemma ShortOpenings(here: CostField, there: CostField)
    requires (here == SetCost(DefaultCostField(), 255, FieldCell(3, 0)) && there == DefaultCostField())
          || (here == DefaultCostField() && there == SetCost(DefaultCostField(), 255, FieldCell(3, 9)))
    ensures var open := Openings(here, there, North); open[0] && open[2] && !open[3]
  {
    assert BoundaryCell(North, 0) == FieldCell(0, 0) && BoundaryCell(South, 0) == FieldCell(0, 9);
    assert BoundaryCell(North, 2) == FieldCell(2, 0) && BoundaryCell(South, 2) == FieldCell(2, 9);
    assert BoundaryCell(North, 3) == FieldCell(3, 0) && BoundaryCell(South, 3) == FieldCell(3, 9);
  }

  lemma ShortWalks(open: seq<bool>)
    requires |open| == FIELD_RESOLUTION && open[0] && open[2] && !open[3]
    ensures [FieldCell(1, 0)] + Cells(North, Backward(open, 1)) + Cells(North, Forward(open, 1)) ==
      [FieldCell(1, 0), FieldCell(0, 0), FieldCell(2, 0)]
  {
    assert Backward(open, 1) == [0];
    assert Forward(open, 1) == [2];
    assert Cells(North, [0]) == [FieldCell(0, 0)] && Cells(North, [2]) == [FieldCell(2, 0)];
  }
}
