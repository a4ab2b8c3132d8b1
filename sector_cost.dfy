/**
 * The cost fields of every sector (src/flowfields/sectors/sector_cost.rs):
 * a baseline field per sector as set by the user, and a scaled copy in
 * which gaps too narrow for the actor are closed with 255.
 *
 * Scaling walks from every impassable cell of a sector towards each of the
 * four orthogonal directions, up to `actor_scale` cells, spilling into the
 * neighbouring sectors when the walk leaves the sector. When it meets
 * another 255, or the edge of the world, before the scale runs out, every
 * cell it walked over is marked, and the marked cells become 255 in the
 * scaled fields. The source writes the four walks out one by one; here one
 * walk is written once, parameterised by its direction.
 */
module SectorCost {
  import opened Options
  import opened Geometry
  import opened Grids
  import opened Sectors
  import opened FieldCost

  /** A cell of a sector that the scaling turns impassable. */
  type Mark = (SectorID, FieldCell)

  /** How a walk, or the scaling of a sector, ends: it panics, or it marks these cells. */
  datatype Outcome = Panicked | Marked(marks: seq<Mark>)

  /** How a walk through a neighbouring sector ends: with the outcome of the whole walk, or handing the walked cells back. */
  datatype Step = Finished(outcome: Outcome) | Continue(processed: seq<Mark>)

  /** The cell `i` cells from `cell` towards `dir`, while still inside the sector. */
  function Stepped(cell: FieldCell, dir: Ordinal, i: nat): (r: Option<FieldCell>)
    ensures r.Some? ==> r.value.column == cell.column + i * Offset(dir).0 && r.value.row == cell.row + i * Offset(dir).1
    ensures !IsOrthogonal(dir) ==> r.None?
  {
    match dir
    case North => if cell.row >= i then Some(FieldCell(cell.column, cell.row - i)) else None
    case East => if cell.column + i < FIELD_RESOLUTION then Some(FieldCell(cell.column + i, cell.row)) else None
    case South => if cell.row + i < FIELD_RESOLUTION then Some(FieldCell(cell.column, cell.row + i)) else None
    case West => if cell.column >= i then Some(FieldCell(cell.column - i, cell.row)) else None
    case _ => None
  }

  /**
   * The cell `x` cells into a neighbouring sector that is entered towards
   * `dir`, in the line of `cell`: counted from row 9 going north, column 0
   * going east, row 0 going south and column 9 going west.
   */
  function Entering(cell: FieldCell, dir: Ordinal, x: nat): Option<FieldCell> {
    if x >= FIELD_RESOLUTION then None
    else
      match dir
      case North => Some(FieldCell(cell.column, 9 - x))
      case East => Some(FieldCell(x, cell.row))
      case South => Some(FieldCell(cell.column, x))
      case West => Some(FieldCell(9 - x, cell.row))
      case _ => None
  }

  /**
   * The sector `factor` sectors from `id` towards `dir`, the base from which
   * the source asks for the next sector. The source subtracts unsigned
   * 32-bit values going north and west, so a factor larger than the row or
   * column panics (`None`).
   */
  function ShiftedSector(id: SectorID, dir: Ordinal, factor: nat): Option<SectorID> {
    match dir
    case North => if id.row >= factor then Some(SectorID(id.column, id.row - factor)) else None
    case East => Some(SectorID(id.column + factor, id.row))
    case South => Some(SectorID(id.column, id.row + factor))
    case West => if id.column >= factor then Some(SectorID(id.column - factor, id.row)) else None
    case _ => None
  }

  /**
   * The neighbouring sectors a walk leaving `id` towards `dir` may cross,
   * for the factors `0 .. factors - 1`: each existing sector next to the
   * shifted base, in factor order; `None` when a shift panics.
   */
  function NeighbourSectors(dims: MapDimensions, dir: Ordinal, id: SectorID, factors: nat): Option<seq<SectorID>>
    requires dims.sectorResolution > 0
  {
    if factors == 0 then Some([])
    else
      match NeighbourSectors(dims, dir, id, factors - 1)
      case None => None
      case Some(ns) =>
        match ShiftedSector(id, dir, factors - 1)
        case None => None
        case Some(base) =>
          match SectorIdFromOrdinal(dims, dir, base)
          case Some(n) => Some(ns + [n])
          case None => Some(ns)
  }

  /** The number of factors the source tries: `0 ..= actor_scale / 10`. */
  function FactorCount(dims: MapDimensions): nat {
    dims.actorScale / FIELD_RESOLUTION + 1
  }

  /**
   * The walk from `cell` of sector `s` towards `dir`, from its `i`-th cell
   * on, having walked over `processed` so far.
   */
  function WalkFrom(base: map<SectorID, CostField>, dims: MapDimensions, s: SectorID, cell: FieldCell, dir: Ordinal,
                    i: nat, processed: seq<Mark>): Outcome
    requires dims.sectorResolution > 0 && s in base
    decreases dims.actorScale + 1 - i
  {
    if i > dims.actorScale then Marked([])
    else
      match Stepped(cell, dir, i)
      case Some(next) =>
        var walked := processed + [(s, next)];
        if GetCost(base[s], next) == 255 then Marked(walked)
        else WalkFrom(base, dims, s, cell, dir, i + 1, walked)
      case None =>
        match NeighbourSectors(dims, dir, s, FactorCount(dims))
        case None => Panicked
        case Some(ns) =>
          if ns == [] then Marked(processed)
          else
            match CrossNeighbours(base, dims, cell, dir, i, ns, 0, processed)
            case Finished(outcome) => outcome
            case Continue(walked) => WalkFrom(base, dims, s, cell, dir, i + 1, walked)
  }

  /** The walk through the neighbouring sectors `ns`, from the `count`-th on. */
  function CrossNeighbours(base: map<SectorID, CostField>, dims: MapDimensions, cell: FieldCell, dir: Ordinal,
                           i: nat, ns: seq<SectorID>, count: nat, processed: seq<Mark>): Step
    requires count <= |ns|
    decreases |ns| - count
  {
    if count == |ns| then Continue(processed)
    else if dims.actorScale - i - count * FIELD_RESOLUTION < 0 then Finished(Panicked)
    else
      match CrossSector(base, cell, dir, ns[count], 0, dims.actorScale - i - count * FIELD_RESOLUTION, count + 1 == |ns|, processed)
      case Finished(outcome) => Finished(outcome)
      case Continue(walked) => CrossNeighbours(base, dims, cell, dir, i, ns, count + 1, walked)
  }

  /** The walk through one neighbouring sector `n`, over its cells `x ..= end`. */
  function CrossSector(base: map<SectorID, CostField>, cell: FieldCell, dir: Ordinal, n: SectorID,
                       x: nat, end: nat, last: bool, processed: seq<Mark>): Step
    decreases end + 1 - x
  {
    if x > end then Continue(processed)
    else
      match Entering(cell, dir, x)
      case Some(next) =>
        var walked := processed + [(n, next)];
        if n !in base then Finished(Panicked)
        else if GetCost(base[n], next) == 255 then Finished(Marked(walked))
        else CrossSector(base, cell, dir, n, x + 1, end, last, walked)
      case None =>
        if last then Finished(Marked(processed)) else Continue(processed)
  }

  /** The complete walk from `cell` of sector `s` towards `dir`. */
  function Walk(base: map<SectorID, CostField>, dims: MapDimensions, s: SectorID, cell: FieldCell, dir: Ordinal): Outcome
    requires dims.sectorResolution > 0 && s in base
  {
    WalkFrom(base, dims, s, cell, dir, 1, [])
  }

  /** Both outcomes in turn: a panic in either panics. */
  function Then(a: Outcome, b: Outcome): Outcome {
    if a.Panicked? || b.Panicked? then Panicked else Marked(a.marks + b.marks)
  }

  /** The walks from one impassable cell, north, east, south and west. */
  function CellMarks(base: map<SectorID, CostField>, dims: MapDimensions, s: SectorID, cell: FieldCell): Outcome
    requires dims.sectorResolution > 0 && s in base
  {
    Then(Then(Then(Walk(base, dims, s, cell, North), Walk(base, dims, s, cell, East)),
              Walk(base, dims, s, cell, South)), Walk(base, dims, s, cell, West))
  }

  /** The walks from each of `cells` in turn. */
  function MarksOf(base: map<SectorID, CostField>, dims: MapDimensions, s: SectorID, cells: seq<FieldCell>): Outcome
    requires dims.sectorResolution > 0 && s in base
  {
    if cells == [] then Marked([])
    else Then(MarksOf(base, dims, s, cells[..|cells| - 1]), CellMarks(base, dims, s, cells[|cells| - 1]))
  }

  /** The impassable cells stored below position `n`, in storage (column-major) order. */
  function ImpassableUpTo(f: CostField, n: nat): seq<FieldCell>
    requires n <= CELL_COUNT
  {
    if n == 0 then []
    else ImpassableUpTo(f, n - 1) + (if f.costs[n - 1] == 255 then [CellAt(n - 1)] else [])
  }

  /** The impassable cells of a field, column by column. */
  function ImpassableCells(f: CostField): seq<FieldCell> {
    ImpassableUpTo(f, CELL_COUNT)
  }

  /** Everything `scale_costfield` marks for sector `s`. */
  function SectorMarks(base: map<SectorID, CostField>, dims: MapDimensions, s: SectorID): Outcome
    requires dims.sectorResolution > 0 && s in base
  {
    MarksOf(base, dims, s, ImpassableCells(base[s]))
  }

  /** Writing 255 into each marked cell in turn; `None` where the source panics on a sector missing from the fields. */
  function ApplyMarks(fields: map<SectorID, CostField>, marks: seq<Mark>): Option<map<SectorID, CostField>> {
    if marks == [] then Some(fields)
    else
      match ApplyMarks(fields, marks[..|marks| - 1])
      case None => None
      case Some(written) =>
        var (sector, cell) := marks[|marks| - 1];
        if sector in written then Some(written[sector := SetCost(written[sector], 255, cell)]) else None
  }

  /** The scaled fields after `scale_costfield(s)`; `None` where the source panics. */
  function ScaledAfter(base: map<SectorID, CostField>, scaled: map<SectorID, CostField>, dims: MapDimensions, s: SectorID): Option<map<SectorID, CostField>>
    requires dims.sectorResolution > 0 && s in base
  {
    if dims.actorScale == 1 then Some(scaled[s := base[s]])
    else
      match SectorMarks(base, dims, s)
      case Panicked => None
      case Marked(marks) => ApplyMarks(scaled, marks)
  }

  /** `fields` with every cell of `marks` raised to 255: the order-free reading of `ApplyMarks`. */
  function Raised(fields: map<SectorID, CostField>, marks: set<Mark>): (r: map<SectorID, CostField>)
    ensures r.Keys == fields.Keys
    ensures forall k, c :: k in fields ==> GetCost(r[k], c) == if (k, c) in marks then 255 else GetCost(fields[k], c)
  {
    var r := map k | k in fields :: CostField(seq(CELL_COUNT, i requires 0 <= i < CELL_COUNT =>
      if (k, CellAt(i)) in marks then 255 else fields[k].costs[i]));
    assert forall k, c :: k in fields ==> GetCost(r[k], c) == if (k, c) in marks then 255 else GetCost(fields[k], c) by {
      forall k, c | k in fields
        ensures GetCost(r[k], c) == if (k, c) in marks then 255 else GetCost(fields[k], c)
      {
        CellAtIndex(c);
      }
    }
    r
  }

  /** The cells of a list of marks. */
  function MarkSet(marks: seq<Mark>): set<Mark> {
    set i | 0 <= i < |marks| :: marks[i]
  }

  /** Every mark lies in a sector of `keys`. */
  predicate MarksWithin(marks: seq<Mark>, keys: set<SectorID>) {
    forall i :: 0 <= i < |marks| ==> marks[i].0 in keys
  }

  // ---------------------------------------------------------------------
  // The impassable cells and the writing of marks

  lemma {:induction false} ImpassableUpToMeaning(f: CostField, n: nat)
    requires n <= CELL_COUNT
    ensures forall c :: c in ImpassableUpTo(f, n) <==> Index(c) < n && GetCost(f, c) == 255
  {
    if n > 0 {
      ImpassableUpToMeaning(f, n - 1);
      forall c ensures c == CellAt(n - 1) <==> Index(c) == n - 1 {
        CellAtIndex(c);
      }
    }
  }

  /** `scale_costfield` starts from exactly the impassable cells of the sector. */
  lemma ImpassableCellsMeaning(f: CostField)
    ensures forall c :: c in ImpassableCells(f) <==> GetCost(f, c) == 255
  {
    ImpassableUpToMeaning(f, CELL_COUNT);
  }

  lemma {:induction false} SingleWallUpTo(c: FieldCell, n: nat)
    requires n <= CELL_COUNT
    ensures ImpassableUpTo(SetCost(DefaultCostField(), 255, c), n) == if n > Index(c) then [c] else []
  {
    var f := SetCost(DefaultCostField(), 255, c);
    if n > 0 {
      SingleWallUpTo(c, n - 1);
      CellAtIndex(c);
      if n - 1 != Index(c) {
        assert GetCost(f, CellAt(n - 1)) == 1;
      }
    }
  }

  /** A default field with one wall has that wall as its only impassable cell. */
  lemma SingleWall(c: FieldCell)
    ensures ImpassableCells(SetCost(DefaultCostField(), 255, c)) == [c]
  {
    SingleWallUpTo(c, CELL_COUNT);
  }

  /** A default field has no impassable cell, so scaling marks nothing in it. */
  lemma DefaultFieldHasNoWalls()
    ensures ImpassableCells(DefaultCostField()) == []
  {
    DefaultFieldHasNoWallsUpTo(CELL_COUNT);
  }

  lemma {:induction false} DefaultFieldHasNoWallsUpTo(n: nat)
    requires n <= CELL_COUNT
    ensures ImpassableUpTo(DefaultCostField(), n) == []
  {
    if n > 0 {
      DefaultFieldHasNoWallsUpTo(n - 1);
      assert DefaultCostField().costs[n - 1] == 1;
    }
  }

  lemma RaisedNothing(fields: map<SectorID, CostField>)
    ensures Raised(fields, {}) == fields
  {
    forall k | k in fields ensures Raised(fields, {})[k] == fields[k] {
      CostFieldsEqual(Raised(fields, {})[k], fields[k]);
    }
  }

  /** Raising twice raises the union: the order of the writes does not matter. */
  lemma RaisedUnion(fields: map<SectorID, CostField>, a: set<Mark>, b: set<Mark>)
    ensures Raised(Raised(fields, a), b) == Raised(fields, a + b)
  {
    forall k | k in fields ensures Raised(Raised(fields, a), b)[k] == Raised(fields, a + b)[k] {
      CostFieldsEqual(Raised(Raised(fields, a), b)[k], Raised(fields, a + b)[k]);
    }
  }

  lemma MarkSetSnoc(marks: seq<Mark>, m: Mark)
    ensures MarkSet(marks + [m]) == MarkSet(marks) + {m}
  {
    var all := marks + [m];
    forall x ensures x in MarkSet(all) <==> x in MarkSet(marks) + {m} {
      if x in MarkSet(all) {
        var i :| 0 <= i < |all| && all[i] == x;
        if i < |marks| { assert marks[i] == x; }
      }
      if x in MarkSet(marks) {
        var i :| 0 <= i < |marks| && marks[i] == x;
        assert all[i] == x;
      }
      if x == m {
        assert all[|marks|] == m;
      }
    }
  }

  lemma MarksWithinSnoc(marks: seq<Mark>, m: Mark, keys: set<SectorID>)
    ensures MarksWithin(marks + [m], keys) <==> MarksWithin(marks, keys) && m.0 in keys
  {
    var all := marks + [m];
    if MarksWithin(all, keys) {
      forall i | 0 <= i < |marks| ensures marks[i].0 in keys {
        assert marks[i] == all[i];
      }
      assert all[|marks|] == m;
    }
  }

  lemma RaisedOneMore(fields: map<SectorID, CostField>, marks: set<Mark>, sector: SectorID, cell: FieldCell)
    requires sector in fields
    ensures var written := Raised(fields, marks);
      written[sector := SetCost(written[sector], 255, cell)] == Raised(fields, marks + {(sector, cell)})
  {
    var written := Raised(fields, marks);
    var after := written[sector := SetCost(written[sector], 255, cell)];
    forall k | k in fields ensures after[k] == Raised(fields, marks + {(sector, cell)})[k] {
      CostFieldsEqual(after[k], Raised(fields, marks + {(sector, cell)})[k]);
    }
  }

  /**
   * Writing the marks one by one succeeds exactly when every marked sector
   * is among the fields, and then raises exactly the marked cells to 255.
   */
  lemma {:induction false} ApplyMarksRaises(fields: map<SectorID, CostField>, marks: seq<Mark>)
    ensures ApplyMarks(fields, marks) == if MarksWithin(marks, fields.Keys) then Some(Raised(fields, MarkSet(marks))) else None
  {
    if marks == [] {
      RaisedNothing(fields);
      assert MarkSet(marks) == {};
    } else {
      var init := marks[..|marks| - 1];
      var last := marks[|marks| - 1];
      assert marks == init + [last];
      ApplyMarksRaises(fields, init);
      MarkSetSnoc(init, last);
      MarksWithinSnoc(init, last, fields.Keys);
      if MarksWithin(init, fields.Keys) && last.0 in fields {
        RaisedOneMore(fields, MarkSet(init), last.0, last.1);
      }
    }
  }

  /**
   * With an actor scale other than 1, scaling a sector only ever writes 255:
   * every cell of every field keeps its value or becomes impassable, and no
   * field is added or removed.
   */
  lemma ScalingOnlyCloses(base: map<SectorID, CostField>, scaled: map<SectorID, CostField>, dims: MapDimensions, s: SectorID)
    requires dims.sectorResolution > 0 && s in base && dims.actorScale != 1
    requires ScaledAfter(base, scaled, dims, s).Some?
    ensures ScaledAfter(base, scaled, dims, s).value.Keys == scaled.Keys
    ensures forall k, c :: k in scaled ==>
      var v := GetCost(ScaledAfter(base, scaled, dims, s).value[k], c);
      v == GetCost(scaled[k], c) || v == 255
    ensures forall k, c :: k in scaled ==> GetCost(ScaledAfter(base, scaled, dims, s).value[k], c) >= GetCost(scaled[k], c)
  {
    ApplyMarksRaises(scaled, SectorMarks(base, dims, s).marks);
  }

  // ---------------------------------------------------------------------
  // What one walk marks

  /** The first `n` cells from `cell` towards `dir` inside sector `s`, nearest first. */
  function RayMarks(s: SectorID, cell: FieldCell, dir: Ordinal, n: nat): (r: seq<Mark>)
    requires forall j :: 1 <= j <= n ==> Stepped(cell, dir, j).Some?
    ensures |r| == n && forall j :: 0 <= j < n ==> r[j] == (s, Stepped(cell, dir, j + 1).value)
  {
    if n == 0 then [] else RayMarks(s, cell, dir, n - 1) + [(s, Stepped(cell, dir, n).value)]
  }

  lemma {:induction false} WalkFromClosesGap(base: map<SectorID, CostField>, dims: MapDimensions, s: SectorID, cell: FieldCell,
                                             dir: Ordinal, k: nat, i: nat)
    requires dims.sectorResolution > 0 && s in base
    requires 1 <= i <= k <= dims.actorScale
    requires forall j :: 1 <= j <= k ==> Stepped(cell, dir, j).Some?
    requires forall j :: 1 <= j < k ==> GetCost(base[s], Stepped(cell, dir, j).value) != 255
    requires GetCost(base[s], Stepped(cell, dir, k).value) == 255
    ensures WalkFrom(base, dims, s, cell, dir, i, RayMarks(s, cell, dir, i - 1)) == Marked(RayMarks(s, cell, dir, k))
    decreases k - i
  {
    if i < k {
      WalkFromClosesGap(base, dims, s, cell, dir, k, i + 1);
    }
  }

  /**
   * A gap closes: when the `k`-th cell from `cell` towards `dir` is the
   * first impassable one, inside the sector and within the actor scale, the
   * walk marks exactly the cells up to and including it.
   */
  lemma WalkClosesGap(base: map<SectorID, CostField>, dims: MapDimensions, s: SectorID, cell: FieldCell, dir: Ordinal, k: nat)
    requires dims.sectorResolution > 0 && s in base
    requires 1 <= k <= dims.actorScale
    requires forall j :: 1 <= j <= k ==> Stepped(cell, dir, j).Some?
    requires forall j :: 1 <= j < k ==> GetCost(base[s], Stepped(cell, dir, j).value) != 255
    requires GetCost(base[s], Stepped(cell, dir, k).value) == 255
    ensures Walk(base, dims, s, cell, dir) == Marked(RayMarks(s, cell, dir, k))
    ensures forall j :: 1 <= j <= k ==> (s, Stepped(cell, dir, j).value) in Walk(base, dims, s, cell, dir).marks
  {
    WalkFromClosesGap(base, dims, s, cell, dir, k, 1);
    forall j | 1 <= j <= k ensures (s, Stepped(cell, dir, j).value) in RayMarks(s, cell, dir, k) {
      assert RayMarks(s, cell, dir, k)[j - 1] == (s, Stepped(cell, dir, j).value);
    }
  }

  lemma {:induction false} WalkFromClearRay(base: map<SectorID, CostField>, dims: MapDimensions, s: SectorID, cell: FieldCell,
                                            dir: Ordinal, i: nat, processed: seq<Mark>)
    requires dims.sectorResolution > 0 && s in base
    requires forall j :: i <= j <= dims.actorScale ==>
      Stepped(cell, dir, j).Some? && GetCost(base[s], Stepped(cell, dir, j).value) != 255
    ensures WalkFrom(base, dims, s, cell, dir, i, processed) == Marked([])
    decreases dims.actorScale + 1 - i
  {
    if i <= dims.actorScale {
      WalkFromClearRay(base, dims, s, cell, dir, i + 1, processed + [(s, Stepped(cell, dir, i).value)]);
    }
  }

  /**
   * A wide gap stays open: when the `actor_scale` cells from `cell` towards
   * `dir` lie inside the sector and none is impassable, the walk marks nothing.
   */
  lemma WalkThroughClearRay(base: map<SectorID, CostField>, dims: MapDimensions, s: SectorID, cell: FieldCell, dir: Ordinal)
    requires dims.sectorResolution > 0 && s in base
    requires forall j :: 1 <= j <= dims.actorScale ==>
      Stepped(cell, dir, j).Some? && GetCost(base[s], Stepped(cell, dir, j).value) != 255
    ensures Walk(base, dims, s, cell, dir) == Marked([])
  {
    WalkFromClearRay(base, dims, s, cell, dir, 1, []);
  }

  // ---------------------------------------------------------------------
  // Where the marks lie, and when scaling cannot panic

  /** A finished walk's marks lie in sectors of `keys`. */
  predicate OutcomeWithin(o: Outcome, keys: set<SectorID>) {
    o.Marked? ==> MarksWithin(o.marks, keys)
  }

  predicate StepWithin(r: Step, keys: set<SectorID>) {
    match r
    case Finished(o) => OutcomeWithin(o, keys)
    case Continue(processed) => MarksWithin(processed, keys)
  }

  lemma MarksWithinConcat(a: seq<Mark>, b: seq<Mark>, keys: set<SectorID>)
    requires MarksWithin(a, keys) && MarksWithin(b, keys)
    ensures MarksWithin(a + b, keys)
  {
    forall i | 0 <= i < |a + b| ensures (a + b)[i].0 in keys {
      if i < |a| { assert (a + b)[i] == a[i]; } else { assert (a + b)[i] == b[i - |a|]; }
    }
  }

  lemma {:induction false} CrossSectorWithin(base: map<SectorID, CostField>, cell: FieldCell, dir: Ordinal, n: SectorID,
                                             x: nat, end: nat, last: bool, processed: seq<Mark>)
    requires MarksWithin(processed, base.Keys)
    ensures StepWithin(CrossSector(base, cell, dir, n, x, end, last, processed), base.Keys)
    decreases end + 1 - x
  {
    if x <= end && Entering(cell, dir, x).Some? && n in base {
      var next := Entering(cell, dir, x).value;
      MarksWithinSnoc(processed, (n, next), base.Keys);
      if GetCost(base[n], next) != 255 {
        CrossSectorWithin(base, cell, dir, n, x + 1, end, last, processed + [(n, next)]);
      }
    }
  }

  lemma {:induction false} CrossNeighboursWithin(base: map<SectorID, CostField>, dims: MapDimensions, cell: FieldCell, dir: Ordinal,
                                                 i: nat, ns: seq<SectorID>, count: nat, processed: seq<Mark>)
    requires count <= |ns| && MarksWithin(processed, base.Keys)
    ensures StepWithin(CrossNeighbours(base, dims, cell, dir, i, ns, count, processed), base.Keys)
    decreases |ns| - count
  {
    if count < |ns| && dims.actorScale - i - count * FIELD_RESOLUTION >= 0 {
      var end := dims.actorScale - i - count * FIELD_RESOLUTION;
      CrossSectorWithin(base, cell, dir, ns[count], 0, end, count + 1 == |ns|, processed);
      var r := CrossSector(base, cell, dir, ns[count], 0, end, count + 1 == |ns|, processed);
      if r.Continue? {
        CrossNeighboursWithin(base, dims, cell, dir, i, ns, count + 1, r.processed);
      }
    }
  }

  lemma {:induction false} WalkFromWithin(base: map<SectorID, CostField>, dims: MapDimensions, s: SectorID, cell: FieldCell, dir: Ordinal,
                                          i: nat, processed: seq<Mark>)
    requires dims.sectorResolution > 0 && s in base && MarksWithin(processed, base.Keys)
    ensures OutcomeWithin(WalkFrom(base, dims, s, cell, dir, i, processed), base.Keys)
    decreases dims.actorScale + 1 - i
  {
    if i <= dims.actorScale {
      match Stepped(cell, dir, i)
      case Some(next) =>
        MarksWithinSnoc(processed, (s, next), base.Keys);
        if GetCost(base[s], next) != 255 {
          WalkFromWithin(base, dims, s, cell, dir, i + 1, processed + [(s, next)]);
        }
      case None =>
        var ns := NeighbourSectors(dims, dir, s, FactorCount(dims));
        if ns.Some? && ns.value != [] {
          CrossNeighboursWithin(base, dims, cell, dir, i, ns.value, 0, processed);
          var r := CrossNeighbours(base, dims, cell, dir, i, ns.value, 0, processed);
          if r.Continue? {
            WalkFromWithin(base, dims, s, cell, dir, i + 1, r.processed);
          }
        }
    }
  }

  lemma {:induction false} MarksOfWithin(base: map<SectorID, CostField>, dims: MapDimensions, s: SectorID, cells: seq<FieldCell>)
    requires dims.sectorResolution > 0 && s in base
    ensures OutcomeWithin(MarksOf(base, dims, s, cells), base.Keys)
  {
    if cells != [] {
      var cell := cells[|cells| - 1];
      MarksOfWithin(base, dims, s, cells[..|cells| - 1]);
      WalkFromWithin(base, dims, s, cell, North, 1, []);
      WalkFromWithin(base, dims, s, cell, East, 1, []);
      WalkFromWithin(base, dims, s, cell, South, 1, []);
      WalkFromWithin(base, dims, s, cell, West, 1, []);
      var n, e, so, w := Walk(base, dims, s, cell, North), Walk(base, dims, s, cell, East),
                         Walk(base, dims, s, cell, South), Walk(base, dims, s, cell, West);
      var before := MarksOf(base, dims, s, cells[..|cells| - 1]);
      if before.Marked? && n.Marked? && e.Marked? && so.Marked? && w.Marked? {
        MarksWithinConcat(n.marks, e.marks, base.Keys);
        MarksWithinConcat(n.marks + e.marks, so.marks, base.Keys);
        MarksWithinConcat(n.marks + e.marks + so.marks, w.marks, base.Keys);
        MarksWithinConcat(before.marks, n.marks + e.marks + so.marks + w.marks, base.Keys);
      }
    }
  }

  /** Every cell scaling marks in sector `s` lies in a sector of the baseline. */
  lemma SectorMarksWithin(base: map<SectorID, CostField>, dims: MapDimensions, s: SectorID)
    requires dims.sectorResolution > 0 && s in base
    ensures OutcomeWithin(SectorMarks(base, dims, s), base.Keys)
  {
    MarksOfWithin(base, dims, s, ImpassableCells(base[s]));
  }

  /** Every sector of the map has a field. */
  ghost predicate GridComplete(base: map<SectorID, CostField>, dims: MapDimensions)
    requires dims.sectorResolution > 0
  {
    forall id :: InGrid(dims, id) ==> id in base
  }

  lemma {:induction false} CrossSectorNoPanic(base: map<SectorID, CostField>, cell: FieldCell, dir: Ordinal, n: SectorID,
                                              x: nat, end: nat, last: bool, processed: seq<Mark>)
    requires n in base
    ensures CrossSector(base, cell, dir, n, x, end, last, processed) != Finished(Panicked)
    decreases end + 1 - x
  {
    if x <= end && Entering(cell, dir, x).Some? {
      var next := Entering(cell, dir, x).value;
      if GetCost(base[n], next) != 255 {
        CrossSectorNoPanic(base, cell, dir, n, x + 1, end, last, processed + [(n, next)]);
      }
    }
  }

  lemma {:induction false} WalkFromNoPanic(base: map<SectorID, CostField>, dims: MapDimensions, s: SectorID, cell: FieldCell, dir: Ordinal,
                                           i: nat, processed: seq<Mark>)
    requires dims.sectorResolution > 0 && s in base && InGrid(dims, s) && GridComplete(base, dims)
    requires IsOrthogonal(dir) && dims.actorScale < FIELD_RESOLUTION && i >= 1
    ensures WalkFrom(base, dims, s, cell, dir, i, processed).Marked?
    decreases dims.actorScale + 1 - i
  {
    if i <= dims.actorScale {
      match Stepped(cell, dir, i)
      case Some(next) =>
        if GetCost(base[s], next) != 255 {
          WalkFromNoPanic(base, dims, s, cell, dir, i + 1, processed + [(s, next)]);
        }
      case None =>
        assert FactorCount(dims) == 1;
        assert ShiftedSector(s, dir, 0) == Some(s);
        assert NeighbourSectors(dims, dir, s, 0) == Some([]);
        var n := SectorIdFromOrdinal(dims, dir, s);
        if n.Some? {
          assert InGrid(dims, n.value);
          assert [] + [n.value] == [n.value];
          assert NeighbourSectors(dims, dir, s, 1) == Some([n.value]);
          CrossSectorNoPanic(base, cell, dir, n.value, 0, dims.actorScale - i, true, processed);
          var r := CrossSector(base, cell, dir, n.value, 0, dims.actorScale - i, true, processed);
          if r.Continue? {
            assert CrossNeighbours(base, dims, cell, dir, i, [n.value], 1, r.processed) == r;
            WalkFromNoPanic(base, dims, s, cell, dir, i + 1, r.processed);
          }
        }
    }
  }

  lemma {:induction false} MarksOfNoPanic(base: map<SectorID, CostField>, dims: MapDimensions, s: SectorID, cells: seq<FieldCell>)
    requires dims.sectorResolution > 0 && s in base && InGrid(dims, s) && GridComplete(base, dims)
    requires dims.actorScale < FIELD_RESOLUTION
    ensures MarksOf(base, dims, s, cells).Marked?
  {
    if cells != [] {
      var cell := cells[|cells| - 1];
      MarksOfNoPanic(base, dims, s, cells[..|cells| - 1]);
      WalkFromNoPanic(base, dims, s, cell, North, 1, []);
      WalkFromNoPanic(base, dims, s, cell, East, 1, []);
      WalkFromNoPanic(base, dims, s, cell, South, 1, []);
      WalkFromNoPanic(base, dims, s, cell, West, 1, []);
    }
  }

  /**
   * For an actor narrower than a sector, scaling a sector of the map never
   * panics once every sector has its baseline field and the scaled fields
   * cover the same sectors.
   */
  lemma ScalingSucceedsBelowSectorWidth(base: map<SectorID, CostField>, scaled: map<SectorID, CostField>, dims: MapDimensions, s: SectorID)
    requires dims.sectorResolution > 0 && s in base && InGrid(dims, s) && GridComplete(base, dims)
    requires dims.actorScale < FIELD_RESOLUTION && base.Keys <= scaled.Keys
    ensures ScaledAfter(base, scaled, dims, s).Some?
  {
    if dims.actorScale != 1 {
      MarksOfNoPanic(base, dims, s, ImpassableCells(base[s]));
      SectorMarksWithin(base, dims, s);
      var marks := SectorMarks(base, dims, s).marks;
      ApplyMarksRaises(scaled, marks);
      assert MarksWithin(marks, scaled.Keys) by {
        forall i | 0 <= i < |marks| ensures marks[i].0 in scaled.Keys {
          assert marks[i].0 in base.Keys;
        }
      }
    }
  }

  lemma {:induction false} NorthEdgeShiftPanics(dims: MapDimensions, s: SectorID, factors: nat)
    requires dims.sectorResolution > 0 && s.row == 0 && factors >= 2
    ensures NeighbourSectors(dims, North, s, factors) == None
  {
    if factors > 2 {
      NorthEdgeShiftPanics(dims, s, factors - 1);
    } else {
      assert ShiftedSector(s, North, 1) == None;
    }
  }

  lemma {:induction false} WalkFromNorthEdge(base: map<SectorID, CostField>, dims: MapDimensions, s: SectorID, cell: FieldCell,
                                             i: nat, processed: seq<Mark>)
    requires dims.sectorResolution > 0 && s in base && dims.actorScale >= FIELD_RESOLUTION && s.row == 0
    requires 1 <= i <= cell.row + 1
    requires forall c: FieldCell :: c.column == cell.column && c.row < cell.row ==> GetCost(base[s], c) != 255
    ensures WalkFrom(base, dims, s, cell, North, i, processed) == Panicked
    decreases cell.row + 1 - i
  {
    if i <= cell.row {
      WalkFromNorthEdge(base, dims, s, cell, i + 1, processed + [(s, FieldCell(cell.column, cell.row - i))]);
    } else {
      NorthEdgeShiftPanics(dims, s, FactorCount(dims));
    }
  }

  /**
   * For an actor scale of 10 or more the source panics: a wall in the top
   * row of sectors with a clear way north makes the walk shift the sector
   * row below 0 (an unsigned subtraction).
   */
  lemma LargeActorPanicsAtNorthEdge(base: map<SectorID, CostField>, dims: MapDimensions, s: SectorID, cell: FieldCell)
    requires dims.sectorResolution > 0 && s in base && dims.actorScale >= FIELD_RESOLUTION && s.row == 0
    requires forall c: FieldCell :: c.column == cell.column && c.row < cell.row ==> GetCost(base[s], c) != 255
    ensures Walk(base, dims, s, cell, North) == Panicked
  {
    WalkFromNorthEdge(base, dims, s, cell, 1, []);
  }

  // ---------------------------------------------------------------------
  // Worked cases

  /** The single cell of `cells`, walked in every direction. */
  lemma MarksOfOne(base: map<SectorID, CostField>, dims: MapDimensions, s: SectorID, c: FieldCell)
    requires dims.sectorResolution > 0 && s in base
    ensures MarksOf(base, dims, s, [c]) == Then(Marked([]), CellMarks(base, dims, s, c))
  {
    assert [c][..0] == [];
  }

  /** For an actor of scale 2, a walk whose next two cells are passable marks nothing. */
  lemma ClearShortWalk(base: map<SectorID, CostField>, dims: MapDimensions, s: SectorID, cell: FieldCell, dir: Ordinal)
    requires dims.sectorResolution > 0 && s in base && dims.actorScale == 2
    requires Stepped(cell, dir, 1).Some? && GetCost(base[s], Stepped(cell, dir, 1).value) != 255
    requires Stepped(cell, dir, 2).Some? && GetCost(base[s], Stepped(cell, dir, 2).value) != 255
    ensures Walk(base, dims, s, cell, dir) == Marked([])
  {
    var p1 := [(s, Stepped(cell, dir, 1).value)];
    var p2 := p1 + [(s, Stepped(cell, dir, 2).value)];
    assert [] + p1 == p1;
    assert WalkFrom(base, dims, s, cell, dir, 3, p2) == Marked([]);
    assert WalkFrom(base, dims, s, cell, dir, 2, p1) == Marked([]);
  }

  /** A wall at (9, 4) of sector (0, 0) of a 2 x 2 sector map: its way east leaves the map. */
  lemma EastEdgeWall(base: map<SectorID, CostField>, dims: MapDimensions)
    requires dims == MapDimensions(20, 20, 10, 2) && SectorID(0, 0) in base
    requires base[SectorID(0, 0)] == SetCost(DefaultCostField(), 255, FieldCell(9, 4))
    ensures SectorMarks(base, dims, SectorID(0, 0)) == Marked([])
  {
    var a, c := SectorID(0, 0), FieldCell(9, 4);
    SingleWall(c);
    MarksOfOne(base, dims, a, c);
    ClearShortWalk(base, dims, a, c, North);
    ClearShortWalk(base, dims, a, c, South);
    ClearShortWalk(base, dims, a, c, West);
    EastEdgeWalk(base, dims);
  }

  lemma EastEdgeWalk(base: map<SectorID, CostField>, dims: MapDimensions)
    requires dims == MapDimensions(20, 20, 10, 2) && SectorID(0, 0) in base
    ensures Walk(base, dims, SectorID(0, 0), FieldCell(9, 4), East) == Marked([])
  {
    var a := SectorID(0, 0);
    assert NeighbourSectors(dims, East, a, 0) == Some([]);
    assert NeighbourSectors(dims, East, a, 1) == Some([]);
  }

  /** The west walk from (1, 4) of sector (1, 0), crossing into sector (0, 0) and its wall at (9, 4). */
  lemma WestCrossingWalk(base: map<SectorID, CostField>, dims: MapDimensions)
    requires dims == MapDimensions(20, 20, 10, 2) && SectorID(0, 0) in base && SectorID(1, 0) in base
    requires base[SectorID(0, 0)] == SetCost(DefaultCostField(), 255, FieldCell(9, 4))
    requires GetCost(base[SectorID(1, 0)], FieldCell(0, 4)) != 255
    ensures Walk(base, dims, SectorID(1, 0), FieldCell(1, 4), West) ==
      Marked([(SectorID(1, 0), FieldCell(0, 4)), (SectorID(0, 0), FieldCell(9, 4))])
  {
    var a, b, c := SectorID(0, 0), SectorID(1, 0), FieldCell(1, 4);
    assert NeighbourSectors(dims, West, b, 0) == Some([]);
    assert ShiftedSector(b, West, 0) == Some(b);
    assert SectorIdFromOrdinal(dims, West, b) == Some(a);
    assert [] + [a] == [a];
    assert NeighbourSectors(dims, West, b, 1) == Some([a]);
    var m1: Mark := (b, FieldCell(0, 4));
    var m2: Mark := (a, FieldCell(9, 4));
    assert Entering(c, West, 0) == Some(FieldCell(9, 4));
    assert [m1] + [m2] == [m1, m2];
    assert CrossSector(base, c, West, a, 0, 0, true, [m1]) == Finished(Marked([m1, m2]));
    assert CrossNeighbours(base, dims, c, West, 2, [a], 0, [m1]) == Finished(Marked([m1, m2]));
    assert WalkFrom(base, dims, b, c, West, 2, [m1]) == Marked([m1, m2]);
  }

  /** A wall at (1, 4) of sector (1, 0), with one at (9, 4) of sector (0, 0), on a 2 x 2 sector map. */
  lemma CrossBoundaryWall(base: map<SectorID, CostField>, dims: MapDimensions)
    requires dims == MapDimensions(20, 20, 10, 2) && SectorID(0, 0) in base && SectorID(1, 0) in base
    requires base[SectorID(0, 0)] == SetCost(DefaultCostField(), 255, FieldCell(9, 4))
    requires base[SectorID(1, 0)] == SetCost(DefaultCostField(), 255, FieldCell(1, 4))
    ensures SectorMarks(base, dims, SectorID(1, 0)) ==
      Marked([(SectorID(1, 0), FieldCell(0, 4)), (SectorID(0, 0), FieldCell(9, 4))])
  {
    var b, c := SectorID(1, 0), FieldCell(1, 4);
    SingleWall(c);
    MarksOfOne(base, dims, b, c);
    ClearShortWalk(base, dims, b, c, North);
    ClearShortWalk(base, dims, b, c, East);
    ClearShortWalk(base, dims, b, c, South);
    WestCrossingWalk(base, dims);
  }

  /** The second half of `scale_east_cross_coundary`, on fields that cover sectors (0, 0) and (1, 0). */
  lemma CrossBoundaryScaled(second: map<SectorID, CostField>, scaled: map<SectorID, CostField>, dims: MapDimensions)
    requires dims == MapDimensions(20, 20, 10, 2) && SectorID(0, 0) in second && SectorID(1, 0) in second
    requires second[SectorID(0, 0)] == SetCost(DefaultCostField(), 255, FieldCell(9, 4))
    requires second[SectorID(1, 0)] == SetCost(DefaultCostField(), 255, FieldCell(1, 4))
    requires SectorID(0, 0) in scaled && SectorID(1, 0) in scaled
    ensures ScaledAfter(second, scaled, dims, SectorID(1, 0)) ==
      Some(Raised(scaled, {(SectorID(1, 0), FieldCell(0, 4)), (SectorID(0, 0), FieldCell(9, 4))}))
  {
    var marks := [(SectorID(1, 0), FieldCell(0, 4)), (SectorID(0, 0), FieldCell(9, 4))];
    CrossBoundaryWall(second, dims);
    PairWithin(marks[0], marks[1], scaled.Keys);
    MarkedSectorRaises(second, scaled, dims, SectorID(1, 0), marks);
    PairMarkSet(marks[0], marks[1]);
  }

  lemma PairWithin(a: Mark, b: Mark, keys: set<SectorID>)
    requires a.0 in keys && b.0 in keys
    ensures MarksWithin([a, b], keys)
  {
  }

  lemma PairMarkSet(a: Mark, b: Mark)
    ensures MarkSet([a, b]) == {a, b}
  {
    assert [a, b][0] == a && [a, b][1] == b;
  }

  /** Where every mark of sector `s` lies in a scaled field, scaling `s` raises exactly those marks. */
  lemma MarkedSectorRaises(base: map<SectorID, CostField>, scaled: map<SectorID, CostField>, dims: MapDimensions,
                           s: SectorID, marks: seq<Mark>)
    requires dims.sectorResolution > 0 && dims.actorScale != 1 && s in base
    requires SectorMarks(base, dims, s) == Marked(marks) && MarksWithin(marks, scaled.Keys)
    ensures ScaledAfter(base, scaled, dims, s) == Some(Raised(scaled, MarkSet(marks)))
  {
    ApplyMarksRaises(scaled, marks);
  }

  /**
   * `scale_east_cross_coundary`: on a 2 x 2 sector map for an actor of scale
   * 2, a wall at (9, 4) of sector (0, 0) marks nothing (its way east leaves
   * the map), and a wall at (1, 4) of sector (1, 0) then closes the gap of
   * two cells across the sector boundary, marking (0, 4) of sector (1, 0)
   * and (9, 4) of sector (0, 0).
   */
  lemma EastCrossBoundary(dims: MapDimensions, defaults: map<SectorID, CostField>,
                          first: map<SectorID, CostField>, second: map<SectorID, CostField>)
    requires dims == MapDimensions(20, 20, 10, 2)
    requires defaults == map[SectorID(0, 0) := DefaultCostField(), SectorID(1, 0) := DefaultCostField(),
                             SectorID(0, 1) := DefaultCostField(), SectorID(1, 1) := DefaultCostField()]
    requires first == defaults[SectorID(0, 0) := SetCost(DefaultCostField(), 255, FieldCell(9, 4))]
    requires second == first[SectorID(1, 0) := SetCost(DefaultCostField(), 255, FieldCell(1, 4))]
    ensures ScaledAfter(first, defaults, dims, SectorID(0, 0)) == Some(defaults)
    ensures ScaledAfter(second, defaults, dims, SectorID(1, 0)) ==
      Some(Raised(defaults, {(SectorID(1, 0), FieldCell(0, 4)), (SectorID(0, 0), FieldCell(9, 4))}))
  {
    EastEdgeWall(first, dims);
    CrossBoundaryScaled(second, defaults, dims);
  }

  /**
   * A wall on its own in the middle of a one-sector map, for an actor of
   * scale 2: `set_field_cell_value` writes it into the baseline, and the
   * rescaling that follows marks nothing, so the scaled field, which the
   * rest of the plugin paths over, keeps cost 1 where the baseline has 255.
   */
  lemma IsolatedWallNotScaled(dims: MapDimensions, base: map<SectorID, CostField>, scaled: map<SectorID, CostField>)
    requires dims == MapDimensions(10, 10, 10, 2)
    requires base == map[SectorID(0, 0) := SetCost(DefaultCostField(), 255, FieldCell(5, 5))]
    requires scaled == map[SectorID(0, 0) := DefaultCostField()]
    ensures ScaledAfter(base, scaled, dims, SectorID(0, 0)) == Some(scaled)
    ensures GetCost(base[SectorID(0, 0)], FieldCell(5, 5)) == 255
    ensures GetCost(scaled[SectorID(0, 0)], FieldCell(5, 5)) == 1
  {
    var s, c := SectorID(0, 0), FieldCell(5, 5);
    SingleWall(c);
    MarksOfOne(base, dims, s, c);
    ClearShortWalk(base, dims, s, c, North);
    ClearShortWalk(base, dims, s, c, East);
    ClearShortWalk(base, dims, s, c, South);
    ClearShortWalk(base, dims, s, c, West);
  }

  // ---------------------------------------------------------------------
  // Prefixes, for the loops that compute these step by step

  lemma {:induction false} MarksOfPanicsOnPrefix(base: map<SectorID, CostField>, dims: MapDimensions, s: SectorID,
                                                 cells: seq<FieldCell>, k: nat)
    requires dims.sectorResolution > 0 && s in base && k <= |cells|
    requires MarksOf(base, dims, s, cells[..k]).Panicked?
    ensures MarksOf(base, dims, s, cells).Panicked?
    decreases |cells| - k
  {
    if k < |cells| {
      assert cells[..k + 1][..k] == cells[..k];
      MarksOfPanicsOnPrefix(base, dims, s, cells, k + 1);
    } else {
      assert cells[..k] == cells;
    }
  }

  lemma {:induction false} ApplyMarksFailsOnPrefix(fields: map<SectorID, CostField>, marks: seq<Mark>, j: nat)
    requires j <= |marks| && ApplyMarks(fields, marks[..j]).None?
    ensures ApplyMarks(fields, marks).None?
    decreases |marks| - j
  {
    if j < |marks| {
      assert marks[..j + 1][..j] == marks[..j];
      ApplyMarksFailsOnPrefix(fields, marks, j + 1);
    } else {
      assert marks[..j] == marks;
    }
  }

  // ---------------------------------------------------------------------
  // Scaling every sector

  /** Scaling every sector of `base` in turn panics nowhere. */
  predicate AllScalable(base: map<SectorID, CostField>, dims: MapDimensions)
    requires dims.sectorResolution > 0
  {
    forall k :: k in base ==> SectorMarks(base, dims, k).Marked?
  }

  /** Everything scaling marks for the sectors `keys` of `base`. */
  ghost function MarksFor(base: map<SectorID, CostField>, dims: MapDimensions, keys: set<SectorID>): set<Mark>
    requires dims.sectorResolution > 0
  {
    set k, m | k in keys && k in base && SectorMarks(base, dims, k).Marked? && m in MarkSet(SectorMarks(base, dims, k).marks) :: m
  }

  lemma MarksForOneMore(base: map<SectorID, CostField>, dims: MapDimensions, keys: set<SectorID>, k: SectorID)
    requires dims.sectorResolution > 0 && k in base && SectorMarks(base, dims, k).Marked?
    ensures MarksFor(base, dims, keys + {k}) == MarksFor(base, dims, keys) + MarkSet(SectorMarks(base, dims, k).marks)
  {
  }

  lemma MarksForNone(base: map<SectorID, CostField>, dims: MapDimensions)
    requires dims.sectorResolution > 0
    ensures MarksFor(base, dims, {}) == {}
  {
  }

  // ---------------------------------------------------------------------
  // Mesh edges

  /** An edge between two mesh vertices. */
  datatype MeshTriEdge<T> = MeshTriEdge(start: T, end: T)

  /** The custom equality: the same two endpoints, in either order. */
  predicate SameEdge<T(==)>(a: MeshTriEdge<T>, b: MeshTriEdge<T>) {
    (a.start == b.start && a.end == b.end) || (a.start == b.end && a.end == b.start)
  }

  /** Edge equality ignores the direction of an edge, and is an equivalence. */
  lemma SameEdgeProperties<T>(a: MeshTriEdge<T>, b: MeshTriEdge<T>, c: MeshTriEdge<T>)
    ensures SameEdge(a, MeshTriEdge(a.end, a.start))
    ensures SameEdge(a, a)
    ensures SameEdge(a, b) ==> SameEdge(b, a)
    ensures SameEdge(a, b) && SameEdge(b, c) ==> SameEdge(a, c)
    ensures SameEdge(a, b) <==> ({a.start, a.end} == {b.start, b.end} && (a.start == a.end <==> b.start == b.end))
  {
  }
}
