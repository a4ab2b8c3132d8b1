/**
 * `SectorCostFields` itself (src/flowfields/sectors/sector_cost.rs): the
 * baseline and scaled maps of cost fields, updated in place, and the loops
 * of `scale_costfield` that find the impassable cells, walk from them and
 * write the marks. Every loop is proved to compute the function of the
 * SectorCost module that specifies it.
 */
module SectorFields {
  import opened Options
  import opened Geometry
  import opened Grids
  import opened Sectors
  import opened FieldCost
  import opened SectorCost

  /** `fields` holds exactly one field per sector of the map, each equal to `f`. */
  ghost predicate GridOf(fields: map<SectorID, CostField>, dims: MapDimensions, f: CostField)
    requires dims.sectorResolution > 0
  {
    (forall id :: id in fields <==> InGrid(dims, id)) && forall id :: id in fields ==> fields[id] == f
  }

  /** The scaled fields `scale_all_costfields` leaves: the baseline copied over `scaled`, then every mark raised. */
  ghost function ScaledAll(base: map<SectorID, CostField>, scaled: map<SectorID, CostField>, dims: MapDimensions): map<SectorID, CostField>
    requires dims.sectorResolution > 0
  {
    if dims.actorScale == 1 then scaled + base else Raised(scaled + base, MarksFor(base, dims, base.Keys))
  }

  /** Scaling panics in none of the sectors `keys`. */
  predicate AllMarked(base: map<SectorID, CostField>, dims: MapDimensions, keys: set<SectorID>)
    requires dims.sectorResolution > 0
  {
    forall k :: k in keys && k in base ==> SectorMarks(base, dims, k).Marked?
  }

  /** The nested loops over the field that collect its impassable cells, column by column. */
  method ImpassableIndices(f: CostField) returns (cells: seq<FieldCell>)
    ensures cells == ImpassableCells(f)
  {
    cells := [];
    var column := 0;
    while column < FIELD_RESOLUTION
      invariant column <= FIELD_RESOLUTION
      invariant cells == ImpassableUpTo(f, column * FIELD_RESOLUTION)
    {
      var row := 0;
      while row < FIELD_RESOLUTION
        invariant row <= FIELD_RESOLUTION
        invariant cells == ImpassableUpTo(f, column * FIELD_RESOLUTION + row)
      {
        var cell := FieldCell(column, row);
        assert CellAt(Index(cell)) == cell by { CellAtIndex(cell); }
        if GetCost(f, cell) == 255 {
          cells := cells + [cell];
        }
        row := row + 1;
      }
      column := column + 1;
    }
  }

  lemma {:induction false} NeighbourSectorsStayPanicked(dims: MapDimensions, dir: Ordinal, id: SectorID, factors: nat, more: nat)
    requires dims.sectorResolution > 0 && factors <= more
    requires NeighbourSectors(dims, dir, id, factors).None?
    ensures NeighbourSectors(dims, dir, id, more).None?
    decreases more - factors
  {
    if factors < more {
      NeighbourSectorsStayPanicked(dims, dir, id, factors + 1, more);
    }
  }

  /** The loop over `0 ..= actor_scale / 10` that lists the sectors a walk may cross into. */
  method NeighbourList(dims: MapDimensions, dir: Ordinal, id: SectorID) returns (ns: Option<seq<SectorID>>)
    requires dims.sectorResolution > 0
    ensures ns == NeighbourSectors(dims, dir, id, FactorCount(dims))
  {
    var found: seq<SectorID> := [];
    var factor := 0;
    while factor < FactorCount(dims)
      invariant factor <= FactorCount(dims)
      invariant NeighbourSectors(dims, dir, id, factor) == Some(found)
    {
      var shifted := ShiftedSector(id, dir, factor);
      if shifted.None? {
        NeighbourSectorsStayPanicked(dims, dir, id, factor + 1, FactorCount(dims));
        return None;
      }
      var n := SectorIdFromOrdinal(dims, dir, shifted.value);
      if n.Some? {
        found := found + [n.value];
      }
      factor := factor + 1;
    }
    return Some(found);
  }

  /** The `'inner` loop through one neighbouring sector `n`, over its cells `0 ..= end`. */
  method CrossOne(base: map<SectorID, CostField>, cell: FieldCell, dir: Ordinal, n: SectorID,
                  end: nat, last: bool, processed: seq<Mark>) returns (r: Step)
    ensures r == CrossSector(base, cell, dir, n, 0, end, last, processed)
  {
    var walked := processed;
    var x := 0;
    while x <= end
      invariant CrossSector(base, cell, dir, n, x, end, last, walked) == CrossSector(base, cell, dir, n, 0, end, last, processed)
      decreases end + 1 - x
    {
      var next := Entering(cell, dir, x);
      if next.None? {
        return if last then Finished(Marked(walked)) else Continue(walked);
      }
      walked := walked + [(n, next.value)];
      if n !in base {
        return Finished(Panicked);
      }
      if GetCost(base[n], next.value) == 255 {
        return Finished(Marked(walked));
      }
      x := x + 1;
    }
    return Continue(walked);
  }

  /** The loop over the neighbouring sectors, each one `FIELD_RESOLUTION` cells further on than the last. */
  method CrossAll(base: map<SectorID, CostField>, dims: MapDimensions, cell: FieldCell, dir: Ordinal,
                  i: nat, ns: seq<SectorID>, processed: seq<Mark>) returns (r: Step)
    ensures r == CrossNeighbours(base, dims, cell, dir, i, ns, 0, processed)
  {
    var walked := processed;
    var count := 0;
    while count < |ns|
      invariant count <= |ns|
      invariant CrossNeighbours(base, dims, cell, dir, i, ns, count, walked) == CrossNeighbours(base, dims, cell, dir, i, ns, 0, processed)
    {
      var end := dims.actorScale - i - count * FIELD_RESOLUTION;
      if end < 0 {
        return Finished(Panicked);
      }
      var step := CrossOne(base, cell, dir, ns[count], end, count + 1 == |ns|, walked);
      if step.Finished? {
        return step;
      }
      walked := step.processed;
      count := count + 1;
    }
    return Continue(walked);
  }

  /** One of the four `'ord` loops of `scale_costfield`, walking from `cell` of sector `s` towards `dir`. */
  method WalkCells(base: map<SectorID, CostField>, dims: MapDimensions, s: SectorID, cell: FieldCell, dir: Ordinal)
    returns (out: Outcome)
    requires dims.sectorResolution > 0 && s in base
    ensures out == Walk(base, dims, s, cell, dir)
  {
    var processed: seq<Mark> := [];
    var i := 1;
    while i <= dims.actorScale
      invariant 1 <= i
      invariant WalkFrom(base, dims, s, cell, dir, i, processed) == Walk(base, dims, s, cell, dir)
      decreases dims.actorScale + 1 - i
    {
      var next := Stepped(cell, dir, i);
      if next.Some? {
        processed := processed + [(s, next.value)];
        if GetCost(base[s], next.value) == 255 {
          return Marked(processed);
        }
      } else {
        var ns := NeighbourList(dims, dir, s);
        if ns.None? {
          return Panicked;
        }
        if ns.value == [] {
          return Marked(processed);
        }
        var step := CrossAll(base, dims, cell, dir, i, ns.value, processed);
        if step.Finished? {
          return step.outcome;
        }
        processed := step.processed;
      }
      i := i + 1;
    }
    return Marked([]);
  }

  /** The four walks from one impassable cell, north, east, south and west. */
  method WalkAround(base: map<SectorID, CostField>, dims: MapDimensions, s: SectorID, cell: FieldCell) returns (out: Outcome)
    requires dims.sectorResolution > 0 && s in base
    ensures out == CellMarks(base, dims, s, cell)
  {
    var north := WalkCells(base, dims, s, cell, North);
    var east := WalkCells(base, dims, s, cell, East);
    var south := WalkCells(base, dims, s, cell, South);
    var west := WalkCells(base, dims, s, cell, West);
    out := Then(Then(Then(north, east), south), west);
  }

  class SectorCostFields {
    /** The costs as set by the user. */
    var baseline: map<SectorID, CostField>
    /** The costs with the gaps too narrow for the actor closed. */
    var scaled: map<SectorID, CostField>

    /** Both maps cover the same sectors. */
    ghost predicate Valid()
      reads this
    {
      scaled.Keys == baseline.Keys
    }

    /** The scaled fields are those scaling the whole baseline gives. */
    ghost predicate Consistent(dims: MapDimensions)
      reads this
      requires dims.sectorResolution > 0
    {
      scaled == ScaledAll(baseline, map[], dims)
    }

    /** `SectorCostFields::default`: no sectors at all. */
    constructor Empty()
      ensures baseline == map[] && scaled == map[]
    {
      baseline, scaled := map[], map[];
    }

    /** `new`: a default field in every sector of the map, scaled. */
    constructor (dims: MapDimensions)
      requires dims.sectorResolution > 0
      ensures GridOf(baseline, dims, DefaultCostField())
      ensures scaled == baseline
      ensures Valid() && Consistent(dims)
    {
      baseline, scaled := map[], map[];
      new;
      InsertGrid(dims, DefaultCostField());
      assert AllScalable(baseline, dims) && MarksFor(baseline, dims, baseline.Keys) == {} by {
        DefaultFieldHasNoWalls();
        forall k | k in baseline ensures SectorMarks(baseline, dims, k) == Marked([]) {}
      }
      var ok := ScaleAllCostfields(dims);
      RaisedNothing(baseline);
      assert map[] + baseline == baseline;
    }

    /** `new_with_cost`: a field of `cost` everywhere in every sector, scaled; `ok` is false where scaling panics. */
    static method NewWithCost(dims: MapDimensions, cost: U8) returns (fields: SectorCostFields, ok: bool)
      requires dims.sectorResolution > 0
      ensures fresh(fields)
      ensures GridOf(fields.baseline, dims, FieldCost.NewWithCost(cost))
      ensures ok <==> dims.actorScale == 1 || AllScalable(fields.baseline, dims)
      ensures ok ==> fields.Valid() && fields.Consistent(dims)
    {
      fields := new SectorCostFields.Empty();
      fields.InsertGrid(dims, FieldCost.NewWithCost(cost));
      ok := fields.ScaleAllCostfields(dims);
    }

    /** The nested loops of `new` over the sector columns and rows, inserting `f` into the baseline. */
    method InsertGrid(dims: MapDimensions, f: CostField)
      requires dims.sectorResolution > 0 && baseline == map[]
      modifies this
      ensures GridOf(baseline, dims, f) && scaled == old(scaled)
    {
      var m := 0;
      while m < dims.Columns()
        invariant m <= dims.Columns() && scaled == old(scaled)
        invariant forall id :: id in baseline <==> id.column < m && id.row < dims.Rows()
        invariant forall id :: id in baseline ==> baseline[id] == f
      {
        var n := 0;
        while n < dims.Rows()
          invariant n <= dims.Rows() && scaled == old(scaled)
          invariant forall id :: id in baseline <==> (id.column < m && id.row < dims.Rows()) || (id.column == m && id.row < n)
          invariant forall id :: id in baseline ==> baseline[id] == f
        {
          baseline := baseline[SectorID(m, n) := f];
          n := n + 1;
        }
        m := m + 1;
      }
    }

    /**
     * `set_field_cell_value`: nothing changes for a sector that has no field;
     * otherwise the baseline cell takes `value` and that one sector is scaled
     * again. `ok` is false where the scaling panics.
     */
    method SetFieldCellValue(s: SectorID, value: U8, cell: FieldCell, dims: MapDimensions) returns (ok: bool)
      requires dims.sectorResolution > 0
      modifies this
      ensures s !in old(baseline) ==> ok && baseline == old(baseline) && scaled == old(scaled)
      ensures s in old(baseline) ==> baseline == old(baseline)[s := SetCost(old(baseline)[s], value, cell)]
      ensures s in old(baseline) ==> (ok <==> ScaledAfter(baseline, old(scaled), dims, s).Some?)
      ensures s in old(baseline) && ok ==> scaled == ScaledAfter(baseline, old(scaled), dims, s).value
      ensures old(Valid()) && ok ==> Valid()
    {
      if s !in baseline {
        return true;
      }
      baseline := baseline[s := SetCost(baseline[s], value, cell)];
      ok := ScaleCostfield(s, dims);
      if ok && dims.actorScale != 1 {
        SectorMarksWithin(baseline, dims, s);
        ApplyMarksRaises(old(scaled), SectorMarks(baseline, dims, s).marks);
      }
    }

    /**
     * The same update followed by scaling every sector again, so that the
     * scaled fields follow the baseline wherever scaling does not panic.
     */
    method SetFieldCellValueRescaled(s: SectorID, value: U8, cell: FieldCell, dims: MapDimensions) returns (ok: bool)
      requires dims.sectorResolution > 0 && Valid()
      modifies this
      ensures s !in old(baseline) ==> ok && baseline == old(baseline) && scaled == old(scaled)
      ensures s in old(baseline) ==> baseline == old(baseline)[s := SetCost(old(baseline)[s], value, cell)]
      ensures s in old(baseline) ==> (ok <==> dims.actorScale == 1 || AllScalable(baseline, dims))
      ensures s in old(baseline) && ok ==> Valid() && Consistent(dims)
    {
      if s !in baseline {
        return true;
      }
      baseline := baseline[s := SetCost(baseline[s], value, cell)];
      ok := ScaleAllCostfields(dims);
    }

    /**
     * `scale_all_costfields`: every baseline field is copied into the scaled
     * map, then every sector is scaled. The source takes the sectors in key
     * order; any order gives the same fields. `ok` is false where scaling
     * panics.
     */
    method ScaleAllCostfields(dims: MapDimensions) returns (ok: bool)
      requires dims.sectorResolution > 0
      modifies this
      ensures baseline == old(baseline)
      ensures ok <==> dims.actorScale == 1 || AllScalable(baseline, dims)
      ensures ok ==> scaled == ScaledAll(baseline, old(scaled), dims)
      ensures ok && old(scaled).Keys <= baseline.Keys ==> Valid() && Consistent(dims)
    {
      CopyBaseline();
      ok := ScaleEach(dims);
      if ok && old(scaled).Keys <= baseline.Keys {
        assert old(scaled) + baseline == map[] + baseline;
      }
    }

    /** The first loop of `scale_all_costfields`: each baseline field replaces its scaled one. */
    method CopyBaseline()
      modifies this
      ensures baseline == old(baseline)
      ensures scaled == old(scaled) + baseline
    {
      var remaining := baseline.Keys;
      while remaining != {}
        invariant remaining <= baseline.Keys && baseline == old(baseline)
        invariant forall k :: k in scaled <==> k in old(scaled) || k in baseline.Keys - remaining
        invariant forall k :: k in scaled ==> scaled[k] == if k in baseline.Keys - remaining then baseline[k] else old(scaled)[k]
        decreases remaining
      {
        var k :| k in remaining;
        scaled := scaled[k := baseline[k]];
        remaining := remaining - {k};
      }
    }

    /** The second loop of `scale_all_costfields`: `scale_costfield` for every sector of the baseline. */
    method ScaleEach(dims: MapDimensions) returns (ok: bool)
      requires dims.sectorResolution > 0
      requires forall k :: k in baseline ==> k in scaled && scaled[k] == baseline[k]
      modifies this
      ensures baseline == old(baseline)
      ensures ok <==> dims.actorScale == 1 || AllScalable(baseline, dims)
      ensures ok && dims.actorScale == 1 ==> scaled == old(scaled)
      ensures ok && dims.actorScale != 1 ==> scaled == Raised(old(scaled), MarksFor(baseline, dims, baseline.Keys))
    {
      MarksForNone(baseline, dims);
      RaisedNothing(scaled);
      ghost var copied := scaled;
      var remaining := baseline.Keys;
      assert baseline.Keys - remaining == {};
      while remaining != {}
        invariant remaining <= baseline.Keys && baseline == old(baseline)
        invariant ScaledUpTo(copied, dims, baseline.Keys - remaining)
        decreases remaining
      {
        var k :| k in remaining;
        var scaledOk := ScaleOne(k, dims, copied, baseline.Keys - remaining);
        if !scaledOk {
          return false;
        }
        assert baseline.Keys - (remaining - {k}) == (baseline.Keys - remaining) + {k};
        remaining := remaining - {k};
      }
      assert baseline.Keys - remaining == baseline.Keys;
      ok := true;
    }

    /** The scaled fields after `scale_costfield` has run for the sectors `done`, starting from `copied`. */
    ghost predicate ScaledUpTo(copied: map<SectorID, CostField>, dims: MapDimensions, done: set<SectorID>)
      requires dims.sectorResolution > 0
      reads this
    {
      baseline.Keys <= scaled.Keys &&
      (forall k :: k in baseline ==> k in copied && copied[k] == baseline[k]) &&
      (dims.actorScale == 1 ==> scaled == copied) &&
      (dims.actorScale != 1 ==> AllMarked(baseline, dims, done) && scaled == Raised(copied, MarksFor(baseline, dims, done)))
    }

    /** One round of the second loop of `scale_all_costfields`: `scale_costfield` for sector `k`. */
    method ScaleOne(k: SectorID, dims: MapDimensions, ghost copied: map<SectorID, CostField>, ghost done: set<SectorID>)
      returns (ok: bool)
      requires dims.sectorResolution > 0 && k in baseline && ScaledUpTo(copied, dims, done)
      modifies this
      ensures baseline == old(baseline)
      ensures ok ==> ScaledUpTo(copied, dims, done + {k})
      ensures !ok ==> dims.actorScale != 1 && !AllScalable(baseline, dims)
    {
      ghost var before := scaled;
      ok := ScaleCostfield(k, dims);
      if dims.actorScale == 1 {
        assert scaled == before[k := baseline[k]] == before;
      } else {
        ScaledSectorRaises(before, copied, dims, k, done);
      }
    }

    /** Scaling one more sector `k` raises its marks on top of those of the sectors `done`. */
    lemma ScaledSectorRaises(before: map<SectorID, CostField>, copied: map<SectorID, CostField>, dims: MapDimensions,
                             k: SectorID, done: set<SectorID>)
      requires dims.sectorResolution > 0 && dims.actorScale != 1 && k in baseline && baseline.Keys <= before.Keys
      requires before == Raised(copied, MarksFor(baseline, dims, done))
      ensures ScaledAfter(baseline, before, dims, k).Some? <==> SectorMarks(baseline, dims, k).Marked?
      ensures ScaledAfter(baseline, before, dims, k).Some? ==>
        ScaledAfter(baseline, before, dims, k).value == Raised(copied, MarksFor(baseline, dims, done + {k}))
    {
      SectorMarksWithin(baseline, dims, k);
      if SectorMarks(baseline, dims, k).Marked? {
        var marks := SectorMarks(baseline, dims, k).marks;
        ApplyMarksRaises(before, marks);
        MarksForOneMore(baseline, dims, done, k);
        RaisedUnion(copied, MarksFor(baseline, dims, done), MarkSet(marks));
      }
    }

    /**
     * `scale_costfield`: for an actor scale of 1 the scaled field of `s` is a
     * copy of its baseline; otherwise the cells every walk from an
     * impassable cell marks become 255 in the scaled fields. `ok` is false
     * where the source panics.
     */
    method ScaleCostfield(s: SectorID, dims: MapDimensions) returns (ok: bool)
      requires dims.sectorResolution > 0 && s in baseline
      modifies this
      ensures baseline == old(baseline)
      ensures ok <==> ScaledAfter(baseline, old(scaled), dims, s).Some?
      ensures ok ==> scaled == ScaledAfter(baseline, old(scaled), dims, s).value
    {
      if dims.actorScale == 1 {
        scaled := scaled[s := baseline[s]];
        return true;
      }
      var found := CollectMarks(baseline, dims, s);
      if found.Panicked? {
        return false;
      }
      ok := MarkImpassable(found.marks);
    }

    /** The final loop of `scale_costfield`: 255 into every marked cell of the scaled fields. */
    method MarkImpassable(marks: seq<Mark>) returns (ok: bool)
      modifies this
      ensures baseline == old(baseline)
      ensures ok <==> ApplyMarks(old(scaled), marks).Some?
      ensures ok ==> scaled == ApplyMarks(old(scaled), marks).value
    {
      var j := 0;
      while j < |marks|
        invariant j <= |marks| && baseline == old(baseline)
        invariant ApplyMarks(old(scaled), marks[..j]) == Some(scaled)
      {
        assert marks[..j + 1][..j] == marks[..j];
        var (sector, cell) := marks[j];
        if sector !in scaled {
          ApplyMarksFailsOnPrefix(old(scaled), marks, j + 1);
          return false;
        }
        scaled := scaled[sector := SetCost(scaled[sector], 255, cell)];
        j := j + 1;
      }
      assert marks[..j] == marks;
      return true;
    }
  }

  /** The loop of `scale_costfield` over the impassable cells, gathering what the four walks from each mark. */
  method CollectMarks(base: map<SectorID, CostField>, dims: MapDimensions, s: SectorID) returns (out: Outcome)
    requires dims.sectorResolution > 0 && s in base
    ensures out == SectorMarks(base, dims, s)
  {
    var cells := ImpassableIndices(base[s]);
    var marks: seq<Mark> := [];
    var k := 0;
    while k < |cells|
      invariant k <= |cells|
      invariant MarksOf(base, dims, s, cells[..k]) == Marked(marks)
    {
      assert cells[..k + 1][..k] == cells[..k];
      var around := WalkAround(base, dims, s, cells[k]);
      if around.Panicked? {
        MarksOfPanicsOnPrefix(base, dims, s, cells, k + 1);
        return Panicked;
      }
      marks := marks + around.marks;
      k := k + 1;
    }
    assert cells[..k] == cells;
    return Marked(marks);
  }

  /** Under the consistency the corrected update keeps, every baseline wall is a wall of the scaled fields too. */
  lemma ConsistentKeepsWalls(base: map<SectorID, CostField>, scaled: map<SectorID, CostField>, dims: MapDimensions, k: SectorID, c: FieldCell)
    requires dims.sectorResolution > 0 && scaled == ScaledAll(base, map[], dims)
    requires k in base && GetCost(base[k], c) == 255
    ensures k in scaled && GetCost(scaled[k], c) == 255
  {
    assert map[] + base == base;
  }
}
