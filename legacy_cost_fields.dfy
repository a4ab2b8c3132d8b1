/**
 * The older grid of 8-bit costs of src/flowfields/cost_fields.rs: a 10 x 10
 * array indexed `[column][row]` whose getter and setter panic for a column
 * or row of 10 or more.
 */
module LegacyCostFields {
  import opened Options
  import opened Geometry
  import opened Grids

  class CostFields {
    /** The grid, indexed `[column][row]`. */
    const cells: array2<U8>

    ghost predicate Valid()
      reads this
    {
      cells.Length0 == FIELD_RESOLUTION && cells.Length1 == FIELD_RESOLUTION
    }

    /** `CostFields::default`: every cell costs 1. */
    constructor ()
      ensures Valid() && fresh(cells)
      ensures forall c, r :: 0 <= c < FIELD_RESOLUTION && 0 <= r < FIELD_RESOLUTION ==> GetGridValue(c, r) == Some(1)
    {
      cells := new U8[FIELD_RESOLUTION, FIELD_RESOLUTION]((_, _) => 1);
    }

    /** `get_grid_value`: the cost at `[column][row]`, `None` where the source panics. */
    function GetGridValue(column: nat, row: nat): (value: Option<U8>)
      reads this, cells
      requires Valid()
      ensures value.Some? <==> column < FIELD_RESOLUTION && row < FIELD_RESOLUTION
      ensures value.Some? ==> value.value == cells[column, row]
    {
      if column >= cells.Length0 || row >= cells.Length1 then None else Some(cells[column, row])
    }

    /**
     * `set_grid_value`: `done` is false where the source panics, and then no
     * cell changes; otherwise a read of the same cell returns the new value
     * and every other cell reads as before.
     */
    method SetGridValue(value: U8, column: nat, row: nat) returns (done: bool)
      requires Valid()
      modifies cells
      ensures done <==> column < FIELD_RESOLUTION && row < FIELD_RESOLUTION
      ensures done ==> GetGridValue(column, row) == Some(value)
      ensures forall c: nat, r: nat :: (c, r) != (column, row) ==> GetGridValue(c, r) == old(GetGridValue(c, r))
      ensures !done ==> unchanged(cells)
    {
      if column >= cells.Length0 || row >= cells.Length1 {
        return false;
      }
      cells[column, row] := value;
      return true;
    }
  }

  /** The test of the source: on a default grid, setting 255 at (9, 9) reads back as 255. */
  method SetThenGetExample()
  {
    var fields := new CostFields();
    var done := fields.SetGridValue(255, 9, 9);
    assert done;
    assert fields.GetGridValue(9, 9) == Some(255);
    assert fields.GetGridValue(9, 8) == Some(1);
  }
}
