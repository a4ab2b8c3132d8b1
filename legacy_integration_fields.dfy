/**
 * The older grid of 16-bit integration costs of
 * src/flowfields/integration_fields.rs: a 10 x 10 array indexed
 * `[column][row]`, bounds-checked access, and the reset that sets every cell
 * to `u16::MAX`.
 */
module LegacyIntegrationFields {
  import opened Options
  import opened Geometry
  import opened Flow

  class IntegrationFields {
    /** The grid, indexed `[column][row]`. */
    const cells: array2<U16>

    ghost predicate Valid()
      reads this
    {
      cells.Length0 == FIELD_RESOLUTION && cells.Length1 == FIELD_RESOLUTION
    }

    /** `IntegrationFields::default`: every cell holds 1. */
    constructor ()
      ensures Valid() && fresh(cells)
      ensures forall c, r :: 0 <= c < FIELD_RESOLUTION && 0 <= r < FIELD_RESOLUTION ==> GetGridValue(c, r) == Some(1)
    {
      cells := new U16[FIELD_RESOLUTION, FIELD_RESOLUTION]((_, _) => 1);
    }

    /** `get_grid_value`: the value at `[column][row]`, `None` where the source panics. */
    function GetGridValue(column: nat, row: nat): (value: Option<U16>)
      reads this, cells
      requires Valid()
      ensures value.Some? <==> column < FIELD_RESOLUTION && row < FIELD_RESOLUTION
      ensures value.Some? ==> value.value == cells[column, row]
    {
      if column >= cells.Length0 || row >= cells.Length1 then None else Some(cells[column, row])
    }

    /**
     * `set_grid_value`: `done` is false where the source panics, and then no
     * cell changes; otherwise a read of the same cell returns the new value
     * and every other cell reads as before.
     */
    method SetGridValue(value: U16, column: nat, row: nat) returns (done: bool)
      requires Valid()
      modifies cells
      ensures done <==> column < FIELD_RESOLUTION && row < FIELD_RESOLUTION
      ensures done ==> GetGridValue(column, row) == Some(value)
      ensures forall c: nat, r: nat :: (c, r) != (column, row) ==> GetGridValue(c, r) == old(GetGridValue(c, r))
      ensures !done ==> unchanged(cells)
    {
      if column >= cells.Length0 || row >= cells.Length1 {
        return false;
      }
      cells[column, row] := value;
      return true;
    }

    /** `reset`: the nested loops that write `u16::MAX` into every cell. */
    method Reset()
      requires Valid()
      modifies cells
      ensures forall c, r :: 0 <= c < FIELD_RESOLUTION && 0 <= r < FIELD_RESOLUTION ==> GetGridValue(c, r) == Some(U16_MAX)
    {
      for i := 0 to FIELD_RESOLUTION
        invariant forall c: nat, r: nat :: c < i && r < FIELD_RESOLUTION ==> GetGridValue(c, r) == Some(U16_MAX)
      {
        for j := 0 to FIELD_RESOLUTION
          invariant forall c: nat, r: nat :: c < i && r < FIELD_RESOLUTION ==> GetGridValue(c, r) == Some(U16_MAX)
          invariant forall r: nat :: r < j ==> GetGridValue(i, r) == Some(U16_MAX)
        {
          var _ := SetGridValue(U16_MAX, i, j);
        }
      }
    }
  }
}
