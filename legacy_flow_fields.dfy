/**
 * The older grid of flow bytes of src/flowfields/flow_fields.rs: a 10 x 10
 * array indexed `[column][row]` that starts at the sentinel `0b0000_1111`,
 * bounds-checked access, and a `calculate` whose body is still empty.
 */
module LegacyFlowFields {
  import opened Options
  import opened Geometry
  import opened Flow
  import opened LegacyIntegrationFields

  class FlowFields {
    /** The grid, indexed `[column][row]`. */
    const cells: array2<bv8>

    ghost predicate Valid()
      reads this
    {
      cells.Length0 == FIELD_RESOLUTION && cells.Length1 == FIELD_RESOLUTION
    }

    /** `FlowFields::default`: every cell holds the sentinel, which encodes no direction. */
    constructor ()
      ensures Valid() && fresh(cells)
      ensures forall c, r :: 0 <= c < FIELD_RESOLUTION && 0 <= r < FIELD_RESOLUTION ==>
        GetGridValue(c, r) == Some(0x0F) && OrdinalFromBits(cells[c, r]).None?
    {
      cells := new bv8[FIELD_RESOLUTION, FIELD_RESOLUTION]((_, _) => 0x0F);
      OrdinalFromBitsDomain(0x0F);
    }

    /** `get_grid_value`: the byte at `[column][row]`, `None` where the source panics. */
    function GetGridValue(column: nat, row: nat): (value: Option<bv8>)
      reads this, cells
      requires Valid()
      ensures value.Some? <==> column < FIELD_RESOLUTION && row < FIELD_RESOLUTION
      ensures value.Some? ==> value.value == cells[column, row]
    {
      if column >= cells.Length0 || row >= cells.Length1 then None else Some(cells[column, row])
    }

    /**
     * `set_grid_value`: `done` is false where the source panics, and then no
     * cell changes; otherwise a read of the same cell returns the new value
     * and every other cell reads as before.
     */
    method SetGridValue(value: bv8, column: nat, row: nat) returns (done: bool)
      requires Valid()
      modifies cells
      ensures done <==> column < FIELD_RESOLUTION && row < FIELD_RESOLUTION
      ensures done ==> GetGridValue(column, row) == Some(value)
      ensures forall c: nat, r: nat :: (c, r) != (column, row) ==> GetGridValue(c, r) == old(GetGridValue(c, r))
      ensures !done ==> unchanged(cells)
    {
      if column >= cells.Length0 || row >= cells.Length1 {
        return false;
      }
      cells[column, row] := value;
      return true;
    }

    /** `calculate`: the body only declares an unused queue, so the grid is left as it was. */
    method Calculate(source: (nat, nat), integrationFields: IntegrationFields)
      requires Valid()
      modifies cells
      ensures forall c: nat, r: nat :: GetGridValue(c, r) == old(GetGridValue(c, r))
    {
      var queue: seq<((nat, nat), U16)> := [];
    }
  }
}
