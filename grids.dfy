/**
 * Storage shared by every 10 x 10 field. A field `[[T; 10]; 10]` indexed
 * `[column][row]` is kept as a sequence of 100 values in column-major order,
 * so cell `(column, row)` lives at position `column * 10 + row`.
 */
module Grids {
  import opened Geometry

  const CELL_COUNT: nat := 100

  /** Unsigned 8-bit value. */
  type U8 = x: int | 0 <= x < 256
  /** Unsigned 32-bit value. */
  type U32 = x: int | 0 <= x < 0x1_0000_0000

  /** Storage position of a cell. */
  function Index(cell: FieldCell): (i: nat)
    ensures i < CELL_COUNT
  {
    cell.column * FIELD_RESOLUTION + cell.row
  }

  /** The cell stored at position `i`; the inverse of `Index`. */
  function CellAt(i: nat): (cell: FieldCell)
    requires i < CELL_COUNT
    ensures Index(cell) == i
  {
    FieldCell(i / FIELD_RESOLUTION, i % FIELD_RESOLUTION)
  }

  lemma CellAtIndex(cell: FieldCell)
    ensures CellAt(Index(cell)) == cell
  {
  }

  /** Distinct cells are stored at distinct positions. */
  lemma IndexInjective(a: FieldCell, b: FieldCell)
    ensures Index(a) == Index(b) <==> a == b
  {
    CellAtIndex(a);
    CellAtIndex(b);
  }

  /** Every cell of a field. */
  function AllCells(): (s: set<FieldCell>)
    ensures forall c: FieldCell :: c in s
  {
    var s := set i | 0 <= i < CELL_COUNT :: CellAt(i);
    assert forall c: FieldCell :: c in s by {
      forall c: FieldCell ensures c in s {
        assert CellAt(Index(c)) == c;
      }
    }
    s
  }
}
