/**
  The worksheet as the readers see it through openpyxl (`data_only=True`):
  rows numbered from 1 to `max_row`, and for every row a tuple of exactly
  `max_column` cells, each holding a value, the indent of its text alignment
  and, per row, the row's hidden flag.
*/
module Sheet {
  import opened Wrappers

  /** A cell value: empty (None), text, a number, or a date (kept as the
      text `strftime('%Y-%m-%d')` gives for it). */
  datatype Value = Missing | Text(s: string) | Number(x: real) | Date(iso: string)

  /** Python truthiness of a cell value. */
  predicate Truthy(v: Value) {
    match v
    case Missing => false
    case Text(s) => s != []
    case Number(x) => x != 0.0
    case Date(_) => true
  }

  /** A value once pandas has read it: NaN (a missing value, or a
      placeholder the readers map to NaN) or the value itself. */
  datatype Reading = NaN | Got(v: Value)

  datatype Cell = Cell(value: Value, indent: nat)

  const Blank := Cell(Missing, 0)

  /** The cells stored for a row (cells past the end are blank) and whether
      the row is hidden. */
  datatype Row = Row(cells: seq<Cell>, hidden: bool)

  datatype Worksheet = Worksheet(maxColumn: nat, rows: seq<Row>)

  function MaxRow(ws: Worksheet): nat {
    |ws.rows|
  }

  /** `ws[r]` for a 1-based row number; rows past `max_row` are empty. */
  function RowAt(ws: Worksheet, r: int): Row {
    if 1 <= r <= |ws.rows| then ws.rows[r - 1] else Row([], false)
  }

  /** Python truthiness of the tuple `ws[r]`: it holds `max_column` cells. */
  predicate RowTruthy(ws: Worksheet) {
    ws.maxColumn > 0
  }

  /** `ws[r][c]` with Python indexing of the row tuple (negative indices
      count from the end); None stands for the IndexError. */
  function CellAt(ws: Worksheet, r: int, c: int): (cell: Option<Cell>)
    ensures cell.Some? <==> -(ws.maxColumn as int) <= c < ws.maxColumn
  {
    var k := if c < 0 then ws.maxColumn + c else c;
    if 0 <= k < ws.maxColumn then
      var cells := RowAt(ws, r).cells;
      Some(if k < |cells| then cells[k] else Blank)
    else None
  }

  /** `ws[r][c]` for a column index the caller knows is inside the tuple. */
  function At(ws: Worksheet, r: int, c: nat): Cell
    requires c < ws.maxColumn
  {
    CellAt(ws, r, c).value
  }

  /** `ws.cell(row=r, column=c).value` (1-based; openpyxl creates empty
      cells on demand and rejects indices below 1, None here). */
  function CellValue(ws: Worksheet, r: int, c: int): Option<Value> {
    if r < 1 || c < 1 then None
    else
      var cells := RowAt(ws, r).cells;
      Some(if c - 1 < |cells| then cells[c - 1].value else Missing)
  }
}
