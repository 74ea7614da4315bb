/** Spreadsheet cells as the workbook reader hands them over. */
module Cells {

  /** A cell value: text, a number, or nothing (`None`). Numbers are whole
      numbers in this model. */
  datatype Cell = Str(text: string) | Num(n: int) | Empty

  /** `v in (None, "")`: the cell counts as blank when rows are skipped. */
  predicate IsBlankCell(c: Cell) { c == Empty || c == Str("") }

  predicate IsBlankRow(row: seq<Cell>) {
    forall c :: 0 <= c < |row| ==> IsBlankCell(row[c])
  }

  /** `ws.cell(row, column)` on a row that may be shorter than the sheet:
      cells past the row's end are empty. */
  function CellAt(row: seq<Cell>, c: nat): Cell {
    if c < |row| then row[c] else Empty
  }
}
