/**
 * A spreadsheet as the script sees it after it has been read: rows of
 * cells, where a cell is missing (`None`, pandas' NaN), a text, or a
 * number together with the text `str()` gives for it.
 */
module Sheets {
  import opened Options
  import opened Decimals

  datatype Cell =
    | TextCell(text: string)
    | NumberCell(value: Decimal, rendered: string)

  type Row = seq<Option<Cell>>

  /** A sheet read with a header row: the column labels and the data rows below it. */
  datatype Sheet = Sheet(labels: seq<string>, rows: seq<Row>)

  /** `str(v)` of a present cell. */
  function Str(c: Cell): string {
    match c
    case TextCell(t) => t
    case NumberCell(_, shown) => shown
  }

  /** `row.get(col)`: a column the row does not reach reads as missing. */
  function Get(row: Row, col: nat): Option<Cell> {
    if col < |row| then row[col] else None
  }
}
