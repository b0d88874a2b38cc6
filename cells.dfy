/**
 * A spreadsheet cell as the sheet parser hands it to the application: nothing
 * (`undefined`/`null`), a string, or a number. Only integral numbers are modelled.
 */
module Cells {
  import opened JsText

  datatype Cell = Empty | Str(s: string) | Int(n: int)

  /** JavaScript truthiness of a cell: `undefined`, `null`, `""` and `0` are falsy. */
  predicate Truthy(c: Cell) {
    match c
    case Empty => false
    case Str(s) => s != ""
    case Int(n) => n != 0
  }

  /** `String(cell)`. */
  function ToJsString(c: Cell): (r: string)
    ensures c.Str? ==> r == c.s
    ensures c.Int? ==> r != [] && (IsDigit(r[0]) || r[0] == '-')
    ensures c.Int? ==> forall i :: 0 <= i < |r| ==> IsDigit(r[i]) || r[i] == '-'
  {
    match c
    case Empty => "undefined"
    case Str(s) => s
    case Int(n) => IntToString(n)
  }

  /** `row[i]`: an index outside the row reads `undefined`. */
  function CellAt(row: seq<Cell>, i: int): (c: Cell)
    ensures 0 <= i < |row| ==> c == row[i]
    ensures !(0 <= i < |row|) ==> c == Empty
  {
    if 0 <= i < |row| then row[i] else Empty
  }
}
