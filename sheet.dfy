/**
 * Loading one worksheet of participants (processSheet in the certificate
 * generator): the header row must start with the four required column names, and
 * the data rows are the later rows that carry something in one of their first
 * four cells.
 */
module Sheet {
  import opened JsText
  import opened Cells

  /** The names the first four header cells must carry, in this order. */
  const RequiredColumns: seq<string> := ["numero_secuencial", "numero_documento", "nombre_completo", "cargo"]

  /** `String(h).trim().toLowerCase() === column`. */
  predicate HeaderCellMatches(h: Cell, column: string) {
    Lower(Trim(ToJsString(h))) == column
  }

  /** The header check: there are at least four header cells and each of the first
   *  four matches its required column name. */
  predicate ValidHeader(headers: seq<Cell>) {
    |headers| >= 4 && forall k :: 0 <= k < 4 ==> HeaderCellMatches(headers[k], RequiredColumns[k])
  }

  /** A cell that is neither missing nor blank after trimming. */
  predicate CellFilled(c: Cell) {
    c != Empty && Trim(ToJsString(c)) != ""
  }

  /** The row filter: a non-empty row with at least one filled cell among its first four. */
  predicate KeepRow(row: seq<Cell>) {
    |row| > 0 && exists k :: 0 <= k < |row| && k < 4 && CellFilled(row[k])
  }

  /** `rows.filter(KeepRow)`. */
  function DataRows(rows: seq<seq<Cell>>): (r: seq<seq<Cell>>)
    ensures |r| <= |rows|
    ensures forall row :: row in r ==> row in rows && KeepRow(row)
  {
    if rows == [] then []
    else (if KeepRow(rows[0]) then [rows[0]] else []) + DataRows(rows[1..])
  }

  datatype SheetLoad =
    | EmptySheet                                         // the sheet has no rows at all
    | WrongFormat                                        // the header check failed; nothing is loaded
    | Loaded(headers: seq<Cell>, rows: seq<seq<Cell>>)   // what becomes excelHeaders and excelData

  /** processSheet: the sheet as rows of cells (blank rows already dropped by the parser). */
  function ProcessSheet(sheet: seq<seq<Cell>>): (r: SheetLoad)
    ensures r.EmptySheet? <==> sheet == []
    ensures r.Loaded? <==> sheet != [] && ValidHeader(sheet[0])
    ensures r.Loaded? ==> r.headers == sheet[0] && r.rows == DataRows(sheet[1..])
  {
    if sheet == [] then EmptySheet
    else if !ValidHeader(sheet[0]) then WrongFormat
    else Loaded(sheet[0], DataRows(sheet[1..]))
  }

  /** Every row that passes the filter is kept: the filter loses nothing. */
  lemma {:induction false} DataRowsComplete(rows: seq<seq<Cell>>, row: seq<Cell>)
    requires row in rows && KeepRow(row)
    ensures row in DataRows(rows)
  {
    if rows[0] != row {
      DataRowsComplete(rows[1..], row);
    }
  }

  /** The filter works row by row, so it keeps the source order: filtering a
   *  concatenation concatenates the filtered parts. */
  lemma {:induction false} DataRowsAppend(a: seq<seq<Cell>>, b: seq<seq<Cell>>)
    ensures DataRows(a + b) == DataRows(a) + DataRows(b)
  {
    if a == [] {
      assert a + b == b;
    } else {
      assert (a + b)[1..] == a[1..] + b;
      DataRowsAppend(a[1..], b);
    }
  }

  /** Loading again from the loaded rows keeps all of them. */
  lemma {:induction false} DataRowsIdempotent(rows: seq<seq<Cell>>)
    ensures DataRows(DataRows(rows)) == DataRows(rows)
  {
    if rows != [] {
      var tail := DataRows(rows[1..]);
      DataRowsIdempotent(rows[1..]);
      if KeepRow(rows[0]) {
        var d := [rows[0]] + tail;
        assert DataRows(rows) == d;
        assert d[0] == rows[0] && d[1..] == tail;
      } else {
        assert DataRows(rows) == [] + tail == tail;
      }
    }
  }

  /** Each required column name starts with `n` or `c`, and the only one short
   *  enough to be written with the letters of "undefined" starts with `c`. */
  lemma ColumnInitials()
    ensures forall k :: 0 <= k < 4 ==>
      && RequiredColumns[k] != []
      && (RequiredColumns[k][0] == 'n' || RequiredColumns[k][0] == 'c')
      && (|RequiredColumns[k]| > 9 || RequiredColumns[k][0] == 'c')
  {
  }

  /** A string that lowers to a non-empty name starts with a character that lowers
   *  to the name's first letter. */
  lemma LowerInitial(t: string, column: string)
    requires Lower(t) == column && column != []
    ensures t != [] && LowerChar(t[0]) == column[0]
  {
    assert |t| == |column|;
    assert Lower(t)[0] == LowerChar(t[0]);
  }

  /** The first character of a matching header cell, once trimmed, is the lower- or
   *  upper-case initial of the column name (`n` or `c`). */
  lemma HeaderCellInitial(h: Cell, k: nat)
    requires k < 4 && HeaderCellMatches(h, RequiredColumns[k])
    ensures var t := Trim(ToJsString(h)); t != [] && (LowerChar(t[0]) == 'n' || LowerChar(t[0]) == 'c')
  {
    ColumnInitials();
    LowerInitial(Trim(ToJsString(h)), RequiredColumns[k]);
  }

  /** A missing cell reads "undefined" and a number reads as digits, so neither
   *  matches a name that starts with `n` or `c` and is either longer than nine
   *  characters or starts with `c`. */
  lemma NonStringNeverMatches(h: Cell, column: string)
    requires !h.Str? && column != [] && (column[0] == 'n' || column[0] == 'c')
    requires |column| > 9 || column[0] == 'c'
    ensures !HeaderCellMatches(h, column)
  {
    var text := ToJsString(h);
    var t := Trim(text);
    if t != [] {
      assert t[0] in text;
      if h.Empty? {
        assert text == "undefined";
        assert |Lower(t)| <= 9;
        assert LowerChar(t[0]) != 'c';
      } else {
        assert IsDigit(t[0]) || t[0] == '-';
      }
      assert Lower(t)[0] == LowerChar(t[0]);
    }
  }

  /** Only string cells pass the header check: missing cells and numbers are refused. */
  lemma ValidHeaderHasStrings(headers: seq<Cell>)
    requires ValidHeader(headers)
    ensures forall k :: 0 <= k < 4 ==> headers[k].Str?
  {
    ColumnInitials();
    forall k | 0 <= k < 4
      ensures headers[k].Str?
    {
      if !headers[k].Str? {
        NonStringNeverMatches(headers[k], RequiredColumns[k]);
      }
    }
  }
}
