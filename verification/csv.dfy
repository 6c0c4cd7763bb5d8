/**
 Reading a delimited file (`parseTable` in `csv-import.ts`).  `Parse` is the
 character-by-character reader as a function of what it has read so far; the
 writer below it is any writer that follows section 2 of RFC 4180 with one
 kind of line ending.
 */
module Csv {

  const QUOTE := '\"'
  const CR := '\r'
  const LF := '\n'

  type Table = seq<seq<string>>

  /** What the reader holds between two characters. */
  datatype Reader = Reader(rows: Table, row: seq<string>, field: string, quoted: bool)

  const START := Reader([], [], "", false)

  function EndField(r: Reader): Reader {
    r.(row := r.row + [r.field], field := "")
  }

  function EndRow(r: Reader): Reader {
    Reader(r.rows + [r.row + [r.field]], [], "", r.quoted)
  }

  function EndText(r: Reader): Table {
    if r.quoted || r.field != "" || |r.row| > 0 then r.rows + [r.row + [r.field]] else r.rows
  }

  /** Whether the second character of `text` is `c`. */
  predicate Then(text: string, c: char) {
    |text| > 1 && text[1] == c
  }

  function Parse(text: string, delimiter: char, r: Reader): Table
    decreases |text|
  {
    if text == "" then EndText(r)
    else if r.quoted then
      if text[0] == QUOTE then
        if Then(text, QUOTE) then Parse(text[2..], delimiter, r.(field := r.field + [QUOTE]))
        else Parse(text[1..], delimiter, r.(quoted := false))
      else Parse(text[1..], delimiter, r.(field := r.field + [text[0]]))
    else if text[0] == QUOTE then Parse(text[1..], delimiter, r.(quoted := true))
    else if text[0] == delimiter then Parse(text[1..], delimiter, EndField(r))
    else if text[0] == LF then Parse(text[1..], delimiter, EndRow(r))
    else if text[0] == CR then Parse(text[if Then(text, LF) then 2 else 1..], delimiter, EndRow(r))
    else Parse(text[1..], delimiter, r.(field := r.field + [text[0]]))
  }

  method ParseTable(text: string, delimiter: char) returns (rows: Table)
    ensures rows == Parse(text, delimiter, START)
  {
    rows := [];
    var row: seq<string> := [];
    var field := "";
    var quoted := false;
    var index := 0;
    assert text[0..] == text;
    while index < |text|
      invariant index <= |text|
      invariant Parse(text[index..], delimiter, Reader(rows, row, field, quoted)) == Parse(text, delimiter, START)
    {
      ghost var rest := text[index..];
      assert rest[1..] == text[index + 1..] && (|rest| > 1 ==> rest[2..] == text[index + 2..]);
      var c := text[index];
      if quoted {
        if c == QUOTE {
          if index + 1 < |text| && text[index + 1] == QUOTE {
            field := field + [QUOTE];
            index := index + 1;
          } else {
            quoted := false;
          }
        } else {
          field := field + [c];
        }
      } else if c == QUOTE {
        quoted := true;
      } else if c == delimiter {
        row := row + [field];
        field := "";
      } else if c == LF {
        rows := rows + [row + [field]];
        row := [];
        field := "";
      } else if c == CR {
        rows := rows + [row + [field]];
        row := [];
        field := "";
        if index + 1 < |text| && text[index + 1] == LF {
          index := index + 1;
        }
      } else {
        field := field + [c];
      }
      index := index + 1;
    }
    if quoted || field != "" || |row| > 0 {
      rows := rows + [row + [field]];
    }
  }

  // ------------------------------------------------------------------ the writer

  /** A field and whether the writer puts it in quotes. */
  datatype Cell = Cell(value: string, quoted: bool)

  predicate Special(c: char, delimiter: char) {
    c == delimiter || c == QUOTE || c == CR || c == LF
  }

  ghost predicate Plain(value: string, delimiter: char) {
    forall i :: 0 <= i < |value| ==> !Special(value[i], delimiter)
  }

  /** Fields that hold a delimiter, a quote or a line break are quoted; others may be. */
  ghost predicate Legal(cell: Cell, delimiter: char) {
    cell.quoted || Plain(cell.value, delimiter)
  }

  function Doubled(value: string): string {
    if value == "" then ""
    else (if value[0] == QUOTE then [QUOTE, QUOTE] else [value[0]]) + Doubled(value[1..])
  }

  function Show(cell: Cell): string {
    if cell.quoted then [QUOTE] + Doubled(cell.value) + [QUOTE] else cell.value
  }

  function ShowRow(row: seq<Cell>, delimiter: char): string {
    if row == [] then ""
    else if |row| == 1 then Show(row[0])
    else Show(row[0]) + [delimiter] + ShowRow(row[1..], delimiter)
  }

  function ShowTable(table: seq<seq<Cell>>, delimiter: char, eol: string): string {
    if table == [] then "" else ShowRow(table[0], delimiter) + eol + ShowTable(table[1..], delimiter, eol)
  }

  function Values(row: seq<Cell>): seq<string> {
    seq(|row|, i requires 0 <= i < |row| => row[i].value)
  }

  function AllValues(table: seq<seq<Cell>>): Table {
    seq(|table|, i requires 0 <= i < |table| => Values(table[i]))
  }

  predicate LineEnding(eol: string) {
    eol == [LF] || eol == [CR] || eol == [CR, LF]
  }

  predicate Delimiter(c: char) {
    c != QUOTE && c != CR && c != LF
  }

  ghost predicate LegalRow(row: seq<Cell>, delimiter: char) {
    row != [] && forall j :: 0 <= j < |row| ==> Legal(row[j], delimiter)
  }

  ghost predicate Writable(table: seq<seq<Cell>>, delimiter: char) {
    forall i :: 0 <= i < |table| ==> LegalRow(table[i], delimiter)
  }

  // -------------------------------------------------------------- reading it back

  lemma {:induction false} ReadPlain(value: string, rest: string, delimiter: char, r: Reader)
    requires Plain(value, delimiter) && !r.quoted
    ensures Parse(value + rest, delimiter, r) == Parse(rest, delimiter, r.(field := r.field + value))
  {
    if value == "" {
      assert value + rest == rest && r.field + value == r.field;
    } else {
      assert (value + rest)[1..] == value[1..] + rest;
      ReadPlain(value[1..], rest, delimiter, r.(field := r.field + [value[0]]));
      assert r.field + [value[0]] + value[1..] == r.field + value;
    }
  }

  lemma {:induction false} ReadDoubled(value: string, rest: string, delimiter: char, r: Reader)
    requires r.quoted && (rest == "" || rest[0] != QUOTE)
    ensures Parse(Doubled(value) + [QUOTE] + rest, delimiter, r) ==
            Parse(rest, delimiter, r.(field := r.field + value, quoted := false))
  {
    var text := Doubled(value) + [QUOTE] + rest;
    if value == "" {
      assert text[1..] == rest && r.field + value == r.field;
    } else {
      var after := Doubled(value[1..]) + [QUOTE] + rest;
      assert if value[0] == QUOTE then text[2..] == after else text[1..] == after;
      ReadDoubled(value[1..], rest, delimiter, r.(field := r.field + [value[0]]));
      assert r.field + [value[0]] + value[1..] == r.field + value;
    }
  }

  lemma QuoteOpens(rest: string, delimiter: char, r: Reader)
    requires !r.quoted
    ensures Parse([QUOTE] + rest, delimiter, r) == Parse(rest, delimiter, r.(quoted := true))
  {
    assert ([QUOTE] + rest)[1..] == rest;
  }

  /** Some more of a field is read whatever its quoting, if what follows cannot be taken for more of it. */
  lemma ReadPiece(cell: Cell, rest: string, delimiter: char, r: Reader)
    requires Legal(cell, delimiter) && !r.quoted && (cell.quoted ==> rest == "" || rest[0] != QUOTE)
    ensures Parse(Show(cell) + rest, delimiter, r) == Parse(rest, delimiter, r.(field := r.field + cell.value))
  {
    hide Parse, Doubled, Plain;
    if cell.quoted {
      var after := Doubled(cell.value) + [QUOTE] + rest;
      assert Show(cell) + rest == [QUOTE] + after;
      QuoteOpens(after, delimiter, r);
      ReadDoubled(cell.value, rest, delimiter, r.(quoted := true));
    } else {
      ReadPlain(cell.value, rest, delimiter, r);
    }
  }

  /** Pieces of one field, quoted or not, of which no two quoted ones touch. */
  ghost predicate Pieces(pieces: seq<Cell>, delimiter: char) {
    && (forall i :: 0 <= i < |pieces| ==> Legal(pieces[i], delimiter))
    && forall i :: 0 <= i < |pieces| - 1 && pieces[i].quoted ==> !pieces[i + 1].quoted && pieces[i + 1].value != ""
  }

  function ShowPieces(pieces: seq<Cell>): string {
    if pieces == [] then "" else Show(pieces[0]) + ShowPieces(pieces[1..])
  }

  function Together(pieces: seq<Cell>): string {
    if pieces == [] then "" else pieces[0].value + Together(pieces[1..])
  }

  /** Quotes may open and close anywhere in a field, which is what its pieces are together. */
  lemma {:induction false} QuotesAnywhere(pieces: seq<Cell>, rest: string, delimiter: char, r: Reader)
    requires Pieces(pieces, delimiter) && !r.quoted && (rest == "" || rest[0] != QUOTE)
    ensures Parse(ShowPieces(pieces) + rest, delimiter, r) ==
            Parse(rest, delimiter, r.(field := r.field + Together(pieces)))
  {
    hide Parse, Show, Legal;
    if pieces == [] {
      assert ShowPieces(pieces) + rest == rest && r.field + "" == r.field;
    } else {
      var value, after := pieces[0].value, ShowPieces(pieces[1..]) + rest;
      assert ShowPieces(pieces) + rest == Show(pieces[0]) + after;
      if pieces[0].quoted {
        NoQuoteFirst(pieces, rest, delimiter);
      }
      ReadPiece(pieces[0], after, delimiter, r);
      QuotesAnywhere(pieces[1..], rest, delimiter, r.(field := r.field + value));
      assert r.field + value + Together(pieces[1..]) == r.field + (value + Together(pieces[1..]));
    }
  }

  lemma NoQuoteFirst(pieces: seq<Cell>, rest: string, delimiter: char)
    requires Pieces(pieces, delimiter) && pieces != [] && pieces[0].quoted && (rest == "" || rest[0] != QUOTE)
    ensures var after := ShowPieces(pieces[1..]) + rest; after == "" || after[0] != QUOTE
  {
    if |pieces| > 1 {
      assert pieces[1] == pieces[1..][0] && !Special(pieces[1].value[0], delimiter);
    }
  }

  /** A quote that is never closed takes the rest of the text into the field. */
  lemma {:induction false} UnclosedQuote(value: string, delimiter: char, r: Reader)
    requires r.quoted
    ensures Parse(Doubled(value), delimiter, r) == r.rows + [r.row + [r.field + value]]
  {
    if value == "" {
      assert r.field + "" == r.field;
    } else {
      var text := Doubled(value);
      assert if value[0] == QUOTE then text[2..] == Doubled(value[1..]) else text[1..] == Doubled(value[1..]);
      UnclosedQuote(value[1..], delimiter, r.(field := r.field + [value[0]]));
      assert r.field + [value[0]] + value[1..] == r.field + value;
    }
  }

  /** A field is read back whatever its quoting. */
  lemma ReadCell(cell: Cell, rest: string, delimiter: char, r: Reader)
    requires Legal(cell, delimiter) && !r.quoted && r.field == "" && (rest == "" || rest[0] != QUOTE)
    ensures Parse(Show(cell) + rest, delimiter, r) == Parse(rest, delimiter, r.(field := cell.value))
  {
    ReadPiece(cell, rest, delimiter, r);
    assert "" + cell.value == cell.value;
  }

  /** The reader at the end of a row that it started in state `r`. */
  function AtEnd(r: Reader, row: seq<Cell>): Reader
    requires row != []
    decreases |row|
  {
    if |row| == 1 then r.(field := row[0].value)
    else AtEnd(r.(row := r.row + [row[0].value]), row[1..])
  }

  lemma {:induction false} AtEndHoldsRow(r: Reader, row: seq<Cell>)
    requires row != [] && r.field == ""
    ensures AtEnd(r, row).rows == r.rows && AtEnd(r, row).quoted == r.quoted
    ensures AtEnd(r, row).row + [AtEnd(r, row).field] == r.row + Values(row)
    ensures |AtEnd(r, row).row| == |r.row| + |row| - 1
    decreases |row|
  {
    if |row| > 1 {
      AtEndHoldsRow(r.(row := r.row + [row[0].value]), row[1..]);
      assert [row[0].value] + Values(row[1..]) == Values(row);
      assert r.row + [row[0].value] + Values(row[1..]) == r.row + ([row[0].value] + Values(row[1..]));
    }
  }

  /** A row up to, but without, its line ending. */
  lemma {:induction false} ReadRow(row: seq<Cell>, rest: string, delimiter: char, r: Reader)
    requires LegalRow(row, delimiter) && Delimiter(delimiter)
    requires !r.quoted && r.field == "" && (rest == "" || rest[0] != QUOTE)
    ensures Parse(ShowRow(row, delimiter) + rest, delimiter, r) == Parse(rest, delimiter, AtEnd(r, row))
  {
    hide Show, Legal;
    if |row| == 1 {
      ReadCell(row[0], rest, delimiter, r);
    } else {
      var after := ShowRow(row[1..], delimiter) + rest;
      assert ShowRow(row, delimiter) + rest == Show(row[0]) + ([delimiter] + after);
      ReadCell(row[0], [delimiter] + after, delimiter, r);
      ReadDelimiter(after, delimiter, r.(field := row[0].value));
      ReadRow(row[1..], rest, delimiter, r.(row := r.row + [row[0].value]));
    }
  }

  lemma ReadDelimiter(rest: string, delimiter: char, r: Reader)
    requires Delimiter(delimiter) && !r.quoted
    ensures Parse([delimiter] + rest, delimiter, r) == Parse(rest, delimiter, EndField(r))
  {
    assert ([delimiter] + rest)[1..] == rest;
  }

  lemma ReadLineEnding(eol: string, rest: string, delimiter: char, r: Reader)
    requires LineEnding(eol) && Delimiter(delimiter) && !r.quoted
    requires eol == [CR] ==> rest == "" || rest[0] != LF
    ensures Parse(eol + rest, delimiter, r) == Parse(rest, delimiter, EndRow(r))
  {
    var text := eol + rest;
    assert text[|eol|..] == rest;
  }

  /** What a written row and a written table can begin with. */
  lemma RowNoLineFeed(row: seq<Cell>, delimiter: char)
    requires Delimiter(delimiter) && (row == [] || LegalRow(row, delimiter))
    ensures ShowRow(row, delimiter) == "" || ShowRow(row, delimiter)[0] != LF
  {
    if row != [] && !row[0].quoted && row[0].value != "" {
      assert !Special(row[0].value[0], delimiter);
    }
  }

  lemma NoStrayLineFeed(table: seq<seq<Cell>>, last: seq<Cell>, delimiter: char)
    requires Writable(table, delimiter) && Delimiter(delimiter) && (last == [] || LegalRow(last, delimiter))
    ensures var text := ShowTable(table, delimiter, [CR]) + ShowRow(last, delimiter);
            text == "" || text[0] != LF
  {
    hide ShowRow, Legal;
    RowNoLineFeed(last, delimiter);
    if table != [] {
      RowNoLineFeed(table[0], delimiter);
    }
  }

  /** One row with its line ending. */
  lemma ReadRowAndEnding(row: seq<Cell>, rest: string, delimiter: char, eol: string, rows: Table)
    requires LegalRow(row, delimiter) && Delimiter(delimiter) && LineEnding(eol)
    requires eol == [CR] ==> rest == "" || rest[0] != LF
    ensures Parse(ShowRow(row, delimiter) + eol + rest, delimiter, Reader(rows, [], "", false)) ==
            Parse(rest, delimiter, Reader(rows + [Values(row)], [], "", false))
  {
    hide Parse, ShowRow, Values, AtEnd;
    var r := Reader(rows, [], "", false);
    assert ShowRow(row, delimiter) + eol + rest == ShowRow(row, delimiter) + (eol + rest);
    ReadRow(row, eol + rest, delimiter, r) by { assert (eol + rest)[0] == eol[0]; }
    AtEndHoldsRow(r, row);
    ReadLineEnding(eol, rest, delimiter, AtEnd(r, row));
    assert [] + Values(row) == Values(row);
  }

  /** The rows in front of a last, possibly empty, unfinished one. */
  lemma {:induction false} ReadRows(table: seq<seq<Cell>>, last: seq<Cell>, delimiter: char, eol: string, rows: Table)
    requires Writable(table, delimiter) && Delimiter(delimiter) && LineEnding(eol)
    requires last == [] || LegalRow(last, delimiter)
    ensures Parse(ShowTable(table, delimiter, eol) + ShowRow(last, delimiter), delimiter,
                  Reader(rows, [], "", false)) ==
            Parse(ShowRow(last, delimiter), delimiter, Reader(rows + AllValues(table), [], "", false))
  {
    hide Parse, ShowRow, LegalRow, Values, LineEnding;
    var end := ShowRow(last, delimiter);
    if table == [] {
      assert ShowTable(table, delimiter, eol) + end == end;
      assert rows + AllValues(table) == rows;
    } else {
      var after := ShowTable(table[1..], delimiter, eol) + end;
      assert ShowTable(table, delimiter, eol) + end == ShowRow(table[0], delimiter) + eol + after;
      if eol == [CR] {
        NoStrayLineFeed(table[1..], last, delimiter);
      }
      ReadRowAndEnding(table[0], after, delimiter, eol, rows);
      ReadRows(table[1..], last, delimiter, eol, rows + [Values(table[0])]);
      assert rows + [Values(table[0])] + AllValues(table[1..]) == rows + AllValues(table);
    }
  }

  /** Main result: a table with no empty row, written with any delimiter, any line ending and any
      legal quoting, is read back unchanged. */
  lemma RoundTrip(table: seq<seq<Cell>>, delimiter: char, eol: string)
    requires Writable(table, delimiter) && Delimiter(delimiter) && LineEnding(eol)
    ensures Parse(ShowTable(table, delimiter, eol), delimiter, START) == AllValues(table)
  {
    hide ShowTable, AllValues, Writable, LineEnding;
    ReadRows(table, [], delimiter, eol, []);
    assert ShowTable(table, delimiter, eol) + "" == ShowTable(table, delimiter, eol);
    assert [] + AllValues(table) == AllValues(table);
  }

  /** What the end of the text makes of a row without a line ending. */
  lemma EndOfLastRow(last: seq<Cell>, delimiter: char, rows: Table)
    requires LegalRow(last, delimiter) && Delimiter(delimiter)
    ensures Parse(ShowRow(last, delimiter), delimiter, Reader(rows, [], "", false)) ==
            if Values(last) == [""] then rows else rows + [Values(last)]
  {
    hide ShowRow, Values, AtEnd;
    var r := Reader(rows, [], "", false);
    assert ShowRow(last, delimiter) + "" == ShowRow(last, delimiter);
    ReadRow(last, "", delimiter, r);
    AtEndHoldsRow(r, last);
    var end := AtEnd(r, last);
    assert end.row + [end.field] == Values(last);
    assert end.row == [] ==> end.row + [end.field] == [end.field];
    assert Values(last) == [""] <==> end.row == [] && end.field == "";
  }

  /** Without the line ending after the last row the table is read back exactly when that row is
      not a single empty field; otherwise the row is lost. */
  lemma RoundTripWithoutLastEnding(table: seq<seq<Cell>>, last: seq<Cell>, delimiter: char, eol: string)
    requires Writable(table, delimiter) && Delimiter(delimiter) && LineEnding(eol) && LegalRow(last, delimiter)
    ensures Parse(ShowTable(table, delimiter, eol) + ShowRow(last, delimiter), delimiter, START) ==
            if Values(last) == [""] then AllValues(table) else AllValues(table) + [Values(last)]
  {
    hide Parse, ShowTable, ShowRow, AllValues, Values, Writable, LegalRow, LineEnding, Delimiter;
    ReadRows(table, last, delimiter, eol, []);
    assert [] + AllValues(table) == AllValues(table);
    EndOfLastRow(last, delimiter, AllValues(table));
  }

  // ------------------------------------------------------- the repository's own writer

  /** A field as the Batch export writes it: quoted if it has to be, or if it is the whole row and empty. */
  function Exported(row: seq<string>, j: nat): Cell
    requires j < |row|
  {
    Cell(row[j], row == [""] || exists i :: 0 <= i < |row[j]| && Special(row[j][i], ','))
  }

  function ExportedRow(row: seq<string>): seq<Cell> {
    seq(|row|, j requires 0 <= j < |row| => Exported(row, j))
  }

  function ExportedTable(table: Table): seq<seq<Cell>> {
    seq(|table|, i requires 0 <= i < |table| => ExportedRow(table[i]))
  }

  function AsCsv(table: Table): string {
    ShowTable(ExportedTable(table), ',', [CR, LF])
  }

  /** A table exported by the Batch page and read in again is the same table. */
  lemma ExportIsReadBack(table: Table)
    requires forall i :: 0 <= i < |table| ==> table[i] != []
    ensures Parse(AsCsv(table), ',', START) == table
  {
    hide Parse, ShowTable;
    var cells := ExportedTable(table);
    forall i | 0 <= i < |table| ensures LegalRow(cells[i], ',') && Values(cells[i]) == table[i] {
      assert cells[i] == ExportedRow(table[i]);
    }
    RoundTrip(cells, ',', [CR, LF]);
    assert AllValues(cells) == table;
  }
}
