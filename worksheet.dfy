/**
 * The worksheet encoder: rows of tagged cells rendered as a SpreadsheetML
 * worksheet part (ECMA-376 Part 1, section 18.3), one `<row>` per input row
 * and one `<c>` per cell, with inline strings for text.
 */
module Worksheet {
  import opened Optional
  import opened Text
  import opened ColumnName
  import opened XmlEscape

  /** The `t` attribute a cell is written with: `n` (number) or `inlineStr`. */
  datatype CellType = InlineStr | N

  /** A cell value, `string | number`; numbers are the integral ones. */
  datatype CellValue = Str(s: string) | Num(n: int)

  /** One cell: its type tag, its value and an optional index into the style palette. */
  datatype Cell = Cell(cellType: CellType, value: CellValue, styleIndex: Option<nat>)

  /** A row: its cells from the first column on, with no gaps. */
  type Row = seq<Cell>

  /** `String(value)`, which is also what `${value}` prints. */
  function ValueText(v: CellValue): string {
    match v
    case Str(s) => s
    case Num(n) => IntToString(n)
  }

  /** The A1 reference of the zero-based column `col` in the zero-based row `row`. */
  function CellRef(col: nat, row: nat): string {
    ColLetters(col) + Dec(row + 1)
  }

  /** The ` s="k"` attribute, present exactly when the cell has a style index. */
  function StyleAttr(style: Option<nat>): string {
    match style
    case Some(k) => " s=\"" + Dec(k) + "\""
    case None => ""
  }

  /** The text of a `t` attribute, closing quote included. */
  function TypeAttr(t: CellType): string {
    match t
    case N => "n\""
    case InlineStr => "inlineStr\""
  }

  /** The cell element up to and including `t="`. */
  function CellOpen(col: nat, row: nat): string {
    "<c r=\"" + CellRef(col, row) + "\" t=\""
  }

  /**
   * The content of the cell element and its end tag: a number's text goes in
   * `<v>` as it is, any other value is escaped inside `<is><t>`.
   */
  function CellPayload(cell: Cell): string {
    if cell.cellType == N then
      "<v>" + ValueText(cell.value) + "</v></c>"
    else
      "<is><t>" + EscapeXml(ValueText(cell.value)) + "</t></is></c>"
  }

  /** The `<c>` element of `cell` in column `col` of row `row`. */
  function CellXml(cell: Cell, col: nat, row: nat): string {
    CellOpen(col, row) + TypeAttr(cell.cellType) + StyleAttr(cell.styleIndex) + ">" + CellPayload(cell)
  }

  /** The cells of row `row`, the first of them in column `col`, joined. */
  function CellsXml(cells: seq<Cell>, row: nat, col: nat): string
    decreases |cells|
  {
    if cells == [] then "" else CellXml(cells[0], col, row) + CellsXml(cells[1..], row, col + 1)
  }

  /** The start tag of the row numbered `row + 1`. */
  function RowOpen(row: nat): string {
    "<row r=\"" + Dec(row + 1) + "\">"
  }

  /** The `<row>` element of the zero-based row `row`, written even when it has no cells. */
  function RowXml(cells: Row, row: nat): string {
    RowOpen(row) + CellsXml(cells, row, 0) + "</row>"
  }

  /** The rows, the first of them numbered `first + 1`, joined. */
  function RowsXml(rows: seq<Row>, first: nat): string
    decreases |rows|
  {
    if rows == [] then "" else RowXml(rows[0], first) + RowsXml(rows[1..], first + 1)
  }

  const Prolog: string :=
    "<?xml version=\"1.0\" encoding=\"UTF-8\" standalone=\"yes\"?>\n"
    + "<worksheet xmlns=\"http://schemas.openxmlformats.org/spreadsheetml/2006/main\">\n"
    + "  <sheetData>"

  const Epilog: string := "</sheetData>\n</worksheet>"

  /** `toWorksheetXml`: the worksheet part for `rows`. */
  function ToWorksheetXml(rows: seq<Row>): string {
    Prolog + RowsXml(rows, 0) + Epilog
  }

  /**
   * A cell reference is letters then a numeral without a leading zero; the
   * letters name the column and the numeral is the one-based row.
   */
  lemma CellRefShape(col: nat, row: nat)
    ensures var r, k := CellRef(col, row), |ColLetters(col)|;
      && 0 < k < |r|
      && IsLetters(r[..k]) && ColumnIndex(r[..k]) == col
      && IsDigits(r[k..]) && r[k] != '0' && ParseDec(r[k..]) == row + 1
  {
    var r, k := CellRef(col, row), |ColLetters(col)|;
    assert r[..k] == ColLetters(col) && r[k..] == Dec(row + 1);
    ColLettersRoundTrip(col);
    DecRoundTrip(row + 1);
  }

  lemma RowsXmlCons(r: Row, rest: seq<Row>, first: nat)
    ensures RowsXml([r] + rest, first) == RowXml(r, first) + RowsXml(rest, first + 1)
  {
    assert ([r] + rest)[0] == r && ([r] + rest)[1..] == rest;
  }

  /** One step of the induction below: the first row stays in front. */
  lemma RowsXmlAppendStep(rows: seq<Row>, last: Row, first: nat)
    requires rows != []
    requires RowsXml(rows[1..] + [last], first + 1) == RowsXml(rows[1..], first + 1) + RowXml(last, first + |rows|)
    ensures RowsXml(rows + [last], first) == RowsXml(rows, first) + RowXml(last, first + |rows|)
  {
    var tail := rows[1..];
    assert rows == [rows[0]] + tail && rows + [last] == [rows[0]] + (tail + [last]);
    RowsXmlCons(rows[0], tail, first);
    RowsXmlCons(rows[0], tail + [last], first);
    AppendAssoc(RowXml(rows[0], first), RowsXml(tail, first + 1), RowXml(last, first + |rows|));
  }

  /** Rows are numbered by position: appending a row adds exactly its element, numbered after the rest. */
  lemma {:induction false} RowsXmlAppend(rows: seq<Row>, last: Row, first: nat)
    ensures RowsXml(rows + [last], first) == RowsXml(rows, first) + RowXml(last, first + |rows|)
  {
    if rows == [] {
      assert rows + [last] == [last] + [];
      RowsXmlCons(last, [], first);
    } else {
      RowsXmlAppend(rows[1..], last, first + 1);
      RowsXmlAppendStep(rows, last, first);
    }
  }
}
