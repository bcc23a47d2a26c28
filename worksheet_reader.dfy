/**
 * A reader for the worksheet parts the encoder writes: it walks the rows and
 * cells, checks every row number and cell reference against the position,
 * and recovers each cell's type, text and style. Reading back what the
 * encoder wrote gives the rows it was given.
 */
module WorksheetReader {
  import opened Optional
  import opened Text
  import opened XmlEscape
  import opened Worksheet

  /** What a reader sees of a cell: its type, its text (entities decoded) and its style. */
  datatype CellView = CellView(cellType: CellType, text: string, styleIndex: Option<nat>)

  function ViewOf(cell: Cell): CellView {
    CellView(cell.cellType, ValueText(cell.value), cell.styleIndex)
  }

  function RowView(cells: seq<Cell>): (r: seq<CellView>)
    ensures |r| == |cells|
    ensures forall j :: 0 <= j < |cells| ==> r[j] == ViewOf(cells[j])
  {
    if cells == [] then [] else [ViewOf(cells[0])] + RowView(cells[1..])
  }

  function SheetView(rows: seq<Row>): (r: seq<seq<CellView>>)
    ensures |r| == |rows|
    ensures forall i :: 0 <= i < |rows| ==> r[i] == RowView(rows[i])
  {
    if rows == [] then [] else [RowView(rows[0])] + SheetView(rows[1..])
  }

  predicate NoLt(s: string) {
    forall i :: 0 <= i < |s| ==> s[i] != '<'
  }

  /**
   * A number cell's text is written into `<v>` without escaping; it can be
   * read back only when it holds no `<`, as the text of an integer never does.
   */
  predicate CellReadable(cell: Cell) {
    cell.cellType == N ==> NoLt(ValueText(cell.value))
  }

  predicate RowsReadable(rows: seq<Row>) {
    forall i, j :: 0 <= i < |rows| && 0 <= j < |rows[i]| ==> CellReadable(rows[i][j])
  }

  /** The length of the longest prefix of `s` without `<`. */
  function TextRun(s: string): (n: nat)
    ensures n <= |s| && NoLt(s[..n]) && (n < |s| ==> s[n] == '<')
  {
    if s == [] || s[0] == '<' then 0 else 1 + TextRun(s[1..])
  }

  /** The length of the longest prefix of `s` made of decimal digits. */
  function DigitRun(s: string): (n: nat)
    ensures n <= |s| && IsDigits(s[..n]) && (n < |s| ==> !IsDigit(s[n]))
  {
    if s == [] || !IsDigit(s[0]) then 0 else 1 + DigitRun(s[1..])
  }

  function ReadType(s: string): (r: Option<(CellType, string)>)
    ensures r.Some? ==> |r.value.1| < |s|
  {
    if StartsWith(s, "n\"") then Some((N, s[2..]))
    else if StartsWith(s, "inlineStr\"") then Some((InlineStr, s[10..]))
    else None
  }

  function ReadStyle(s: string): (r: Option<(Option<nat>, string)>)
    ensures r.Some? ==> |r.value.1| <= |s|
  {
    if StartsWith(s, " s=\"") then
      var t := s[4..];
      var k := DigitRun(t);
      if 0 < k < |t| && t[k] == '"' then Some((Some(ParseDec(t[..k])), t[k + 1..])) else None
    else
      Some((None, s))
  }

  /** The cell's text and what follows its end tag. */
  function ReadPayload(t: CellType, s: string): (r: Option<(string, string)>)
    ensures r.Some? ==> |r.value.1| < |s|
  {
    if t == N then
      if StartsWith(s, "<v>") then
        var body := s[3..];
        var k := TextRun(body);
        if StartsWith(body[k..], "</v></c>") then Some((body[..k], body[k + 8..])) else None
      else None
    else
      if StartsWith(s, "<is><t>") then
        var body := s[7..];
        var k := TextRun(body);
        if StartsWith(body[k..], "</t></is></c>") then Some((Unescape(body[..k]), body[k + 13..])) else None
      else None
  }

  /** One `<c>` element, which must carry the reference of column `col` in row `row`. */
  function ReadCell(s: string, col: nat, row: nat): (r: Option<(CellView, string)>)
    ensures r.Some? ==> |r.value.1| < |s|
  {
    var open := CellOpen(col, row);
    if !StartsWith(s, open) then None
    else match ReadType(s[|open|..])
      case None => None
      case Some((t, s1)) =>
        match ReadStyle(s1)
        case None => None
        case Some((style, s2)) =>
          if !StartsWith(s2, ">") then None
          else match ReadPayload(t, s2[1..])
            case None => None
            case Some((text, rest)) => Some((CellView(t, text, style), rest))
  }

  /** The cells of row `row` from column `col` on, up to and including `</row>`. */
  function ReadCells(s: string, row: nat, col: nat): (r: Option<(seq<CellView>, string)>)
    ensures r.Some? ==> |r.value.1| < |s|
    decreases |s|
  {
    if StartsWith(s, "</row>") then Some(([], s[6..]))
    else match ReadCell(s, col, row)
      case None => None
      case Some((cell, s1)) =>
        match ReadCells(s1, row, col + 1)
        case None => None
        case Some((cells, rest)) => Some(([cell] + cells, rest))
  }

  /** The rows from the one numbered `row + 1` on, up to the end of `s`. */
  function ReadRows(s: string, row: nat): Option<seq<seq<CellView>>>
    decreases |s|
  {
    if s == [] then Some([])
    else if !StartsWith(s, RowOpen(row)) then None
    else match ReadCells(s[|RowOpen(row)|..], row, 0)
      case None => None
      case Some((cells, rest)) =>
        match ReadRows(rest, row + 1)
        case None => None
        case Some(more) => Some([cells] + more)
  }

  /** A whole worksheet part: the fixed prolog, the rows, the fixed epilog. */
  function ReadWorksheet(xml: string): Option<seq<seq<CellView>>> {
    if |Prolog| + |Epilog| <= |xml| && StartsWith(xml, Prolog) && xml[|xml| - |Epilog|..] == Epilog
    then ReadRows(xml[|Prolog|..|xml| - |Epilog|], 0)
    else None
  }

  lemma {:induction false} TextRunOf(t: string, u: string)
    requires NoLt(t) && u != [] && u[0] == '<'
    ensures TextRun(t + u) == |t|
  {
    if t == [] {
      assert t + u == u;
    } else {
      assert (t + u)[0] == t[0] && (t + u)[1..] == t[1..] + u;
      TextRunOf(t[1..], u);
    }
  }

  lemma {:induction false} DigitRunOf(t: string, u: string)
    requires IsDigits(t) && u != [] && !IsDigit(u[0])
    ensures DigitRun(t + u) == |t|
  {
    if t == [] {
      assert t + u == u;
    } else {
      assert (t + u)[0] == t[0] && (t + u)[1..] == t[1..] + u;
      DigitRunOf(t[1..], u);
    }
  }

  lemma ReadTypeOf(t: CellType, rest: string)
    ensures ReadType(TypeAttr(t) + rest) == Some((t, rest))
  {
    StartsWithAppend(TypeAttr(t), rest);
    assert (TypeAttr(t) + rest)[0] == TypeAttr(t)[0];
  }

  lemma ReadStyleOf(style: Option<nat>, rest: string)
    requires rest != [] && rest[0] == '>'
    ensures ReadStyle(StyleAttr(style) + rest) == Some((style, rest))
  {
    var s := StyleAttr(style) + rest;
    match style
    case None =>
      assert s == rest;
    case Some(k) =>
      var d := Dec(k);
      assert s == " s=\"" + (d + ("\"" + rest));
      StartsWithAppend(" s=\"", d + ("\"" + rest));
      var t := s[4..];
      DigitRunOf(d, "\"" + rest);
      assert t[..|d|] == d && t[|d|] == '"' && t[|d| + 1..] == rest;
      DecRoundTrip(k);
  }

  lemma ReadPayloadOf(cell: Cell, rest: string)
    requires CellReadable(cell)
    ensures ReadPayload(cell.cellType, CellPayload(cell) + rest) == Some((ValueText(cell.value), rest))
  {
    var text := ValueText(cell.value);
    if cell.cellType == N {
      var s := CellPayload(cell) + rest;
      assert s == "<v>" + (text + ("</v></c>" + rest));
      StartsWithAppend("<v>", text + ("</v></c>" + rest));
      TextRunOf(text, "</v></c>" + rest);
      StartsWithAppend(text, "</v></c>" + rest);
      StartsWithAppend("</v></c>", rest);
    } else {
      var e := EscapeXml(text);
      EscapeXmlClean(text);
      var s := CellPayload(cell) + rest;
      assert s == "<is><t>" + (e + ("</t></is></c>" + rest));
      StartsWithAppend("<is><t>", e + ("</t></is></c>" + rest));
      TextRunOf(e, "</t></is></c>" + rest);
      StartsWithAppend(e, "</t></is></c>" + rest);
      StartsWithAppend("</t></is></c>", rest);
      UnescapeEscapeXml(text);
    }
  }

  lemma ReadCellStep(s: string, col: nat, row: nat, t: CellType, s1: string, style: Option<nat>,
                     s2: string, text: string, rest: string)
    requires StartsWith(s, CellOpen(col, row)) && ReadType(s[|CellOpen(col, row)|..]) == Some((t, s1))
    requires ReadStyle(s1) == Some((style, s2)) && StartsWith(s2, ">")
    requires ReadPayload(t, s2[1..]) == Some((text, rest))
    ensures ReadCell(s, col, row) == Some((CellView(t, text, style), rest))
  {
  }

  lemma CellXmlParts(cell: Cell, col: nat, row: nat, rest: string)
    ensures CellXml(cell, col, row) + rest
         == CellOpen(col, row) + (TypeAttr(cell.cellType) + (StyleAttr(cell.styleIndex) + (">" + (CellPayload(cell) + rest))))
  {
    var open, ty, st, pl := CellOpen(col, row), TypeAttr(cell.cellType), StyleAttr(cell.styleIndex), CellPayload(cell);
    var t := pl + rest;
    AppendAssoc(open + ty + st + ">", pl, rest);
    AppendAssoc(open + ty + st, ">", t);
    AppendAssoc(open + ty, st, ">" + t);
    AppendAssoc(open, ty, st + (">" + t));
  }

  lemma ReadCellOf(cell: Cell, col: nat, row: nat, rest: string)
    requires CellReadable(cell)
    ensures ReadCell(CellXml(cell, col, row) + rest, col, row) == Some((ViewOf(cell), rest))
  {
    var open, ty, st, pl := CellOpen(col, row), TypeAttr(cell.cellType), StyleAttr(cell.styleIndex), CellPayload(cell);
    var s := CellXml(cell, col, row) + rest;
    var s2 := ">" + (pl + rest);
    var s1 := st + s2;
    CellXmlParts(cell, col, row, rest);
    StartsWithAppend(open, ty + s1);
    ReadTypeOf(cell.cellType, s1);
    ReadStyleOf(cell.styleIndex, s2);
    StartsWithAppend(">", pl + rest);
    ReadPayloadOf(cell, rest);
    ReadCellStep(s, col, row, cell.cellType, s1, cell.styleIndex, s2, ValueText(cell.value), rest);
  }

  lemma CellXmlStart(cell: Cell, col: nat, row: nat, rest: string)
    ensures var s := CellXml(cell, col, row) + rest; |s| > 1 && s[1] == 'c' && !StartsWith(s, "</row>")
  {
    var s := CellXml(cell, col, row) + rest;
    assert CellXml(cell, col, row)[1] == CellOpen(col, row)[1] == 'c';
    assert s[1] == 'c';
  }

  lemma ReadCellsStep(s: string, row: nat, col: nat, cell: CellView, s1: string, cells: seq<CellView>, rest: string)
    requires !StartsWith(s, "</row>")
    requires ReadCell(s, col, row) == Some((cell, s1))
    requires ReadCells(s1, row, col + 1) == Some((cells, rest))
    ensures ReadCells(s, row, col) == Some(([cell] + cells, rest))
  {
  }

  lemma CellsXmlSplit(cells: seq<Cell>, row: nat, col: nat, rest: string)
    requires cells != []
    ensures CellsXml(cells, row, col) + "</row>" + rest
         == CellXml(cells[0], col, row) + (CellsXml(cells[1..], row, col + 1) + "</row>" + rest)
  {
  }

  lemma {:induction false} ReadCellsOf(cells: seq<Cell>, row: nat, col: nat, rest: string)
    requires forall j :: 0 <= j < |cells| ==> CellReadable(cells[j])
    ensures ReadCells(CellsXml(cells, row, col) + "</row>" + rest, row, col) == Some((RowView(cells), rest))
  {
    var s := CellsXml(cells, row, col) + "</row>" + rest;
    if cells == [] {
      assert s == "</row>" + rest;
      StartsWithAppend("</row>", rest);
    } else {
      var tail := CellsXml(cells[1..], row, col + 1) + "</row>" + rest;
      CellsXmlSplit(cells, row, col, rest);
      CellXmlStart(cells[0], col, row, tail);
      ReadCellOf(cells[0], col, row, tail);
      ReadCellsOf(cells[1..], row, col + 1, rest);
      ReadCellsStep(s, row, col, ViewOf(cells[0]), tail, RowView(cells[1..]), rest);
    }
  }

  lemma ReadRowsStep(s: string, row: nat, cells: seq<CellView>, rest: string, more: seq<seq<CellView>>)
    requires s != [] && StartsWith(s, RowOpen(row))
    requires ReadCells(s[|RowOpen(row)|..], row, 0) == Some((cells, rest))
    requires ReadRows(rest, row + 1) == Some(more)
    ensures ReadRows(s, row) == Some([cells] + more)
  {
  }

  lemma RowsXmlSplit(rows: seq<Row>, row: nat)
    requires rows != []
    ensures RowsXml(rows, row)
         == RowOpen(row) + (CellsXml(rows[0], row, 0) + "</row>" + RowsXml(rows[1..], row + 1))
  {
  }

  lemma RowsReadableTail(rows: seq<Row>)
    requires rows != [] && RowsReadable(rows)
    ensures RowsReadable(rows[1..])
    ensures forall j :: 0 <= j < |rows[0]| ==> CellReadable(rows[0][j])
  {
    forall i, j | 0 <= i < |rows[1..]| && 0 <= j < |rows[1..][i]|
      ensures CellReadable(rows[1..][i][j])
    {
      assert rows[1..][i] == rows[i + 1];
    }
  }

  lemma {:induction false} ReadRowsOf(rows: seq<Row>, row: nat)
    requires RowsReadable(rows)
    ensures ReadRows(RowsXml(rows, row), row) == Some(SheetView(rows))
  {
    if rows != [] {
      var s := RowsXml(rows, row);
      var open, more := RowOpen(row), RowsXml(rows[1..], row + 1);
      var cells := CellsXml(rows[0], row, 0);
      RowsXmlSplit(rows, row);
      StartsWithAppend(open, cells + "</row>" + more);
      RowsReadableTail(rows);
      ReadCellsOf(rows[0], row, 0, more);
      ReadRowsOf(rows[1..], row + 1);
      ReadRowsStep(s, row, RowView(rows[0]), more, SheetView(rows[1..]));
    }
  }

  /**
   * Reading the worksheet part back gives one row per input row, in order,
   * each with one cell per input cell carrying its type, text and style; the
   * reader has checked every row number and cell reference on the way.
   */
  lemma ReadWorksheetOf(rows: seq<Row>)
    requires RowsReadable(rows)
    ensures ReadWorksheet(ToWorksheetXml(rows)) == Some(SheetView(rows))
  {
    var body := RowsXml(rows, 0);
    var xml := ToWorksheetXml(rows);
    assert xml[..|Prolog|] == Prolog;
    assert xml[|xml| - |Epilog|..] == Epilog;
    assert xml[|Prolog|..|xml| - |Epilog|] == body;
    ReadRowsOf(rows, 0);
  }

  /** Integers are always readable, so rows whose number cells hold numbers read back. */
  lemma NumbersReadable(cell: Cell)
    requires cell.value.Num?
    ensures CellReadable(cell)
  {
    var s := ValueText(cell.value);
    if cell.value.n < 0 {
      assert s == "-" + Dec(-cell.value.n);
      assert forall i :: 1 <= i < |s| ==> s[i] == Dec(-cell.value.n)[i - 1];
    }
  }

  /** Two row sets with the same worksheet part agree in every cell's type, text and style. */
  lemma ToWorksheetXmlDetermines(rows1: seq<Row>, rows2: seq<Row>)
    requires RowsReadable(rows1) && RowsReadable(rows2)
    requires ToWorksheetXml(rows1) == ToWorksheetXml(rows2)
    ensures SheetView(rows1) == SheetView(rows2)
  {
    ReadWorksheetOf(rows1);
    ReadWorksheetOf(rows2);
  }
}
