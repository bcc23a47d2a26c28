/**
 * `createBudgetWorkbook`: the seven parts of the budget workbook, in the
 * order they go into the archive, and the archive itself.
 */
module Workbook {
  import opened Optional
  import opened Text
  import Crc32
  import opened ZipFormat
  import opened ZipArchive
  import opened ZipReader
  import opened ZipWriter
  import opened Worksheet
  import opened WorksheetReader
  import opened PackageParts

  /** Where the seven parts of the workbook are stored, in the order they go into the archive. */
  const BudgetPaths: seq<string> := [
    "[Content_Types].xml",
    "_rels/.rels",
    "xl/workbook.xml",
    "xl/_rels/workbook.xml.rels",
    "xl/styles.xml",
    "xl/worksheets/sheet1.xml",
    "xl/worksheets/sheet2.xml"
  ]

  /** What the seven parts hold: the five constant parts, then the two worksheets. */
  function BudgetContents(lineItemsSheetRows: seq<Row>, summarySheetRows: seq<Row>): seq<string> {
    [ContentTypesXml, RelsXml, WorkbookXml, WorkbookRelsXml, StylesXml,
     ToWorksheetXml(lineItemsSheetRows), ToWorksheetXml(summarySheetRows)]
  }

  /** The files of the workbook: each path with its content. */
  function BudgetFiles(lineItemsSheetRows: seq<Row>, summarySheetRows: seq<Row>): seq<File> {
    var contents := BudgetContents(lineItemsSheetRows, summarySheetRows);
    seq(7, j requires 0 <= j < 7 => File(BudgetPaths[j], contents[j]))
  }

  /** `createBudgetWorkbook`: the archive of the seven files. */
  method CreateBudgetWorkbook(table: array<bv32>, lineItemsSheetRows: seq<Row>, summarySheetRows: seq<Row>)
    returns (blob: Blob)
    requires table.Length == 256 && forall i :: 0 <= i < 256 ==> table[i] == Crc32.TableEntry(i)
    ensures blob == Blob(Archive(Entries(BudgetFiles(lineItemsSheetRows, summarySheetRows))), SpreadsheetMimeType)
  {
    var files := BudgetFiles(lineItemsSheetRows, summarySheetRows);
    blob := CreateZip(table, files);
  }

  // The spellings of the same path in different places agree.

  lemma SheetPathLiterals()
    ensures "xl/" + "worksheets/sheet1.xml" == "xl/worksheets/sheet1.xml"
    ensures "xl/" + "worksheets/sheet2.xml" == "xl/worksheets/sheet2.xml"
  {
  }

  lemma OverrideNameLiterals()
    ensures "/" + "xl/workbook.xml" == "/xl/workbook.xml"
    ensures "/" + "xl/styles.xml" == "/xl/styles.xml"
  {
  }

  lemma OverrideSheetLiterals()
    ensures "/" + "xl/worksheets/sheet1.xml" == "/xl/worksheets/sheet1.xml"
    ensures "/" + "xl/worksheets/sheet2.xml" == "/xl/worksheets/sheet2.xml"
  {
  }

  lemma RelationshipsPathLiterals()
    ensures "" + "_rels/" + "" + ".rels" == "_rels/.rels" == "_rels/" + "." + "rels"
    ensures "xl/" + "_rels/" + "workbook.xml" + ".rels" == "xl/_rels/workbook.xml.rels" == "xl/_rels/workbook.xml" + "." + "rels"
    ensures "" + "xl/workbook.xml" == "xl/workbook.xml"
    ensures "xl/" + "styles.xml" == "xl/styles.xml"
  {
  }

  /** The seven paths are different. */
  lemma BudgetPathsDistinct()
    ensures |BudgetPaths| == 7 && forall i, j :: 0 <= i < j < 7 ==> BudgetPaths[i] != BudgetPaths[j]
  {
  }

  /**
   * The archive holds seven entries, whatever the rows, in the order of the
   * paths: entry `j` stores the UTF-8 bytes of the `j`-th path.
   */
  lemma BudgetEntryNames(lineRows: seq<Row>, summaryRows: seq<Row>)
    ensures var es := Entries(BudgetFiles(lineRows, summaryRows));
      |es| == 7 && forall j :: 0 <= j < 7 ==> es[j].name == Utf8Encode(BudgetPaths[j])
  {
  }

  /**
   * The end record of the archive gives 7 in both count fields, whatever its
   * size and offset fields hold.
   */
  lemma BudgetEntryCount(lineRows: seq<Row>, summaryRows: seq<Row>, size: nat, offset: nat)
    ensures var r := EndRecord(|Entries(BudgetFiles(lineRows, summaryRows))|, size, offset);
      U16At(r, 8) == 7 && U16At(r, 10) == 7
  {
    BudgetEntryNames(lineRows, summaryRows);
    EndRecordCounts(7, size, offset);
  }

  /**
   * Sheet `i` of the workbook names a worksheet relationship of the workbook
   * whose target, taken relative to the workbook's folder `xl/`, is the path
   * of part 6 + `i` (counting from 1).
   */
  lemma SheetsResolveToFiles(i: nat)
    requires i < |Sheets|
    ensures var rel := FindRelationship(WorkbookRelationships, Sheets[i].relId);
      rel.Some? && rel.value.relType == WorksheetType &&
      ResolveTarget("xl/", rel.value.target) == BudgetPaths[5 + i]
  {
    SheetsResolve(i);
    SheetPathLiterals();
  }

  /**
   * The package relationships are stored where the conventions look for them
   * and point to the workbook part; the workbook's relationships are stored
   * beside it and point to the stylesheet part.
   */
  lemma PartsResolveToFiles()
    ensures BudgetPaths[1] == RelationshipsPartOf("", "")
    ensures FindRelationship(PackageRelationships, "rId1").Some?
    ensures ResolveTarget("", FindRelationship(PackageRelationships, "rId1").value.target) == BudgetPaths[2]
    ensures BudgetPaths[3] == RelationshipsPartOf("xl/", "workbook.xml")
    ensures FindRelationship(WorkbookRelationships, "rId3").Some?
    ensures ResolveTarget("xl/", FindRelationship(WorkbookRelationships, "rId3").value.target) == BudgetPaths[4]
  {
    MainPartResolves();
    StylesResolve();
    RelationshipsPathLiterals();
  }

  /**
   * Each override of `[Content_Types].xml` names a part of the archive: the
   * workbook, the two worksheets and the stylesheet.
   */
  lemma OverridesNameParts()
    ensures Overrides[0].partName == "/" + BudgetPaths[2]
    ensures Overrides[1].partName == "/" + BudgetPaths[5]
    ensures Overrides[2].partName == "/" + BudgetPaths[6]
    ensures Overrides[3].partName == "/" + BudgetPaths[4]
  {
    OverrideNameLiterals();
    OverrideSheetLiterals();
  }

  /**
   * The two relationships parts have the extension whose default in
   * `[Content_Types].xml` is the relationships content type.
   */
  lemma RelationshipsPartsTyped()
    ensures Extension(BudgetPaths[1]) == Some(Defaults[0].extension)
    ensures Extension(BudgetPaths[3]) == Some(Defaults[0].extension)
    ensures Defaults[0].contentType == RelationshipsContentType
  {
    RelationshipsPathLiterals();
    ExtensionOf("_rels/", "rels");
    ExtensionOf("xl/_rels/workbook.xml", "rels");
  }

  /** Each worksheet part reads back as the rows it was made from. */
  lemma WorksheetsReadBack(lineRows: seq<Row>, summaryRows: seq<Row>)
    requires RowsReadable(lineRows) && RowsReadable(summaryRows)
    ensures var files := BudgetFiles(lineRows, summaryRows);
      ReadWorksheet(files[5].content) == Some(SheetView(lineRows)) &&
      ReadWorksheet(files[6].content) == Some(SheetView(summaryRows))
  {
    ReadWorksheetOf(lineRows);
    ReadWorksheetOf(summaryRows);
  }

  /** Reading back the workbook's archive gives its seven entries, in order. */
  lemma WorkbookReadBack(lineRows: seq<Row>, summaryRows: seq<Row>)
    requires Fits(Entries(BudgetFiles(lineRows, summaryRows)))
    ensures ReadZip(Archive(Entries(BudgetFiles(lineRows, summaryRows)))) == Some(Entries(BudgetFiles(lineRows, summaryRows)))
  {
    ReadZipArchive(Entries(BudgetFiles(lineRows, summaryRows)));
  }
}
