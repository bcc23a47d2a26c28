/**
 * The five constant parts of the workbook package (`xlsx.ts`): the content
 * types, the package relationships, the workbook, its relationships and the
 * stylesheet. The relationship lists, sheet list and content-type overrides
 * are kept as data, and the XML text of each part is rendered from them line
 * by line; the stylesheet is carried as it is. Everything proved here is
 * about the ids, targets and part names the parts use to refer to each other
 * (the Open Packaging Conventions, ECMA-376 Part 2).
 */
module PackageParts {
  import opened Optional
  import opened Text

  /** One `<Relationship Id Type Target/>` element. */
  datatype Relationship = Relationship(id: string, relType: string, target: string)

  /** One `<Default Extension ContentType/>` element. */
  datatype Default = Default(extension: string, contentType: string)

  /** One `<Override PartName ContentType/>` element. */
  datatype Override = Override(partName: string, contentType: string)

  /** One `<sheet name sheetId r:id/>` element of the workbook. */
  datatype Sheet = Sheet(name: string, sheetId: nat, relId: string)

  const XmlDeclaration: string := "<?xml version=\"1.0\" encoding=\"UTF-8\" standalone=\"yes\"?>"
  const SpreadsheetNamespace: string := "http://schemas.openxmlformats.org/spreadsheetml/2006/main"
  const OfficeRelationshipsNamespace: string := "http://schemas.openxmlformats.org/officeDocument/2006/relationships"
  const PackageRelationshipsNamespace: string := "http://schemas.openxmlformats.org/package/2006/relationships"
  const ContentTypesNamespace: string := "http://schemas.openxmlformats.org/package/2006/content-types"

  const OfficeDocumentType: string := OfficeRelationshipsNamespace + "/officeDocument"
  const WorksheetType: string := OfficeRelationshipsNamespace + "/worksheet"
  const StylesType: string := OfficeRelationshipsNamespace + "/styles"

  const RelationshipsContentType: string := "application/vnd.openxmlformats-package.relationships+xml"
  const XmlContentType: string := "application/xml"
  const WorkbookContentType: string := "application/vnd.openxmlformats-officedocument.spreadsheetml.sheet.main+xml"
  const WorksheetContentType: string := "application/vnd.openxmlformats-officedocument.spreadsheetml.worksheet+xml"
  const StylesContentType: string := "application/vnd.openxmlformats-officedocument.spreadsheetml.styles+xml"

  /** The relationships of the package itself (`_rels/.rels`): its main part is the workbook. */
  const PackageRelationships: seq<Relationship> := [Relationship("rId1", OfficeDocumentType, "xl/workbook.xml")]

  /** The relationships of the workbook: its two worksheets and its stylesheet. */
  const WorkbookRelationships: seq<Relationship> := [
    Relationship("rId1", WorksheetType, "worksheets/sheet1.xml"),
    Relationship("rId2", WorksheetType, "worksheets/sheet2.xml"),
    Relationship("rId3", StylesType, "styles.xml")
  ]

  /** The two sheets of the workbook, each naming its worksheet by relationship id. */
  const Sheets: seq<Sheet> := [Sheet("Line Items", 1, "rId1"), Sheet("Summary", 2, "rId2")]

  const Defaults: seq<Default> := [Default("rels", RelationshipsContentType), Default("xml", XmlContentType)]

  const Overrides: seq<Override> := [
    Override("/xl/workbook.xml", WorkbookContentType),
    Override("/xl/worksheets/sheet1.xml", WorksheetContentType),
    Override("/xl/worksheets/sheet2.xml", WorksheetContentType),
    Override("/xl/styles.xml", StylesContentType)
  ]

  function Attr(name: string, value: string): string {
    " " + name + "=\"" + value + "\""
  }

  function RelationshipLines(rels: seq<Relationship>): string {
    if rels == [] then ""
    else
      "  <Relationship" + Attr("Id", rels[0].id) + Attr("Type", rels[0].relType) + Attr("Target", rels[0].target) + "/>\n"
      + RelationshipLines(rels[1..])
  }

  /** A relationships part listing `rels`, one element per line. */
  function RelationshipsXml(rels: seq<Relationship>): string {
    XmlDeclaration + "\n<Relationships" + Attr("xmlns", PackageRelationshipsNamespace) + ">\n"
    + RelationshipLines(rels) + "</Relationships>"
  }

  function DefaultLines(ds: seq<Default>): string {
    if ds == [] then ""
    else "  <Default" + Attr("Extension", ds[0].extension) + Attr("ContentType", ds[0].contentType) + "/>\n" + DefaultLines(ds[1..])
  }

  function OverrideLines(os: seq<Override>): string {
    if os == [] then ""
    else "  <Override" + Attr("PartName", os[0].partName) + Attr("ContentType", os[0].contentType) + "/>\n" + OverrideLines(os[1..])
  }

  function SheetLines(sheets: seq<Sheet>): string {
    if sheets == [] then ""
    else
      "    <sheet" + Attr("name", sheets[0].name) + Attr("sheetId", Dec(sheets[0].sheetId)) + Attr("r:id", sheets[0].relId) + "/>\n"
      + SheetLines(sheets[1..])
  }

  /** `contentTypesXml`. */
  const ContentTypesXml: string :=
    XmlDeclaration + "\n<Types" + Attr("xmlns", ContentTypesNamespace) + ">\n"
    + DefaultLines(Defaults) + OverrideLines(Overrides) + "</Types>"

  /** `relsXml`. */
  const RelsXml: string := RelationshipsXml(PackageRelationships)

  /** `workbookXml`. */
  const WorkbookXml: string :=
    XmlDeclaration + "\n<workbook" + Attr("xmlns", SpreadsheetNamespace) + Attr("xmlns:r", OfficeRelationshipsNamespace) + ">\n"
    + "  <sheets>\n" + SheetLines(Sheets) + "  </sheets>\n</workbook>"

  /** `workbookRelsXml`. */
  const WorkbookRelsXml: string := RelationshipsXml(WorkbookRelationships)

  /** `stylesXml`: fonts, fills, one border and four cell formats, the last two with the currency number format 164. */
  const StylesXml: string :=
    XmlDeclaration + "\n"
    + "<styleSheet xmlns=\"http://schemas.openxmlformats.org/spreadsheetml/2006/main\">\n"
    + "  <numFmts count=\"1\">\n"
    + "    <numFmt numFmtId=\"164\" formatCode=\"$#,##0.00\"/>\n"
    + "  </numFmts>\n"
    + "  <fonts count=\"2\">\n"
    + "    <font><sz val=\"11\"/><name val=\"Calibri\"/></font>\n"
    + "    <font><b/><sz val=\"11\"/><name val=\"Calibri\"/></font>\n"
    + "  </fonts>\n"
    + "  <fills count=\"2\">\n"
    + "    <fill><patternFill patternType=\"none\"/></fill>\n"
    + "    <fill><patternFill patternType=\"gray125\"/></fill>\n"
    + "  </fills>\n"
    + "  <borders count=\"1\"><border><left/><right/><top/><bottom/><diagonal/></border></borders>\n"
    + "  <cellStyleXfs count=\"1\"><xf numFmtId=\"0\" fontId=\"0\" fillId=\"0\" borderId=\"0\"/></cellStyleXfs>\n"
    + "  <cellXfs count=\"4\">\n"
    + "    <xf numFmtId=\"0\" fontId=\"0\" fillId=\"0\" borderId=\"0\" xfId=\"0\"/>\n"
    + "    <xf numFmtId=\"0\" fontId=\"1\" fillId=\"0\" borderId=\"0\" xfId=\"0\" applyFont=\"1\"/>\n"
    + "    <xf numFmtId=\"164\" fontId=\"0\" fillId=\"0\" borderId=\"0\" xfId=\"0\" applyNumberFormat=\"1\"/>\n"
    + "    <xf numFmtId=\"164\" fontId=\"1\" fillId=\"0\" borderId=\"0\" xfId=\"0\" applyNumberFormat=\"1\" applyFont=\"1\"/>\n"
    + "  </cellXfs>\n"
    + "</styleSheet>"

  /** The relationship with id `id`, if `rels` has one (the first, should there be several). */
  function FindRelationship(rels: seq<Relationship>, id: string): (r: Option<Relationship>)
    ensures r.Some? ==> r.value in rels && r.value.id == id
    ensures r.None? ==> forall i :: 0 <= i < |rels| ==> rels[i].id != id
  {
    if rels == [] then None
    else if rels[0].id == id then Some(rels[0])
    else FindRelationship(rels[1..], id)
  }

  /** The part a relationship target names: targets are relative to the folder of the source part. */
  function ResolveTarget(sourceFolder: string, target: string): string {
    sourceFolder + target
  }

  /** Where the relationships of the part `name` in `folder` are stored: `_rels/<name>.rels` in the same folder. */
  function RelationshipsPartOf(folder: string, name: string): string {
    folder + "_rels/" + name + ".rels"
  }

  /** Relationship ids are unique within each relationships part, so a lookup by id is unambiguous. */
  predicate UniqueIds(rels: seq<Relationship>) {
    forall i, j :: 0 <= i < j < |rels| ==> rels[i].id != rels[j].id
  }

  /** The last dot-separated piece of `path`, or none when there is no dot. */
  function Extension(path: string): (ext: Option<string>)
    ensures ext.Some? ==> |ext.value| < |path| && path[|path| - |ext.value| - 1] == '.'
    ensures ext.Some? ==> path[|path| - |ext.value|..] == ext.value && '.' !in ext.value
    ensures ext.None? ==> '.' !in path
  {
    if path == [] then None
    else if path[|path| - 1] == '.' then Some([])
    else
      match Extension(path[..|path| - 1])
      case None => None
      case Some(e) => Some(e + [path[|path| - 1]])
  }

  /** A path whose last dot is followed by `ext` has the extension `ext`. */
  lemma {:induction false} ExtensionOf(stem: string, ext: string)
    requires '.' !in ext
    ensures Extension(stem + "." + ext) == Some(ext)
  {
    if ext != [] {
      var init := ext[..|ext| - 1];
      assert (stem + "." + ext)[..|stem + "." + ext| - 1] == stem + "." + init;
      ExtensionOf(stem, init);
      assert init + [ext[|ext| - 1]] == ext;
    } else {
      assert (stem + "." + ext)[..|stem + "." + ext| - 1] == stem;
    }
  }

  /** Both relationships parts use each id once, and so does the workbook for its sheets. */
  lemma IdsUnique()
    ensures UniqueIds(PackageRelationships) && UniqueIds(WorkbookRelationships)
    ensures forall i, j :: 0 <= i < j < |Sheets| ==>
      Sheets[i].relId != Sheets[j].relId && Sheets[i].sheetId != Sheets[j].sheetId && Sheets[i].name != Sheets[j].name
  {
  }

  /**
   * Sheet `i` of the workbook names, by its relationship id, a worksheet
   * relationship of the workbook whose target is `worksheets/sheet<i+1>.xml`.
   */
  lemma SheetsResolve(i: nat)
    requires i < |Sheets|
    ensures FindRelationship(WorkbookRelationships, Sheets[i].relId) == Some(WorkbookRelationships[i])
    ensures WorkbookRelationships[i].relType == WorksheetType
    ensures WorkbookRelationships[i].target == "worksheets/sheet" + Dec(i + 1) + ".xml"
  {
  }

  /** The package's main part is found through `rId1` of the package relationships. */
  lemma MainPartResolves()
    ensures FindRelationship(PackageRelationships, "rId1") == Some(Relationship("rId1", OfficeDocumentType, "xl/workbook.xml"))
  {
  }

  /** The workbook's stylesheet is found through `rId3` of the workbook relationships. */
  lemma StylesResolve()
    ensures FindRelationship(WorkbookRelationships, "rId3") == Some(Relationship("rId3", StylesType, "styles.xml"))
  {
    var rels := WorkbookRelationships;
    assert rels[1..][1..] == rels[2..];
    assert FindRelationship(rels, "rId3") == FindRelationship(rels[1..], "rId3") == FindRelationship(rels[2..], "rId3");
  }
}
