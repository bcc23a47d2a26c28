# Budget spreadsheet export and budget arithmetic

This project models the two library files at the heart of a construction-budget
application.

- `src/lib/xlsx.ts`: a spreadsheet (XLSX) writer built without any library. It
  - names columns A, B, …, Z, AA, …;
  - escapes XML text;
  - renders rows of tagged cells as SpreadsheetML worksheets (ECMA-376 Part 1, section 18.3);
  - computes the ZIP CRC-32 from a 256-entry table (APPNOTE.TXT, section 4.4.7);
  - packs files into a stored (uncompressed) ZIP archive: local file headers, a
    central directory and an end-of-central-directory record (APPNOTE.TXT,
    sections 4.3.7, 4.3.12 and 4.3.16);
  - assembles the seven parts of a workbook package. Five of them are constant
    XML whose ids and part names refer to each other (ECMA-376 Part 2, Open
    Packaging Conventions).
- `src/lib/budget.ts`: the budget rules. It
  - computes the direct cost of a line item by cost type;
  - computes fixed and percent markups;
  - filters line items by area, scope and cost type;
  - summarises the budget, with a flag that chooses the base of the markups;
  - groups line items by area and then by scope, in first-seen order, with running subtotals.

Pure code becomes functions, and what they promise becomes lemmas. Code that
changes state step by step becomes methods with loops. These are `colName`, the
CRC table and checksum loops, the `createZip` loops over `DataView` writes into
byte arrays, and the grouping loop over its two levels of insertion-ordered
maps. Each such method is proved against a specification function.

The writer is modelled together with readers:

- a worksheet reader, which parses the generated XML back into cells;
- a ZIP reader, which parses the archive back into its entries.

The round trips through them are proved: a worksheet reads back as the rows it
was made from, and an archive reads back as its entries. Together they show that
the headers agree with each other and that every offset points at its record.

Budget amounts are mathematical reals.

## Model

| member | source | states |
|---|---|---|
| Text.DecRoundTrip | src/lib/xlsx.ts:33 | the decimal numeral written for a row number (`${rowIndex + 1}`) reads back as that number |
| Text.DecInjective | src/lib/xlsx.ts:33 | different row numbers get different numerals |
| Text.IntToString | src/lib/xlsx.ts:37 | the printed text of an integral number is a signed decimal numeral that reads back (`ParseInt`) as the same number, and it starts with a minus sign exactly when the number is negative |
| Text.IntToStringInjective | src/lib/xlsx.ts:37 | different integers print differently |
| Text.Utf8Char | src/lib/xlsx.ts:132-133 | `TextEncoder` gives each character 1 to 4 bytes, and exactly 1 byte, of the same value, for ASCII |
| Text.Utf8EncodeAppend | src/lib/xlsx.ts:132-133 | encoding a concatenation concatenates the encodings |
| Text.Utf8EncodeAscii | src/lib/xlsx.ts:132-133 | on ASCII text the encoding is the identity, byte for character |
| Text.Utf8EncodeLength | src/lib/xlsx.ts:132-133 | an encoding has between 1 and 4 bytes per character |
| ColumnName.Letter | src/lib/xlsx.ts:14 | `String.fromCharCode(65 + mod)` for `mod < 26` is an upper-case letter |
| ColumnName.Numeral | src/lib/xlsx.ts:12-16 | the bijective base-26 numeral of a value is made of letters A–Z and is empty exactly for 0 |
| ColumnName.ColLetters | src/lib/xlsx.ts:9-18 | a column name is a non-empty string of upper-case letters |
| ColumnName.NumeralRoundTrip | src/lib/xlsx.ts:12-16 | reading a numeral back gives the value it was written from |
| ColumnName.NumeralValueRoundTrip | src/lib/xlsx.ts:12-16 | every string of letters is the numeral of its value: the notation has no zero digit and no padding |
| ColumnName.ColLettersRoundTrip | src/lib/xlsx.ts:9-18 | the column index can be recovered from the column name |
| ColumnName.ColLettersInjective | src/lib/xlsx.ts:9-18 | different columns get different names |
| ColumnName.ColLettersSurjective | src/lib/xlsx.ts:9-18 | every non-empty string of capital letters names some column |
| ColumnName.ColLettersExamples | src/lib/xlsx.ts:9-18 | columns 0, 25, 26, 701 and 702 are named A, Z, AA, ZZ and AAA |
| ColumnName.ColName | src/lib/xlsx.ts:9-18 | the `while` loop of `colName` computes the column name |
| XmlEscape.EscapeXml | src/lib/xlsx.ts:20-26 | `escapeXml`: five single-character `replaceAll` passes over the text, `&` first, then `<`, `>`, `"` and `'`; what it produces is stated by the lemmas below |
| XmlEscape.EntityOf | src/lib/xlsx.ts:20-26 | a character is left alone exactly when it is none of the five special ones; each special one becomes an entity starting with `&` that contains none of `<`, `>`, `"` or `'` |
| XmlEscape.ReplaceAllAppend | src/lib/xlsx.ts:22-26 | `replaceAll` of one character distributes over concatenation |
| XmlEscape.ReplaceAllAbsent | src/lib/xlsx.ts:22-26 | `replaceAll` of a character that does not occur changes nothing |
| XmlEscape.EscapeXmlChar | src/lib/xlsx.ts:20-26 | the five chained replacements turn one character into its entity. `&` goes first, so the `&` of a later entity is not escaped again |
| XmlEscape.EscapeXmlAppend | src/lib/xlsx.ts:20-26 | escaping distributes over concatenation |
| XmlEscape.EscapeXmlIsEscapeEach | src/lib/xlsx.ts:20-26 | the chain of replacements equals escaping character by character |
| XmlEscape.UnescapeEscapeXml | src/lib/xlsx.ts:20-26 | decoding the five entities in escaped text gives back the input exactly |
| XmlEscape.EscapeXmlInjective | src/lib/xlsx.ts:20-26 | different texts escape differently |
| XmlEscape.EscapeXmlClean | src/lib/xlsx.ts:20-26 | escaped text has no `<`, `>`, `"` or `'`, and every `&` in it starts one of the five entities |
| XmlEscape.EscapeEachPlain | src/lib/xlsx.ts:20-26 | text without special characters is left unchanged |
| Worksheet.ToWorksheetXml | src/lib/xlsx.ts:28-51 | `toWorksheetXml`: the XML prolog and `<worksheet><sheetData>` opening, the rows numbered from 1, then the closing tags; its read-back is stated by `WorksheetReader.ReadWorksheetOf` |
| Worksheet.CellRefShape | src/lib/xlsx.ts:33 | a cell reference is the column's letters followed by the one-based row number with no leading zero, and both parts can be read back |
| Worksheet.RowsXmlAppend | src/lib/xlsx.ts:29-45 | a row appended at the end is rendered last, numbered by its position: empty rows still take their number |
| WorksheetReader.RowView | src/lib/xlsx.ts:31-42 | what a row reads back as: one view per cell, in column order |
| WorksheetReader.SheetView | src/lib/xlsx.ts:29-45 | what a sheet reads back as: one row view per row, in order |
| WorksheetReader.ReadTypeOf | src/lib/xlsx.ts:36-40 | the `t="n"` and `t="inlineStr"` attributes are read back as the cell's type |
| WorksheetReader.ReadStyleOf | src/lib/xlsx.ts:34 | ` s="k"` is read back as style `k`, and its absence as no style |
| WorksheetReader.ReadPayloadOf | src/lib/xlsx.ts:36-40 | a `<v>` payload is read back as the number's text and an `<is><t>` payload as the unescaped string |
| WorksheetReader.ReadCellOf | src/lib/xlsx.ts:32-41 | a rendered cell is read back as its type, its value's text and its style, at its own reference |
| WorksheetReader.ReadCellsOf | src/lib/xlsx.ts:31-42 | the cells of a row are read back in order, up to `</row>` |
| WorksheetReader.ReadRowsOf | src/lib/xlsx.ts:29-45 | the rows are read back in order, each at its own row number |
| WorksheetReader.ReadWorksheetOf | src/lib/xlsx.ts:28-51 | a whole worksheet part reads back as the rows it was rendered from |
| WorksheetReader.NumbersReadable | src/lib/xlsx.ts:37 | an integral number written unescaped into `<v>` never breaks the XML |
| WorksheetReader.ToWorksheetXmlDetermines | src/lib/xlsx.ts:28-51 | two readable row sets that render to the same worksheet agree in every cell's type, printed text and style (a string and a number with the same text are not told apart) |
| Crc32.LowByte | src/lib/xlsx.ts:117 | `& 0xff` gives an index into the 256-entry table |
| Crc32.ChecksumEmpty | src/lib/xlsx.ts:114-120 | the CRC of no bytes is 0 |
| Crc32.FoldAppend | src/lib/xlsx.ts:116-118 | the table-driven update runs over a concatenation as over its parts, one after the other |
| Crc32.TableEntryExamples | src/lib/xlsx.ts:106-112 | entries 0, 1 and 128 of the table are 0, 0x77073096 and 0xEDB88320, the reflected polynomial |
| Crc32.ComputeEntry | src/lib/xlsx.ts:107-111 | the eight-round loop computes entry `index` of the CRC table |
| Crc32.BuildTable | src/lib/xlsx.ts:106-112 | the table is 256 words, each the entry of its index |
| Crc32.TableStep | src/lib/xlsx.ts:117 | a table lookup does the same as eight bit-at-a-time rounds on the low byte |
| Crc32.Crc32 | src/lib/xlsx.ts:114-120 | the loop computes the CRC-32 of the data: start from 0xFFFFFFFF, fold every byte, invert at the end; 32-bit by type |
| ZipFormat.LE16 | src/lib/xlsx.ts:139 | a `setUint16(…, true)` field is 2 bytes |
| ZipFormat.LE32 | src/lib/xlsx.ts:138 | a `setUint32(…, true)` field is 4 bytes |
| ZipFormat.LE16RoundTrip | src/lib/xlsx.ts:139 | a 16-bit little-endian field reads back as the value modulo 2^16, the way `DataView` truncates |
| ZipFormat.LE32RoundTrip | src/lib/xlsx.ts:138 | a 32-bit little-endian field reads back as the value modulo 2^32 |
| ZipFormat.LocalFixed | src/lib/xlsx.ts:136-148 | the fixed part of a local file header is 30 bytes |
| ZipFormat.CentralFixed | src/lib/xlsx.ts:151-169 | the fixed part of a central directory header is 46 bytes |
| ZipFormat.EndRecord | src/lib/xlsx.ts:182-191 | the end-of-central-directory record is 22 bytes |
| ZipFormat.LocalFixedFields | src/lib/xlsx.ts:138-148 | the local header holds, at bytes 0, 4, …, 28: signature 0x04034b50, version 20, no flags, method 0 (stored), zero time and date, the CRC, the content length as both sizes, the name length and no extra field |
| ZipFormat.CentralFixedHead | src/lib/xlsx.ts:153-159 | the central header starts with signature 0x02014b50, versions 20 and 20, no flags, method 0 and zero time and date |
| ZipFormat.CentralFixedTail | src/lib/xlsx.ts:160-169 | the central header then holds the CRC, the content length as both sizes, the name length, zero extra, comment, disk and attribute fields, and the offset of the local header |
| ZipFormat.EndRecordFields | src/lib/xlsx.ts:184-191 | the end record holds signature 0x06054b50, disk numbers 0, the entry count twice, the directory size and offset, and no comment |
| ZipFormat.LocalFixedKind | src/lib/xlsx.ts:138-148 | read back, the local header has the local signature, version 20, method 0 and no extra field |
| ZipFormat.LocalFixedContent | src/lib/xlsx.ts:144-147 | read back, the local header has the CRC, both sizes and the name length, each truncated to its field's width |
| ZipFormat.CentralFixedKind | src/lib/xlsx.ts:153-157 | read back, the central header has the central signature, versions 20 and method 0 |
| ZipFormat.CentralFixedContent | src/lib/xlsx.ts:160-162 | read back, the central header has the same CRC and sizes as the local header |
| ZipFormat.CentralFixedPlace | src/lib/xlsx.ts:163-169 | read back, the central header has the name length, no extra field or comment, and the local header's offset |
| ZipFormat.EndRecordCounts | src/lib/xlsx.ts:184-188 | read back, the end record has its signature and the entry count in both count fields |
| ZipFormat.EndRecordPlace | src/lib/xlsx.ts:189-191 | read back, the end record has the directory size and offset, and no comment |
| ZipFormat.LocalFieldsAt | src/lib/xlsx.ts:136-148 | the local header fields read the same wherever the header sits inside the archive |
| ZipFormat.CentralFieldsAt | src/lib/xlsx.ts:151-169 | the central header fields read the same wherever the header sits inside the archive |
| ZipFormat.EndFieldsAt | src/lib/xlsx.ts:182-191 | the end record fields read the same wherever the record sits inside the archive |
| ZipArchive.LocalHeader | src/lib/xlsx.ts:136-149 | a local header is 30 bytes plus the name |
| ZipArchive.CentralHeader | src/lib/xlsx.ts:151-170 | a central header is 46 bytes plus the name |
| ZipArchive.Locals | src/lib/xlsx.ts:193-196 | the (local header, content) pairs take the sum of their sizes |
| ZipArchive.Centrals | src/lib/xlsx.ts:180 | the central directory is as long as the sum of the header lengths that `reduce` adds up |
| ZipArchive.Archive | src/lib/xlsx.ts:193-197 | the archive is the records, then the central directory, then the 22-byte end record, so its length is offset + size + 22 |
| ZipArchive.LocalsAppend | src/lib/xlsx.ts:172-176 | the records of a list of entries are those of its parts, one after the other |
| ZipArchive.CentralsAppend | src/lib/xlsx.ts:169-176 | the same for the central directory: the later headers carry offsets that start after the earlier records |
| ZipArchive.RecordAt | src/lib/xlsx.ts:176 | the record of entry k starts at the sum of the sizes of the records before it |
| ZipArchive.CentralAt | src/lib/xlsx.ts:169 | the central header of entry k sits after those of the entries before it and holds that sum as the offset |
| ZipArchive.ArchiveLaidOut | src/lib/xlsx.ts:193-197 | the archive is laid out as records, central directory and end record, in that order |
| ZipArchive.RecordPlaced | src/lib/xlsx.ts:129-176 | in the archive, the bytes at entry k's offset start with the local signature and hold the entry's CRC |
| ZipArchive.CentralPlaced | src/lib/xlsx.ts:169-197 | in the archive, entry k's central header has the central signature, its CRC and its offset |
| ZipArchive.OffsetsPlaced | src/lib/xlsx.ts:129-197 | every central header's offset field points at a local signature, and the CRC there equals the central header's CRC |
| ZipArchive.ArchiveOffsets | src/lib/xlsx.ts:129-197 | the same, stated for the archive `createZip` produces |
| ZipReader.ReadLocalOf | src/lib/xlsx.ts:136-149 | a reader finds an entry's name, CRC and content in its local header and the bytes after it |
| ZipReader.ReadCentralOf | src/lib/xlsx.ts:151-170 | a reader finds the name, CRC, size and offset in a central header |
| ZipReader.ReadCentralsOf | src/lib/xlsx.ts:151-177 | the central directory is read back as one descriptor per entry, in order |
| ZipReader.ReadEntriesOf | src/lib/xlsx.ts:131-177 | following each descriptor's offset to its local header reads back every entry |
| ZipReader.ReadZipFrom | src/lib/xlsx.ts:179-191 | the end record's count, size and offset lead a reader to the central directory |
| ZipReader.ReadZipArchive | src/lib/xlsx.ts:124-200 | an archive of entries that fit the format reads back as exactly those entries, in order |
| ZipWriter.EntryOf | src/lib/xlsx.ts:132-134 | an entry's CRC fits 32 bits |
| ZipWriter.Entries | src/lib/xlsx.ts:131-177 | there is one entry per file |
| ZipWriter.ConcatAppend | src/lib/xlsx.ts:193-199 | joining the parts of a `Blob` distributes over concatenation |
| ZipWriter.TotalLengthConcat | src/lib/xlsx.ts:180 | the `reduce` over header lengths is the length of their concatenation |
| ZipWriter.SetUint16 | src/lib/xlsx.ts:139 | `setUint16(at, v, true)` writes the two little-endian bytes of v and changes nothing else |
| ZipWriter.SetUint32 | src/lib/xlsx.ts:138 | `setUint32(at, v, true)` writes the four little-endian bytes of v and changes nothing else |
| ZipWriter.SetBytes | src/lib/xlsx.ts:149 | `set(bytes, at)` copies the bytes to `at` and changes nothing else |
| ZipWriter.FillName | src/lib/xlsx.ts:149 | after the fixed fields, the name bytes complete the header |
| ZipWriter.WriteLocalHeader | src/lib/xlsx.ts:136-149 | the `DataView` writes build the local header: its fixed fields, then the name |
| ZipWriter.WriteCentralHeader | src/lib/xlsx.ts:151-170 | the `DataView` writes build the central header: its fixed fields, then the name |
| ZipWriter.WriteEndRecord | src/lib/xlsx.ts:182-191 | the `DataView` writes build the end record |
| ZipWriter.CollectHeaders | src/lib/xlsx.ts:125-177 | the loop over the files collects each local header and content, the central headers with their offsets, and the final running offset, which is the size of all the records |
| ZipWriter.InterleaveRecords | src/lib/xlsx.ts:193-196 | the loop that pushes header and content pairs lays out the records |
| ZipWriter.CreateZip | src/lib/xlsx.ts:124-200 | `createZip` returns, as a spreadsheet-typed `Blob`, exactly the archive of its files |
| PackageParts.FindRelationship | src/lib/xlsx.ts:99-104 | the relationship a lookup by id finds has that id; finding none means no relationship has the id |
| PackageParts.Extension | src/lib/xlsx.ts:78-79 | a path's extension is what follows its last dot |
| PackageParts.ExtensionOf | src/lib/xlsx.ts:78 | a path ending in `.rels` has the extension `rels` |
| PackageParts.IdsUnique | src/lib/xlsx.ts:86-104 | the relationship ids of each relationships part are distinct, and so are the two sheets' names, numbers and relationship ids |
| PackageParts.SheetsResolve | src/lib/xlsx.ts:91-104 | sheet i of the workbook names, by its `r:id`, a worksheet relationship whose target is `worksheets/sheet<i+1>.xml` |
| PackageParts.MainPartResolves | src/lib/xlsx.ts:86-89 | `rId1` of the package relationships is the office document `xl/workbook.xml` |
| PackageParts.StylesResolve | src/lib/xlsx.ts:99-104 | `rId3` of the workbook relationships is the stylesheet `styles.xml` |
| Workbook.CreateBudgetWorkbook | src/lib/xlsx.ts:202-214 | the result is the archive of the seven parts, in their fixed order |
| Workbook.BudgetPathsDistinct | src/lib/xlsx.ts:203-211 | the seven part paths are distinct |
| Workbook.BudgetEntryNames | src/lib/xlsx.ts:203-211 | the archive has seven entries, named by the UTF-8 of the seven paths in order |
| Workbook.BudgetEntryCount | src/lib/xlsx.ts:187-188 | both count fields of the workbook archive's end record are 7 |
| Workbook.SheetsResolveToFiles | src/lib/xlsx.ts:94-103 | resolved against the workbook's folder, each sheet's relationship targets the archive entry holding that worksheet (entries 6 and 7) |
| Workbook.PartsResolveToFiles | src/lib/xlsx.ts:86-104 | the package relationships are stored at `_rels/.rels` and point to the workbook entry; the workbook's relationships are stored beside it and point to the stylesheet entry |
| Workbook.OverridesNameParts | src/lib/xlsx.ts:80-83 | each content-type override names an entry of the archive |
| Workbook.RelationshipsPartsTyped | src/lib/xlsx.ts:78 | both relationships entries have the extension whose default content type is the relationships type |
| Workbook.WorksheetsReadBack | src/lib/xlsx.ts:209-210 | the two worksheet entries read back as the two sheets' rows |
| Workbook.WorkbookReadBack | src/lib/xlsx.ts:202-214 | the workbook archive reads back as its seven entries |
| Budget.Amount | src/lib/budget.ts:10 | `toAmount`: a present amount is itself, a missing one is 0 |
| Budget.DirectCost | src/lib/budget.ts:12-22 | `computeLineItemDirectCost`: hours × hourly rate for labour, quantity × unit cost for material, the subcontract amount for any other type, each factor through `toAmount` |
| Budget.DirectCostReadsOwnFields | src/lib/budget.ts:12-22 | labour cost depends only on hours and rate, material cost only on quantity and unit cost, and any other type only on the subcontract amount |
| Budget.MissingAmountsCostNothing | src/lib/budget.ts:10-22 | a missing amount counts as 0, so an item missing a factor of its own cost type costs nothing |
| Budget.MarkupAmount | src/lib/budget.ts:24-31 | `computeMarkupAmount`: a fixed markup's value, or the base times value / 100 for a percent markup |
| Budget.FixedMarkupIgnoresBase | src/lib/budget.ts:24-27 | a fixed markup is its value, whatever the base |
| Budget.PercentMarkupProportional | src/lib/budget.ts:29-30 | a percent markup is base × value / 100: it is additive in the base, 0 on a zero base, and the base itself at 100% |
| Budget.FilterLineItems | src/lib/budget.ts:33-39 | the filtered list is no longer than the input and every kept item passes every filter that is not 'all' |
| Budget.FilterMembership | src/lib/budget.ts:33-39 | an item is kept exactly when it is an input item that passes the filters |
| Budget.FilterCounts | src/lib/budget.ts:33-39 | each passing item is kept as often as it occurs, and each failing one never |
| Budget.FilterAppend | src/lib/budget.ts:33-39 | filtering distributes over concatenation |
| Budget.FilterIsSubsequence | src/lib/budget.ts:33-39 | the kept items are in input order |
| Budget.FilterAllIsIdentity | src/lib/budget.ts:33-39 | with all three filters 'all', the input comes back unchanged |
| Budget.FilterIdempotent | src/lib/budget.ts:33-39 | filtering twice keeps the same items as filtering once |
| Budget.TotalDirectCost | src/lib/budget.ts:47-51 | the `reduce` that adds the items' direct costs from 0, first item first |
| Budget.TotalAppend | src/lib/budget.ts:47-51 | summing direct costs distributes over concatenation |
| Budget.SummarizeBudget | src/lib/budget.ts:59 | the total is the direct subtotal plus the five markups |
| Budget.SummaryBases | src/lib/budget.ts:47-57 | the direct subtotal sums the filtered items; the five markups are computed on the filtered sum when the flag is set and on the sum of all items otherwise |
| Budget.FilteredSummaryIgnoresAllItems | src/lib/budget.ts:48 | with the flag set, the summary does not depend on the full item list |
| Budget.FlagIrrelevant | src/lib/budget.ts:48-57 | the flag makes no difference when the filtered list is the full list, or when every markup is fixed |
| Budget.UnfilteredSummary | src/lib/budget.ts:41-70 | with 'all' filters, the subtotal and every markup's base are the total of all items |
| Budget.PercentTotal | src/lib/budget.ts:53-59 | with all-percent markups, total × 100 = subtotal × 100 + base × (sum of the five percentages) |
| BudgetGrouping.Lookup | src/lib/budget.ts:89-90 | the lookup `Map` has an entry for exactly the ids of the records |
| BudgetGrouping.LookupLastWins | src/lib/budget.ts:89-90 | a record's name is the lookup's entry for its id when no later record has that id |
| BudgetGrouping.FirstSeen | src/lib/budget.ts:101-126 | the keys of the insertion-ordered maps are distinct |
| BudgetGrouping.FirstSeenMembers | src/lib/budget.ts:101-126 | a key is among them exactly when some item has it |
| BudgetGrouping.FirstSeenOrder | src/lib/budget.ts:108-120 | keys come in first-seen order: an earlier key has an item before every item of a later key |
| BudgetGrouping.Select | src/lib/budget.ts:123-125 | a group's items all have the group's key |
| BudgetGrouping.SelectIsSubsequence | src/lib/budget.ts:123-125 | a group's items keep their input order |
| BudgetGrouping.NewAreaTracks | src/lib/budget.ts:108-114 | a new area group starts with its looked-up name (or "Unassigned Area"), subtotal 0 and no scopes, which is the grouping of its items so far |
| BudgetGrouping.ScopeAdded | src/lib/budget.ts:119-125 | getting or creating the item's scope group and adding the item and its cost keeps the scope map equal to the grouping of the area's items so far, one more item included |
| BudgetGrouping.ScopeGrows | src/lib/budget.ts:123-125 | adding an item to its scope group appends it and adds its cost to the scope subtotal |
| BudgetGrouping.OtherScopesUnchanged | src/lib/budget.ts:123-125 | the other scope groups do not change |
| BudgetGrouping.AddToArea | src/lib/budget.ts:116-125 | one iteration's update of an area group keeps the group equal to the grouping of the area's items so far, the new item included |
| BudgetGrouping.AreaAdded | src/lib/budget.ts:101-126 | setting the updated area group back into the map keeps the whole map equal to the grouping of the items so far |
| BudgetGrouping.OtherAreasUnchanged | src/lib/budget.ts:108-116 | an item changes no other area's items |
| BudgetGrouping.AreaListed | src/lib/budget.ts:128-137 | converting a tracked area group to the output lists its scopes in first-seen order with their names, subtotals and items |
| BudgetGrouping.GroupedListed | src/lib/budget.ts:128-137 | converting the whole map to the output gives the declarative grouping |
| BudgetGrouping.GroupLineItemsByAreaAndScope | src/lib/budget.ts:84-139 | the loop over the items returns the grouping of the items under the two lookups |
| GroupingProperties.GroupingPartitions | src/lib/budget.ts:101-126 | every item is in exactly one scope group: the groups' items, taken together, are the input items, each as often as it occurs |
| GroupingProperties.GroupingSubtotals | src/lib/budget.ts:116-124 | each scope subtotal is the direct cost of its items; each area subtotal is the sum of its scope subtotals and the direct cost of its items; the area subtotals add up to the direct cost of all the items |
| GroupingProperties.ScopeGroupsPartition | src/lib/budget.ts:119-125 | within an area, the scope groups hold its items, each once, and their subtotals add up to the area's cost |
| GroupingProperties.AreasInFirstSeenOrder | src/lib/budget.ts:108-114 | area groups are distinct and come in first-seen order |
| GroupingProperties.ScopesInFirstSeenOrder | src/lib/budget.ts:119-121 | within an area, scope groups are distinct and come in first-seen order among the area's items |
| GroupingProperties.ScopeOrder | src/lib/budget.ts:119-121 | an earlier scope of an area has an item of that area before every item of the area in a later scope |
| GroupingProperties.AreaScopeMembers | src/lib/budget.ts:119-121 | a scope appears in an area exactly when some item has both |
| GroupingProperties.GroupContents | src/lib/budget.ts:123-125 | a scope group holds exactly the items of its area and scope, at least one, in input order |
| GroupingProperties.PickMembers | src/lib/budget.ts:123-125 | the reference definition of a group's items: an item is in it exactly when it is an input item with both keys |
| GroupingProperties.PickIsSubsequence | src/lib/budget.ts:125 | the items of an area and scope are in input order |
| GroupingProperties.SelectTwice | src/lib/budget.ts:108-125 | grouping by area and then by scope picks the items of both |
| GroupingProperties.ItemPlacement | src/lib/budget.ts:102-125 | every item lands in the scope group of its scope id, inside the area group of its area id ('unassigned-area' / 'unassigned-scope' when the id is missing). Each group is named by the lookup, or "Unassigned Area" / "Unassigned Scope" when the lookup has no entry |

## Left out

- `TextEncoder` is modelled as UTF-8 over Unicode scalar values (RFC 3629, section 3). Lone surrogates, which JavaScript strings can hold and `TextEncoder` replaces with U+FFFD, cannot occur in a Dafny string.
- Numeric cells hold integers, printed in decimal. JavaScript's formatting of fractional numbers and exponents (`${cell.value}`) is not modelled.
- Style indexes are non-negative integers (`Option<nat>`). The source's `styleIndex?: number` accepts any number and prints it as given, so negative or fractional indexes such as `s="-1"` are not modelled.
- WorksheetReader.ReadWorksheetOf: the round trip needs every `t="n"` cell to have text without `<`. The writer puts that text into `<v>` unescaped, so a number-typed cell holding such a string gives malformed XML. Integer values always qualify (WorksheetReader.NumbersReadable).
- The `crcTable` constant is built once by `ZipWriter.CreateZip`'s callers (`Crc32.BuildTable`) and passed in as a parameter; a module-level constant array is not expressible here.
- ZipReader.ReadZipArchive: the read-back holds only for archives that fit the format without ZIP64: fewer than 2^16 entries, names shorter than 2^16 bytes, and an archive shorter than 2^32 bytes. The writer truncates larger values exactly as `DataView` does (modulo 2^16 or 2^32), and the model states that truncation explicitly.
- The ZIP reader trusts the stored CRC: it does not recompute the checksum. The writer computes it with the table-driven loop, proved equal to the specification's checksum.
- `Uint8Array` buffers become arrays for the header writes. The collected headers and contents are then values (`seq<byte>`), so sharing of the underlying buffers is not modelled.
- `createZip`'s single loop is split across two methods, `CollectHeaders` and `InterleaveRecords`, and the header writes are helper methods. The writes, their order and their values are the source's.
- A `Blob` is its bytes together with its MIME type. Its internal representation and its lazy reading are not modelled.
- The five constant XML parts are rendered from relationship, sheet, default and override lists. Only their ids, targets and part names are checked against each other and against the archive paths; the stylesheet text is carried as it is, unchecked.
- Content-type resolution (matching a part name against the overrides and then the extension defaults) is not modelled as a lookup function; the overrides and extensions are checked entry by entry instead.
- In the grouping, the nested mutable `Map` entries are values. An area group is read out of the map, updated by `AddToArea` and set back, instead of being changed through a shared reference. JavaScript `Map` iteration order is modelled by keeping the key order next to each map.
- Line items omit `vendor`, `material`, `unitId` and `notes`, and reference records omit `projectId` and `sortOrder`; none of them is read by the modelled code.
- Amounts are mathematical reals, so IEEE-754 rounding in sums, products and the division by 100 is not modelled.
- The React components that gather the data, call these functions and download the blob are outside this model.
