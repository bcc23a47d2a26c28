/**
 * A reader for the archives `createZip` writes, as an unzip tool reads them:
 * find the end record, walk the central directory it points to, and fetch
 * each entry from the local header its central header points to. The round
 * trip shows that the archive carries back exactly the entries it was made
 * from, with their CRC-32 values, sizes and offsets, whenever the entries
 * fit the 16- and 32-bit fields of the format.
 */
module ZipReader {
  import opened Optional
  import opened Text
  import opened ZipFormat
  import opened ZipArchive

  /** What a central directory header says about its entry. */
  datatype CentralInfo = CentralInfo(name: seq<byte>, crc: nat, size: nat, offset: nat)

  /**
   * The entry whose local header starts at `at`: the header must be marked as
   * one and the entry stored (method 0); the name, the data and the CRC-32
   * are taken as the header records them.
   */
  function ReadLocal(s: seq<byte>, at: nat): Option<Entry> {
    if at + 30 <= |s| && U32At(s, at) == LocalSignature && U16At(s, at + 8) == 0 then
      var crc, size := U32At(s, at + 14), U32At(s, at + 18);
      var nameEnd := at + 30 + U16At(s, at + 26);
      var dataStart := nameEnd + U16At(s, at + 28);
      if dataStart + size <= |s| then
        Some(Entry(s[at + 30..nameEnd], s[dataStart..dataStart + size], crc))
      else
        None
    else
      None
  }

  /** The central header that starts at `at`, and where the next one starts. */
  function ReadCentral(s: seq<byte>, at: nat): Option<(CentralInfo, nat)> {
    if at + 46 <= |s| && U32At(s, at) == CentralSignature then
      var nameEnd := at + 46 + U16At(s, at + 28);
      var next := nameEnd + U16At(s, at + 30) + U16At(s, at + 32);
      if next <= |s| then
        Some((CentralInfo(s[at + 46..nameEnd], U32At(s, at + 16), U32At(s, at + 24), U32At(s, at + 42)), next))
      else
        None
    else
      None
  }

  /** `count` consecutive central headers, the first at `at`. */
  function ReadCentrals(s: seq<byte>, at: nat, count: nat): Option<seq<CentralInfo>>
    decreases count
  {
    if count == 0 then Some([])
    else match ReadCentral(s, at)
      case None => None
      case Some((c, next)) =>
        match ReadCentrals(s, next, count - 1)
        case None => None
        case Some(rest) => Some([c] + rest)
  }

  /** The entries the central headers point to, each agreeing with its central header. */
  function ReadEntries(s: seq<byte>, infos: seq<CentralInfo>): Option<seq<Entry>> {
    if infos == [] then Some([])
    else match ReadLocal(s, infos[0].offset)
      case None => None
      case Some(e) =>
        if e.name == infos[0].name && e.crc == infos[0].crc && |e.data| == infos[0].size then
          match ReadEntries(s, infos[1..])
          case None => None
          case Some(rest) => Some([e] + rest)
        else
          None
  }

  /**
   * The entries of an archive with no archive comment: the end record is
   * the last 22 bytes, and the central directory it describes ends where the
   * end record begins.
   */
  function ReadZip(s: seq<byte>): Option<seq<Entry>> {
    if |s| < 22 then None
    else
      var at := |s| - 22;
      var size, offset := U32At(s, at + 12), U32At(s, at + 16);
      if U32At(s, at) != EndSignature || offset + size != at then None
      else match ReadCentrals(s, offset, U16At(s, at + 10))
        case None => None
        case Some(infos) => ReadEntries(s, infos)
  }

  /** What the central headers of `es` record, when the records of `before` come first. */
  function Infos(es: seq<Entry>, before: seq<Entry>): seq<CentralInfo> {
    if es == [] then []
    else [CentralInfo(es[0].name, es[0].crc, |es[0].data|, LocalsSize(before))] + Infos(es[1..], before + [es[0]])
  }

  /** Every name fits the 16-bit name length field and every CRC-32 is a 32-bit value. */
  predicate FieldsFit(es: seq<Entry>) {
    forall i :: 0 <= i < |es| ==> |es[i].name| < Two16 && es[i].crc < Two32
  }

  /**
   * The entries fit the format without the ZIP64 extensions: fewer than 2^16
   * of them, names shorter than 2^16 bytes, and every checksum, size and
   * offset, including the end of the central directory, below 2^32.
   */
  predicate Fits(es: seq<Entry>) {
    |es| < Two16 && FieldsFit(es) && LocalsSize(es) + CentralsSize(es) < Two32
  }

  lemma ModSmall(x: nat, m: nat)
    requires x < m
    ensures x % m == x
  {
  }

  /** `ReadLocal` accepts a local header whose fields say what the bytes after it hold. */
  lemma ReadLocalFrom(s: seq<byte>, at: nat, e: Entry)
    requires at + 30 + |e.name| + |e.data| <= |s|
    requires U32At(s, at) == LocalSignature && U16At(s, at + 8) == 0
    requires U32At(s, at + 14) == e.crc && U32At(s, at + 18) == |e.data|
    requires U16At(s, at + 26) == |e.name| && U16At(s, at + 28) == 0
    requires s[at + 30..at + 30 + |e.name|] == e.name
    requires s[at + 30 + |e.name|..at + 30 + |e.name| + |e.data|] == e.data
    ensures ReadLocal(s, at) == Some(e)
  {
  }

  lemma ReadLocalOf(s: seq<byte>, at: nat, e: Entry)
    requires at + 30 + |e.name| + |e.data| <= |s|
    requires s[at..at + 30 + |e.name| + |e.data|] == LocalFixed(e.crc, |e.data|, |e.name|) + (e.name + e.data)
    requires |e.name| < Two16 && |e.data| < Two32 && e.crc < Two32
    ensures ReadLocal(s, at) == Some(e)
  {
    var h := LocalFixed(e.crc, |e.data|, |e.name|);
    var hi := at + 30 + |e.name| + |e.data|;
    SliceSplit(s, at, at + 30, hi, h, e.name + e.data);
    SliceSplit(s, at + 30, at + 30 + |e.name|, hi, e.name, e.data);
    LocalFieldsAt(s, at, e.crc, |e.data|, |e.name|);
    ModSmall(e.crc, Two32);
    ModSmall(|e.data|, Two32);
    ModSmall(|e.name|, Two16);
    ReadLocalFrom(s, at, e);
  }

  /** `ReadCentral` accepts a central header whose fields say what follows it. */
  lemma ReadCentralFrom(s: seq<byte>, at: nat, c: CentralInfo)
    requires at + 46 + |c.name| <= |s|
    requires U32At(s, at) == CentralSignature
    requires U32At(s, at + 16) == c.crc && U32At(s, at + 24) == c.size
    requires U16At(s, at + 28) == |c.name| && U16At(s, at + 30) == 0 && U16At(s, at + 32) == 0
    requires U32At(s, at + 42) == c.offset
    requires s[at + 46..at + 46 + |c.name|] == c.name
    ensures ReadCentral(s, at) == Some((c, at + 46 + |c.name|))
  {
  }

  lemma ReadCentralOf(s: seq<byte>, at: nat, e: Entry, offset: nat)
    requires at + 46 + |e.name| <= |s| && s[at..at + 46 + |e.name|] == CentralHeader(e, offset)
    requires |e.name| < Two16 && |e.data| < Two32 && e.crc < Two32 && offset < Two32
    ensures ReadCentral(s, at) == Some((CentralInfo(e.name, e.crc, |e.data|, offset), at + 46 + |e.name|))
  {
    var h := CentralFixed(e.crc, |e.data|, |e.name|, offset);
    SliceSplit(s, at, at + 46, at + 46 + |e.name|, h, e.name);
    CentralFieldsAt(s, at, e.crc, |e.data|, |e.name|, offset);
    ModSmall(e.crc, Two32);
    ModSmall(|e.data|, Two32);
    ModSmall(|e.name|, Two16);
    ModSmall(offset, Two32);
    ReadCentralFrom(s, at, CentralInfo(e.name, e.crc, |e.data|, offset));
  }

  /** The records of `before` followed by one more entry `e` end `RecordSize(e)` bytes later. */
  lemma LocalsSizeSnoc(before: seq<Entry>, e: Entry)
    ensures LocalsSize(before + [e]) == LocalsSize(before) + RecordSize(e)
  {
    LocalsAppend(before, [e]);
    assert [e][1..] == [];
  }

  lemma ReadCentralsCons(s: seq<byte>, at: nat, count: nat, c: CentralInfo, next: nat, restCount: nat, rest: seq<CentralInfo>)
    requires count == restCount + 1
    requires ReadCentral(s, at) == Some((c, next)) && ReadCentrals(s, next, restCount) == Some(rest)
    ensures ReadCentrals(s, at, count) == Some([c] + rest)
  {
  }

  /** Walking the central directory of `es` yields what its headers record, entry by entry. */
  lemma {:induction false} ReadCentralsOf(s: seq<byte>, at: nat, es: seq<Entry>, before: seq<Entry>)
    decreases |es|
    requires at + CentralsSize(es) <= |s| && s[at..at + CentralsSize(es)] == Centrals(es, before)
    requires FieldsFit(es) && LocalsSize(before) + LocalsSize(es) < Two32
    ensures ReadCentrals(s, at, |es|) == Some(Infos(es, before))
  {
    if es != [] {
      var e, rest, next := es[0], es[1..], before + [es[0]];
      var h, t := CentralHeader(e, LocalsSize(before)), Centrals(rest, next);
      assert Centrals(es, before) == h + t;
      var n, hi := at + 46 + |e.name|, at + CentralsSize(es);
      SliceSplit(s, at, n, hi, h, t);
      SliceBounds(s, n, hi, n, n + CentralsSize(rest));
      assert |e.name| < Two16 && e.crc < Two32;
      ReadCentralOf(s, at, e, LocalsSize(before));
      LocalsSizeSnoc(before, e);
      assert FieldsFit(rest) by {
        forall i | 0 <= i < |rest| ensures |rest[i].name| < Two16 && rest[i].crc < Two32 {
          assert rest[i] == es[i + 1];
        }
      }
      ReadCentralsOf(s, n, rest, next);
      var info := CentralInfo(e.name, e.crc, |e.data|, LocalsSize(before));
      assert Infos(es, before) == [info] + Infos(rest, next);
      ReadCentralsCons(s, at, |es|, info, n, |rest|, Infos(rest, next));
    }
  }

  lemma ReadEntriesCons(s: seq<byte>, info: CentralInfo, infos: seq<CentralInfo>, e: Entry, rest: seq<Entry>)
    requires ReadLocal(s, info.offset) == Some(e)
    requires e.name == info.name && e.crc == info.crc && |e.data| == info.size
    requires ReadEntries(s, infos) == Some(rest)
    ensures ReadEntries(s, [info] + infos) == Some([e] + rest)
  {
    var all := [info] + infos;
    assert all[0] == info && all[1..] == infos;
  }

  /** Fetching the local records the central headers point to yields the entries themselves. */
  lemma {:induction false} ReadEntriesOf(s: seq<byte>, es: seq<Entry>, before: seq<Entry>)
    requires LocalsSize(before) + LocalsSize(es) <= |s|
    requires s[LocalsSize(before)..LocalsSize(before) + LocalsSize(es)] == Locals(es)
    requires FieldsFit(es) && LocalsSize(es) < Two32
    ensures ReadEntries(s, Infos(es, before)) == Some(es)
  {
    if es != [] {
      var e, rest, next := es[0], es[1..], before + [es[0]];
      var p := LocalsSize(before);
      var h := LocalFixed(e.crc, |e.data|, |e.name|);
      var rec := LocalHeader(e) + e.data;
      AppendAssoc(h, e.name, e.data);
      assert Locals(es) == rec + Locals(rest);
      var mid, hi := p + 30 + |e.name| + |e.data|, p + LocalsSize(es);
      SliceSplit(s, p, mid, hi, rec, Locals(rest));
      assert |e.name| < Two16 && e.crc < Two32;
      ReadLocalOf(s, p, e);
      LocalsSizeSnoc(before, e);
      SliceBounds(s, mid, hi, LocalsSize(next), LocalsSize(next) + LocalsSize(rest));
      assert FieldsFit(rest) by {
        forall i | 0 <= i < |rest| ensures |rest[i].name| < Two16 && rest[i].crc < Two32 {
          assert rest[i] == es[i + 1];
        }
      }
      ReadEntriesOf(s, rest, next);
      var info := CentralInfo(e.name, e.crc, |e.data|, p);
      assert Infos(es, before) == [info] + Infos(rest, next);
      ReadEntriesCons(s, info, Infos(rest, next), e, rest);
      assert [e] + rest == es;
    }
  }

  /** `ReadZip` accepts bytes whose last 22 hold an end record describing the central directory `infos` was read from. */
  lemma ReadZipFields(s: seq<byte>, at: nat, count: nat, size: nat, offset: nat, infos: seq<CentralInfo>, es: seq<Entry>)
    requires at + 22 == |s| && offset + size == at
    requires U32At(s, at) == EndSignature && U16At(s, at + 10) == count
    requires U32At(s, at + 12) == size && U32At(s, at + 16) == offset
    requires ReadCentrals(s, offset, count) == Some(infos) && ReadEntries(s, infos) == Some(es)
    ensures ReadZip(s) == Some(es)
  {
  }

  /** `ReadZip` accepts an end record, at the very end, that describes the central directory `infos` was read from. */
  lemma ReadZipFrom(s: seq<byte>, at: nat, count: nat, size: nat, offset: nat, infos: seq<CentralInfo>, es: seq<Entry>)
    requires at + 22 == |s| && offset + size == at && s[at..at + 22] == EndRecord(count, size, offset)
    requires count < Two16 && at < Two32
    requires ReadCentrals(s, offset, count) == Some(infos) && ReadEntries(s, infos) == Some(es)
    ensures ReadZip(s) == Some(es)
  {
    EndFieldsAt(s, at, count, size, offset);
    ModSmall(count, Two16);
    ModSmall(size, Two32);
    ModSmall(offset, Two32);
    ReadZipFields(s, at, count, size, offset, infos, es);
  }

  /** The central directory of the archive of `es` reads back as what its headers record. */
  lemma ArchiveCentrals(es: seq<Entry>)
    requires Fits(es)
    ensures ReadCentrals(Archive(es), LocalsSize(es), |es|) == Some(Infos(es, []))
  {
    var l, c := LocalsSize(es), CentralsSize(es);
    var a := Archive(es);
    Split3(a, Locals(es), Centrals(es, []), EndRecord(|es|, c, l));
    assert LocalsSize([]) == 0;
    ReadCentralsOf(a, l, es, []);
  }

  /** The central headers of the archive of `es` point to its entries. */
  lemma ArchiveEntries(es: seq<Entry>)
    requires Fits(es)
    ensures ReadEntries(Archive(es), Infos(es, [])) == Some(es)
  {
    var l, c := LocalsSize(es), CentralsSize(es);
    var a := Archive(es);
    Split3(a, Locals(es), Centrals(es, []), EndRecord(|es|, c, l));
    assert LocalsSize([]) == 0;
    SliceBounds(a, 0, l, LocalsSize([]), LocalsSize([]) + l);
    ReadEntriesOf(a, es, []);
  }

  /**
   * The round trip: reading back the archive of entries that fit the format
   * gives exactly those entries, in order.
   */
  lemma ReadZipArchive(es: seq<Entry>)
    requires Fits(es)
    ensures ReadZip(Archive(es)) == Some(es)
  {
    var l, c := LocalsSize(es), CentralsSize(es);
    ArchiveCentrals(es);
    ArchiveEntries(es);
    var a := Archive(es);
    Split3(a, Locals(es), Centrals(es, []), EndRecord(|es|, c, l));
    SliceBounds(a, l + c, |a|, l + c, l + c + 22);
    ReadZipFrom(a, l + c, |es|, c, l, Infos(es, []), es);
  }
}
