/**
 * `createZip` as it is written: for every file it encodes the path and the
 * content as UTF-8, computes the CRC-32 of the content, fills a zeroed local
 * header and a zeroed central header through `DataView` setters, and pushes
 * them onto three lists while keeping a running offset; then it writes the
 * end record and hands the parts, in archive order, to a `Blob`.
 */
module ZipWriter {
  import opened Text
  import Crc32
  import opened ZipFormat
  import opened ZipArchive

  /** A file to store: its path inside the archive and its text content. */
  datatype File = File(path: string, content: string)

  /** What `new Blob(parts, { type })` holds: the parts, one after the other, and the MIME type. */
  datatype Blob = Blob(bytes: seq<byte>, mimeType: string)

  const SpreadsheetMimeType := "application/vnd.openxmlformats-officedocument.spreadsheetml.sheet"

  /** The entry `createZip` stores for `f`: UTF-8 path, UTF-8 content, and the CRC-32 of that content. */
  function EntryOf(f: File): (e: Entry)
    ensures e.crc < Two32
  {
    var data := Utf8Encode(f.content);
    Entry(Utf8Encode(f.path), data, Crc32.Checksum(data) as nat)
  }

  function Entries(files: seq<File>): (es: seq<Entry>)
    ensures |es| == |files|
  {
    seq(|files|, i requires 0 <= i < |files| => EntryOf(files[i]))
  }

  /** The parts of a `Blob`, one after the other. */
  function Concat(parts: seq<seq<byte>>): seq<byte> {
    if parts == [] then [] else parts[0] + Concat(parts[1..])
  }

  /** `parts.reduce((sum, part) => sum + part.length, 0)`. */
  function TotalLength(parts: seq<seq<byte>>): nat {
    if parts == [] then 0 else |parts[0]| + TotalLength(parts[1..])
  }

  lemma {:induction false} ConcatAppend(a: seq<seq<byte>>, b: seq<seq<byte>>)
    ensures Concat(a + b) == Concat(a) + Concat(b)
  {
    if a == [] {
      assert a + b == b;
    } else {
      assert (a + b)[0] == a[0] && (a + b)[1..] == a[1..] + b;
      ConcatAppend(a[1..], b);
      AppendAssoc(a[0], Concat(a[1..]), Concat(b));
    }
  }

  lemma ConcatOne(p: seq<byte>)
    ensures Concat([p]) == p
  {
    assert [p][1..] == [];
  }

  /** The summed lengths are the length of the concatenation. */
  lemma {:induction false} TotalLengthConcat(parts: seq<seq<byte>>)
    ensures TotalLength(parts) == |Concat(parts)|
  {
    if parts != [] {
      TotalLengthConcat(parts[1..]);
    }
  }

  /** `DataView.setUint16(at, v, true)`: the low 16 bits of `v`, low byte first; nothing else changes. */
  method SetUint16(buf: array<byte>, at: nat, v: nat)
    requires at + 2 <= buf.Length
    modifies buf
    ensures buf[at] == LE16(v)[0] && buf[at + 1] == LE16(v)[1]
    ensures forall j :: 0 <= j < buf.Length && j != at && j != at + 1 ==> buf[j] == old(buf[j])
  {
    buf[at] := (v % 0x100) as byte;
    buf[at + 1] := (v / 0x100 % 0x100) as byte;
  }

  /** `DataView.setUint32(at, v, true)`: the low 32 bits of `v`, low byte first; nothing else changes. */
  method SetUint32(buf: array<byte>, at: nat, v: nat)
    requires at + 4 <= buf.Length
    modifies buf
    ensures forall i :: 0 <= i < 4 ==> buf[at + i] == LE32(v)[i]
    ensures forall j :: 0 <= j < buf.Length && !(at <= j < at + 4) ==> buf[j] == old(buf[j])
  {
    buf[at] := (v % 0x100) as byte;
    buf[at + 1] := (v / 0x100 % 0x100) as byte;
    buf[at + 2] := (v / 0x1_0000 % 0x100) as byte;
    buf[at + 3] := (v / 0x100_0000 % 0x100) as byte;
  }

  /** `Uint8Array.set(src, at)`: `src` copied in from `at`; nothing else changes. */
  method SetBytes(buf: array<byte>, src: seq<byte>, at: nat)
    requires at + |src| <= buf.Length
    modifies buf
    ensures forall i :: 0 <= i < |src| ==> buf[at + i] == src[i]
    ensures forall j :: 0 <= j < buf.Length && !(at <= j < at + |src|) ==> buf[j] == old(buf[j])
  {
    for k := 0 to |src|
      invariant forall i :: 0 <= i < k ==> buf[at + i] == src[i]
      invariant forall j :: 0 <= j < buf.Length && !(at <= j < at + k) ==> buf[j] == old(buf[j])
    {
      buf[at + k] := src[k];
    }
  }

  /** The first `k` bytes of `buf` are those of `want`, which fits in `buf`. */
  ghost predicate Agrees(buf: array<byte>, want: seq<byte>, k: nat)
    reads buf
  {
    k <= |want| <= buf.Length && forall j :: 0 <= j < k ==> buf[j] == want[j]
  }

  /** `SetUint16` right after the part already filled in, writing what `want` holds there. */
  method Fill16(buf: array<byte>, at: nat, v: nat, ghost want: seq<byte>)
    requires Agrees(buf, want, at) && at + 2 <= |want|
    requires want[at..at + 2] == LE16(v)
    modifies buf
    ensures Agrees(buf, want, at + 2)
  {
    SetUint16(buf, at, v);
    assert want[at] == LE16(v)[0] && want[at + 1] == LE16(v)[1];
  }

  /** `SetUint32` right after the part already filled in, writing what `want` holds there. */
  method Fill32(buf: array<byte>, at: nat, v: nat, ghost want: seq<byte>)
    requires Agrees(buf, want, at) && at + 4 <= |want|
    requires want[at..at + 4] == LE32(v)
    modifies buf
    ensures Agrees(buf, want, at + 4)
  {
    SetUint32(buf, at, v);
    assert buf[at] == LE32(v)[0] && buf[at + 1] == LE32(v)[1];
    assert buf[at + 2] == LE32(v)[2] && buf[at + 3] == LE32(v)[3];
    assert want[at] == LE32(v)[0] && want[at + 1] == LE32(v)[1];
    assert want[at + 2] == LE32(v)[2] && want[at + 3] == LE32(v)[3];
  }

  /** `SetBytes` of the name right after the filled-in fixed part, which ends the buffer. */
  method FillName(h: array<byte>, at: nat, name: seq<byte>, ghost fixed: seq<byte>)
    requires |fixed| == at && Agrees(h, fixed, at) && h.Length == at + |name|
    modifies h
    ensures h[..] == fixed + name
  {
    SetBytes(h, name, at);
    assert forall j :: 0 <= j < |name| ==> h[at + j] == name[j];
  }

  /** A fresh zero-filled local header, filled in field by field and then given the name. */
  method WriteLocalHeader(name: seq<byte>, crc: nat, size: nat) returns (h: array<byte>)
    ensures fresh(h) && h[..] == LocalFixed(crc, size, |name|) + name
  {
    h := new byte[30 + |name|](_ => 0);
    ghost var want := LocalFixed(crc, size, |name|);
    LocalFixedFields(crc, size, |name|);
    Fill32(h, 0, LocalSignature, want);
    Fill16(h, 4, Version, want);
    Fill16(h, 6, 0, want);
    Fill16(h, 8, 0, want);
    Fill16(h, 10, 0, want);
    Fill16(h, 12, 0, want);
    Fill32(h, 14, crc, want);
    Fill32(h, 18, size, want);
    Fill32(h, 22, size, want);
    Fill16(h, 26, |name|, want);
    Fill16(h, 28, 0, want);
    FillName(h, 30, name, want);
  }

  /** A fresh zero-filled central header, filled in field by field and then given the name. */
  method WriteCentralHeader(name: seq<byte>, crc: nat, size: nat, offset: nat) returns (h: array<byte>)
    ensures fresh(h) && h[..] == CentralFixed(crc, size, |name|, offset) + name
  {
    h := new byte[46 + |name|](_ => 0);
    ghost var want := CentralFixed(crc, size, |name|, offset);
    CentralFixedHead(crc, size, |name|, offset);
    CentralFixedTail(crc, size, |name|, offset);
    Fill32(h, 0, CentralSignature, want);
    Fill16(h, 4, Version, want);
    Fill16(h, 6, Version, want);
    Fill16(h, 8, 0, want);
    Fill16(h, 10, 0, want);
    Fill16(h, 12, 0, want);
    Fill16(h, 14, 0, want);
    Fill32(h, 16, crc, want);
    Fill32(h, 20, size, want);
    Fill32(h, 24, size, want);
    Fill16(h, 28, |name|, want);
    Fill16(h, 30, 0, want);
    Fill16(h, 32, 0, want);
    Fill16(h, 34, 0, want);
    Fill16(h, 36, 0, want);
    Fill32(h, 38, 0, want);
    Fill32(h, 42, offset, want);
    FillName(h, 46, name, want);
  }

  /** A fresh zero-filled end record, filled in field by field. */
  method WriteEndRecord(count: nat, size: nat, offset: nat) returns (r: array<byte>)
    ensures fresh(r) && r[..] == EndRecord(count, size, offset)
  {
    r := new byte[22](_ => 0);
    ghost var want := EndRecord(count, size, offset);
    EndRecordFields(count, size, offset);
    Fill32(r, 0, EndSignature, want);
    Fill16(r, 4, 0, want);
    Fill16(r, 6, 0, want);
    Fill16(r, 8, count, want);
    Fill16(r, 10, count, want);
    Fill32(r, 12, size, want);
    Fill32(r, 16, offset, want);
    Fill16(r, 20, 0, want);
    FillName(r, 22, [], want);
  }

  lemma ConcatTwo(a: seq<byte>, b: seq<byte>)
    ensures Concat([a, b]) == a + b
  {
    assert [a, b][1..] == [b];
    ConcatOne(b);
  }

  /** One more entry adds its record after the records of the entries ahead of it. */
  lemma LocalsSnoc(es: seq<Entry>, i: nat)
    requires i < |es|
    ensures Locals(es[..i + 1]) == Locals(es[..i]) + (LocalHeader(es[i]) + es[i].data)
    ensures LocalsSize(es[..i + 1]) == LocalsSize(es[..i]) + RecordSize(es[i])
  {
    assert es[..i + 1] == es[..i] + [es[i]];
    LocalsAppend(es[..i], [es[i]]);
    assert [es[i]][1..] == [];
  }

  /** One more entry adds its central header, pointing past the records ahead of it. */
  lemma CentralsSnoc(es: seq<Entry>, i: nat)
    requires i < |es|
    ensures Centrals(es[..i + 1], []) == Centrals(es[..i], []) + CentralHeader(es[i], LocalsSize(es[..i]))
  {
    assert es[..i + 1] == es[..i] + [es[i]];
    CentralsAppend(es[..i], [es[i]], []);
    assert [] + es[..i] == es[..i];
    assert [es[i]][1..] == [];
  }

  /** The first `i` local headers and contents pushed so far are those of the first `i` entries. */
  ghost predicate Pushed(headers: seq<seq<byte>>, contents: seq<seq<byte>>, es: seq<Entry>, i: nat) {
    |headers| == i && |contents| == i && i <= |es|
    && forall k :: 0 <= k < i ==> headers[k] == LocalHeader(es[k]) && contents[k] == es[k].data
  }

  lemma PushedStep(headers: seq<seq<byte>>, contents: seq<seq<byte>>, es: seq<Entry>, i: nat, h: seq<byte>, c: seq<byte>)
    requires Pushed(headers, contents, es, i) && i < |es| && h == LocalHeader(es[i]) && c == es[i].data
    ensures Pushed(headers + [h], contents + [c], es, i + 1)
  {
  }

  /**
   * The loop of `createZip` over the files: for each, its local header, its
   * content and its central header, pushed onto three lists, with the running
   * offset of the next local header.
   */
  method CollectHeaders(table: array<bv32>, files: seq<File>)
      returns (localFileHeaders: seq<seq<byte>>, contents: seq<seq<byte>>, centralDirectoryHeaders: seq<seq<byte>>, offset: nat)
    requires table.Length == 256 && forall i :: 0 <= i < 256 ==> table[i] == Crc32.TableEntry(i)
    ensures Pushed(localFileHeaders, contents, Entries(files), |files|)
    ensures Concat(centralDirectoryHeaders) == Centrals(Entries(files), [])
    ensures offset == LocalsSize(Entries(files))
  {
    ghost var es := Entries(files);
    localFileHeaders, contents, centralDirectoryHeaders, offset := [], [], [], 0;
    for i := 0 to |files|
      invariant Pushed(localFileHeaders, contents, es, i)
      invariant Concat(centralDirectoryHeaders) == Centrals(es[..i], [])
      invariant offset == LocalsSize(es[..i])
    {
      var fileNameBytes := Utf8Encode(files[i].path);
      var contentBytes := Utf8Encode(files[i].content);
      var crc := Crc32.Crc32(table, contentBytes);
      assert es[i] == Entry(fileNameBytes, contentBytes, crc as nat);
      var localHeader := WriteLocalHeader(fileNameBytes, crc as nat, |contentBytes|);
      var centralHeader := WriteCentralHeader(fileNameBytes, crc as nat, |contentBytes|, offset);
      PushedStep(localFileHeaders, contents, es, i, localHeader[..], contentBytes);
      localFileHeaders := localFileHeaders + [localHeader[..]];
      contents := contents + [contentBytes];
      ConcatAppend(centralDirectoryHeaders, [centralHeader[..]]);
      ConcatOne(centralHeader[..]);
      CentralsSnoc(es, i);
      centralDirectoryHeaders := centralDirectoryHeaders + [centralHeader[..]];
      LocalsSnoc(es, i);
      offset := offset + localHeader.Length + |contentBytes|;
    }
    assert es[..|files|] == es;
  }

  /** The loop of `createZip` that lists each local header followed by its content. */
  method InterleaveRecords(localFileHeaders: seq<seq<byte>>, contents: seq<seq<byte>>, ghost es: seq<Entry>)
      returns (parts: seq<seq<byte>>)
    requires Pushed(localFileHeaders, contents, es, |es|)
    ensures Concat(parts) == Locals(es)
  {
    parts := [];
    for i := 0 to |localFileHeaders|
      invariant Concat(parts) == Locals(es[..i])
    {
      ConcatAppend(parts, [localFileHeaders[i], contents[i]]);
      ConcatTwo(localFileHeaders[i], contents[i]);
      LocalsSnoc(es, i);
      parts := parts + [localFileHeaders[i], contents[i]];
    }
    assert es[..|es|] == es;
  }

  /**
   * `createZip(files)`, with the CRC-32 lookup table it builds when the module
   * loads: the `Blob` holds exactly the archive of the files' entries.
   */
  method CreateZip(table: array<bv32>, files: seq<File>) returns (blob: Blob)
    requires table.Length == 256 && forall i :: 0 <= i < 256 ==> table[i] == Crc32.TableEntry(i)
    ensures blob == Blob(Archive(Entries(files)), SpreadsheetMimeType)
  {
    ghost var es := Entries(files);
    var localFileHeaders, contents, centralDirectoryHeaders, offset := CollectHeaders(table, files);
    var centralDirectoryOffset := offset;
    var centralDirectorySize := TotalLength(centralDirectoryHeaders);
    TotalLengthConcat(centralDirectoryHeaders);
    var endRecord := WriteEndRecord(|files|, centralDirectorySize, centralDirectoryOffset);
    var parts := InterleaveRecords(localFileHeaders, contents, es);
    ConcatAppend(parts, centralDirectoryHeaders);
    ConcatAppend(parts + centralDirectoryHeaders, [endRecord[..]]);
    ConcatOne(endRecord[..]);
    parts := parts + centralDirectoryHeaders + [endRecord[..]];
    blob := Blob(Concat(parts), SpreadsheetMimeType);
  }
}
