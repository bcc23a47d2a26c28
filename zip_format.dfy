/**
 * The layout of a stored (uncompressed) ZIP archive, following PKWARE's
 * APPNOTE.TXT: local file headers (section 4.3.7), central directory file
 * headers (section 4.3.12) and the end of central directory record (section
 * 4.3.16). Every integer field is little-endian and, as `DataView.setUint16`
 * and `DataView.setUint32` do, keeps only the low 16 or 32 bits of the value
 * it is given.
 */
module ZipFormat {
  import opened Text
  import Crc32

  const LocalSignature: nat := 0x0403_4B50
  const CentralSignature: nat := 0x0201_4B50
  const EndSignature: nat := 0x0605_4B50

  /** "Version needed to extract" and "version made by": 2.0. */
  const Version: nat := 20

  const Two16: nat := 0x1_0000
  const Two32: nat := 0x1_0000_0000

  /** The two bytes `setUint16(at, v, true)` writes: low byte first. */
  function LE16(v: nat): (r: seq<byte>)
    ensures |r| == 2
  {
    [(v % 0x100) as byte, (v / 0x100 % 0x100) as byte]
  }

  /** The four bytes `setUint32(at, v, true)` writes: least significant byte first. */
  function LE32(v: nat): (r: seq<byte>)
    ensures |r| == 4
  {
    [(v % 0x100) as byte, (v / 0x100 % 0x100) as byte,
     (v / 0x1_0000 % 0x100) as byte, (v / 0x100_0000 % 0x100) as byte]
  }

  /** The little-endian 16-bit integer at `s[i..i + 2]`. */
  function U16At(s: seq<byte>, i: nat): nat
    requires i + 2 <= |s|
  {
    s[i] as nat + 0x100 * s[i + 1] as nat
  }

  /** The little-endian 32-bit integer at `s[i..i + 4]`. */
  function U32At(s: seq<byte>, i: nat): nat
    requires i + 4 <= |s|
  {
    U16At(s, i) + Two16 * U16At(s, i + 2)
  }

  lemma MulCancelLt(d: int, a: int, b: int)
    requires d > 0 && d * a < d * b
    ensures a < b
  {
  }

  /** Quotient and remainder are determined by the equation they satisfy. */
  lemma DivModUnique(v: int, d: int, q: int, r: int)
    requires d > 0 && 0 <= r < d && v == d * q + r
    ensures v / d == q && v % d == r
  {
    var q0, r0 := v / d, v % d;
    assert v == d * q0 + r0;
    assert d * q0 < d * (q + 1);
    MulCancelLt(d, q0, q + 1);
    assert d * q < d * (q0 + 1);
    MulCancelLt(d, q, q0 + 1);
  }

  lemma DivMod256(v: nat, m: nat)
    requires m > 0
    ensures v % (0x100 * m) == v % 0x100 + 0x100 * (v / 0x100 % m)
    ensures v / 0x100 / m == v / (0x100 * m)
  {
    var q, r := v / 0x100, v % 0x100;
    var q2, r2 := q / m, q % m;
    assert r2 <= m - 1;
    assert 0x100 * r2 <= 0x100 * (m - 1);
    assert v == (0x100 * m) * q2 + (0x100 * r2 + r) by {
      assert v == 0x100 * q + r;
      assert q == m * q2 + r2;
    }
    DivModUnique(v, 0x100 * m, q2, 0x100 * r2 + r);
  }

  /** Reading back a 16-bit field gives the value modulo 2^16. */
  lemma LE16RoundTrip(v: nat)
    ensures U16At(LE16(v), 0) == v % Two16
  {
    DivMod256(v, 0x100);
  }

  /** Reading back a 32-bit field gives the value modulo 2^32. */
  lemma LE32RoundTrip(v: nat)
    ensures U32At(LE32(v), 0) == v % Two32
  {
    var u := v / 0x100;
    var w := u / 0x100;
    DivMod256(v, 0x100_0000);
    DivMod256(u, 0x1_0000);
    DivMod256(w, 0x100);
    DivMod256(v, 0x100);
    DivMod256(u, 0x100);
    DivMod256(v, 0x1_0000);
    assert w == v / 0x1_0000;
    assert w / 0x100 == v / 0x100_0000;
    var b0, b1, b2, b3 := v % 0x100, u % 0x100, w % 0x100, w / 0x100 % 0x100;
    assert v % Two32 == b0 + 0x100 * (b1 + 0x100 * (b2 + 0x100 * b3));
  }

  /** Four bytes that spell `LE32(v)` read back as `v` modulo 2^32. */
  lemma ReadU32(s: seq<byte>, i: nat, v: nat)
    requires i + 4 <= |s|
    requires s[i] == LE32(v)[0] && s[i + 1] == LE32(v)[1] && s[i + 2] == LE32(v)[2] && s[i + 3] == LE32(v)[3]
    ensures U32At(s, i) == v % Two32
  {
    LE32RoundTrip(v);
  }

  /** Two bytes that spell `LE16(v)` read back as `v` modulo 2^16. */
  lemma ReadU16(s: seq<byte>, i: nat, v: nat)
    requires i + 2 <= |s|
    requires s[i] == LE16(v)[0] && s[i + 1] == LE16(v)[1]
    ensures U16At(s, i) == v % Two16
  {
    LE16RoundTrip(v);
  }

  /** A field read inside a slice is the same field read in the whole sequence, shifted. */
  lemma U32AtSlice(s: seq<byte>, lo: nat, t: seq<byte>, i: nat)
    requires lo + |t| <= |s| && s[lo..lo + |t|] == t && i + 4 <= |t|
    ensures U32At(s, lo + i) == U32At(t, i)
  {
    assert s[lo + i] == t[i] && s[lo + i + 1] == t[i + 1] && s[lo + i + 2] == t[i + 2] && s[lo + i + 3] == t[i + 3];
  }

  lemma U16AtSlice(s: seq<byte>, lo: nat, t: seq<byte>, i: nat)
    requires lo + |t| <= |s| && s[lo..lo + |t|] == t && i + 2 <= |t|
    ensures U16At(s, lo + i) == U16At(t, i)
  {
    assert s[lo + i] == t[i] && s[lo + i + 1] == t[i + 1];
  }

  /**
   * Byte `i` of the fixed 30-byte part of a local file header (section 4.3.7):
   * signature; version needed; flags, method (0, stored), time and date, all
   * zero; CRC-32; compressed and uncompressed size; file name length; extra
   * field length, zero.
   */
  function LocalByte(crc: nat, size: nat, nameLen: nat, i: nat): byte
    requires i < 30
  {
    if i < 4 then LE32(LocalSignature)[i]
    else if i < 6 then LE16(Version)[i - 4]
    else if i < 14 then 0
    else if i < 18 then LE32(crc)[i - 14]
    else if i < 22 then LE32(size)[i - 18]
    else if i < 26 then LE32(size)[i - 22]
    else if i < 28 then LE16(nameLen)[i - 26]
    else 0
  }

  /** The fixed part of a local file header. */
  function LocalFixed(crc: nat, size: nat, nameLen: nat): (h: seq<byte>)
    ensures |h| == 30
  {
    seq(30, i requires 0 <= i < 30 => LocalByte(crc, size, nameLen, i))
  }

  /**
   * Byte `i` of the fixed 46-byte part of a central directory file header
   * (section 4.3.12): signature; version made by and version needed; flags,
   * method (0, stored), time and date, all zero; CRC-32; sizes; file name
   * length; extra field, comment, disk number start and internal attributes,
   * all zero; external attributes, zero; offset of the local header.
   */
  function CentralByte(crc: nat, size: nat, nameLen: nat, offset: nat, i: nat): byte
    requires i < 46
  {
    if i < 4 then LE32(CentralSignature)[i]
    else if i < 6 then LE16(Version)[i - 4]
    else if i < 8 then LE16(Version)[i - 6]
    else if i < 16 then 0
    else if i < 20 then LE32(crc)[i - 16]
    else if i < 24 then LE32(size)[i - 20]
    else if i < 28 then LE32(size)[i - 24]
    else if i < 30 then LE16(nameLen)[i - 28]
    else if i < 42 then 0
    else LE32(offset)[i - 42]
  }

  /** The fixed part of a central directory file header. */
  function CentralFixed(crc: nat, size: nat, nameLen: nat, offset: nat): (h: seq<byte>)
    ensures |h| == 46
  {
    seq(46, i requires 0 <= i < 46 => CentralByte(crc, size, nameLen, offset, i))
  }

  /**
   * Byte `i` of the 22-byte end of central directory record (section
   * 4.3.16): signature; the two disk numbers, zero; entries on this disk and
   * in total; size and offset of the central directory; comment length, zero.
   */
  function EndByte(count: nat, size: nat, offset: nat, i: nat): byte
    requires i < 22
  {
    if i < 4 then LE32(EndSignature)[i]
    else if i < 8 then 0
    else if i < 10 then LE16(count)[i - 8]
    else if i < 12 then LE16(count)[i - 10]
    else if i < 16 then LE32(size)[i - 12]
    else if i < 20 then LE32(offset)[i - 16]
    else 0
  }

  /** The end of central directory record. */
  function EndRecord(count: nat, size: nat, offset: nat): (r: seq<byte>)
    ensures |r| == 22
  {
    seq(22, i requires 0 <= i < 22 => EndByte(count, size, offset, i))
  }

  /** The local header is marked as one, says its entry is stored (method 0), and has no extra field. */
  lemma LocalFixedKind(crc: nat, size: nat, nameLen: nat)
    ensures var h := LocalFixed(crc, size, nameLen);
      && U32At(h, 0) == LocalSignature && U16At(h, 4) == Version && U16At(h, 8) == 0
      && U16At(h, 28) == 0
  {
    var h := LocalFixed(crc, size, nameLen);
    ReadU32(h, 0, LocalSignature);
    ReadU16(h, 4, Version);
    ReadU16(h, 8, 0);
    ReadU16(h, 28, 0);
  }

  /** The local header carries the CRC-32, the same value for both sizes, and the name length. */
  lemma LocalFixedContent(crc: nat, size: nat, nameLen: nat)
    ensures var h := LocalFixed(crc, size, nameLen);
      && U32At(h, 14) == crc % Two32 && U32At(h, 18) == size % Two32
      && U32At(h, 22) == size % Two32 && U16At(h, 26) == nameLen % Two16
  {
    var h := LocalFixed(crc, size, nameLen);
    ReadU32(h, 14, crc);
    ReadU32(h, 18, size);
    ReadU32(h, 22, size);
    ReadU16(h, 26, nameLen);
  }

  /** The central header is marked as one, with version 2.0 twice and method 0 (stored). */
  lemma CentralFixedKind(crc: nat, size: nat, nameLen: nat, offset: nat)
    ensures var h := CentralFixed(crc, size, nameLen, offset);
      && U32At(h, 0) == CentralSignature
      && U16At(h, 4) == Version && U16At(h, 6) == Version && U16At(h, 10) == 0
  {
    var h := CentralFixed(crc, size, nameLen, offset);
    ReadU32(h, 0, CentralSignature);
    ReadU16(h, 4, Version);
    ReadU16(h, 6, Version);
    ReadU16(h, 10, 0);
  }

  /** The central header carries the CRC-32 and the same value for both sizes. */
  lemma CentralFixedContent(crc: nat, size: nat, nameLen: nat, offset: nat)
    ensures var h := CentralFixed(crc, size, nameLen, offset);
      && U32At(h, 16) == crc % Two32 && U32At(h, 20) == size % Two32 && U32At(h, 24) == size % Two32
  {
    var h := CentralFixed(crc, size, nameLen, offset);
    ReadU32(h, 16, crc);
    ReadU32(h, 20, size);
    ReadU32(h, 24, size);
  }

  /** The central header carries the name length, no extra field or comment, and the local header's offset. */
  lemma CentralFixedPlace(crc: nat, size: nat, nameLen: nat, offset: nat)
    ensures var h := CentralFixed(crc, size, nameLen, offset);
      && U16At(h, 28) == nameLen % Two16 && U16At(h, 30) == 0 && U16At(h, 32) == 0
      && U32At(h, 42) == offset % Two32
  {
    var h := CentralFixed(crc, size, nameLen, offset);
    ReadU16(h, 28, nameLen);
    ReadU16(h, 30, 0);
    ReadU16(h, 32, 0);
    ReadU32(h, 42, offset);
  }

  /** The end record is marked as one and carries the entry count in both count fields. */
  lemma EndRecordCounts(count: nat, size: nat, offset: nat)
    ensures var r := EndRecord(count, size, offset);
      && U32At(r, 0) == EndSignature && U16At(r, 8) == count % Two16 && U16At(r, 10) == count % Two16
  {
    var r := EndRecord(count, size, offset);
    ReadU32(r, 0, EndSignature);
    ReadU16(r, 8, count);
    ReadU16(r, 10, count);
  }

  /** The end record carries the size and the offset of the central directory, and no comment. */
  lemma EndRecordPlace(count: nat, size: nat, offset: nat)
    ensures var r := EndRecord(count, size, offset);
      && U32At(r, 12) == size % Two32 && U32At(r, 16) == offset % Two32 && U16At(r, 20) == 0
  {
    var r := EndRecord(count, size, offset);
    ReadU32(r, 12, size);
    ReadU32(r, 16, offset);
    ReadU16(r, 20, 0);
  }

  /** The fixed part of a local header, field by field, as `createZip` writes it. */
  lemma LocalFixedFields(crc: nat, size: nat, nameLen: nat)
    ensures var h := LocalFixed(crc, size, nameLen);
      && h[0..4] == LE32(LocalSignature) && h[4..6] == LE16(Version)
      && h[6..8] == LE16(0) && h[8..10] == LE16(0) && h[10..12] == LE16(0) && h[12..14] == LE16(0)
      && h[14..18] == LE32(crc) && h[18..22] == LE32(size) && h[22..26] == LE32(size)
      && h[26..28] == LE16(nameLen) && h[28..30] == LE16(0)
  {
  }

  /** The fixed part of a central header up to the CRC-32, field by field, as `createZip` writes it. */
  lemma CentralFixedHead(crc: nat, size: nat, nameLen: nat, offset: nat)
    ensures var h := CentralFixed(crc, size, nameLen, offset);
      && h[0..4] == LE32(CentralSignature) && h[4..6] == LE16(Version) && h[6..8] == LE16(Version)
      && h[8..10] == LE16(0) && h[10..12] == LE16(0) && h[12..14] == LE16(0) && h[14..16] == LE16(0)
  {
  }

  /** The rest of the fixed part of a central header, field by field, as `createZip` writes it. */
  lemma CentralFixedTail(crc: nat, size: nat, nameLen: nat, offset: nat)
    ensures var h := CentralFixed(crc, size, nameLen, offset);
      && h[16..20] == LE32(crc) && h[20..24] == LE32(size) && h[24..28] == LE32(size)
      && h[28..30] == LE16(nameLen) && h[30..32] == LE16(0) && h[32..34] == LE16(0)
      && h[34..36] == LE16(0) && h[36..38] == LE16(0) && h[38..42] == LE32(0) && h[42..46] == LE32(offset)
  {
  }

  /** The end record, field by field, as `createZip` writes it. */
  lemma EndRecordFields(count: nat, size: nat, offset: nat)
    ensures var r := EndRecord(count, size, offset);
      && r[0..4] == LE32(EndSignature) && r[4..6] == LE16(0) && r[6..8] == LE16(0)
      && r[8..10] == LE16(count) && r[10..12] == LE16(count)
      && r[12..16] == LE32(size) && r[16..20] == LE32(offset) && r[20..22] == LE16(0)
  {
  }

  /** A reader that finds the fixed part of a local header at `at` sees its fields there. */
  lemma LocalFieldsAt(s: seq<byte>, at: nat, crc: nat, size: nat, nameLen: nat)
    requires at + 30 <= |s| && s[at..at + 30] == LocalFixed(crc, size, nameLen)
    ensures U32At(s, at) == LocalSignature && U16At(s, at + 8) == 0
    ensures U32At(s, at + 14) == crc % Two32 && U32At(s, at + 18) == size % Two32
    ensures U16At(s, at + 26) == nameLen % Two16 && U16At(s, at + 28) == 0
  {
    var h := LocalFixed(crc, size, nameLen);
    LocalFixedKind(crc, size, nameLen);
    LocalFixedContent(crc, size, nameLen);
    U32AtSlice(s, at, h, 0);
    U16AtSlice(s, at, h, 8);
    U32AtSlice(s, at, h, 14);
    U32AtSlice(s, at, h, 18);
    U16AtSlice(s, at, h, 26);
    U16AtSlice(s, at, h, 28);
  }

  /** A reader that finds the fixed part of a central header at `at` sees its fields there. */
  lemma CentralFieldsAt(s: seq<byte>, at: nat, crc: nat, size: nat, nameLen: nat, offset: nat)
    requires at + 46 <= |s| && s[at..at + 46] == CentralFixed(crc, size, nameLen, offset)
    ensures U32At(s, at) == CentralSignature
    ensures U32At(s, at + 16) == crc % Two32 && U32At(s, at + 24) == size % Two32
    ensures U16At(s, at + 28) == nameLen % Two16 && U16At(s, at + 30) == 0 && U16At(s, at + 32) == 0
    ensures U32At(s, at + 42) == offset % Two32
  {
    var h := CentralFixed(crc, size, nameLen, offset);
    CentralFixedKind(crc, size, nameLen, offset);
    CentralFixedContent(crc, size, nameLen, offset);
    CentralFixedPlace(crc, size, nameLen, offset);
    U32AtSlice(s, at, h, 0);
    U32AtSlice(s, at, h, 16);
    U32AtSlice(s, at, h, 24);
    U16AtSlice(s, at, h, 28);
    U16AtSlice(s, at, h, 30);
    U16AtSlice(s, at, h, 32);
    U32AtSlice(s, at, h, 42);
  }

  /** A reader that finds the end record at `at` sees its fields there. */
  lemma EndFieldsAt(s: seq<byte>, at: nat, count: nat, size: nat, offset: nat)
    requires at + 22 <= |s| && s[at..at + 22] == EndRecord(count, size, offset)
    ensures U32At(s, at) == EndSignature && U16At(s, at + 10) == count % Two16
    ensures U32At(s, at + 12) == size % Two32 && U32At(s, at + 16) == offset % Two32
  {
    var r := EndRecord(count, size, offset);
    EndRecordCounts(count, size, offset);
    EndRecordPlace(count, size, offset);
    U32AtSlice(s, at, r, 0);
    U16AtSlice(s, at, r, 10);
    U32AtSlice(s, at, r, 12);
    U32AtSlice(s, at, r, 16);
  }
}
