/**
 * The archive `createZip` produces, as a function of its entries: every
 * local header followed by its data, then the central directory, then the
 * end record. Offsets count from the first byte of the archive.
 */
module ZipArchive {
  import opened Text
  import opened ZipFormat

  /**
   * One archive member: the UTF-8 bytes of its path, those of its content,
   * and the CRC-32 computed over the content, which both headers record.
   */
  datatype Entry = Entry(name: seq<byte>, data: seq<byte>, crc: nat)

  /** The local file header of `e`: the fixed part, then the name. */
  function LocalHeader(e: Entry): (h: seq<byte>)
    ensures |h| == 30 + |e.name|
  {
    LocalFixed(e.crc, |e.data|, |e.name|) + e.name
  }

  /** The central directory header of `e`, whose local header starts at `offset`. */
  function CentralHeader(e: Entry, offset: nat): (h: seq<byte>)
    ensures |h| == 46 + |e.name|
  {
    CentralFixed(e.crc, |e.data|, |e.name|, offset) + e.name
  }

  /** The bytes `e` takes up before the central directory: its local header and its data. */
  function RecordSize(e: Entry): nat {
    30 + |e.name| + |e.data|
  }

  /** The sum of the record sizes: where the central directory begins. */
  function LocalsSize(es: seq<Entry>): nat {
    if es == [] then 0 else RecordSize(es[0]) + LocalsSize(es[1..])
  }

  /** The sum of the central header sizes. */
  function CentralsSize(es: seq<Entry>): nat {
    if es == [] then 0 else 46 + |es[0].name| + CentralsSize(es[1..])
  }

  /** Every local header followed by its data, in the order of the entries. */
  function Locals(es: seq<Entry>): (r: seq<byte>)
    ensures |r| == LocalsSize(es)
  {
    if es == [] then [] else LocalHeader(es[0]) + es[0].data + Locals(es[1..])
  }

  /**
   * The central directory headers of `es`, when the records of `before` come
   * first in the archive: each header records where its local header starts,
   * right after the records of every entry ahead of it.
   */
  function Centrals(es: seq<Entry>, before: seq<Entry>): (r: seq<byte>)
    ensures |r| == CentralsSize(es)
  {
    if es == [] then [] else CentralHeader(es[0], LocalsSize(before)) + Centrals(es[1..], before + [es[0]])
  }

  /** The whole archive, as the parts `createZip` hands to the `Blob`. */
  function Archive(es: seq<Entry>): (r: seq<byte>)
    ensures |r| == LocalsSize(es) + CentralsSize(es) + 22
  {
    Locals(es) + Centrals(es, []) + EndRecord(|es|, CentralsSize(es), LocalsSize(es))
  }

  /** The records of a concatenation are the records of each part, one after the other. */
  lemma {:induction false} LocalsAppend(a: seq<Entry>, b: seq<Entry>)
    ensures Locals(a + b) == Locals(a) + Locals(b)
    ensures LocalsSize(a + b) == LocalsSize(a) + LocalsSize(b)
  {
    if a == [] {
      assert a + b == b;
    } else {
      assert (a + b)[0] == a[0] && (a + b)[1..] == a[1..] + b;
      LocalsAppend(a[1..], b);
      var h := LocalHeader(a[0]) + a[0].data;
      AppendAssoc(h, Locals(a[1..]), Locals(b));
    }
  }

  /** The central headers of a concatenation: those of the second part come after the records of the first. */
  lemma {:induction false} CentralsAppend(a: seq<Entry>, b: seq<Entry>, before: seq<Entry>)
    ensures Centrals(a + b, before) == Centrals(a, before) + Centrals(b, before + a)
    ensures CentralsSize(a + b) == CentralsSize(a) + CentralsSize(b)
  {
    if a == [] {
      assert a + b == b && before + a == before;
    } else {
      assert (a + b)[0] == a[0] && (a + b)[1..] == a[1..] + b;
      var next := before + [a[0]];
      CentralsAppend(a[1..], b, next);
      assert next + a[1..] == before + a;
      AppendAssoc(CentralHeader(a[0], LocalsSize(before)), Centrals(a[1..], next), Centrals(b, before + a));
    }
  }

  /** The records of a one-entry list: its local header, then its data. */
  lemma LocalsOne(e: Entry)
    ensures Locals([e]) == LocalHeader(e) + e.data
  {
    assert [e][1..] == [];
  }

  /** The central directory of a one-entry list. */
  lemma CentralsOne(e: Entry, before: seq<Entry>)
    ensures Centrals([e], before) == CentralHeader(e, LocalsSize(before))
  {
    assert [e][1..] == [];
  }

  /**
   * In the records of `before + [e] + after`, the record of `e` sits right
   * after the records of the entries ahead of it.
   */
  lemma RecordAt(before: seq<Entry>, e: Entry, after: seq<Entry>)
    ensures var lo := LocalsSize(before);
      lo + RecordSize(e) <= LocalsSize(before + [e] + after) &&
      Locals(before + [e] + after)[lo..lo + RecordSize(e)] == LocalHeader(e) + e.data
  {
    var es := before + [e] + after;
    LocalsAppend(before + [e], after);
    LocalsAppend(before, [e]);
    LocalsOne(e);
    Split3(Locals(es), Locals(before), Locals([e]), Locals(after));
  }

  /**
   * In the central directory of `before + [e] + after`, the header of `e`
   * follows those of the entries ahead of it and records, as its offset, the
   * size of their records.
   */
  lemma CentralAt(before: seq<Entry>, e: Entry, after: seq<Entry>)
    ensures var at := CentralsSize(before);
      at + 46 + |e.name| <= CentralsSize(before + [e] + after) &&
      Centrals(before + [e] + after, [])[at..at + 46 + |e.name|] == CentralHeader(e, LocalsSize(before))
  {
    var b: seq<Entry> := [e];
    var ab: seq<Entry> := before + b;
    var none: seq<Entry> := [];
    var es := ab + after;
    assert none + ab == ab && none + before == before;
    CentralsAppend(ab, after, none);
    CentralsAppend(before, b, none);
    CentralsOne(e, before);
    var x, y, z := Centrals(before, none), Centrals(b, before), Centrals(after, ab);
    assert Centrals(es, none) == x + y + z;
    Split3(Centrals(es, none), x, y, z);
  }

  /** A local header in `s` at `lo`, followed by data, puts its signature and CRC bytes there. */
  lemma RecordBytesAt(s: seq<byte>, lo: nat, e: Entry)
    requires lo + RecordSize(e) <= |s| && s[lo..lo + RecordSize(e)] == LocalHeader(e) + e.data
    ensures s[lo..lo + 4] == LE32(LocalSignature) && s[lo + 14..lo + 18] == LE32(e.crc)
  {
    var fixed := LocalFixed(e.crc, |e.data|, |e.name|);
    LocalFixedFields(e.crc, |e.data|, |e.name|);
    AppendAssoc(fixed, e.name, e.data);
    SliceSplit(s, lo, lo + 30, lo + RecordSize(e), fixed, e.name + e.data);
    SliceOfSlice(s, lo, fixed, 0, LE32(LocalSignature), lo, lo + 4);
    SliceOfSlice(s, lo, fixed, 14, LE32(e.crc), lo + 14, lo + 18);
  }

  /** A central header in `s` at `at` puts its signature, CRC and recorded offset bytes there. */
  lemma CentralBytesAt(s: seq<byte>, at: nat, e: Entry, offset: nat)
    requires at + 46 + |e.name| <= |s| && s[at..at + 46 + |e.name|] == CentralHeader(e, offset)
    ensures s[at..at + 4] == LE32(CentralSignature) && s[at + 16..at + 20] == LE32(e.crc)
    ensures s[at + 42..at + 46] == LE32(offset)
  {
    var fixed := CentralFixed(e.crc, |e.data|, |e.name|, offset);
    CentralFixedHead(e.crc, |e.data|, |e.name|, offset);
    CentralFixedTail(e.crc, |e.data|, |e.name|, offset);
    SliceSplit(s, at, at + 46, at + 46 + |e.name|, fixed, e.name);
    SliceOfSlice(s, at, fixed, 0, LE32(CentralSignature), at, at + 4);
    SliceOfSlice(s, at, fixed, 16, LE32(e.crc), at + 16, at + 20);
    SliceOfSlice(s, at, fixed, 42, LE32(offset), at + 42, at + 46);
  }

  /**
   * `s` is laid out as the archive of `es`: the records, then the central
   * directory, then the end record, and nothing after it.
   */
  ghost predicate LaidOut(s: seq<byte>, es: seq<Entry>) {
    var l, c := LocalsSize(es), CentralsSize(es);
    l + c + 22 == |s| && s[0..l] == Locals(es) && s[l..l + c] == Centrals(es, []) &&
    s[l + c..l + c + 22] == EndRecord(|es|, c, l)
  }

  lemma ArchiveLaidOut(es: seq<Entry>)
    ensures LaidOut(Archive(es), es)
  {
    var l, c := LocalsSize(es), CentralsSize(es);
    var a := Archive(es);
    Split3(a, Locals(es), Centrals(es, []), EndRecord(|es|, c, l));
    SliceBounds(a, l + c, |a|, l + c, l + c + 22);
  }

  /** A record found at `lo` in a piece `t` of `s` that starts at `l` puts its signature and CRC bytes in `s`. */
  lemma RecordIn(s: seq<byte>, l: nat, t: seq<byte>, lo: nat, e: Entry)
    requires l + |t| <= |s| && s[l..l + |t|] == t
    requires lo + RecordSize(e) <= |t| && t[lo..lo + RecordSize(e)] == LocalHeader(e) + e.data
    ensures s[l + lo..l + lo + 4] == LE32(LocalSignature) && s[l + lo + 14..l + lo + 18] == LE32(e.crc)
  {
    SliceOfSlice(s, l, t, lo, LocalHeader(e) + e.data, l + lo, l + lo + RecordSize(e));
    RecordBytesAt(s, l + lo, e);
  }

  /** A central header found at `at` in a piece `t` of `s` that starts at `l` puts its signature, CRC and offset bytes in `s`. */
  lemma CentralIn(s: seq<byte>, l: nat, t: seq<byte>, at: nat, e: Entry, offset: nat)
    requires l + |t| <= |s| && s[l..l + |t|] == t
    requires at + 46 + |e.name| <= |t| && t[at..at + 46 + |e.name|] == CentralHeader(e, offset)
    ensures s[l + at..l + at + 4] == LE32(CentralSignature) && s[l + at + 16..l + at + 20] == LE32(e.crc)
    ensures s[l + at + 42..l + at + 46] == LE32(offset)
  {
    SliceOfSlice(s, l, t, at, CentralHeader(e, offset), l + at, l + at + 46 + |e.name|);
    CentralBytesAt(s, l + at, e, offset);
  }

  /** In an archive of `before + [e] + after`, the record of `e` begins with the local header signature and its CRC. */
  lemma RecordPlaced(s: seq<byte>, before: seq<Entry>, e: Entry, after: seq<Entry>)
    requires LocalsSize(before + [e] + after) <= |s|
    requires s[0..LocalsSize(before + [e] + after)] == Locals(before + [e] + after)
    ensures LocalsSize(before) + 30 <= LocalsSize(before + [e] + after)
    ensures s[LocalsSize(before)..LocalsSize(before) + 4] == LE32(LocalSignature)
    ensures s[LocalsSize(before) + 14..LocalsSize(before) + 18] == LE32(e.crc)
  {
    RecordAt(before, e, after);
    RecordIn(s, 0, Locals(before + [e] + after), LocalsSize(before), e);
  }

  /** In an archive of `before + [e] + after`, the central header of `e` records the size of the records ahead of it. */
  lemma CentralPlaced(s: seq<byte>, before: seq<Entry>, e: Entry, after: seq<Entry>)
    requires LocalsSize(before + [e] + after) + CentralsSize(before + [e] + after) <= |s|
    requires s[LocalsSize(before + [e] + after)..LocalsSize(before + [e] + after) + CentralsSize(before + [e] + after)]
      == Centrals(before + [e] + after, [])
    ensures var at := LocalsSize(before + [e] + after) + CentralsSize(before);
      at + 46 <= LocalsSize(before + [e] + after) + CentralsSize(before + [e] + after) &&
      s[at..at + 4] == LE32(CentralSignature) && s[at + 16..at + 20] == LE32(e.crc) &&
      s[at + 42..at + 46] == LE32(LocalsSize(before))
  {
    CentralAt(before, e, after);
    CentralIn(s, LocalsSize(before + [e] + after), Centrals(before + [e] + after, []), CentralsSize(before), e, LocalsSize(before));
  }

  /**
   * In an archive of `before + [e] + after`, the central header of `e` begins
   * with its signature and records the offset of the record of `e`, the size
   * of the records ahead of it; at that offset the local header signature
   * begins; both headers carry the CRC of `e`.
   */
  lemma OffsetsPlaced(s: seq<byte>, before: seq<Entry>, e: Entry, after: seq<Entry>)
    requires LaidOut(s, before + [e] + after)
    ensures var es := before + [e] + after;
      var lo, at := LocalsSize(before), LocalsSize(es) + CentralsSize(before);
      lo + 30 <= LocalsSize(es) && at + 46 <= LocalsSize(es) + CentralsSize(es) &&
      s[at..at + 4] == LE32(CentralSignature) && s[at + 42..at + 46] == LE32(lo) &&
      s[lo..lo + 4] == LE32(LocalSignature) && s[lo + 14..lo + 18] == s[at + 16..at + 20]
  {
    RecordPlaced(s, before, e, after);
    CentralPlaced(s, before, e, after);
  }

  /** The same, in the archive `createZip` writes for `before + [e] + after`. */
  lemma ArchiveOffsets(before: seq<Entry>, e: Entry, after: seq<Entry>)
    ensures var es := before + [e] + after;
      var a, lo, at := Archive(es), LocalsSize(before), LocalsSize(es) + CentralsSize(before);
      lo + 30 <= LocalsSize(es) && at + 46 <= LocalsSize(es) + CentralsSize(es) &&
      a[at..at + 4] == LE32(CentralSignature) && a[at + 42..at + 46] == LE32(lo) &&
      a[lo..lo + 4] == LE32(LocalSignature) && a[lo + 14..lo + 18] == a[at + 16..at + 20]
  {
    ArchiveLaidOut(before + [e] + after);
    OffsetsPlaced(Archive(before + [e] + after), before, e, after);
  }
}
