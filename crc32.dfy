/**
 * CRC-32 as the ZIP format uses it (PKWARE APPNOTE.TXT, section 4.4.7): the
 * reflected polynomial 0xEDB88320, a 256-entry lookup table, an initial value
 * of all ones and a final complement. Values are 32-bit vectors, so every table
 * entry and every checksum lies in [0, 2^32) by its type.
 */
module Crc32 {
  import opened Text

  const Polynomial: bv32 := 0xEDB8_8320

  /** One round of the table loop: shift right, and XOR in the polynomial when the low bit was set. */
  function Round(c: bv32): bv32 {
    if c & 1 != 0 then Polynomial ^ (c >> 1) else c >> 1
  }

  /** `k` rounds applied to `c`. */
  function Rounds(c: bv32, k: nat): bv32 {
    if k == 0 then c else Round(Rounds(c, k - 1))
  }

  /** The number of rounds behind each table entry. */
  const RoundsPerEntry: nat := 8

  /** Entry `i` of the lookup table: `i` put through eight rounds. */
  function TableEntry(i: nat): bv32
    requires i < 256
  {
    Rounds(i as bv32, RoundsPerEntry)
  }

  /** The table entry combined with the accumulator moved down one byte: `entry ^ (crc >>> 8)`. */
  function Mix(entry: bv32, crc: bv32): bv32 {
    entry ^ (crc >> 8)
  }

  /** One table-driven step of the checksum loop: `table[(crc ^ b) & 0xff] ^ (crc >>> 8)`. */
  function Step(crc: bv32, b: byte): bv32 {
    Mix(TableEntry(LowByte(crc ^ Widen(b))), crc)
  }

  /** The loop's accumulator after consuming `data` from `crc`, first byte first. */
  function Fold(crc: bv32, data: seq<byte>): bv32 {
    if data == [] then crc else Step(Fold(crc, data[..|data| - 1]), data[|data| - 1])
  }

  /** The CRC-32 of `data`. */
  function Checksum(data: seq<byte>): bv32 {
    Fold(0xFFFF_FFFF, data) ^ 0xFFFF_FFFF
  }

  /** A byte as the low eight bits of a 32-bit word. */
  function Widen(b: byte): bv32 {
    b as bv32
  }

  /** The low byte of `x`, as a table index. */
  function LowByte(x: bv32): (i: nat)
    ensures i < 256
  {
    ((x & 0xFF) as bv8) as nat
  }

  /** The checksum of no bytes is zero. */
  lemma ChecksumEmpty()
    ensures Checksum([]) == 0
  {
  }

  /** The checksum can be computed in pieces: the accumulator carries over from one piece to the next. */
  lemma {:induction false} FoldAppend(crc: bv32, a: seq<byte>, b: seq<byte>)
    ensures Fold(crc, a + b) == Fold(Fold(crc, a), b)
  {
    if b == [] {
      assert a + b == a;
    } else {
      assert (a + b)[..|a + b| - 1] == a + b[..|b| - 1];
      FoldAppend(crc, a, b[..|b| - 1]);
    }
  }

  /** Entries 0, 1 and 128 of the standard table, one round at a time. */
  lemma TableEntryExamples()
    ensures TableEntry(0) == 0
    ensures TableEntry(1) == 0x7707_3096
    ensures TableEntry(128) == 0xEDB8_8320
  {
    assert Rounds(0, 1) == 0;
    assert Rounds(0, 2) == 0;
    assert Rounds(0, 3) == 0;
    assert Rounds(0, 4) == 0;
    assert Rounds(0, 5) == 0;
    assert Rounds(0, 6) == 0;
    assert Rounds(0, 7) == 0;
    assert Rounds(1, 1) == 0xEDB8_8320;
    assert Rounds(1, 2) == 0x76DC_4190;
    assert Rounds(1, 3) == 0x3B6E_20C8;
    assert Rounds(1, 4) == 0x1DB7_1064;
    assert Rounds(1, 5) == 0x0EDB_8832;
    assert Rounds(1, 6) == 0x076D_C419;
    assert Rounds(1, 7) == 0xEE0E_612C;
    assert Rounds(128, 7) == 1;
  }

  /** The accumulator after one more byte is one table step further. */
  lemma FoldSnoc(crc: bv32, data: seq<byte>, i: nat)
    requires i < |data|
    ensures Fold(crc, data[..i + 1]) == Step(Fold(crc, data[..i]), data[i])
  {
    assert data[..i + 1][..i] == data[..i];
  }

  /** The callback of `crcTable`: eight rounds starting from `index`. */
  method ComputeEntry(index: nat) returns (c: bv32)
    requires index < 256
    ensures c == TableEntry(index)
  {
    c := index as bv32;
    for k := 0 to 8
      invariant c == Rounds(index as bv32, k)
    {
      c := if c & 1 != 0 then Polynomial ^ (c >> 1) else c >> 1;
    }
  }

  /** `crcTable`: entry `i` starts at `i` and goes through eight rounds. */
  method BuildTable() returns (table: array<bv32>)
    ensures fresh(table) && table.Length == 256
    ensures forall i :: 0 <= i < 256 ==> table[i] == TableEntry(i)
  {
    table := new bv32[256];
    for index := 0 to 256
      invariant forall i :: 0 <= i < index ==> table[i] == TableEntry(i)
    {
      table[index] := ComputeEntry(index);
    }
  }

  /** The body of the `crc32` loop: one lookup in the table and one shift. */
  method TableStep(table: array<bv32>, crc: bv32, b: byte) returns (next: bv32)
    requires table.Length == 256
    requires forall i :: 0 <= i < 256 ==> table[i] == TableEntry(i)
    ensures next == Step(crc, b)
  {
    var index := LowByte(crc ^ Widen(b));
    var entry := table[index];
    next := Mix(entry, crc);
  }

  /** `crc32`: the table-driven loop over the bytes, then the final complement. */
  method Crc32(table: array<bv32>, data: seq<byte>) returns (crc: bv32)
    requires table.Length == 256
    requires forall i :: 0 <= i < 256 ==> table[i] == TableEntry(i)
    ensures crc == Checksum(data)
  {
    crc := 0xFFFF_FFFF;
    for i := 0 to |data|
      invariant crc == Fold(0xFFFF_FFFF, data[..i])
    {
      FoldSnoc(0xFFFF_FFFF, data, i);
      crc := TableStep(table, crc, data[i]);
    }
    assert data[..|data|] == data;
    crc := crc ^ 0xFFFF_FFFF;
  }
}
