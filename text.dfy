/** Option values and text helpers shared by the spreadsheet writer and the budget logic. */
module Optional {

  /** An absent-or-present value: JavaScript's `undefined`/`null` versus a value. */
  datatype Option<T> = None | Some(value: T) {

    /** The `??` operator: the value if present, otherwise the fallback. */
    function GetOr(fallback: T): T {
      if Some? then value else fallback
    }
  }
}

/**
 * Decimal rendering of integers (what a template literal `${n}` prints for an
 * integral JavaScript number), its inverse, and the UTF-8 encoding that
 * `TextEncoder.encode` performs (RFC 3629, section 3).
 */
module Text {

  newtype byte = x: int | 0 <= x < 0x100

  lemma AppendAssoc<T>(a: seq<T>, b: seq<T>, c: seq<T>)
    ensures (a + b) + c == a + (b + c)
  {
  }

  /** A slice that spells `a + b` splits at `mid` into a slice spelling `a` and one spelling `b`. */
  lemma SliceSplit<T>(s: seq<T>, lo: nat, mid: nat, hi: nat, a: seq<T>, b: seq<T>)
    requires lo + |a| == mid && mid + |b| == hi && hi <= |s| && s[lo..hi] == a + b
    ensures s[lo..mid] == a && s[mid..hi] == b
  {
    assert s[lo..mid] == s[lo..hi][..|a|];
    assert s[mid..hi] == s[lo..hi][|a|..];
  }

  /** The same bounds, however they are written, give the same slice. */
  lemma SliceBounds<T>(s: seq<T>, lo: nat, hi: nat, lo2: nat, hi2: nat)
    requires lo == lo2 && hi == hi2 && lo <= hi <= |s|
    ensures s[lo..hi] == s[lo2..hi2]
  {
  }

  /** A piece of a piece of `s` is a piece of `s`, found at `at` and ending at `hi`. */
  lemma SliceOfSlice<T>(s: seq<T>, lo: nat, t: seq<T>, i: nat, u: seq<T>, at: nat, hi: nat)
    requires lo + |t| <= |s| && s[lo..lo + |t|] == t
    requires i + |u| <= |t| && t[i..i + |u|] == u
    requires at == lo + i && hi == at + |u|
    ensures hi <= |s| && s[at..hi] == u
  {
    forall j | 0 <= j < |u|
      ensures s[at..hi][j] == u[j]
    {
      assert u[j] == t[i..i + |u|][j] == t[i + j] == s[lo..lo + |t|][i + j];
    }
  }

  /** A sequence made of three parts, cut back into them. */
  lemma Split3<T>(s: seq<T>, x: seq<T>, y: seq<T>, z: seq<T>)
    requires s == x + y + z
    ensures s[0..|x|] == x && s[|x|..|x| + |y|] == y && s[|x| + |y|..|s|] == z
  {
    assert s[0..|x|] == (x + y + z)[..|x|];
    assert s[|x|..|x| + |y|] == (x + y + z)[|x|..][..|y|];
  }

  /** `s.startsWith(p)`. */
  predicate StartsWith(s: string, p: string) {
    |p| <= |s| && s[..|p|] == p
  }

  lemma StartsWithAppend(p: string, rest: string)
    ensures StartsWith(p + rest, p) && (p + rest)[|p|..] == rest
  {
  }

  predicate IsDigit(c: char) {
    '0' <= c <= '9'
  }

  predicate IsDigits(s: string) {
    forall i :: 0 <= i < |s| ==> IsDigit(s[i])
  }

  function DigitChar(d: nat): (c: char)
    requires d < 10
    ensures IsDigit(c)
  {
    ('0' as int + d) as char
  }

  function DigitValue(c: char): (d: nat)
    requires IsDigit(c)
    ensures d < 10 && DigitChar(d) == c
  {
    c as int - '0' as int
  }

  /** The shortest decimal numeral of `n`: digits only, no leading zero. */
  function Dec(n: nat): (s: string)
    ensures |s| > 0 && IsDigits(s)
    ensures s[0] == '0' <==> n == 0
  {
    if n < 10 then [DigitChar(n)] else Dec(n / 10) + [DigitChar(n % 10)]
  }

  /** Reads a string of decimal digits back as a number. */
  function ParseDec(s: string): nat
    requires IsDigits(s)
  {
    if s == [] then 0 else ParseDec(s[..|s| - 1]) * 10 + DigitValue(s[|s| - 1])
  }

  lemma {:induction false} DecRoundTrip(n: nat)
    ensures ParseDec(Dec(n)) == n
  {
    if n >= 10 {
      var s := Dec(n);
      assert s[..|s| - 1] == Dec(n / 10);
      DecRoundTrip(n / 10);
    }
  }

  lemma DecInjective(m: nat, n: nat)
    requires Dec(m) == Dec(n)
    ensures m == n
  {
    DecRoundTrip(m);
    DecRoundTrip(n);
  }

  /** An optional minus sign followed by at least one decimal digit. */
  predicate IsIntNumeral(s: string) {
    if |s| > 0 && s[0] == '-' then |s| > 1 && IsDigits(s[1..]) else |s| > 0 && IsDigits(s)
  }

  /** Reads an optionally signed decimal numeral back as an integer. */
  function ParseInt(s: string): int
    requires IsIntNumeral(s)
  {
    if s[0] == '-' then -(ParseDec(s[1..]) as int) else ParseDec(s)
  }

  /**
   * Rendering of an integral number: a minus sign, then the numeral of its
   * magnitude. The text is a signed numeral that reads back as the number.
   */
  function IntToString(i: int): (s: string)
    ensures IsIntNumeral(s) && ParseInt(s) == i
    ensures s[0] == '-' <==> i < 0
  {
    if i < 0 then
      DecRoundTrip(-i);
      assert ("-" + Dec(-i))[1..] == Dec(-i);
      "-" + Dec(-i)
    else
      DecRoundTrip(i);
      Dec(i)
  }

  lemma IntToStringInjective(i: int, j: int)
    requires IntToString(i) == IntToString(j)
    ensures i == j
  {
  }

  /** A string whose characters are all seven-bit ASCII. */
  predicate IsAscii(s: string) {
    forall i :: 0 <= i < |s| ==> s[i] as int < 0x80
  }

  /** The UTF-8 bytes of one Unicode scalar value (RFC 3629, section 3). */
  function Utf8Char(c: char): (r: seq<byte>)
    ensures 1 <= |r| <= 4
    ensures |r| == 1 <==> c as int < 0x80
    ensures c as int < 0x80 ==> r[0] as int == c as int
  {
    var v := c as int;
    if v < 0x80 then
      [v as byte]
    else if v < 0x800 then
      [(0xC0 + v / 0x40) as byte, (0x80 + v % 0x40) as byte]
    else if v < 0x1_0000 then
      [(0xE0 + v / 0x1000) as byte, (0x80 + v / 0x40 % 0x40) as byte, (0x80 + v % 0x40) as byte]
    else
      [(0xF0 + v / 0x4_0000) as byte, (0x80 + v / 0x1000 % 0x40) as byte,
       (0x80 + v / 0x40 % 0x40) as byte, (0x80 + v % 0x40) as byte]
  }

  /** `TextEncoder.encode`: the UTF-8 encoding of a string, character by character. */
  function Utf8Encode(s: string): seq<byte> {
    if s == [] then [] else Utf8Char(s[0]) + Utf8Encode(s[1..])
  }

  lemma {:induction false} Utf8EncodeAppend(a: string, b: string)
    ensures Utf8Encode(a + b) == Utf8Encode(a) + Utf8Encode(b)
  {
    if a == [] {
      assert a + b == b;
    } else {
      assert (a + b)[0] == a[0];
      calc {
        Utf8Encode(a + b);
        Utf8Char(a[0]) + Utf8Encode((a + b)[1..]);
        { assert (a + b)[1..] == a[1..] + b; }
        Utf8Char(a[0]) + Utf8Encode(a[1..] + b);
        { Utf8EncodeAppend(a[1..], b); }
        Utf8Char(a[0]) + (Utf8Encode(a[1..]) + Utf8Encode(b));
      }
    }
  }

  /** On ASCII text UTF-8 is the identity: one byte per character, of the same value. */
  lemma {:induction false} Utf8EncodeAscii(s: string)
    requires IsAscii(s)
    ensures |Utf8Encode(s)| == |s|
    ensures forall i :: 0 <= i < |s| ==> Utf8Encode(s)[i] as int == s[i] as int
  {
    if s != [] {
      Utf8EncodeAscii(s[1..]);
      forall i | 0 <= i < |s|
        ensures Utf8Encode(s)[i] as int == s[i] as int
      {
        if i > 0 {
          assert Utf8Encode(s)[i] == Utf8Encode(s[1..])[i - 1];
        }
      }
    }
  }

  /** Every character takes at least one byte and at most four. */
  lemma {:induction false} Utf8EncodeLength(s: string)
    ensures |s| <= |Utf8Encode(s)| <= 4 * |s|
  {
    if s != [] {
      Utf8EncodeLength(s[1..]);
    }
  }
}
