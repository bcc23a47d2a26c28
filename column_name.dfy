/**
 * Spreadsheet column letters: a zero-based column index written in bijective
 * base 26, with the digits A (one) to Z (twenty-six) and no digit for zero.
 */
module ColumnName {

  predicate IsUpper(c: char) {
    'A' <= c <= 'Z'
  }

  predicate IsLetters(s: string) {
    forall i :: 0 <= i < |s| ==> IsUpper(s[i])
  }

  /** The letter for the remainder `d`: 0 is A, 25 is Z (`String.fromCharCode(65 + d)`). */
  function Letter(d: nat): (c: char)
    requires d < 26
    ensures IsUpper(c)
  {
    (65 + d) as char
  }

  /** The bijective base-26 numeral of `v`; zero has the empty numeral. */
  function Numeral(v: nat): (s: string)
    ensures IsLetters(s)
    ensures s == [] <==> v == 0
  {
    if v == 0 then [] else Numeral((v - 1) / 26) + [Letter((v - 1) % 26)]
  }

  /** The column letters of the zero-based column `index`. */
  function ColLetters(index: nat): (s: string)
    ensures s != [] && IsLetters(s)
  {
    Numeral(index + 1)
  }

  /** The value of a bijective numeral, A counting one and Z twenty-six. */
  function NumeralValue(s: string): nat
    requires IsLetters(s)
  {
    if s == [] then 0 else NumeralValue(s[..|s| - 1]) * 26 + (s[|s| - 1] as int - 64)
  }

  /** The zero-based column that a non-empty run of letters names. */
  function ColumnIndex(s: string): (index: nat)
    requires s != [] && IsLetters(s)
  {
    NumeralValue(s[..|s| - 1]) * 26 + (s[|s| - 1] as int - 65)
  }

  lemma {:induction false} NumeralRoundTrip(v: nat)
    ensures NumeralValue(Numeral(v)) == v
  {
    if v > 0 {
      var s := Numeral(v);
      assert s[..|s| - 1] == Numeral((v - 1) / 26);
      NumeralRoundTrip((v - 1) / 26);
    }
  }

  lemma {:induction false} NumeralValueRoundTrip(s: string)
    requires IsLetters(s)
    ensures Numeral(NumeralValue(s)) == s
  {
    if s != [] {
      var init, d := s[..|s| - 1], s[|s| - 1] as int - 65;
      var v := NumeralValue(s);
      assert v - 1 == NumeralValue(init) * 26 + d && 0 <= d < 26;
      assert (v - 1) / 26 == NumeralValue(init) && (v - 1) % 26 == d;
      NumeralValueRoundTrip(init);
      assert s == init + [Letter(d)];
    }
  }

  /** Reading the letters back gives the column: distinct columns get distinct letters. */
  lemma ColLettersRoundTrip(index: nat)
    ensures ColumnIndex(ColLetters(index)) == index
  {
    NumeralRoundTrip(index + 1);
  }

  lemma ColLettersInjective(i: nat, j: nat)
    requires ColLetters(i) == ColLetters(j)
    ensures i == j
  {
    ColLettersRoundTrip(i);
    ColLettersRoundTrip(j);
  }

  /** Every non-empty run of capital letters names exactly one column. */
  lemma ColLettersSurjective(s: string)
    requires s != [] && IsLetters(s)
    ensures ColLetters(ColumnIndex(s)) == s
  {
    NumeralValueRoundTrip(s);
  }

  /** The first columns of each width, and the last of the two-letter ones. */
  lemma ColLettersExamples()
    ensures ColLetters(0) == "A" && ColLetters(25) == "Z" && ColLetters(26) == "AA"
    ensures ColLetters(701) == "ZZ" && ColLetters(702) == "AAA"
  {
    assert Numeral(1) == "A";
    assert Numeral(26) == "Z";
    assert Numeral(27) == Numeral(1) + "A";
    assert Numeral(702) == Numeral(26) + "Z";
    assert Numeral(703) == Numeral(27) + "A";
  }

  /** `colName`: peels off the last letter of the numeral of `index + 1` until nothing is left. */
  method ColName(index: nat) returns (name: string)
    ensures name == ColLetters(index)
  {
    var value: nat := index + 1;
    name := "";
    while value > 0
      invariant Numeral(value) + name == ColLetters(index)
      decreases value
    {
      var mod := (value - 1) % 26;
      name := [Letter(mod)] + name;
      assert value - mod == 26 * ((value - 1) / 26) + 1;
      value := (value - mod) / 26;
    }
    assert Numeral(value) + name == name;
  }
}
