/**
 * Escaping of text for XML character data and attribute values with the five
 * predefined entities of XML 1.0, section 4.6, and the decoding that undoes it.
 */
module XmlEscape {
  import opened Text

  /** `s.replaceAll(c, rep)` for a one-character pattern: every occurrence of `c` becomes `rep`. */
  function ReplaceAll(s: string, c: char, rep: string): (r: string)
  {
    if s == [] then [] else (if s[0] == c then rep else [s[0]]) + ReplaceAll(s[1..], c, rep)
  }

  /**
   * `escapeXml`: five replaceAll passes, `&` first so that the ampersands the
   * later passes introduce are not escaped again.
   */
  function EscapeXml(s: string): string {
    ReplaceAll(
      ReplaceAll(
        ReplaceAll(
          ReplaceAll(
            ReplaceAll(s, '&', "&amp;"),
            '<', "&lt;"),
          '>', "&gt;"),
        '"', "&quot;"),
      '\'', "&apos;")
  }

  /** The replacement text of one character: its entity reference if it is one of the five. */
  function EntityOf(c: char): (r: string)
    ensures r != []
    ensures c !in "&<>\"'" <==> r == [c]
    ensures c in "&<>\"'" ==> r[0] == '&' && '<' !in r && '>' !in r && '"' !in r && '\'' !in r
  {
    match c
    case '&' => "&amp;"
    case '<' => "&lt;"
    case '>' => "&gt;"
    case '"' => "&quot;"
    case '\'' => "&apos;"
    case _ => [c]
  }

  /** Character-by-character escaping: the reference definition of what `escapeXml` produces. */
  function EscapeEach(s: string): string {
    if s == [] then [] else EntityOf(s[0]) + EscapeEach(s[1..])
  }

  /** `s` begins with a predefined entity reference. */
  predicate StartsWithEntity(s: string) {
    StartsWith(s, "&amp;") || StartsWith(s, "&lt;") || StartsWith(s, "&gt;")
    || StartsWith(s, "&quot;") || StartsWith(s, "&apos;")
  }

  /** Decoding of the five predefined entities, left to right; any other `&` stays as it is. */
  function Unescape(s: string): string
    decreases |s|
  {
    if s == [] then []
    else if StartsWith(s, "&amp;") then "&" + Unescape(s[5..])
    else if StartsWith(s, "&lt;") then "<" + Unescape(s[4..])
    else if StartsWith(s, "&gt;") then ">" + Unescape(s[4..])
    else if StartsWith(s, "&quot;") then "\"" + Unescape(s[6..])
    else if StartsWith(s, "&apos;") then "'" + Unescape(s[6..])
    else [s[0]] + Unescape(s[1..])
  }

  lemma {:induction false} ReplaceAllAppend(a: string, b: string, c: char, rep: string)
    ensures ReplaceAll(a + b, c, rep) == ReplaceAll(a, c, rep) + ReplaceAll(b, c, rep)
  {
    if a == [] {
      assert a + b == b;
    } else {
      assert (a + b)[0] == a[0] && (a + b)[1..] == a[1..] + b;
      ReplaceAllAppend(a[1..], b, c, rep);
    }
  }

  lemma {:induction false} ReplaceAllAbsent(s: string, c: char, rep: string)
    requires c !in s
    ensures ReplaceAll(s, c, rep) == s
  {
    if s != [] {
      assert s == [s[0]] + s[1..];
      ReplaceAllAbsent(s[1..], c, rep);
    }
  }

  lemma ReplaceAllSingle(x: char, c: char, rep: string)
    ensures ReplaceAll([x], c, rep) == if x == c then rep else [x]
  {
    assert [x][1..] == [];
  }

  /** On a single character the five passes give exactly its entity (or the character). */
  lemma EscapeXmlChar(x: char)
    ensures EscapeXml([x]) == EntityOf(x)
  {
    ReplaceAllSingle(x, '&', "&amp;");
    ReplaceAllSingle(x, '<', "&lt;");
    ReplaceAllSingle(x, '>', "&gt;");
    ReplaceAllSingle(x, '"', "&quot;");
    ReplaceAllSingle(x, '\'', "&apos;");
    if x in "&<>\"'" {
      var e := EntityOf(x);
      ReplaceAllAbsent(e, '<', "&lt;");
      ReplaceAllAbsent(e, '>', "&gt;");
      ReplaceAllAbsent(e, '"', "&quot;");
      ReplaceAllAbsent(e, '\'', "&apos;");
    }
  }

  lemma EscapeXmlAppend(a: string, b: string)
    ensures EscapeXml(a + b) == EscapeXml(a) + EscapeXml(b)
  {
    var s1a, s1b := ReplaceAll(a, '&', "&amp;"), ReplaceAll(b, '&', "&amp;");
    ReplaceAllAppend(a, b, '&', "&amp;");
    var s2a, s2b := ReplaceAll(s1a, '<', "&lt;"), ReplaceAll(s1b, '<', "&lt;");
    ReplaceAllAppend(s1a, s1b, '<', "&lt;");
    var s3a, s3b := ReplaceAll(s2a, '>', "&gt;"), ReplaceAll(s2b, '>', "&gt;");
    ReplaceAllAppend(s2a, s2b, '>', "&gt;");
    var s4a, s4b := ReplaceAll(s3a, '"', "&quot;"), ReplaceAll(s3b, '"', "&quot;");
    ReplaceAllAppend(s3a, s3b, '"', "&quot;");
    ReplaceAllAppend(s4a, s4b, '\'', "&apos;");
  }

  /** Replacing `&` first makes the chain of passes equal to escaping each character once. */
  lemma {:induction false} EscapeXmlIsEscapeEach(s: string)
    ensures EscapeXml(s) == EscapeEach(s)
  {
    if s != [] {
      assert s == [s[0]] + s[1..];
      EscapeXmlAppend([s[0]], s[1..]);
      EscapeXmlChar(s[0]);
      EscapeXmlIsEscapeEach(s[1..]);
    }
  }

  lemma UnescapeEntityOf(x: char, rest: string)
    ensures Unescape(EntityOf(x) + rest) == [x] + Unescape(rest)
  {
    var e := EntityOf(x);
    StartsWithAppend(e, rest);
    var t := e + rest;
    assert t[0] == e[0] && (|e| > 1 ==> t[1] == e[1]) && (|e| > 2 ==> t[2] == e[2]);
    if x == '&' {
      UnescapeAmp(rest);
    } else if x == '<' {
      assert !StartsWith(t, "&amp;");
    } else if x == '>' {
      assert !StartsWith(t, "&amp;") && !StartsWith(t, "&lt;");
    } else if x == '"' {
      assert !StartsWith(t, "&amp;") && !StartsWith(t, "&lt;") && !StartsWith(t, "&gt;");
    } else if x == '\'' {
      assert !StartsWith(t, "&amp;") && !StartsWith(t, "&lt;") && !StartsWith(t, "&gt;");
      assert !StartsWith(t, "&quot;");
    } else {
      assert t[1..] == rest;
      assert !StartsWith(t, "&amp;") && !StartsWith(t, "&lt;") && !StartsWith(t, "&gt;");
      assert !StartsWith(t, "&quot;") && !StartsWith(t, "&apos;");
    }
  }

  lemma UnescapeAmp(rest: string)
    ensures Unescape("&amp;" + rest) == "&" + Unescape(rest)
  {
    StartsWithAppend("&amp;", rest);
  }

  /** Decoding the escaped text gives back the original text exactly. */
  lemma {:induction false} UnescapeEscapeEach(s: string)
    ensures Unescape(EscapeEach(s)) == s
  {
    if s != [] {
      UnescapeEntityOf(s[0], EscapeEach(s[1..]));
      UnescapeEscapeEach(s[1..]);
    }
  }

  lemma UnescapeEscapeXml(s: string)
    ensures Unescape(EscapeXml(s)) == s
  {
    EscapeXmlIsEscapeEach(s);
    UnescapeEscapeEach(s);
  }

  /** Escaping is injective: two texts with the same escaped form are equal. */
  lemma EscapeXmlInjective(s: string, t: string)
    requires EscapeXml(s) == EscapeXml(t)
    ensures s == t
  {
    UnescapeEscapeXml(s);
    UnescapeEscapeXml(t);
  }

  /**
   * The escaped text contains no `<`, `>`, `"` or `'`, and each `&` in it
   * begins one of the five entity references.
   */
  lemma {:induction false} EscapeEachClean(s: string)
    ensures forall i :: 0 <= i < |EscapeEach(s)| ==> EscapeEach(s)[i] !in "<>\"'"
    ensures forall i :: 0 <= i < |EscapeEach(s)| && EscapeEach(s)[i] == '&' ==>
              StartsWithEntity(EscapeEach(s)[i..])
  {
    if s != [] {
      EscapeEachClean(s[1..]);
      var e, rest := EntityOf(s[0]), EscapeEach(s[1..]);
      var t := e + rest;
      forall i | 0 <= i < |t|
        ensures t[i] !in "<>\"'"
        ensures t[i] == '&' ==> StartsWithEntity(t[i..])
      {
        if i < |e| {
          if i == 0 && t[i] == '&' {
            StartsWithAppend(e, rest);
            assert t[i..] == t;
          }
        } else {
          assert t[i] == rest[i - |e|] && t[i..] == rest[i - |e|..];
        }
      }
    }
  }

  lemma EscapeXmlClean(s: string)
    ensures forall i :: 0 <= i < |EscapeXml(s)| ==> EscapeXml(s)[i] !in "<>\"'"
    ensures forall i :: 0 <= i < |EscapeXml(s)| && EscapeXml(s)[i] == '&' ==>
              StartsWithEntity(EscapeXml(s)[i..])
  {
    EscapeXmlIsEscapeEach(s);
    EscapeEachClean(s);
  }

  /** Text with none of the five characters passes through unchanged. */
  lemma {:induction false} EscapeEachPlain(s: string)
    requires forall i :: 0 <= i < |s| ==> s[i] !in "&<>\"'"
    ensures EscapeEach(s) == s
  {
    if s != [] {
      EscapeEachPlain(s[1..]);
    }
  }
}
