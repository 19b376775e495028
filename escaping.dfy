/**
 * The two string guards of the selection page: `sanitizeName`, which strips
 * the characters that could close an attribute or a tag, and `escapeHtml`,
 * the five-entity escape applied as a chain of global replacements with `&`
 * first.
 */
module Escaping {
  import opened Text

  /** The characters `sanitizeName` removes. */
  predicate Unsafe(c: char)
  {
    c == '<' || c == '>' || c == '\'' || c == '"'
  }

  /** `r` is `s` with some characters deleted, the rest kept in order. */
  ghost predicate IsSubsequence(r: string, s: string)
    decreases |s|
  {
    if r == [] then true
    else if s == [] then false
    else if r[0] == s[0] then IsSubsequence(r[1..], s[1..])
    else IsSubsequence(r, s[1..])
  }

  /** `name.replace(/[<>'"]/g, '')`. */
  function SanitizeName(s: string): (r: string)
    ensures forall c :: c in r ==> !Unsafe(c)
    ensures forall c :: !Unsafe(c) ==> multiset(r)[c] == multiset(s)[c]
    ensures IsSubsequence(r, s)
    ensures |r| <= |s|
  {
    if s == [] then []
    else
      assert s == [s[0]] + s[1..];
      if Unsafe(s[0]) then SanitizeName(s[1..])
      else [s[0]] + SanitizeName(s[1..])
  }

  /** A name without unsafe characters is left as it is. */
  lemma {:induction false} SanitizeNameKeepsSafe(s: string)
    requires forall c :: c in s ==> !Unsafe(c)
    ensures SanitizeName(s) == s
  {
    if s != [] {
      assert s[0] in s;
      assert forall c :: c in s[1..] ==> c in s;
      SanitizeNameKeepsSafe(s[1..]);
      assert s == [s[0]] + s[1..];
    }
  }

  /** Sanitizing twice is sanitizing once. */
  lemma SanitizeNameIdempotent(s: string)
    ensures SanitizeName(SanitizeName(s)) == SanitizeName(s)
  {
    SanitizeNameKeepsSafe(SanitizeName(s));
  }

  /** The characters `escapeHtml` rewrites. */
  predicate Special(c: char)
  {
    c == '&' || c == '<' || c == '>' || c == '"' || c == '\''
  }

  /** The replacement of one character, as the matching step of the chain produces it. */
  function EscapeChar(c: char): (r: string)
    ensures !Special(c) ==> r == [c]
    ensures Special(c) ==> |r| >= 4 && r[0] == '&' && r[|r| - 1] == ';'
  {
    match c
    case '&' => "&amp;"
    case '<' => "&lt;"
    case '>' => "&gt;"
    case '"' => "&quot;"
    case '\'' => "&#39;"
    case _ => [c]
  }

  /** The per-character escape: every input character replaced exactly once. */
  function EscapeEach(s: string): string
  {
    if s == [] then [] else EscapeChar(s[0]) + EscapeEach(s[1..])
  }

  /** `escapeHtml(html)`: five global replacements, ampersand first. */
  function EscapeHtml(s: string): (r: string)
    ensures r == EscapeEach(s)
  {
    EscapeChainIsEach(s);
    ReplaceChar(ReplaceChar(ReplaceChar(ReplaceChar(ReplaceChar(s, '&', "&amp;"), '<', "&lt;"), '>', "&gt;"), '"', "&quot;"), '\'', "&#39;")
  }

  /**
   * Because `&` is replaced first and no later entity contains a character a
   * later step rewrites, the chain escapes each character exactly once.
   */
  lemma {:induction false} EscapeChainIsEach(s: string)
    ensures ReplaceChar(ReplaceChar(ReplaceChar(ReplaceChar(ReplaceChar(s, '&', "&amp;"), '<', "&lt;"), '>', "&gt;"), '"', "&quot;"), '\'', "&#39;")
            == EscapeEach(s)
  {
    if s != [] {
      var c := s[0];
      var rest := s[1..];
      assert s == [c] + rest;
      var a1 := ReplaceChar([c], '&', "&amp;");
      var a2 := ReplaceChar(a1, '<', "&lt;");
      var a3 := ReplaceChar(a2, '>', "&gt;");
      var a4 := ReplaceChar(a3, '"', "&quot;");
      var a5 := ReplaceChar(a4, '\'', "&#39;");
      var b1 := ReplaceChar(rest, '&', "&amp;");
      var b2 := ReplaceChar(b1, '<', "&lt;");
      var b3 := ReplaceChar(b2, '>', "&gt;");
      var b4 := ReplaceChar(b3, '"', "&quot;");
      ReplaceCharAppend([c], rest, '&', "&amp;");
      ReplaceCharAppend(a1, b1, '<', "&lt;");
      ReplaceCharAppend(a2, b2, '>', "&gt;");
      ReplaceCharAppend(a3, b3, '"', "&quot;");
      ReplaceCharAppend(a4, b4, '\'', "&#39;");
      SingleCharChain(c);
      EscapeChainIsEach(rest);
    }
  }

  /** The chain applied to one character gives that character's entity. */
  lemma SingleCharChain(c: char)
    ensures ReplaceChar(ReplaceChar(ReplaceChar(ReplaceChar(ReplaceChar([c], '&', "&amp;"), '<', "&lt;"), '>', "&gt;"), '"', "&quot;"), '\'', "&#39;")
            == EscapeChar(c)
  {
    var a1 := ReplaceChar([c], '&', "&amp;");
    ReplaceCharSingle(c, '&', "&amp;");
    if c == '&' {
      TailOfChain(a1, 1);
    } else {
      var a2 := ReplaceChar(a1, '<', "&lt;");
      ReplaceCharSingle(c, '<', "&lt;");
      if c == '<' {
        TailOfChain(a2, 2);
      } else {
        var a3 := ReplaceChar(a2, '>', "&gt;");
        ReplaceCharSingle(c, '>', "&gt;");
        if c == '>' {
          TailOfChain(a3, 3);
        } else {
          var a4 := ReplaceChar(a3, '"', "&quot;");
          ReplaceCharSingle(c, '"', "&quot;");
          if c == '"' {
            TailOfChain(a4, 4);
          } else {
            ReplaceCharSingle(c, '\'', "&#39;");
          }
        }
      }
    }
  }

  /** The steps of the chain after step `k`, applied to a string. */
  function ChainFrom(t: string, k: nat): string
  {
    var t2 := if k < 2 then ReplaceChar(t, '<', "&lt;") else t;
    var t3 := if k < 3 then ReplaceChar(t2, '>', "&gt;") else t2;
    var t4 := if k < 4 then ReplaceChar(t3, '"', "&quot;") else t3;
    if k < 5 then ReplaceChar(t4, '\'', "&#39;") else t4
  }

  /** An entity produced by step `k` is left alone by the steps after it. */
  lemma TailOfChain(t: string, k: nat)
    requires 1 <= k <= 4
    requires forall x :: x in t ==> x == '&' || x == 'a' || x == 'm' || x == 'p' || x == 'l' || x == 'g'
                                    || x == 't' || x == 'q' || x == 'u' || x == 'o' || x == ';'
    ensures ChainFrom(t, k) == t
  {
    if k < 2 { ReplaceCharAbsent(t, '<', "&lt;"); }
    if k < 3 { ReplaceCharAbsent(t, '>', "&gt;"); }
    if k < 4 { ReplaceCharAbsent(t, '"', "&quot;"); }
    ReplaceCharAbsent(t, '\'', "&#39;");
  }

  /** One of the five entities starts at index `i` of `r`. */
  predicate EntityAt(r: string, i: int)
  {
    OccursAt(r, "&amp;", i) || OccursAt(r, "&lt;", i) || OccursAt(r, "&gt;", i)
    || OccursAt(r, "&quot;", i) || OccursAt(r, "&#39;", i)
  }

  /** No `<`, `>`, `"` or `'`, and each `&` begins one of the five entities. */
  predicate Escaped(r: string)
  {
    && (forall c :: c in r ==> c != '<' && c != '>' && c != '"' && c != '\'')
    && (forall i :: 0 <= i < |r| && r[i] == '&' ==> EntityAt(r, i))
  }

  /** The escaped text is safe to place inside markup and attribute values. */
  lemma {:induction false} EscapeHtmlIsSafe(s: string)
    ensures Escaped(EscapeHtml(s))
  {
    EscapeEachIsSafe(s);
  }

  lemma {:induction false} EscapeEachIsSafe(s: string)
    ensures Escaped(EscapeEach(s))
  {
    if s != [] {
      EscapeEachIsSafe(s[1..]);
      EscapeCharIsSafe(s[0]);
      EscapedAppend(EscapeChar(s[0]), EscapeEach(s[1..]));
    }
  }

  lemma EscapeCharIsSafe(c: char)
    ensures Escaped(EscapeChar(c))
  {
    var r := EscapeChar(c);
    if Special(c) {
      assert OccursAt(r, r, 0);
      forall i | 0 <= i < |r| && r[i] == '&'
        ensures EntityAt(r, i)
      {
        assert i == 0;
      }
    }
  }

  lemma EscapedAppend(a: string, b: string)
    requires Escaped(a) && Escaped(b)
    ensures Escaped(a + b)
  {
    var r := a + b;
    forall i | 0 <= i < |r| && r[i] == '&'
      ensures EntityAt(r, i)
    {
      if i < |a| {
        assert a[i] == '&' && EntityAt(a, i);
        OccursAtAppend(a, b, "&amp;", i);
        OccursAtAppend(a, b, "&lt;", i);
        OccursAtAppend(a, b, "&gt;", i);
        OccursAtAppend(a, b, "&quot;", i);
        OccursAtAppend(a, b, "&#39;", i);
      } else {
        var j := i - |a|;
        assert b[j] == '&' && EntityAt(b, j);
        OccursAtAppend(a, b, "&amp;", j);
        OccursAtAppend(a, b, "&lt;", j);
        OccursAtAppend(a, b, "&gt;", j);
        OccursAtAppend(a, b, "&quot;", j);
        OccursAtAppend(a, b, "&#39;", j);
      }
    }
  }

  /** How often `c` occurs in `s`. */
  function Count(s: string, c: char): nat
  {
    multiset(s)[c]
  }

  /** Each `&` grows by four characters, `<` and `>` by three, `"` by five and `'` by four. */
  lemma {:induction false} EscapeHtmlLength(s: string)
    ensures |EscapeHtml(s)| == |s| + 4 * Count(s, '&') + 3 * Count(s, '<') + 3 * Count(s, '>')
                                   + 5 * Count(s, '"') + 4 * Count(s, '\'')
  {
    EscapeEachLength(s);
  }

  lemma {:induction false} EscapeEachLength(s: string)
    ensures |EscapeEach(s)| == |s| + 4 * Count(s, '&') + 3 * Count(s, '<') + 3 * Count(s, '>')
                                   + 5 * Count(s, '"') + 4 * Count(s, '\'')
  {
    if s != [] {
      var t := s[1..];
      assert s == [s[0]] + t;
      assert multiset(s) == multiset([s[0]]) + multiset(t);
      EscapeEachLength(t);
      EscapeCharLength(s[0]);
    }
  }

  /** The growth of one escaped character. */
  lemma EscapeCharLength(c: char)
    ensures |EscapeChar(c)| == 1 + 4 * Count([c], '&') + 3 * Count([c], '<') + 3 * Count([c], '>')
                                 + 5 * Count([c], '"') + 4 * Count([c], '\'')
  {
  }

  /** Text without any of the five special characters passes through unchanged. */
  lemma {:induction false} EscapeHtmlKeepsPlain(s: string)
    requires forall c :: c in s ==> !Special(c)
    ensures EscapeHtml(s) == s
  {
    if s != [] {
      assert s[0] in s;
      assert forall c :: c in s[1..] ==> c in s;
      EscapeHtmlKeepsPlain(s[1..]);
      assert s == [s[0]] + s[1..];
    }
  }

  /** What a browser reads back: each entity becomes its character again. */
  function Unescape(r: string): string
    decreases |r|
  {
    if r == [] then []
    else if StartsWith(r, "&amp;") then "&" + Unescape(r[5..])
    else if StartsWith(r, "&lt;") then "<" + Unescape(r[4..])
    else if StartsWith(r, "&gt;") then ">" + Unescape(r[4..])
    else if StartsWith(r, "&quot;") then "\"" + Unescape(r[6..])
    else if StartsWith(r, "&#39;") then "'" + Unescape(r[5..])
    else [r[0]] + Unescape(r[1..])
  }

  /** Escaping loses nothing: decoding the entities gives back the original text. */
  lemma {:induction false} EscapeHtmlRoundTrip(s: string)
    ensures Unescape(EscapeHtml(s)) == s
  {
    EscapeEachRoundTrip(s);
  }

  lemma {:induction false} EscapeEachRoundTrip(s: string)
    ensures Unescape(EscapeEach(s)) == s
  {
    if s != [] {
      UnescapeAfterEscapeChar(s[0], EscapeEach(s[1..]));
      EscapeEachRoundTrip(s[1..]);
      assert s == [s[0]] + s[1..];
    }
  }

  /** Decoding reads one escaped character back and continues after it. */
  lemma UnescapeAfterEscapeChar(c: char, rest: string)
    ensures Unescape(EscapeChar(c) + rest) == [c] + Unescape(rest)
  {
    var piece := EscapeChar(c);
    var r := piece + rest;
    assert r[..|piece|] == piece;
    assert r[|piece|..] == rest;
    if !Special(c) {
      assert r[1..] == rest;
      NoEntityWithoutAmpersand(r);
    } else {
      assert r[1] == piece[1];
      EntitySecondChar(r);
    }
  }

  /** The five entities differ in their second character. */
  lemma EntitySecondChar(r: string)
    ensures StartsWith(r, "&amp;") ==> r[1] == 'a'
    ensures StartsWith(r, "&lt;") ==> r[1] == 'l'
    ensures StartsWith(r, "&gt;") ==> r[1] == 'g'
    ensures StartsWith(r, "&quot;") ==> r[1] == 'q'
    ensures StartsWith(r, "&#39;") ==> r[1] == '#'
  {
    if |r| >= 4 {
      assert r[..4][1] == r[1];
    }
  }

  /** A text that does not start with `&` does not start with an entity. */
  lemma NoEntityWithoutAmpersand(r: string)
    requires |r| > 0 && r[0] != '&'
    ensures !StartsWith(r, "&amp;") && !StartsWith(r, "&lt;") && !StartsWith(r, "&gt;")
    ensures !StartsWith(r, "&quot;") && !StartsWith(r, "&#39;")
  {
    if |r| >= 4 {
      assert r[..4][0] == r[0];
    }
  }
}
