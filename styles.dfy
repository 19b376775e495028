/**
 * `extractStyles`: the `<style>` blocks of a design are moved into a
 * separate stylesheet and stylesheet links are counted and dropped. The two
 * case-insensitive patterns are written as explicit scans:
 *   <style[^>]*>([\s\S]*?)<\/style>           searched globally with `exec`
 *   <link[^>]*rel=['"]stylesheet['"][^>]*>    counted with `match`, removed with `replace`
 * Case-insensitive matching folds ASCII letters only, which is what the `i`
 * flag does for these all-ASCII patterns.
 */
module Styles {
  import opened Wrappers
  import opened Text

  /** The lowercase pattern `p` matches `s` at `i`, ignoring ASCII case. */
  predicate CiAt(s: string, i: int, p: string)
  {
    0 <= i && i + |p| <= |s| && ToLower(s[i..i + |p|]) == p
  }

  /** The first `c` at or after `i`. */
  function FindChar(s: string, i: nat, c: char): (r: Option<nat>)
    ensures r.Some? ==> i <= r.value < |s| && s[r.value] == c
    ensures forall k :: i <= k < |s| && (r.None? || k < r.value) ==> s[k] != c
    decreases |s| - i
  {
    if i >= |s| then None
    else if s[i] == c then Some(i)
    else FindChar(s, i + 1, c)
  }

  /** The first case-insensitive occurrence of `p` at or after `i`. */
  function FindCi(s: string, i: nat, p: string): (r: Option<nat>)
    ensures r.Some? ==> i <= r.value && CiAt(s, r.value, p)
    ensures forall k :: i <= k && (r.None? || k < r.value) ==> !CiAt(s, k, p)
    decreases |s| - i
  {
    if i + |p| > |s| then None
    else if CiAt(s, i, p) then Some(i)
    else FindCi(s, i + 1, p)
  }

  /** One match of the style pattern: the whole block is s[start..end], its body s[bodyStart..bodyEnd]. */
  datatype StyleMatch = StyleMatch(start: nat, bodyStart: nat, bodyEnd: nat, end: nat)

  /**
   * What the style pattern matches at `m.start`: `<style`, attribute text
   * without `>`, `>`, then the shortest body followed by `</style>`.
   */
  ghost predicate IsStyleMatch(s: string, m: StyleMatch)
  {
    && CiAt(s, m.start, "<style")
    && m.start + 7 <= m.bodyStart <= m.bodyEnd
    && CiAt(s, m.bodyEnd, "</style>") && m.end == m.bodyEnd + 8
    && s[m.bodyStart - 1] == '>'
    && (forall k :: m.start + 6 <= k < m.bodyStart - 1 ==> s[k] != '>')
    && (forall k :: m.bodyStart <= k < m.bodyEnd ==> !CiAt(s, k, "</style>"))
  }

  /** The positions of a block are in order and inside the string. */
  predicate WellPlaced(s: string, m: StyleMatch)
  {
    m.start + 7 <= m.bodyStart <= m.bodyEnd && m.end == m.bodyEnd + 8 <= |s|
  }

  /** The style pattern tried at position `p` only. */
  function StyleMatchAt(s: string, p: nat): (r: Option<StyleMatch>)
    ensures r.Some? ==> WellPlaced(s, r.value) && r.value.start == p
  {
    if !CiAt(s, p, "<style") then None
    else match FindChar(s, p + 6, '>')
      case None => None
      case Some(g) =>
        match FindCi(s, g + 1, "</style>")
        case None => None
        case Some(e) => Some(StyleMatch(p, g + 1, e, e + 8))
  }

  /** The attempt at `p` finds the pattern's match there, and finds one whenever there is one. */
  lemma StyleMatchAtSpec(s: string, p: nat)
    ensures StyleMatchAt(s, p).Some? ==> IsStyleMatch(s, StyleMatchAt(s, p).value)
    ensures forall m :: IsStyleMatch(s, m) && m.start == p ==> StyleMatchAt(s, p) == Some(m)
  {
  }

  /** `styleRegex.exec(s)` with `lastIndex` at `from`: the leftmost match starting there or later. */
  function NextStyle(s: string, from: nat): (r: Option<StyleMatch>)
    ensures r.Some? ==> WellPlaced(s, r.value) && from <= r.value.start
    decreases |s| - from
  {
    if from >= |s| then None
    else match StyleMatchAt(s, from)
      case Some(m) => Some(m)
      case None => NextStyle(s, from + 1)
  }

  /** `exec` returns a match, the leftmost one at or after `from`, and `null` only when there is none. */
  lemma {:induction false} NextStyleSpec(s: string, from: nat)
    ensures NextStyle(s, from).Some? ==> IsStyleMatch(s, NextStyle(s, from).value)
    ensures forall m :: IsStyleMatch(s, m) && from <= m.start ==>
              NextStyle(s, from).Some? && NextStyle(s, from).value.start <= m.start
    decreases |s| - from
  {
    if from < |s| {
      StyleMatchAtSpec(s, from);
      if StyleMatchAt(s, from).None? {
        NextStyleSpec(s, from + 1);
      }
    } else {
      assert forall m :: IsStyleMatch(s, m) ==> m.start < |s|;
    }
  }

  /** Every match the global `exec` loop visits from `from` on, in order. */
  function StyleBlocks(s: string, from: nat): (r: seq<StyleMatch>)
    ensures forall i :: 0 <= i < |r| ==> WellPlaced(s, r[i]) && from <= r[i].start
    decreases |s| - from
  {
    match NextStyle(s, from)
    case None => []
    case Some(m) => [m] + StyleBlocks(s, m.end)
  }

  /** Each block is a match of the style pattern. */
  lemma {:induction false} StyleBlocksMatch(s: string, from: nat)
    ensures forall i :: 0 <= i < |StyleBlocks(s, from)| ==> IsStyleMatch(s, StyleBlocks(s, from)[i])
    decreases |s| - from
  {
    NextStyleSpec(s, from);
    match NextStyle(s, from)
    case None =>
    case Some(first) =>
      StyleBlocksMatch(s, first.end);
      assert StyleBlocks(s, from) == [first] + StyleBlocks(s, first.end);
  }

  /** The blocks follow one another without overlapping. */
  lemma {:induction false} StyleBlocksAreOrdered(s: string, from: nat)
    ensures forall i :: 0 < i < |StyleBlocks(s, from)| ==> StyleBlocks(s, from)[i - 1].end <= StyleBlocks(s, from)[i].start
    decreases |s| - from
  {
    match NextStyle(s, from)
    case None =>
    case Some(first) =>
      StyleBlocksAreOrdered(s, first.end);
      var rest := StyleBlocks(s, first.end);
      assert StyleBlocks(s, from) == [first] + rest;
  }

  /** Match `m` starts inside block `b`. */
  predicate StartsInside(b: StyleMatch, m: StyleMatch)
  {
    b.start <= m.start < b.end
  }

  /**
   * The blocks are the leftmost-first matches: every match of the pattern
   * that starts at `from` or later starts inside one of the blocks, so none
   * was skipped in a gap before, between or after them.
   */
  lemma {:induction false} StyleBlocksAreLeftmost(s: string, from: nat)
    ensures forall m :: IsStyleMatch(s, m) && from <= m.start ==>
              exists i :: 0 <= i < |StyleBlocks(s, from)| && StartsInside(StyleBlocks(s, from)[i], m)
    decreases |s| - from
  {
    NextStyleSpec(s, from);
    match NextStyle(s, from)
    case None =>
    case Some(first) =>
      StyleBlocksAreLeftmost(s, first.end);
      var rest := StyleBlocks(s, first.end);
      var r := [first] + rest;
      assert StyleBlocks(s, from) == r;
      forall m | IsStyleMatch(s, m) && from <= m.start
        ensures exists i :: 0 <= i < |r| && StartsInside(r[i], m)
      {
        if m.start < first.end {
          assert StartsInside(r[0], m);
        } else {
          var i :| 0 <= i < |rest| && StartsInside(rest[i], m);
          assert r[i + 1] == rest[i];
        }
      }
  }

  /** The bodies of the blocks, each followed by a newline: `css += match[1] + '\n'`. */
  function Bodies(s: string, blocks: seq<StyleMatch>): string
    requires forall i :: 0 <= i < |blocks| ==> blocks[i].bodyStart <= blocks[i].bodyEnd <= |s|
  {
    if blocks == [] then ""
    else
      var b := blocks[|blocks| - 1];
      Bodies(s, blocks[..|blocks| - 1]) + s[b.bodyStart..b.bodyEnd] + "\n"
  }

  /** The first exact occurrence of `p` at or after `i`. */
  function FindExact(t: string, i: nat, p: string): (r: Option<nat>)
    ensures r.Some? ==> i <= r.value && OccursAt(t, p, r.value)
    ensures forall k :: i <= k && (r.None? || k < r.value) ==> !OccursAt(t, p, k)
    decreases |t| - i
  {
    if i + |p| > |t| then None
    else if t[i..i + |p|] == p then Some(i)
    else FindExact(t, i + 1, p)
  }

  /** `t.replace(p, '')` with a string pattern: only the first occurrence goes. */
  function RemoveFirst(t: string, p: string): (r: string)
    ensures Contains(t, p) ==> |r| == |t| - |p|
    ensures !Contains(t, p) ==> r == t
  {
    match FindExact(t, 0, p)
    case None => t
    case Some(i) => t[..i] + t[i + |p|..]
  }

  /** `cleanHtml` after the loop has removed the text of each block in turn. */
  function RemoveBlocks(t: string, s: string, blocks: seq<StyleMatch>): string
    requires forall i :: 0 <= i < |blocks| ==> blocks[i].start <= blocks[i].end <= |s|
  {
    if blocks == [] then t
    else
      var b := blocks[|blocks| - 1];
      RemoveFirst(RemoveBlocks(t, s, blocks[..|blocks| - 1]), s[b.start..b.end])
  }

  /** `rel=`, a quote, `stylesheet`, a quote (either quote at either place) starts at `k`. */
  predicate RelStylesheetAt(s: string, k: int)
  {
    CiAt(s, k, "rel=") && k + 16 <= |s| && (s[k + 4] == '\'' || s[k + 4] == '"')
    && CiAt(s, k + 5, "stylesheet") && (s[k + 15] == '\'' || s[k + 15] == '"')
  }

  /** Some `rel=...stylesheet...` lies entirely within s[a..g]. */
  function RelStylesheetWithin(s: string, a: nat, g: nat): (r: bool)
    ensures r <==> exists k :: a <= k && k + 16 <= g && RelStylesheetAt(s, k)
    decreases g - a
  {
    if a + 16 > g then false
    else if RelStylesheetAt(s, a) then true
    else
      RelStylesheetWithin(s, a + 1, g)
  }

  /**
   * The link pattern at `p`: `<link`, attribute text holding a
   * `rel=...stylesheet...`, up to the first `>`; the result is the end of the
   * tag. Neither `[^>]*` can pass a `>`, so the tag ends at the first one.
   */
  function LinkMatchAt(s: string, p: nat): (r: Option<nat>)
    ensures r.Some? ==> CiAt(s, p, "<link") && p + 6 <= r.value <= |s| && s[r.value - 1] == '>'
  {
    if !CiAt(s, p, "<link") then None
    else match FindChar(s, p + 5, '>')
      case None => None
      case Some(g) => if RelStylesheetWithin(s, p + 5, g) then Some(g + 1) else None
  }

  /**
   * The link matches from `from` on, as (start, end) pairs: what
   * `html.match(linkRegex)` lists, each search resuming where the last match
   * ended. They come in order without overlap.
   */
  function LinkMatches(s: string, from: nat): (r: seq<(nat, nat)>)
    ensures forall i :: 0 <= i < |r| ==> from <= r[i].0 < r[i].1 <= |s|
    ensures forall i :: 0 < i < |r| ==> r[i - 1].1 <= r[i].0
    decreases |s| - from
  {
    if from >= |s| then []
    else match LinkMatchAt(s, from)
      case Some(e) => [(from, e)] + LinkMatches(s, e)
      case None => LinkMatches(s, from + 1)
  }

  /** Each listed pair is a match of the link pattern: it starts a match that ends there. */
  lemma {:induction false} LinkMatchesMatch(s: string, from: nat)
    ensures forall i :: 0 <= i < |LinkMatches(s, from)| ==> LinkMatchAt(s, LinkMatches(s, from)[i].0) == Some(LinkMatches(s, from)[i].1)
    decreases |s| - from
  {
    if from < |s| {
      match LinkMatchAt(s, from)
      case Some(e) =>
        LinkMatchesMatch(s, e);
        assert LinkMatches(s, from) == [(from, e)] + LinkMatches(s, e);
      case None =>
        LinkMatchesMatch(s, from + 1);
    }
  }

  /** No match is skipped: a match at `p`, from `from` on, starts inside one of the listed ones. */
  lemma {:induction false} LinkMatchesAreLeftmost(s: string, from: nat, p: nat)
    requires from <= p && LinkMatchAt(s, p).Some?
    ensures exists i :: 0 <= i < |LinkMatches(s, from)| && LinkMatches(s, from)[i].0 <= p < LinkMatches(s, from)[i].1
    decreases |s| - from
  {
    assert p < |s|;
    var r := LinkMatches(s, from);
    match LinkMatchAt(s, from)
    case Some(e) =>
      assert r == [(from, e)] + LinkMatches(s, e);
      if p < e {
        assert r[0].0 <= p < r[0].1;
      } else {
        LinkMatchesAreLeftmost(s, e, p);
        var rest := LinkMatches(s, e);
        var i :| 0 <= i < |rest| && rest[i].0 <= p < rest[i].1;
        assert r[i + 1] == rest[i];
      }
    case None =>
      if p == from {
        assert false;
      } else {
        LinkMatchesAreLeftmost(s, from + 1, p);
      }
  }

  /** The text from `from` on with the ordered, non-overlapping `spans` cut out. */
  function CutSpans(s: string, from: nat, spans: seq<(nat, nat)>): (r: string)
    requires from <= |s|
    requires forall i :: 0 <= i < |spans| ==> spans[i].0 <= spans[i].1 <= |s|
    requires |spans| > 0 ==> from <= spans[0].0
    requires forall i :: 0 < i < |spans| ==> spans[i - 1].1 <= spans[i].0
    ensures |r| + Covered(spans) == |s| - from
    decreases |spans|
  {
    if spans == [] then s[from..]
    else s[from..spans[0].0] + CutSpans(s, spans[0].1, spans[1..])
  }

  /** The total length of the spans. */
  function Covered(spans: seq<(nat, nat)>): int
  {
    if spans == [] then 0 else spans[0].1 - spans[0].0 + Covered(spans[1..])
  }

  /** `s.replace(linkRegex, '')`: every link match from `from` on cut out. */
  function RemoveLinks(s: string, from: nat): (r: string)
    requires from <= |s|
    ensures |r| <= |s| - from
    decreases |s| - from
  {
    if from == |s| then ""
    else match LinkMatchAt(s, from)
      case Some(e) => RemoveLinks(s, e)
      case None => [s[from]] + RemoveLinks(s, from + 1)
  }

  /** Cutting spans that all start after `from` keeps the character at `from`. */
  lemma CutSpansStep(s: string, from: nat, spans: seq<(nat, nat)>)
    requires from < |s|
    requires forall i :: 0 <= i < |spans| ==> spans[i].0 <= spans[i].1 <= |s|
    requires |spans| > 0 ==> from + 1 <= spans[0].0
    requires forall i :: 0 < i < |spans| ==> spans[i - 1].1 <= spans[i].0
    ensures CutSpans(s, from, spans) == [s[from]] + CutSpans(s, from + 1, spans)
  {
    if spans == [] {
      assert s[from..] == [s[from]] + s[from + 1..];
    } else {
      var b := spans[0].0;
      var rest := CutSpans(s, spans[0].1, spans[1..]);
      assert CutSpans(s, from, spans) == s[from..b] + rest;
      assert CutSpans(s, from + 1, spans) == s[from + 1..b] + rest;
      assert s[from..b] == [s[from]] + s[from + 1..b];
    }
  }

  /**
   * Removing the links is cutting exactly the listed link matches out of
   * the text, so the result is shorter by their total length.
   */
  lemma {:induction false} RemoveLinksCutsMatches(s: string, from: nat)
    requires from <= |s|
    ensures RemoveLinks(s, from) == CutSpans(s, from, LinkMatches(s, from))
    ensures |RemoveLinks(s, from)| + Covered(LinkMatches(s, from)) == |s| - from
    decreases |s| - from
  {
    if from < |s| {
      match LinkMatchAt(s, from)
      case Some(e) =>
        RemoveLinksCutsMatches(s, e);
        var rest := LinkMatches(s, e);
        assert LinkMatches(s, from) == [(from, e)] + rest;
        assert ([(from, e)] + rest)[1..] == rest;
        assert s[from..from] == "";
      case None =>
        RemoveLinksCutsMatches(s, from + 1);
        CutSpansStep(s, from, LinkMatches(s, from + 1));
    }
  }

  /** The comment recording how many stylesheet links were dropped, or nothing when there were none. */
  function LinkNote(count: nat): (r: string)
    ensures r == "" <==> count == 0
    ensures count > 0 ==> Contains(r, NatToString(count))
  {
    if count == 0 then ""
    else
      var pre := "/* External stylesheets detected: ";
      var n := NatToString(count);
      var r := pre + n + " */\n";
      assert r[|pre|..|pre| + |n|] == n;
      assert OccursAt(r, n, |pre|);
      r
  }

  /** The `css` of `extractStyles(html)`: every style body, then the note on the links. */
  function ExtractedCss(html: string): string
  {
    Bodies(html, StyleBlocks(html, 0)) + LinkNote(|LinkMatches(html, 0)|)
  }

  /** The `cleanHtml` of `extractStyles(html)`: the style blocks removed, then the links. */
  function CleanedHtml(html: string): string
  {
    var cleaned := RemoveBlocks(html, html, StyleBlocks(html, 0));
    if |LinkMatches(html, 0)| > 0 then RemoveLinks(cleaned, 0) else cleaned
  }

  /**
   * `extractStyles(html)`. The `exec` loop visits the matches of the style
   * pattern in the order `StyleBlocks` lists them; each adds its body and a
   * newline to `css` and removes the first occurrence of its text from
   * `cleanHtml`. Then the links are counted and removed.
   */
  method ExtractStyles(html: string) returns (css: string, cleanHtml: string)
    ensures css == ExtractedCss(html) && cleanHtml == CleanedHtml(html)
  {
    css := "";
    cleanHtml := html;
    var matches := StyleBlocks(html, 0);
    for i := 0 to |matches|
      invariant css == Bodies(html, matches[..i])
      invariant cleanHtml == RemoveBlocks(html, html, matches[..i])
    {
      var b := matches[i];
      css := css + html[b.bodyStart..b.bodyEnd] + "\n";
      cleanHtml := RemoveFirst(cleanHtml, html[b.start..b.end]);
      assert matches[..i + 1][..i] == matches[..i];
    }
    assert matches[..|matches|] == matches;
    var linkMatches := LinkMatches(html, 0);
    if |linkMatches| > 0 {
      css := css + LinkNote(|linkMatches|);
      cleanHtml := RemoveLinks(cleanHtml, 0);
    } else {
      assert css + LinkNote(0) == css;
    }
  }

  /** Markup without `<style` (in any case) contributes no style block. */
  lemma NoStyleTagNoBlocks(s: string)
    requires forall k :: !CiAt(s, k, "<style")
    ensures StyleBlocks(s, 0) == []
  {
    NextStyleSpec(s, 0);
  }
}
