/**
 * Layout classification of the design page: `analyzeComponentLayout` sorts a
 * design into the gallery or the card view, `generateLayoutCSS` picks the
 * layout stylesheet for the three designs, and the page derives one overall
 * `layoutType` and the class of the designs container from them.
 *
 * The three tag patterns the classifier uses are written as explicit scans.
 * Each of them is `<`, a head, then `[^>]*>`:
 *   <[^\/][^>]*>                                     opening tags (counted)
 *   <(div|section|article|header|footer|main)[^>]*>  section-like tags (counted)
 *   <[^>]*>                                          any tag (removed)
 * `match` and `replace` with the global flag take the leftmost match and go
 * on after its end, which is what `TagMatches` and `StripTags` do.
 */
module Layout {
  import opened Wrappers
  import opened Text
  import Styles

  /** The three layouts the page knows: 'gallery', 'card' and 'mixed'. */
  datatype Layout = Gallery | Card | Mixed

  function Name(l: Layout): string
  {
    match l
    case Gallery => "gallery"
    case Card => "card"
    case Mixed => "mixed"
  }

  datatype TagPattern =
    | OpeningTag   // <[^\/][^>]*>
    | SectionTag   // <(div|section|article|header|footer|main)[^>]*>
    | AnyTag       // <[^>]*>

  /** The alternatives of the section-like tag pattern, in the pattern's order. */
  const SectionNames: seq<string> := ["div", "section", "article", "header", "footer", "main"]

  /** The first of `names` that occurs at `i`: the alternation tries them in order. */
  function NameAt(s: string, i: int, names: seq<string>): (r: Option<string>)
    ensures r.Some? ==> r.value in names && OccursAt(s, r.value, i)
    ensures r.None? ==> forall n :: n in names ==> !OccursAt(s, n, i)
  {
    if names == [] then None
    else if OccursAt(s, names[0], i) then Some(names[0])
    else NameAt(s, i, names[1..])
  }

  /** The length of `<` and the pattern's head when they match at `i`. */
  function HeadLength(s: string, i: nat, p: TagPattern): (r: Option<nat>)
    ensures r.Some? ==> r.value >= 1 && i < |s| && s[i] == '<'
  {
    if i >= |s| || s[i] != '<' then None
    else
      match p
      case OpeningTag => if i + 1 < |s| && s[i + 1] != '/' then Some(2) else None
      case SectionTag =>
        (match NameAt(s, i + 1, SectionNames)
         case Some(n) => Some(1 + |n|)
         case None => None)
      case AnyTag => Some(1)
  }

  /**
   * The end (exclusive) of the pattern's match starting at `i`: after the
   * head, `[^>]*>` runs to the first `>`.
   */
  function TagMatchAt(s: string, i: nat, p: TagPattern): (r: Option<nat>)
    ensures r.Some? ==> i < r.value <= |s|
  {
    match HeadLength(s, i, p)
    case None => None
    case Some(h) =>
      match Styles.FindChar(s, i + h, '>')
      case Some(e) => Some(e + 1)
      case None => None
  }

  /** The fewest characters a match of the pattern can span. */
  function MinLength(p: TagPattern): nat
  {
    match p
    case OpeningTag => 3
    case SectionTag => 5
    case AnyTag => 2
  }

  lemma TagMatchLength(s: string, i: nat, p: TagPattern)
    requires TagMatchAt(s, i, p).Some?
    ensures TagMatchAt(s, i, p).value - i >= MinLength(p)
  {
    var h :| HeadLength(s, i, p) == Some(h);
    if p == SectionTag {
      var n := NameAt(s, i + 1, SectionNames).value;
      assert |n| >= 3;
    }
  }

  /** The matches, as (start, end) pairs, of `s.match(/pattern/g)` from `from` on. */
  function TagMatches(s: string, from: nat, p: TagPattern): seq<(nat, nat)>
    decreases |s| - from
  {
    if from >= |s| then []
    else
      match TagMatchAt(s, from, p)
      case Some(e) => [(from, e)] + TagMatches(s, e, p)
      case None => TagMatches(s, from + 1, p)
  }

  /** The characters the matches cover. */
  function Covered(ms: seq<(nat, nat)>): int
  {
    if ms == [] then 0 else ms[0].1 - ms[0].0 + Covered(ms[1..])
  }

  /** `s.replace(/<[^>]*>/g, '')` on the part of `s` from `from` on. */
  function StripTags(s: string, from: nat): string
    decreases |s| - from
  {
    if from >= |s| then []
    else
      match TagMatchAt(s, from, AnyTag)
      case Some(e) => StripTags(s, e)
      case None => [s[from]] + StripTags(s, from + 1)
  }

  /** The pattern finds nothing exactly when it matches at no position. */
  lemma {:induction false} NoMatchesIffNoTag(s: string, from: nat, p: TagPattern)
    ensures TagMatches(s, from, p) == [] <==> forall i :: from <= i < |s| ==> TagMatchAt(s, i, p).None?
    decreases |s| - from
  {
    if from < |s| && TagMatchAt(s, from, p).None? {
      NoMatchesIffNoTag(s, from + 1, p);
    }
  }

  /** Each match spans at least `MinLength` characters, so the count is bounded by the length. */
  lemma {:induction false} MatchCountBound(s: string, from: nat, p: TagPattern)
    ensures |TagMatches(s, from, p)| * MinLength(p) <= |s| - from || from >= |s|
    decreases |s| - from
  {
    if from < |s| {
      match TagMatchAt(s, from, p)
      case Some(e) =>
        TagMatchLength(s, from, p);
        MatchCountBound(s, e, p);
      case None =>
        MatchCountBound(s, from + 1, p);
    }
  }

  /** No `<` of the stripped text is followed by a `>`: no tag survives. */
  predicate NoTagLeft(r: string)
  {
    forall i, j :: 0 <= i < j < |r| && r[i] == '<' ==> r[j] != '>'
  }

  /** Stripping keeps only characters of the input and leaves no tag behind. */
  lemma {:induction false} StripTagsLeavesNoTag(s: string, from: nat)
    ensures forall c :: c in StripTags(s, from) ==> c in s[from..] || from >= |s|
    ensures NoTagLeft(StripTags(s, from))
    decreases |s| - from
  {
    if from < |s| {
      match TagMatchAt(s, from, AnyTag)
      case Some(e) =>
        StripTagsLeavesNoTag(s, e);
        forall c | c in StripTags(s, e) && e < |s|
          ensures c in s[from..]
        {
          var k :| e <= k < |s| && s[k] == c;
          assert s[from..][k - from] == c;
        }
      case None =>
        var rest := StripTags(s, from + 1);
        StripTagsLeavesNoTag(s, from + 1);
        var r := [s[from]] + rest;
        assert r == StripTags(s, from);
        forall c | c in rest && from + 1 < |s|
          ensures c in s[from..]
        {
          var k :| from + 1 <= k < |s| && s[k] == c;
          assert s[from..][k - from] == c;
        }
        if s[from] == '<' {
          assert Styles.FindChar(s, from + 1, '>').None?;
          assert '>' !in rest;
        }
        forall i, j | 0 <= i < j < |r| && r[i] == '<'
          ensures r[j] != '>'
        {
          if i == 0 {
            assert r[j] == rest[j - 1];
          } else {
            assert r[i] == rest[i - 1] && r[j] == rest[j - 1];
          }
        }
    }
  }

  /** The stripped text is the input less the characters of the tags removed. */
  lemma {:induction false} StripTagsLength(s: string, from: nat)
    ensures |StripTags(s, from)| + Covered(TagMatches(s, from, AnyTag)) == |s| - from || from >= |s|
    decreases |s| - from
  {
    if from < |s| {
      match TagMatchAt(s, from, AnyTag)
      case Some(e) =>
        StripTagsLength(s, e);
        var ms := TagMatches(s, from, AnyTag);
        assert ms[1..] == TagMatches(s, e, AnyTag);
      case None =>
        StripTagsLength(s, from + 1);
    }
  }

  /** Text without `<` is not changed by stripping. */
  lemma {:induction false} StripTagsPlain(s: string, from: nat)
    requires '<' !in s
    ensures StripTags(s, from) == if from >= |s| then [] else s[from..]
    decreases |s| - from
  {
    if from < |s| {
      assert TagMatchAt(s, from, AnyTag).None?;
      StripTagsPlain(s, from + 1);
      if from + 1 < |s| {
        assert s[from..] == [s[from]] + s[from + 1..];
      } else {
        assert s[from..] == [s[from]];
      }
    }
  }

  /** `analyzeComponentLayout(html)`. */
  function AnalyzeComponentLayout(html: string): (r: Layout)
    ensures r != Mixed
  {
    var lower := ToLower(html);
    var elementCount := |TagMatches(html, 0, OpeningTag)|;
    var hasImages := Contains(lower, "<img") || Contains(lower, "background-image");
    var hasComplexLayout := Contains(lower, "grid") || Contains(lower, "flex") || Contains(lower, "columns");
    var hasMultipleSections := |TagMatches(html, 0, SectionTag)| > 3;
    var textLength := |StripTags(html, 0)|;
    if elementCount > 10 || textLength > 500 || hasImages || hasComplexLayout || hasMultipleSections
    then Gallery
    else Card
  }

  /** The layout words whose presence alone makes a design a gallery. */
  const LayoutWords: seq<string> := ["<img", "background-image", "grid", "flex", "columns"]

  /** Some layout word occurs in `lower`. */
  ghost predicate HasLayoutWord(lower: string)
  {
    exists w, i :: w in LayoutWords && OccursAt(lower, w, i)
  }

  /** The classifier's five `includes` tests together ask whether a layout word occurs. */
  lemma LayoutWordTests(lower: string)
    ensures (|| Contains(lower, "<img") || Contains(lower, "background-image")
             || Contains(lower, "grid") || Contains(lower, "flex") || Contains(lower, "columns"))
            <==> HasLayoutWord(lower)
  {
    if HasLayoutWord(lower) {
      var w, i :| w in LayoutWords && OccursAt(lower, w, i);
      assert Contains(lower, w);
    }
  }

  /**
   * The classification rule stated on the meaning of the scans: a design is
   * a gallery exactly when it has more than ten opening tags, more than
   * three section-like tags, more than 500 characters outside its tags, or
   * one of the layout words anywhere (ignoring case).
   */
  lemma AnalyzeIsGalleryIff(html: string)
    ensures AnalyzeComponentLayout(html) == Gallery <==>
      || |TagMatches(html, 0, OpeningTag)| > 10
      || |TagMatches(html, 0, SectionTag)| > 3
      || |html| - Covered(TagMatches(html, 0, AnyTag)) > 500
      || HasLayoutWord(ToLower(html))
  {
    StripTagsLength(html, 0);
    LayoutWordTests(ToLower(html));
  }

  /** Without `<` no tag pattern matches anywhere. */
  lemma NoAngleNoMatch(s: string, p: TagPattern)
    requires '<' !in s
    ensures forall i :: 0 <= i < |s| ==> TagMatchAt(s, i, p).None?
  {
    forall i | 0 <= i < |s|
      ensures HeadLength(s, i, p).None?
    {
      assert s[i] in s;
    }
  }

  /** Text without `<` holds no tag of any of the three patterns. */
  lemma PlainTextHasNoTags(s: string)
    requires '<' !in s
    ensures TagMatches(s, 0, OpeningTag) == [] && TagMatches(s, 0, SectionTag) == []
    ensures TagMatches(s, 0, AnyTag) == []
  {
    NoAngleNoMatch(s, OpeningTag);
    NoAngleNoMatch(s, SectionTag);
    NoAngleNoMatch(s, AnyTag);
    NoMatchesIffNoTag(s, 0, OpeningTag);
    NoMatchesIffNoTag(s, 0, SectionTag);
    NoMatchesIffNoTag(s, 0, AnyTag);
  }

  /** Short plain text with none of the layout words is shown as a card. */
  lemma ShortPlainTextIsCard(html: string)
    requires '<' !in html && |html| <= 500
    requires !HasLayoutWord(ToLower(html))
    ensures AnalyzeComponentLayout(html) == Card
  {
    PlainTextHasNoTags(html);
    AnalyzeIsGalleryIff(html);
  }

  /** `layoutType`: gallery if every design is, card if every design is, mixed otherwise. */
  function LayoutType(layouts: seq<Layout>): (r: Layout)
  {
    if forall l :: l in layouts ==> l == Gallery then Gallery
    else if forall l :: l in layouts ==> l == Card then Card
    else Mixed
  }

  /** The overall type is mixed exactly when both kinds occur among the designs. */
  lemma LayoutTypeMixedIffBoth(layouts: seq<Layout>)
    requires Mixed !in layouts
    ensures LayoutType(layouts) == Mixed <==> Gallery in layouts && Card in layouts
  {
  }

  /**
   * The class of the designs container: 'mixed-layout' for the mixed type,
   * `<layoutType>-layout` otherwise; both branches name the type the same way.
   */
  function ContainerClass(t: Layout): (r: string)
    ensures r == Name(t) + "-layout"
  {
    if t == Mixed then "mixed-layout" else Name(t) + "-layout"
  }

  /** The three stylesheets `generateLayoutCSS` can return; their text is presentation. */
  datatype LayoutStyles = MixedStyles | GalleryStyles | NoStyles

  /** `generateLayoutCSS(layouts)`. */
  function GenerateLayoutCss(layouts: seq<Layout>): (r: LayoutStyles)
  {
    var hasGallery := Gallery in layouts;
    var hasCard := Card in layouts;
    if hasGallery && hasCard then MixedStyles
    else if hasGallery then GalleryStyles
    else NoStyles
  }

  /**
   * For a non-empty list of classified designs the stylesheet agrees with
   * the overall layout type: mixed styles for the mixed type, gallery styles
   * for an all-gallery page and none for an all-card page.
   */
  lemma LayoutCssMatchesType(layouts: seq<Layout>)
    requires |layouts| > 0 && Mixed !in layouts
    ensures GenerateLayoutCss(layouts) == MixedStyles <==> LayoutType(layouts) == Mixed
    ensures GenerateLayoutCss(layouts) == GalleryStyles <==> LayoutType(layouts) == Gallery
    ensures GenerateLayoutCss(layouts) == NoStyles <==> LayoutType(layouts) == Card
  {
    assert layouts[0] in layouts;
  }
}
