/**
 * `generateDesignSelectionHTML` of the two built templates: the input is
 * checked, each design is analysed (frameworks, layout, styles), wrapped in
 * its own container and encoded for the page's buttons, and the page-wide
 * framework and layout stylesheets are chosen. The page text around these
 * parts is presentation and is not modelled; the assembled parts are.
 */
module PageAssembly {
  import opened Wrappers
  import opened Text
  import opened JsValues
  import opened FrameworkDetect
  import Layout
  import Styles
  import SafeEncoding
  import Escaping

  /** The fields the page needs, in the order they are checked. */
  const RequiredFields: seq<string> :=
    ["design_name_1", "design_html_1", "design_name_2", "design_html_2", "design_name_3", "design_html_3"]

  /** Why the page could not be built. */
  datatype PageError =
    | InvalidInput           // 'Invalid input provided to generateDesignSelectionHTML'
    | MissingField(field: string)  // 'Missing required field: <field>'
    | NotAString             // a field that is truthy but not a string: the first string method call throws a TypeError

  function Message(e: PageError): string
  {
    match e
    case InvalidInput => "Invalid input provided to generateDesignSelectionHTML"
    case MissingField(f) => "Missing required field: " + f
    case NotAString => "TypeError"
  }

  /** `typeof v === 'object'`, which holds for `null` and arrays as well. */
  predicate IsObjectType(v: Json)
  {
    v.JNull? || v.JArr? || v.JObj?
  }

  /** The first of `fields` whose value in `input` is falsy. */
  function FirstFalsy(input: Json, fields: seq<string>): (r: Option<string>)
    requires !Nullish(input)
    ensures r.None? <==> forall f :: f in fields ==> Truthy(Get(input, f))
    ensures r.Some? ==> exists j :: 0 <= j < |fields| && fields[j] == r.value && !Truthy(Get(input, r.value)) &&
                                    forall i :: 0 <= i < j ==> Truthy(Get(input, fields[i]))
  {
    if fields == [] then None
    else if !Truthy(Get(input, fields[0])) then Some(fields[0])
    else
      var r := FirstFalsy(input, fields[1..]);
      assert r.Some? ==> exists j :: 0 <= j < |fields| && fields[j] == r.value && !Truthy(Get(input, r.value)) &&
                                       forall i :: 0 <= i < j ==> Truthy(Get(input, fields[i])) by {
        if r.Some? {
          var j :| 0 <= j < |fields[1..]| && fields[1..][j] == r.value && !Truthy(Get(input, r.value)) &&
                   forall i :: 0 <= i < j ==> Truthy(Get(input, fields[1..][i]));
          assert forall i :: 0 <= i < j + 1 ==> Truthy(Get(input, fields[i])) by {
            forall i | 0 <= i < j + 1 ensures Truthy(Get(input, fields[i])) {
              if i > 0 { assert fields[i] == fields[1..][i - 1]; }
            }
          }
        }
      }
      r
  }

  /** The checks at the top of `generateDesignSelectionHTML`: the error thrown, if any. */
  function ValidateInput(input: Json): Option<PageError>
  {
    if !Truthy(input) || !IsObjectType(input) then Some(InvalidInput)
    else
      match FirstFalsy(input, RequiredFields)
      case Some(f) => Some(MissingField(f))
      case None => None
  }

  /** The checks pass exactly for an object whose six required fields are all truthy. */
  lemma ValidateInputAccepts(input: Json)
    ensures ValidateInput(input).None? <==>
              input.JObj? && forall f :: f in RequiredFields ==> Truthy(Get(input, f))
  {
    if input.JArr? {
      assert RequiredFields[0] in RequiredFields;
    }
  }

  /** A rejected input of the right type names the first field, in list order, that is falsy. */
  lemma ValidateInputNamesFirstMissing(input: Json)
    requires input.JObj?
    ensures forall j :: 0 <= j < |RequiredFields| && !Truthy(Get(input, RequiredFields[j])) &&
                        (forall i :: 0 <= i < j ==> Truthy(Get(input, RequiredFields[i]))) ==>
                        ValidateInput(input) == Some(MissingField(RequiredFields[j]))
  {
    forall j | 0 <= j < |RequiredFields| && !Truthy(Get(input, RequiredFields[j])) &&
               (forall i :: 0 <= i < j ==> Truthy(Get(input, RequiredFields[i])))
      ensures ValidateInput(input) == Some(MissingField(RequiredFields[j]))
    {
      var f := FirstFalsy(input, RequiredFields);
      assert RequiredFields[j] in RequiredFields;
      var k :| 0 <= k < |RequiredFields| && RequiredFields[k] == f.value && !Truthy(Get(input, f.value)) &&
               forall i :: 0 <= i < k ==> Truthy(Get(input, RequiredFields[i]));
      assert k == j;
    }
  }

  /** No element occurs twice. */
  predicate NoDuplicates<T(==)>(s: seq<T>)
  {
    forall i, j :: 0 <= i < j < |s| ==> s[i] != s[j]
  }

  /** `[...new Set(s)]`: the elements of `s` in the order of their first occurrence. */
  function Dedupe<T(==)>(s: seq<T>): seq<T>
  {
    if s == [] then []
    else
      var p := Dedupe(s[..|s| - 1]);
      if s[|s| - 1] in p then p else p + [s[|s| - 1]]
  }

  /** The position of the first occurrence of `x` in `s`. */
  function FirstIndex<T(==)>(s: seq<T>, x: T): (k: nat)
    requires x in s
    ensures k < |s| && s[k] == x && x !in s[..k]
  {
    if s[0] == x then 0 else 1 + FirstIndex(s[1..], x)
  }

  /** A first occurrence is not moved by appending to the sequence. */
  lemma FirstIndexAppend<T>(s: seq<T>, y: T, x: T)
    requires x in s
    ensures FirstIndex(s + [y], x) == FirstIndex(s, x)
  {
    var k := FirstIndex(s, x);
    assert (s + [y])[..k] == s[..k];
    FirstIndexUnique(s + [y], x, k);
  }

  /** The first occurrence is the one with no occurrence before it. */
  lemma FirstIndexUnique<T>(s: seq<T>, x: T, k: nat)
    requires k < |s| && s[k] == x && x !in s[..k]
    ensures FirstIndex(s, x) == k
  {
    var m := FirstIndex(s, x);
  }

  /**
   * The union of the frameworks keeps every element once, nothing else, and
   * the order of first occurrence.
   */
  lemma {:induction false} DedupeSpec<T>(s: seq<T>)
    ensures NoDuplicates(Dedupe(s))
    ensures forall x :: x in Dedupe(s) <==> x in s
    ensures forall i, j :: 0 <= i < j < |Dedupe(s)| ==> FirstIndex(s, Dedupe(s)[i]) < FirstIndex(s, Dedupe(s)[j])
  {
    if s != [] {
      var init := s[..|s| - 1];
      var x := s[|s| - 1];
      assert s == init + [x];
      DedupeSpec(init);
      var p := Dedupe(init);
      var r := Dedupe(s);
      forall y | y in init ensures FirstIndex(s, y) == FirstIndex(init, y) {
        FirstIndexAppend(init, x, y);
      }
      if x !in p {
        assert r == p + [x];
        assert FirstIndex(s, x) == |init|;
        forall i, j | 0 <= i < j < |r|
          ensures FirstIndex(s, r[i]) < FirstIndex(s, r[j])
        {
          assert r[i] == p[i];
          if j < |p| { assert r[j] == p[j]; }
        }
      }
    }
  }

  /** The isolation styles of a container; their text is presentation. */
  datatype Isolation = TailwindReset | BootstrapFit | NoIsolation

  /** The variable parts of the container `wrapInIsolatedContainer` builds. */
  datatype Wrapped = Wrapped(containerClass: string, dataFramework: string, isolation: Isolation, content: string)

  /** `design-component-${index}`. */
  function ContainerClass(index: nat): (r: string)
  {
    "design-component-" + NatToString(index)
  }

  /** Different designs get different container classes, so their styles cannot meet. */
  lemma ContainerClassInjective(i: nat, j: nat)
    requires ContainerClass(i) == ContainerClass(j)
    ensures i == j
  {
    var pre := "design-component-";
    assert ContainerClass(i)[|pre|..] == NatToString(i);
    assert ContainerClass(j)[|pre|..] == NatToString(j);
    NatToStringInjective(i, j);
  }

  /** `frameworks.join(',')`. */
  function JoinNames(fs: seq<Framework>): string
  {
    if fs == [] then ""
    else if |fs| == 1 then Name(fs[0])
    else Name(fs[0]) + "," + JoinNames(fs[1..])
  }

  /** `wrapInIsolatedContainer(html, index, frameworks)`. */
  function WrapInIsolatedContainer(html: string, index: nat, frameworks: seq<Framework>): (r: Wrapped)
    ensures r.containerClass == ContainerClass(index) && r.content == html
    ensures r.dataFramework == JoinNames(frameworks)
  {
    var isolation :=
      if Tailwind in frameworks then TailwindReset
      else if Bootstrap in frameworks then BootstrapFit
      else NoIsolation;
    Wrapped(ContainerClass(index), JoinNames(frameworks), isolation, html)
  }

  /** Tailwind's reset wins over Bootstrap's fit; without either there is none. */
  lemma IsolationPrecedence(html: string, index: nat, frameworks: seq<Framework>)
    ensures var iso := WrapInIsolatedContainer(html, index, frameworks).isolation;
            && (iso == TailwindReset <==> Tailwind in frameworks)
            && (iso == BootstrapFit <==> Bootstrap in frameworks && Tailwind !in frameworks)
            && (iso == NoIsolation <==> Tailwind !in frameworks && Bootstrap !in frameworks)
  {
  }

  /** The compatibility blocks `generateFrameworkCSS` can add; their text is presentation. */
  datatype CompatBlock = TailwindCompat | BootstrapCompat | BulmaCompat

  function BlockRank(b: CompatBlock): nat
  {
    match b
    case TailwindCompat => 0
    case BootstrapCompat => 1
    case BulmaCompat => 2
  }

  /**
   * The blocks for `frameworks`: one for each of tailwind, bootstrap and
   * bulma that is listed, in that order.
   */
  predicate CompatBlocksFor(css: seq<CompatBlock>, frameworks: seq<Framework>)
  {
    && (TailwindCompat in css <==> Tailwind in frameworks)
    && (BootstrapCompat in css <==> Bootstrap in frameworks)
    && (BulmaCompat in css <==> Bulma in frameworks)
    && forall i, j :: 0 <= i < j < |css| ==> BlockRank(css[i]) < BlockRank(css[j])
  }

  /**
   * `generateFrameworkCSS(frameworks)`: a block per listed framework among
   * tailwind, bootstrap and bulma, in that order; foundation and semantic-ui
   * add nothing.
   */
  method GenerateFrameworkCss(frameworks: seq<Framework>) returns (css: seq<CompatBlock>)
    ensures CompatBlocksFor(css, frameworks)
  {
    css := [];
    if Tailwind in frameworks {
      css := css + [TailwindCompat];
    }
    if Bootstrap in frameworks {
      css := css + [BootstrapCompat];
    }
    if Bulma in frameworks {
      css := css + [BulmaCompat];
    }
  }

  lemma SameMembersBothEmpty<T>(a: seq<T>, b: seq<T>)
    requires forall x :: x in a <==> x in b
    ensures a == [] <==> b == []
  {
    if a != [] { assert a[0] in b; }
    if b != [] { assert b[0] in a; }
  }

  /**
   * Two rank-ordered block lists with the same members are equal: the
   * contract of `GenerateFrameworkCss` fixes its result.
   */
  lemma OrderedBlocksUnique(a: seq<CompatBlock>, b: seq<CompatBlock>)
    requires forall i, j :: 0 <= i < j < |a| ==> BlockRank(a[i]) < BlockRank(a[j])
    requires forall i, j :: 0 <= i < j < |b| ==> BlockRank(b[i]) < BlockRank(b[j])
    requires forall x :: x in a <==> x in b
    ensures a == b
  {
    SameMembersBothEmpty(a, b);
    if a != [] {
      assert a[0] == b[0] by {
        assert a[0] in b && b[0] in a;
      }
      assert a == [a[0]] + a[1..] && b == [b[0]] + b[1..];
      forall x ensures x in a[1..] <==> x in b[1..] {
        if x in a[1..] {
          var i :| 0 <= i < |a[1..]| && a[1..][i] == x;
          assert a[i + 1] == x && BlockRank(a[0]) < BlockRank(a[i + 1]);
          assert x in b && x != b[0];
        }
        if x in b[1..] {
          var i :| 0 <= i < |b[1..]| && b[1..][i] == x;
          assert b[i + 1] == x && BlockRank(b[0]) < BlockRank(b[i + 1]);
          assert x in a && x != a[0];
        }
      }
      OrderedBlocksUnique(a[1..], b[1..]);
    }
  }

  /** What the page shows of one design. */
  datatype DesignPart = DesignPart(
    name: string,                 // the sanitised name on its button
    frameworks: seq<Framework>,
    layout: Layout.Layout,
    css: string,                  // the extracted styles, injected at load
    wrapped: Wrapped,             // the container around the cleaned markup
    encoded: string)              // the argument of its copy and select buttons

  /** The assembled parts of the page. */
  datatype Page = Page(
    designs: seq<DesignPart>,
    allFrameworks: seq<Framework>,
    layoutType: Layout.Layout,
    frameworkCss: seq<CompatBlock>,
    layoutCss: Layout.LayoutStyles)

  /** The string value of a field that passed the checks; None when it is not a string. */
  function StringField(input: Json, f: string): Option<string>
    requires !Nullish(input)
  {
    match Get(input, f)
    case JStr(s) => Some(s)
    case _ => None
  }

  /**
   * `d` is what the page shows for the design named `name` with markup
   * `html` at position `index`: the sanitised name, the frameworks detected
   * in the markup, its layout, its extracted styles, the cleaned markup in
   * its isolated container, and the encoding of the original markup.
   */
  predicate DesignFor(d: DesignPart, name: string, html: string, index: nat, base64: string -> string)
  {
    && d.name == Escaping.SanitizeName(name)
    && d.frameworks == Detected(html)
    && d.layout == Layout.AnalyzeComponentLayout(html)
    && d.css == Styles.ExtractedCss(html)
    && d.wrapped == WrapInIsolatedContainer(Styles.CleanedHtml(html), index, Detected(html))
    && d.encoded == SafeEncoding.SafeEncodeForJs(base64(html))
  }

  /** One design's part: detection, layout, styles, container and encoding. */
  method BuildDesign(name: string, html: string, index: nat, base64: string -> string) returns (d: DesignPart)
    ensures DesignFor(d, name, html, index, base64)
    ensures d.wrapped.containerClass == ContainerClass(index)
  {
    var frameworks := DetectCssFramework(html);
    var css, cleanHtml := Styles.ExtractStyles(html);
    var wrapped := WrapInIsolatedContainer(cleanHtml, index, frameworks);
    d := DesignPart(Escaping.SanitizeName(name), frameworks, Layout.AnalyzeComponentLayout(html),
                    css, wrapped, SafeEncoding.SafeEncodeForJs(base64(html)));
  }

  /**
   * `p` is the page for the three named designs: each design's part in
   * order, numbered 1 to 3, the deduplicated union of the frameworks
   * detected in the three markups with their compatibility blocks, and the
   * layout type and layout CSS of the three layouts.
   */
  predicate PageFor(p: Page, name1: string, html1: string, name2: string, html2: string,
                    name3: string, html3: string, base64: string -> string)
  {
    var detected := Detected(html1) + Detected(html2) + Detected(html3);
    var layouts := [Layout.AnalyzeComponentLayout(html1), Layout.AnalyzeComponentLayout(html2),
                    Layout.AnalyzeComponentLayout(html3)];
    && |p.designs| == 3
    && DesignFor(p.designs[0], name1, html1, 1, base64)
    && DesignFor(p.designs[1], name2, html2, 2, base64)
    && DesignFor(p.designs[2], name3, html3, 3, base64)
    && p.allFrameworks == Dedupe(detected)
    && CompatBlocksFor(p.frameworkCss, detected)
    && p.layoutType == Layout.LayoutType(layouts)
    && p.layoutCss == Layout.GenerateLayoutCss(layouts)
  }

  /** Designs at different positions sit in different containers, so their styles cannot meet. */
  lemma DesignContainersDiffer(d: DesignPart, name: string, html: string, index: nat,
                               e: DesignPart, name': string, html': string, index': nat,
                               base64: string -> string)
    requires DesignFor(d, name, html, index, base64) && DesignFor(e, name', html', index', base64)
    requires index != index'
    ensures d.wrapped.containerClass != e.wrapped.containerClass
  {
    assert d.wrapped.containerClass == ContainerClass(index);
    assert e.wrapped.containerClass == ContainerClass(index');
    if ContainerClass(index) == ContainerClass(index') {
      ContainerClassInjective(index, index');
    }
  }

  /**
   * `generateDesignSelectionHTML(input)` up to its page text. `base64` stands
   * for `btoa(encodeURIComponent(html))`.
   */
  method GenerateDesignSelectionPage(input: Json, base64: string -> string) returns (r: Result<Page, PageError>)
    ensures ValidateInput(input).Some? ==> r == Err(ValidateInput(input).value)
    ensures r.Ok? ==> ValidateInput(input).None? && input.JObj?
    ensures r.Ok? ==>
              && input.JObj?
              && Get(input, "design_name_1").JStr? && Get(input, "design_html_1").JStr?
              && Get(input, "design_name_2").JStr? && Get(input, "design_html_2").JStr?
              && Get(input, "design_name_3").JStr? && Get(input, "design_html_3").JStr?
              && PageFor(r.value, Get(input, "design_name_1").s, Get(input, "design_html_1").s,
                         Get(input, "design_name_2").s, Get(input, "design_html_2").s,
                         Get(input, "design_name_3").s, Get(input, "design_html_3").s, base64)
  {
    var error := ValidateInput(input);
    if error.Some? {
      return Err(error.value);
    }
    var name1, html1 := StringField(input, RequiredFields[0]), StringField(input, RequiredFields[1]);
    var name2, html2 := StringField(input, RequiredFields[2]), StringField(input, RequiredFields[3]);
    var name3, html3 := StringField(input, RequiredFields[4]), StringField(input, RequiredFields[5]);
    if name1.None? || html1.None? || name2.None? || html2.None? || name3.None? || html3.None? {
      return Err(NotAString);
    }
    ValidateInputAccepts(input);
    var page := AssemblePage(name1.value, html1.value, name2.value, html2.value, name3.value, html3.value, base64);
    return Ok(page);
  }

  /** The page of three designs whose names and markup passed the checks. */
  method AssemblePage(name1: string, html1: string, name2: string, html2: string, name3: string, html3: string,
                      base64: string -> string) returns (p: Page)
    ensures PageFor(p, name1, html1, name2, html2, name3, html3, base64)
  {
    var d1 := BuildDesign(name1, html1, 1, base64);
    var d2 := BuildDesign(name2, html2, 2, base64);
    var d3 := BuildDesign(name3, html3, 3, base64);
    var layouts := [d1.layout, d2.layout, d3.layout];
    var allFrameworks := Dedupe(d1.frameworks + d2.frameworks + d3.frameworks);
    var frameworkCss := GenerateFrameworkCss(allFrameworks);
    DedupeSpec(d1.frameworks + d2.frameworks + d3.frameworks);
    p := Page([d1, d2, d3], allFrameworks, Layout.LayoutType(layouts), frameworkCss, Layout.GenerateLayoutCss(layouts));
  }
}
