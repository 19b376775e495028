/**
 * The prompt layer of the design generator (`src/prompts/designPrompts.ts`):
 * three lookup tables keyed by a lower-cased, trimmed name, each with a
 * default; the `validateOutput` check every component template carries; and
 * the prompts themselves, whose optional lines depend on which fields of the
 * prompt context are given.
 *
 * The prompt texts are long fixed passages; a prompt is modelled as the
 * sequence of its parts, each fixed passage as one constructor, and only the
 * values the code splices in are kept.
 *
 * The tables are JavaScript object literals, so `table[key]` also finds the
 * members every object inherits from `Object.prototype`. `JsProperty` and
 * the `...AsWritten` functions model that lookup; the functions without the
 * suffix look at the table's own entries only, and are what the rest of the
 * model uses.
 */
module Prompts {
  import opened Wrappers
  import opened Text
  import opened JsValues

  /** `s.toLowerCase().trim()`, the key every table is read with. */
  function Normalize(s: string): string
  {
    Trim(ToLower(s))
  }

  /** No character of `s` is an upper-case ASCII letter. */
  predicate NoUpper(s: string)
  {
    forall i :: 0 <= i < |s| ==> !('A' <= s[i] <= 'Z')
  }

  /** A normalised key has no upper-case letter. */
  lemma NormalizeNoUpper(s: string)
    ensures NoUpper(Normalize(s))
  {
    var l := ToLower(s);
    var r := Normalize(s);
    TrimShape(l);
    var k :| OccursAt(l, r, k);
    forall i | 0 <= i < |r| ensures !('A' <= r[i] <= 'Z') {
      assert r[i] == l[k + i];
    }
  }

  /** A key already in lower case and without surrounding blanks is its own normal form. */
  lemma NormalizeKeeps(s: string)
    requires NoUpper(s) && s != [] && !IsJsWhitespace(s[0]) && !IsJsWhitespace(s[|s| - 1])
    ensures Normalize(s) == s
  {
    assert ToLower(s) == s;
  }

  // ---------------------------------------------------------------------
  // Property access on an object literal
  // ---------------------------------------------------------------------

  /**
   * The properties of `Object.prototype` (section 20.1.3 of ECMA-262, with
   * the accessors of its Annex B), which every object literal inherits.
   */
  const PrototypeMembers: set<string> := {
    "constructor", "hasOwnProperty", "isPrototypeOf", "propertyIsEnumerable",
    "toLocaleString", "toString", "valueOf", "__proto__",
    "__defineGetter__", "__defineSetter__", "__lookupGetter__", "__lookupSetter__"
  }

  /** What `table[key]` yields: an own entry, an inherited member (truthy), or `undefined`. */
  datatype JsProperty<V> = Own(value: V) | Inherited(name: string) | Missing

  /** `table[key]` on an object literal whose own entries are `table`. */
  function Lookup<V>(table: map<string, V>, key: string): (r: JsProperty<V>)
    ensures r.Own? <==> key in table
    ensures r.Inherited? <==> key !in table && key in PrototypeMembers
    ensures r.Inherited? ==> r.name == key
  {
    if key in table then Own(table[key])
    else if key in PrototypeMembers then Inherited(key)
    else Missing
  }

  /** `table[key] || fallback` when every own entry is truthy. */
  function LookupOr<V>(table: map<string, V>, key: string, fallback: V): (r: JsProperty<V>)
    ensures r != Missing
    ensures key in table ==> r == Own(table[key])
    ensures key !in table && key !in PrototypeMembers ==> r == Own(fallback)
    ensures r.Inherited? ==> r.name == key
  {
    var p := Lookup(table, key);
    if p.Missing? then Own(fallback) else p
  }

  /** The own-entries lookup that the `||` default was meant to give. */
  function OwnLookupOr<V>(table: map<string, V>, key: string, fallback: V): (r: V)
    ensures key in table ==> r == table[key]
    ensures key !in table ==> r == fallback
  {
    if key in table then table[key] else fallback
  }

  /** Every inherited member other than "constructor" and "__proto__" has an upper-case letter. */
  lemma MixedCasePrototypeMembers()
    ensures forall k :: k in PrototypeMembers && k != "constructor" && k != "__proto__" ==> !NoUpper(k)
  {
    assert "hasOwnProperty"[3] == 'O';
    assert "isPrototypeOf"[2] == 'P';
    assert "propertyIsEnumerable"[8] == 'I';
    assert "toLocaleString"[2] == 'L';
    assert "toString"[2] == 'S';
    assert "valueOf"[5] == 'O';
    assert "__defineGetter__"[8] == 'G';
    assert "__defineSetter__"[8] == 'S';
    assert "__lookupGetter__"[8] == 'G';
    assert "__lookupSetter__"[8] == 'S';
  }

  /** With a normalised key, only "constructor" and "__proto__" reach an inherited member. */
  lemma NormalizedInherited<V>(table: map<string, V>, s: string, fallback: V)
    requires "constructor" !in table && "__proto__" !in table
    ensures LookupOr(table, Normalize(s), fallback).Inherited? <==> Normalize(s) in {"constructor", "__proto__"}
  {
    var key := Normalize(s);
    if key in PrototypeMembers && key !in table {
      NormalizeNoUpper(s);
      MixedCasePrototypeMembers();
    }
  }

  /**
   * With a normalised key the fallback is skipped for exactly two keys: the
   * lookup agrees with the own-entries lookup everywhere else.
   */
  lemma {:induction false} NormalizedLookupAgrees<V>(table: map<string, V>, s: string, fallback: V)
    requires "constructor" !in table && "__proto__" !in table
    ensures var key := Normalize(s);
      (LookupOr(table, key, fallback) == Own(OwnLookupOr(table, key, fallback)))
      <==> key != "constructor" && key != "__proto__"
  {
    NormalizedInherited(table, s, fallback);
  }

  // ---------------------------------------------------------------------
  // getFrameworkGuidelines
  // ---------------------------------------------------------------------

  /** The six guideline passages of `getFrameworkGuidelines`. */
  datatype Guidelines = TailwindGuide | BootstrapGuide | BulmaGuide | FoundationGuide | SemanticUiGuide | CssGuide

  const GuidelineTable: map<string, Guidelines> := map[
    "tailwind" := TailwindGuide, "bootstrap" := BootstrapGuide, "bulma" := BulmaGuide,
    "foundation" := FoundationGuide, "semantic ui" := SemanticUiGuide, "css" := CssGuide
  ]

  /** `getFrameworkGuidelines` as written: `guidelines[fw] || guidelines.css`. */
  function FrameworkGuidelinesAsWritten(framework: string): (r: JsProperty<Guidelines>)
    ensures r.Inherited? <==> Normalize(framework) in {"constructor", "__proto__"}
    ensures r.Inherited? ==> r.name == Normalize(framework)
  {
    NormalizedInherited(GuidelineTable, framework, CssGuide);
    LookupOr(GuidelineTable, Normalize(framework), CssGuide)
  }

  /**
   * A framework called "__proto__" gets `Object.prototype` spliced in where
   * its guidelines belong, where the default was meant to give the CSS ones.
   */
  lemma FrameworkGuidelinesProto()
    ensures FrameworkGuidelinesAsWritten("__proto__") == Inherited("__proto__")
  {
    NormalizeKeeps("__proto__");
  }

  /** `getFrameworkGuidelines`, reading only the table's own entries. */
  function FrameworkGuidelines(framework: string): Guidelines
  {
    OwnLookupOr(GuidelineTable, Normalize(framework), CssGuide)
  }

  /**
   * Each named framework gets its own passage, matched after lower-casing
   * and trimming; every other name, "plain css" included, gets the CSS one.
   */
  lemma FrameworkGuidelinesCases(framework: string)
    ensures var key := Normalize(framework); var g := FrameworkGuidelines(framework);
      && (g == TailwindGuide <==> key == "tailwind")
      && (g == BootstrapGuide <==> key == "bootstrap")
      && (g == BulmaGuide <==> key == "bulma")
      && (g == FoundationGuide <==> key == "foundation")
      && (g == SemanticUiGuide <==> key == "semantic ui")
      && (g == CssGuide <==> key !in {"tailwind", "bootstrap", "bulma", "foundation", "semantic ui"})
  {
  }

  /** Off the two inherited keys the written lookup gives the own-entries result. */
  lemma FrameworkGuidelinesAgree(framework: string)
    ensures FrameworkGuidelinesAsWritten(framework) == Own(FrameworkGuidelines(framework))
            <==> Normalize(framework) !in {"constructor", "__proto__"}
  {
    NormalizedLookupAgrees(GuidelineTable, framework, CssGuide);
  }

  // ---------------------------------------------------------------------
  // getTemplateForComponent
  // ---------------------------------------------------------------------

  /** The six component templates. */
  datatype Component = Button | Card | Form | Navigation | Modal | Table

  /** The names that select each template. */
  function Aliases(c: Component): set<string>
  {
    match c
    case Button => {"button", "buttons"}
    case Card => {"card", "cards"}
    case Form => {"form", "input", "inputs"}
    case Navigation => {"navigation", "nav", "navbar", "header"}
    case Modal => {"modal", "dialog", "popup"}
    case Table => {"table", "data"}
  }

  const TemplateTable: map<string, Component> := map[
    "button" := Button, "buttons" := Button,
    "card" := Card, "cards" := Card,
    "form" := Form, "input" := Form, "inputs" := Form,
    "navigation" := Navigation, "nav" := Navigation, "navbar" := Navigation, "header" := Navigation,
    "modal" := Modal, "dialog" := Modal, "popup" := Modal,
    "table" := Table, "data" := Table
  ]

  /** `getTemplateForComponent` as written: `templates[type] || BUTTON_TEMPLATE`. */
  function TemplateForComponentAsWritten(componentType: string): (r: JsProperty<Component>)
    ensures r.Inherited? <==> Normalize(componentType) in {"constructor", "__proto__"}
    ensures r.Inherited? ==> r.name == Normalize(componentType)
  {
    NormalizedInherited(TemplateTable, componentType, Button);
    LookupOr(TemplateTable, Normalize(componentType), Button)
  }

  /**
   * A component type "constructor" selects `Object`, which has no
   * `buildUserPrompt`: the caller's next step throws a TypeError.
   */
  lemma TemplateForComponentConstructor()
    ensures TemplateForComponentAsWritten("constructor") == Inherited("constructor")
  {
    NormalizeKeeps("constructor");
  }

  /** `getTemplateForComponent`, reading only the table's own entries. */
  function TemplateForComponent(componentType: string): Component
  {
    OwnLookupOr(TemplateTable, Normalize(componentType), Button)
  }

  /** Each alias is a key of the table, mapped to its template. */
  lemma AliasesInTable(key: string, c: Component)
    ensures key in Aliases(c) ==> key in TemplateTable && TemplateTable[key] == c
  {
    match c
    case Button =>
    case Card =>
    case Form =>
    case Navigation =>
    case Modal =>
    case Table =>
  }

  /** Each key of the table is an alias of the template it maps to. */
  lemma TableInAliases(key: string)
    ensures key in TemplateTable ==> key in Aliases(TemplateTable[key])
  {
  }

  /** A template is chosen by its aliases; an unknown type falls back to the button template. */
  lemma TemplateForComponentCases(componentType: string, c: Component)
    ensures var key := Normalize(componentType);
      TemplateForComponent(componentType) == c
      <==> key in Aliases(c) || (c == Button && forall d :: key !in Aliases(d))
  {
    var key := Normalize(componentType);
    AliasesInTable(key, c);
    if key in TemplateTable {
      TableInAliases(key);
      AliasesInTable(key, TemplateTable[key]);
    } else {
      forall d ensures key !in Aliases(d) { AliasesInTable(key, d); }
    }
  }

  /** Off the two inherited keys the written lookup gives the own-entries result. */
  lemma TemplateForComponentAgree(componentType: string)
    ensures TemplateForComponentAsWritten(componentType) == Own(TemplateForComponent(componentType))
            <==> Normalize(componentType) !in {"constructor", "__proto__"}
  {
    NormalizedLookupAgrees(TemplateTable, componentType, Button);
  }

  // ---------------------------------------------------------------------
  // generateDesignNames
  // ---------------------------------------------------------------------

  const NameTable: map<string, seq<string>> := map[
    "button" := ["Modern Gradient Button", "Minimal Outline Button", "Soft Pill Button"],
    "card" := ["Standard Content Card", "Featured Highlight Card", "Compact List Card"],
    "form" := ["Underlined Input Field", "Modern Bordered Input", "Material Filled Input"],
    "navigation" := ["Standard Header Navigation", "Centered Logo Navigation", "Full-Featured Header"],
    "modal" := ["Standard Dialog Modal", "Confirmation Dialog", "Form Modal with Scroll"],
    "table" := ["Simple Clean Table", "Striped Data Table", "Compact Dense Table"]
  ]

  /** The names for a type without an entry; the first keeps the type as the caller wrote it. */
  function DefaultNames(componentType: string): seq<string>
  {
    ["Modern " + componentType, "Minimal Design", "Enhanced Variant"]
  }

  /** `generateDesignNames` as written: `names[type] || [...]`. */
  function DesignNamesAsWritten(componentType: string): (r: JsProperty<seq<string>>)
    ensures r.Inherited? <==> Normalize(componentType) in {"constructor", "__proto__"}
    ensures r.Inherited? ==> r.name == Normalize(componentType)
  {
    NormalizedInherited(NameTable, componentType, DefaultNames(componentType));
    LookupOr(NameTable, Normalize(componentType), DefaultNames(componentType))
  }

  /** For "__proto__" the written function returns `Object.prototype`, not three names. */
  lemma DesignNamesProto()
    ensures DesignNamesAsWritten("__proto__") == Inherited("__proto__")
  {
    NormalizeKeeps("__proto__");
  }

  /** `generateDesignNames`, reading only the table's own entries. */
  function DesignNames(componentType: string): (r: seq<string>)
    ensures |r| == 3
    ensures Normalize(componentType) !in NameTable ==> r[0] == "Modern " + componentType
  {
    OwnLookupOr(NameTable, Normalize(componentType), DefaultNames(componentType))
  }

  /** The six table keys are the canonical aliases of the six templates. */
  lemma DesignNamesKeys(componentType: string)
    ensures Normalize(componentType) in NameTable
            <==> Normalize(componentType) in {"button", "card", "form", "navigation", "modal", "table"}
    ensures Normalize(componentType) in NameTable ==> Normalize(componentType) in TemplateTable
  {
  }

  /** Off the two inherited keys the written function gives the own-entries result. */
  lemma DesignNamesAgree(componentType: string)
    ensures DesignNamesAsWritten(componentType) == Own(DesignNames(componentType))
            <==> Normalize(componentType) !in {"constructor", "__proto__"}
  {
    NormalizedLookupAgrees(NameTable, componentType, DefaultNames(componentType));
  }

  // ---------------------------------------------------------------------
  // validateOutput
  // ---------------------------------------------------------------------

  /** `d.name && d.html && d.description` for an element that is neither undefined nor null. */
  predicate Complete(d: Json)
    requires !Nullish(d)
  {
    Truthy(Get(d, "name")) && Truthy(Get(d, "html")) && Truthy(Get(d, "description"))
  }

  /** Every element is an object-like value with the three fields. */
  predicate AllComplete(items: seq<Json>)
  {
    forall j :: 0 <= j < |items| ==> !Nullish(items[j]) && Complete(items[j])
  }

  /**
   * `items.every(d => d.name && d.html && d.description)`. The scan stops at
   * the first element that fails; reading `d.name` of an undefined or null
   * element throws a TypeError, which is `None`.
   */
  function EveryComplete(items: seq<Json>): (r: Option<bool>)
    ensures r == Some(true) <==> AllComplete(items)
    ensures r.None? <==> exists j :: 0 <= j < |items| && Nullish(items[j]) && AllComplete(items[..j])
  {
    if items == [] then Some(true)
    else
      if Nullish(items[0]) then
        assert AllComplete(items[..0]);
        None
      else if !Complete(items[0]) then
        assert forall j :: 0 < j <= |items| ==> !AllComplete(items[..j]) by {
          forall j | 0 < j <= |items| ensures !AllComplete(items[..j]) { assert items[..j][0] == items[0]; }
        }
        Some(false)
      else
        var rest := EveryComplete(items[1..]);
        assert (exists j :: 0 <= j < |items| && Nullish(items[j]) && AllComplete(items[..j]))
               <==> exists j :: 0 <= j < |items| - 1 && Nullish(items[1..][j]) && AllComplete(items[1..][..j]) by {
          if j :| 0 <= j < |items| && Nullish(items[j]) && AllComplete(items[..j]) {
            assert j > 0;
            assert items[1..][..j - 1] == items[..j][1..];
          }
          if j :| 0 <= j < |items| - 1 && Nullish(items[1..][j]) && AllComplete(items[1..][..j]) {
            assert items[..j + 1] == [items[0]] + items[1..][..j];
          }
        }
        rest
  }

  /**
   * `validateOutput`, the same in all six templates:
   * `Boolean(output && output.designs && Array.isArray(output.designs) &&
   * output.designs.length >= 3 && output.designs.every(...))`; `None` when
   * `every` throws.
   */
  function ValidateOutput(output: Json): Option<bool>
  {
    if !Truthy(output) then Some(false)
    else
      var designs := Get(output, "designs");
      if !Truthy(designs) || !designs.JArr? || |designs.items| < 3 then Some(false)
      else EveryComplete(designs.items)
  }

  /**
   * An output is accepted exactly when it is an object whose `designs` is an
   * array of at least three elements, each with a truthy name, html and
   * description; it throws exactly when such an array reaches an undefined
   * or null element before any incomplete one.
   */
  lemma ValidateOutputIff(output: Json)
    ensures ValidateOutput(output) == Some(true)
            <==> output.JObj? && "designs" in output.fields && output.fields["designs"].JArr?
                 && |output.fields["designs"].items| >= 3 && AllComplete(output.fields["designs"].items)
    ensures ValidateOutput(output).None?
            <==> output.JObj? && "designs" in output.fields && output.fields["designs"].JArr?
                 && |output.fields["designs"].items| >= 3
                 && exists j :: 0 <= j < |output.fields["designs"].items|
                      && Nullish(output.fields["designs"].items[j]) && AllComplete(output.fields["designs"].items[..j])
  {
  }

  // ---------------------------------------------------------------------
  // Prompts
  // ---------------------------------------------------------------------

  /** `PromptContext`; an optional field is `None` when absent. */
  datatype PromptContext = PromptContext(
    userPrompt: string,
    framework: string,
    stylePreference: Option<string>,
    componentType: Option<string>,
    brandColors: Option<string>,
    targetAudience: Option<string>,
    platform: Option<string>)

  /** An optional string field is truthy: present and not empty. */
  predicate Given(o: Option<string>)
  {
    o.Some? && o.value != ""
  }

  /** `o || d`. */
  function OrDefault(o: Option<string>, d: string): (r: string)
    ensures Given(o) ==> r == o.value
    ensures !Given(o) ==> r == d
  {
    if Given(o) then o.value else d
  }

  /** The parts a prompt is assembled from, with the values spliced into them. */
  datatype PromptPart =
    | EnhancedHeader(userPrompt: string, componentType: string, framework: string, platform: string)
    | TargetAudienceLine(audience: string)
    | BrandColorsLine(colors: string)
    | FormatAndRequirements
    | QualityChecklist
    | AccessibilityGuidelines
    | AnimationGuidelines
    | GuidelinesFor(framework: string)   // `getFrameworkGuidelines(framework)`: the passage `FrameworkGuidelines` picks
    | StylePreferenceLine(preference: string)
    | Reminder
    | TemplateHeader(component: Component, purpose: string, framework: string)
    | StyleLine(style: string)
    | DesignSpecifics(component: Component)
    | OutputLine(component: Component)

  /** The part an optional field adds: one part when the field is truthy, none otherwise. */
  function OptionalPart(given: bool, p: PromptPart): (r: seq<PromptPart>)
    ensures forall q :: q in r <==> given && q == p
  {
    if given then [p] else []
  }

  /** The fixed sections between the context lines and the style preference. */
  function EnhancedBody(framework: string): seq<PromptPart>
  {
    [FormatAndRequirements, QualityChecklist, AccessibilityGuidelines, AnimationGuidelines,
     GuidelinesFor(framework)]
  }

  /** `buildEnhancedPrompt`. */
  function BuildEnhancedPrompt(ctx: PromptContext): (r: seq<PromptPart>)
    ensures |r| >= 7 && r[|r| - 1] == Reminder
    ensures r[0] == EnhancedHeader(ctx.userPrompt, OrDefault(ctx.componentType, "UI Component"),
                                   ToUpper(ctx.framework), OrDefault(ctx.platform, "Responsive (mobile-first)"))
  {
    [EnhancedHeader(ctx.userPrompt, OrDefault(ctx.componentType, "UI Component"),
                    ToUpper(ctx.framework), OrDefault(ctx.platform, "Responsive (mobile-first)"))]
    + OptionalPart(Given(ctx.targetAudience), TargetAudienceLine(OrDefault(ctx.targetAudience, "")))
    + OptionalPart(Given(ctx.brandColors), BrandColorsLine(OrDefault(ctx.brandColors, "")))
    + EnhancedBody(ctx.framework)
    + OptionalPart(Given(ctx.stylePreference), StylePreferenceLine(OrDefault(ctx.stylePreference, "")))
    + [Reminder]
  }

  /**
   * The target-audience, brand-colour and style-preference lines are present
   * exactly when their fields are truthy, each carrying its field's value.
   */
  lemma EnhancedPromptOptionalLines(ctx: PromptContext)
    ensures forall a :: TargetAudienceLine(a) in BuildEnhancedPrompt(ctx) <==> Given(ctx.targetAudience) && a == ctx.targetAudience.value
    ensures forall c :: BrandColorsLine(c) in BuildEnhancedPrompt(ctx) <==> Given(ctx.brandColors) && c == ctx.brandColors.value
    ensures forall s :: StylePreferenceLine(s) in BuildEnhancedPrompt(ctx) <==> Given(ctx.stylePreference) && s == ctx.stylePreference.value
  {
    AudienceLine(ctx);
    BrandColorsLines(ctx);
    StylePreferenceLines(ctx);
  }

  lemma AudienceLine(ctx: PromptContext)
    ensures forall a :: TargetAudienceLine(a) in BuildEnhancedPrompt(ctx) <==> Given(ctx.targetAudience) && a == ctx.targetAudience.value
  {
  }

  lemma BrandColorsLines(ctx: PromptContext)
    ensures forall c :: BrandColorsLine(c) in BuildEnhancedPrompt(ctx) <==> Given(ctx.brandColors) && c == ctx.brandColors.value
  {
  }

  lemma StylePreferenceLines(ctx: PromptContext)
    ensures forall s :: StylePreferenceLine(s) in BuildEnhancedPrompt(ctx) <==> Given(ctx.stylePreference) && s == ctx.stylePreference.value
  {
  }

  /** The enhanced prompt carries one guidelines section, for the context's framework. */
  lemma EnhancedPromptGuidelines(ctx: PromptContext)
    ensures forall f :: GuidelinesFor(f) in BuildEnhancedPrompt(ctx) <==> f == ctx.framework
  {
  }

  /** `buildUserPrompt` of the template for `c`; the six templates share this shape. */
  function BuildUserPrompt(c: Component, ctx: PromptContext): (r: seq<PromptPart>)
    ensures |r| >= 7 && r[0] == TemplateHeader(c, ctx.userPrompt, ToUpper(ctx.framework))
    ensures r[|r| - 2] == GuidelinesFor(ctx.framework)
    ensures r[|r| - 1] == OutputLine(c)
  {
    [TemplateHeader(c, ctx.userPrompt, ToUpper(ctx.framework))]
    + OptionalPart(Given(ctx.stylePreference), StyleLine(OrDefault(ctx.stylePreference, "")))
    + [DesignSpecifics(c), QualityChecklist, AccessibilityGuidelines, AnimationGuidelines,
       GuidelinesFor(ctx.framework), OutputLine(c)]
  }

  /**
   * A template prompt has the style line exactly when the style preference
   * is truthy, and one guidelines section, for the context's framework.
   */
  lemma UserPromptLines(c: Component, ctx: PromptContext)
    ensures forall s :: StyleLine(s) in BuildUserPrompt(c, ctx) <==> Given(ctx.stylePreference) && s == ctx.stylePreference.value
    ensures forall f :: GuidelinesFor(f) in BuildUserPrompt(c, ctx) <==> f == ctx.framework
  {
  }
}
