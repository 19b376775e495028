/**
 * The checks and the result pieces of the design-selection tool
 * (`src/tools/DesignselectionTool.ts` and its older build
 * `dist/tools/DesignselectionTool.js`): which workflow an input selects,
 * what each validator refuses and in which order, which generated designs
 * are kept, and how the selected name is mapped back to its HTML.
 *
 * Every field of the tool's input is an optional string, `None` when it is
 * absent or undefined. JavaScript string lengths count UTF-16 code units;
 * here they count characters.
 */
module ToolValidation {
  import opened Wrappers
  import opened Text
  import opened JsValues
  import Prompts

  // ---------------------------------------------------------------------
  // Inputs
  // ---------------------------------------------------------------------

  /** The six design fields of `DesignInput`. */
  datatype DesignInput = DesignInput(
    name1: Option<string>, html1: Option<string>,
    name2: Option<string>, html2: Option<string>,
    name3: Option<string>, html3: Option<string>)

  /** The tool's input, which may be either workflow's. */
  datatype CombinedInput = CombinedInput(
    prompt: Option<string>,
    stylePreference: Option<string>,
    framework: Option<string>,
    componentType: Option<string>,
    design: DesignInput)

  /** One `{ name, html }` entry of the array the validator walks. */
  datatype Entry = Entry(name: Option<string>, html: Option<string>)

  /** The entries in the order the validator visits them. */
  function Entries(d: DesignInput): (r: seq<Entry>)
    ensures |r| == 3
  {
    [Entry(d.name1, d.html1), Entry(d.name2, d.html2), Entry(d.name3, d.html3)]
  }

  /** A design with both fields known to be strings. */
  datatype Design = Design(name: string, html: string)

  // ---------------------------------------------------------------------
  // Workflow detection and the gate of `execute`
  // ---------------------------------------------------------------------

  /** `isPromptWorkflow`: `'prompt' in input && input.prompt !== undefined`. */
  predicate IsPromptWorkflow(input: CombinedInput)
  {
    input.prompt.Some?
  }

  /** `execute` goes on only with a non-blank prompt or a truthy first name and HTML. */
  predicate PassesGate(input: CombinedInput)
  {
    var hasPrompt := Prompts.Given(input.prompt) && !IsBlank(input.prompt.value);
    var hasDesignFields := Prompts.Given(input.design.name1) && Prompts.Given(input.design.html1);
    hasPrompt || hasDesignFields
  }

  // ---------------------------------------------------------------------
  // validateDesignInput
  // ---------------------------------------------------------------------

  datatype DesignError = EmptyName | NameTooLong | EmptyHtml | UnsafeHtml

  function DesignErrorMessage(e: DesignError): string
  {
    match e
    case EmptyName => "Design names cannot be empty. Please provide descriptive names for each design."
    case NameTooLong => "Design name too long (max 100 characters)"
    case EmptyHtml => "Design HTML cannot be empty. Please provide the HTML code for each design."
    case UnsafeHtml => "Design HTML contains potentially unsafe content. Script tags and inline JavaScript are not allowed for security reasons."
  }

  const MaxNameLength := 100

  /** The script markers searched for, case-insensitively, in a design's HTML. */
  predicate Unsafe(html: string)
  {
    var lower := ToLower(html);
    Contains(lower, "<script") || Contains(lower, "javascript:") || Contains(lower, "onerror=")
  }

  /** The first check one entry fails, in the order the validator tests them. */
  function EntryFault(e: Entry): (r: Option<DesignError>)
    ensures r.None? <==> e.name.Some? && !IsBlank(e.name.value) && |e.name.value| <= MaxNameLength
                         && e.html.Some? && !IsBlank(e.html.value) && !Unsafe(e.html.value)
  {
    if !Prompts.Given(e.name) || IsBlank(e.name.value) then Some(EmptyName)
    else if |e.name.value| > MaxNameLength then Some(NameTooLong)
    else if !Prompts.Given(e.html) || IsBlank(e.html.value) then Some(EmptyHtml)
    else if Unsafe(e.html.value) then Some(UnsafeHtml)
    else None
  }

  /** The loop of `validateDesignInput`: the first fault of the first faulty entry. */
  function FirstFault(es: seq<Entry>): (r: Option<DesignError>)
    ensures r.None? <==> forall k :: 0 <= k < |es| ==> EntryFault(es[k]).None?
    ensures r.Some? ==> exists k :: 0 <= k < |es| && EntryFault(es[k]) == r
                                    && forall j :: 0 <= j < k ==> EntryFault(es[j]).None?
  {
    if es == [] then None
    else if EntryFault(es[0]).Some? then EntryFault(es[0])
    else
      var r := FirstFault(es[1..]);
      assert forall k :: 0 < k < |es| ==> es[1..][k - 1] == es[k];
      r
  }

  /** `validateDesignInput` (src): `None` when it does not throw. */
  function ValidateDesignInput(d: DesignInput): Option<DesignError>
  {
    FirstFault(Entries(d))
  }

  /** The three designs of an input that passed validation. */
  function Designs(d: DesignInput): (r: seq<Design>)
    requires ValidateDesignInput(d).None?
    ensures |r| == 3
  {
    var es := Entries(d);
    assert EntryFault(es[0]).None? && EntryFault(es[1]).None? && EntryFault(es[2]).None?;
    [Design(d.name1.value, d.html1.value), Design(d.name2.value, d.html2.value), Design(d.name3.value, d.html3.value)]
  }

  /** Every field of an input that passed validation is a non-empty string. */
  lemma ValidatedFieldsGiven(d: DesignInput)
    requires ValidateDesignInput(d).None?
    ensures Prompts.Given(d.name1) && Prompts.Given(d.html1) && Prompts.Given(d.name2)
            && Prompts.Given(d.html2) && Prompts.Given(d.name3) && Prompts.Given(d.html3)
  {
    var es := Entries(d);
    assert EntryFault(es[0]).None? && EntryFault(es[1]).None? && EntryFault(es[2]).None?;
  }

  /** A design the src validator accepts. */
  predicate Acceptable(d: Design)
  {
    !IsBlank(d.name) && |d.name| <= MaxNameLength && !IsBlank(d.html) && !Unsafe(d.html)
  }

  /**
   * An input passes exactly when all three designs have a non-blank name of
   * at most 100 characters and non-blank HTML free of the script markers;
   * the accepted designs are the input's fields.
   */
  lemma ValidateDesignInputAccepts(d: DesignInput)
    ensures ValidateDesignInput(d).None? <==>
              forall e :: e in Entries(d) ==> e.name.Some? && e.html.Some? && Acceptable(Design(e.name.value, e.html.value))
    ensures ValidateDesignInput(d).None? ==>
              forall k :: 0 <= k < 3 ==> Designs(d)[k] == Design(Entries(d)[k].name.value, Entries(d)[k].html.value)
  {
    var es := Entries(d);
    assert forall e :: e in es <==> e == es[0] || e == es[1] || e == es[2];
  }

  /** The dist validator: only an over-long name or a script marker is refused. */
  function DistDesignFault(d: Design): (r: Option<DesignError>)
    ensures r.None? <==> |d.name| <= MaxNameLength && !Unsafe(d.html)
  {
    if |d.name| > MaxNameLength then Some(NameTooLong)
    else if Unsafe(d.html) then Some(UnsafeHtml)
    else None
  }

  /** `validateDesignInput` of the dist build, over its three required string pairs. */
  function DistValidateDesignInput(ds: seq<Design>): (r: Option<DesignError>)
    ensures r.None? <==> forall k :: 0 <= k < |ds| ==> DistDesignFault(ds[k]).None?
    ensures r.Some? ==> exists k :: 0 <= k < |ds| && DistDesignFault(ds[k]) == r
                                    && forall j :: 0 <= j < k ==> DistDesignFault(ds[j]).None?
  {
    if ds == [] then None
    else if DistDesignFault(ds[0]).Some? then DistDesignFault(ds[0])
    else
      var r := DistValidateDesignInput(ds[1..]);
      assert forall k :: 0 < k < |ds| ==> ds[1..][k - 1] == ds[k];
      r
  }

  /** Whatever the src validator accepts, the dist validator accepts too. */
  lemma SrcValidationIsStricter(d: DesignInput)
    requires ValidateDesignInput(d).None?
    ensures DistValidateDesignInput(Designs(d)).None?
  {
    ValidateDesignInputAccepts(d);
    var es := Entries(d);
    assert es[0] in es && es[1] in es && es[2] in es;
  }

  /** The dist validator lets empty names and empty HTML through. */
  lemma DistAcceptsEmptyDesigns()
    ensures DistValidateDesignInput([Design("", ""), Design("", ""), Design("", "")]).None?
  {
    assert !Contains("", "<script") && !Contains("", "javascript:") && !Contains("", "onerror=");
  }

  // ---------------------------------------------------------------------
  // validatePromptInput
  // ---------------------------------------------------------------------

  datatype PromptError = EmptyPrompt | PromptTooLong | InvalidFramework(framework: string)

  function PromptErrorMessage(e: PromptError): string
  {
    match e
    case EmptyPrompt => "Prompt cannot be empty. Please provide a description of the UI component you want to generate."
    case PromptTooLong => "Prompt is too long (max 1000 characters). Please provide a shorter description."
    case InvalidFramework(f) =>
      "Invalid framework '" + f + "'. Valid options: tailwind, bootstrap, bulma, foundation, semantic ui, plain css, css"
  }

  const MaxPromptLength := 1000

  /** `validFrameworks`, already in lower case. */
  const ValidFrameworks: seq<string> := ["tailwind", "bootstrap", "bulma", "foundation", "semantic ui", "plain css", "css"]

  /** `validatePromptInput`; the framework is lower-cased but not trimmed. */
  function ValidatePromptInput(prompt: string, framework: Option<string>): (r: Option<PromptError>)
    ensures r.None? <==> !IsBlank(prompt) && |prompt| <= MaxPromptLength
                         && (Prompts.Given(framework) ==> ToLower(framework.value) in ValidFrameworks)
    ensures r == Some(EmptyPrompt) <==> IsBlank(prompt)
  {
    if IsBlank(prompt) then Some(EmptyPrompt)
    else if |prompt| > MaxPromptLength then Some(PromptTooLong)
    else if Prompts.Given(framework) && ToLower(framework.value) !in ValidFrameworks then Some(InvalidFramework(framework.value))
    else None
  }

  /** A string with a non-blank first and last character is its own trim. */
  lemma TrimKeeps(s: string)
    requires s != [] && !IsJsWhitespace(s[0]) && !IsJsWhitespace(s[|s| - 1])
    ensures Trim(s) == s
  {
  }

  /**
   * An accepted framework name reaches `getFrameworkGuidelines` unchanged by
   * its trim: "plain css" and "css" get the CSS passage, every other
   * accepted name its own.
   */
  lemma AcceptedFrameworkGuidelines(prompt: string, framework: string)
    requires framework != "" && ValidatePromptInput(prompt, Some(framework)).None?
    ensures Prompts.Normalize(framework) == ToLower(framework)
    ensures Prompts.FrameworkGuidelines(framework) == Prompts.CssGuide
            <==> ToLower(framework) in {"plain css", "css"}
  {
    var l := ToLower(framework);
    assert l in ValidFrameworks;
    assert l[0] != ' ' && l[|l| - 1] != ' ' by {
      assert l == "tailwind" || l == "bootstrap" || l == "bulma" || l == "foundation"
             || l == "semantic ui" || l == "plain css" || l == "css";
    }
    TrimKeeps(l);
    Prompts.FrameworkGuidelinesCases(framework);
  }

  // ---------------------------------------------------------------------
  // Generation
  // ---------------------------------------------------------------------

  /** One design as the generation client returns it (missing fields already defaulted). */
  datatype GeneratedDesign = GeneratedDesign(name: string, html: string, description: string)

  /** `DesignGenerationResult`. */
  datatype GenerationResult = GenerationResult(success: bool, designs: Option<seq<GeneratedDesign>>, error: Option<string>)

  /** What the tool sends to the model: the template's user prompt, the framework and the style. */
  datatype GenerationRequest = GenerationRequest(
    template: Prompts.Component, userPrompt: seq<Prompts.PromptPart>,
    framework: string, stylePreference: Option<string>)

  const GenerationFailedMessage := "Failed to generate designs from prompt. Please try a more specific prompt or different component type."
  const QualityMessage := "Generated designs did not meet quality standards. Please try a more specific prompt."

  /**
   * The `TypeError` of `template.buildUserPrompt(context)` when the lookup
   * returned an inherited member, which has no `buildUserPrompt`.
   */
  const TemplateCallMessage := "template.buildUserPrompt is not a function"

  /**
   * The request `generateDesignsFromPrompt` builds: defaults 'tailwind' and
   * 'button'. The template comes from the lookup as written, so a component
   * type that normalises to `constructor` or `__proto__` makes the prompt
   * call throw before anything is sent.
   */
  function GenerationRequestFor(input: CombinedInput): (r: Result<GenerationRequest, string>)
    requires IsPromptWorkflow(input)
    ensures r.Err? <==> Prompts.Normalize(Prompts.OrDefault(input.componentType, "button")) in {"constructor", "__proto__"}
    ensures r.Err? ==> r.error == TemplateCallMessage
    ensures r.Ok? ==> r.value.template == Prompts.TemplateForComponent(Prompts.OrDefault(input.componentType, "button"))
    ensures r.Ok? ==> r.value.framework == Prompts.OrDefault(input.framework, "tailwind")
  {
    var framework := Prompts.OrDefault(input.framework, "tailwind");
    var componentType := Prompts.OrDefault(input.componentType, "button");
    Prompts.TemplateForComponentAgree(componentType);
    match Prompts.TemplateForComponentAsWritten(componentType)
    case Own(template) =>
      var context := Prompts.PromptContext(input.prompt.value, framework, input.stylePreference,
                                           Some(componentType), None, None, None);
      Ok(GenerationRequest(template, Prompts.BuildUserPrompt(template, context), framework, input.stylePreference))
    case _ => Err(TemplateCallMessage)
  }

  /** The quality filter: non-blank name and description, and more than 100 characters of trimmed HTML. */
  predicate Substantial(d: GeneratedDesign)
  {
    !IsBlank(d.name) && |Trim(d.html)| > 100 && !IsBlank(d.description)
  }

  /** `designs.filter(...)`. */
  function KeepSubstantial(ds: seq<GeneratedDesign>): (r: seq<GeneratedDesign>)
    ensures |r| <= |ds|
    ensures forall d :: d in r <==> d in ds && Substantial(d)
  {
    if ds == [] then []
    else
      var rest := KeepSubstantial(ds[1..]);
      assert forall d :: d in ds <==> d == ds[0] || d in ds[1..];
      if Substantial(ds[0]) then [ds[0]] + rest else rest
  }

  /** The filter keeps the original order: filtering a concatenation filters each part. */
  lemma {:induction false} KeepSubstantialAppend(a: seq<GeneratedDesign>, b: seq<GeneratedDesign>)
    ensures KeepSubstantial(a + b) == KeepSubstantial(a) + KeepSubstantial(b)
  {
    if a != [] {
      assert (a + b)[1..] == a[1..] + b;
      KeepSubstantialAppend(a[1..], b);
    } else {
      assert a + b == b;
    }
  }

  /** The tail of `generateDesignsFromPrompt`, after the model has answered. */
  function DesignsFromGeneration(result: GenerationResult): (r: Result<DesignInput, string>)
  {
    if !result.success || result.designs.None? || |result.designs.value| < 3 then
      Err(Prompts.OrDefault(result.error, GenerationFailedMessage))
    else
      var valid := KeepSubstantial(result.designs.value);
      if |valid| < 3 then Err(QualityMessage)
      else
        Ok(DesignInput(
          Some(Prompts.OrDefault(Some(valid[0].name), "Modern Design")), Some(Prompts.OrDefault(Some(valid[0].html), "")),
          Some(Prompts.OrDefault(Some(valid[1].name), "Minimal Design")), Some(Prompts.OrDefault(Some(valid[1].html), "")),
          Some(Prompts.OrDefault(Some(valid[2].name), "Enhanced Design")), Some(Prompts.OrDefault(Some(valid[2].html), ""))))
  }

  /**
   * Generation succeeds exactly when the model reports success with at
   * least three designs of which at least three pass the quality filter;
   * the designs used are the first three that pass, and the fallback names
   * never appear.
   */
  lemma DesignsFromGenerationSpec(result: GenerationResult)
    ensures DesignsFromGeneration(result).Ok? <==>
              result.success && result.designs.Some? && |result.designs.value| >= 3
              && |KeepSubstantial(result.designs.value)| >= 3
    ensures DesignsFromGeneration(result).Ok? ==>
              var valid := KeepSubstantial(result.designs.value);
              var d := DesignsFromGeneration(result).value;
              && Entries(d) == [Entry(Some(valid[0].name), Some(valid[0].html)),
                                Entry(Some(valid[1].name), Some(valid[1].html)),
                                Entry(Some(valid[2].name), Some(valid[2].html))]
              && forall k :: 0 <= k < 3 ==> Substantial(valid[k])
  {
    if DesignsFromGeneration(result).Ok? {
      var valid := KeepSubstantial(result.designs.value);
      assert valid[0] in valid && valid[1] in valid && valid[2] in valid;
      assert forall k :: 0 <= k < 3 ==> valid[k].name != "" by {
        forall k | 0 <= k < 3 ensures valid[k].name != "" {
          assert valid[k] in valid;
        }
      }
    }
  }

  /**
   * Generated designs never fail the emptiness checks: validation can
   * refuse them only for a long name or a script marker.
   */
  lemma GeneratedDesignsAreNotEmpty(result: GenerationResult)
    requires DesignsFromGeneration(result).Ok?
    ensures var f := ValidateDesignInput(DesignsFromGeneration(result).value);
            f.Some? ==> f.value == NameTooLong || f.value == UnsafeHtml
  {
    DesignsFromGenerationSpec(result);
    var valid := KeepSubstantial(result.designs.value);
    var es := Entries(DesignsFromGeneration(result).value);
    forall k | 0 <= k < 3
      ensures EntryFault(es[k]).Some? ==> EntryFault(es[k]).value == NameTooLong || EntryFault(es[k]).value == UnsafeHtml
    {
      assert Substantial(valid[k]);
      TrimEmptyIffBlank(valid[k].html);
    }
  }

  // ---------------------------------------------------------------------
  // The selected design and the design options of the result
  // ---------------------------------------------------------------------

  /** `selectedDesign === name`: strict equality of the polled value and a name. */
  predicate IsSelected(selected: Json, d: Design)
  {
    selected == JStr(d.name)
  }

  /** The `if / else if` chain that picks the HTML of the first design whose name is the selection. */
  function SelectedHtml(ds: seq<Design>, selected: Json): (r: string)
    ensures (forall k :: 0 <= k < |ds| ==> !IsSelected(selected, ds[k])) ==> r == ""
    ensures forall k :: 0 <= k < |ds| && IsSelected(selected, ds[k]) ==>
                          (forall j :: 0 <= j < k ==> !IsSelected(selected, ds[j])) ==> r == ds[k].html
  {
    if ds == [] then ""
    else if IsSelected(selected, ds[0]) then ds[0].html
    else
      var r := SelectedHtml(ds[1..], selected);
      assert forall k :: 0 < k < |ds| ==> ds[1..][k - 1] == ds[k];
      r
  }

  predicate DistinctNames(ds: seq<Design>)
  {
    forall i, j :: 0 <= i < j < |ds| ==> ds[i].name != ds[j].name
  }

  /**
   * With distinct names at most one `selected` flag is set, and the HTML
   * returned is that of the flagged design.
   */
  lemma SelectedFlagsAgree(ds: seq<Design>, selected: Json, k: nat)
    requires DistinctNames(ds) && k < |ds| && IsSelected(selected, ds[k])
    ensures forall j :: 0 <= j < |ds| && j != k ==> !IsSelected(selected, ds[j])
    ensures SelectedHtml(ds, selected) == ds[k].html
  {
  }

  /** `html.substring(0, 100) + (html.length > 100 ? '...' : '')`. */
  function Preview(html: string): (r: string)
    ensures |html| <= 100 ==> r == html
    ensures |html| > 100 ==> |r| == 103 && r[..100] == html[..100] && r[100..] == "..."
  {
    if |html| > 100 then html[..100] + "..." else html
  }

  /** A preview is never longer than 103 characters and always starts like the HTML. */
  lemma PreviewBounds(html: string)
    ensures |Preview(html)| <= 103
    ensures var n := if |html| < 100 then |html| else 100; Preview(html)[..n] == html[..n]
  {
  }

  /** One entry of `design_options`. */
  datatype DesignOption = DesignOption(name: Option<string>, description: string, selected: Option<bool>, preview: Option<string>)

  /** "Option 1", "Option 2", "Option 3". */
  function OptionLabel(k: nat): string
  {
    "Option " + NatToString(k + 1)
  }

  // ---------------------------------------------------------------------
  // Results of `execute`
  // ---------------------------------------------------------------------

  /** `generationMetadata`; `style_preference || null` and `component_type || null` are `None` for null. */
  datatype Metadata = Metadata(prompt: string, framework: string, stylePreference: Option<string>, componentType: Option<string>)

  function MetadataFor(input: CombinedInput): Metadata
    requires IsPromptWorkflow(input)
  {
    Metadata(input.prompt.value, Prompts.OrDefault(input.framework, "tailwind"),
             if Prompts.Given(input.stylePreference) then input.stylePreference else None,
             if Prompts.Given(input.componentType) then input.componentType else None)
  }

  /**
   * The object `execute` returns, without its fixed texts, tips and
   * timestamps. `message` is the text of the error that was caught.
   */
  datatype ToolResult = ToolResult(
    success: bool,
    error: bool,
    message: Option<string>,
    url: Option<string>,
    options: seq<DesignOption>,
    selectedDesign: Json,
    selectedDesignHtml: Option<string>,
    generation: Option<Metadata>,
    apiHelp: bool)

  /** The preview of an optional HTML field: 'No HTML provided' when it is falsy. */
  function HtmlPreview(html: Option<string>): string
  {
    if Prompts.Given(html) then Preview(html.value) else "No HTML provided"
  }

  /** The options of the timeout result: names, labels and previews. */
  function TimeoutOptions(d: DesignInput): seq<DesignOption>
  {
    var es := Entries(d);
    [DesignOption(es[0].name, OptionLabel(0), None, Some(HtmlPreview(es[0].html))),
     DesignOption(es[1].name, OptionLabel(1), None, Some(HtmlPreview(es[1].html))),
     DesignOption(es[2].name, OptionLabel(2), None, Some(HtmlPreview(es[2].html)))]
  }

  /** The options of the success result, each flagged with whether it is the selection. */
  function SuccessOptions(ds: seq<Design>, selected: Json): seq<DesignOption>
  {
    seq(|ds|, k requires 0 <= k < |ds| =>
      DesignOption(Some(ds[k].name), OptionLabel(k), Some(IsSelected(selected, ds[k])), Some(Preview(ds[k].html))))
  }

  /** One option of the error result: placeholders while the input is still a prompt. */
  function ErrorOption(current: CombinedInput, k: nat, e: Entry): DesignOption
  {
    if IsPromptWorkflow(current) then
      DesignOption(Some("Generated Design " + NatToString(k + 1)), OptionLabel(k), None, Some("N/A - generation failed"))
    else
      DesignOption(e.name, OptionLabel(k), None, Some(HtmlPreview(e.html)))
  }

  /** The catch block of `execute`, for the input as it stood when `message` was thrown. */
  function ErrorResult(current: CombinedInput, message: string): ToolResult
  {
    var es := Entries(current.design);
    ToolResult(false, true, Some(message), None,
               [ErrorOption(current, 0, es[0]), ErrorOption(current, 1, es[1]), ErrorOption(current, 2, es[2])],
               JNull, None, None, IsPromptWorkflow(current) || Contains(message, "MiniMax"))
  }

  /** The result when no selection arrived in time. */
  function TimeoutResult(url: string, d: DesignInput, generation: Option<Metadata>): ToolResult
  {
    ToolResult(false, false, None, Some(url), TimeoutOptions(d), JNull, None, generation, false)
  }

  /** The result for a selection, given designs that passed validation. */
  function SuccessResult(url: string, d: DesignInput, selected: Json, generation: Option<Metadata>): ToolResult
    requires ValidateDesignInput(d).None?
  {
    var ds := Designs(d);
    ToolResult(true, false, None, Some(url), SuccessOptions(ds, selected), selected,
               Some(SelectedHtml(ds, selected)), generation, false)
  }

  /**
   * In the success result each option is flagged exactly when its name is
   * the selection; with distinct names the returned HTML is that of the
   * flagged option, and with no flag it is ''.
   */
  lemma SuccessResultAgrees(url: string, d: DesignInput, selected: Json, generation: Option<Metadata>)
    requires ValidateDesignInput(d).None?
    ensures var r := SuccessResult(url, d, selected, generation); var ds := Designs(d);
            && r.success && !r.error && r.selectedDesign == selected && |r.options| == 3
            && (forall k :: 0 <= k < 3 ==> (r.options[k].selected == Some(true) <==> selected == JStr(ds[k].name)))
            && (DistinctNames(ds) ==> forall k :: 0 <= k < 3 && r.options[k].selected == Some(true) ==>
                                                 r.selectedDesignHtml == Some(ds[k].html))
            && ((forall k :: 0 <= k < 3 ==> r.options[k].selected == Some(false)) ==> r.selectedDesignHtml == Some(""))
  {
    var ds := Designs(d);
    forall k | 0 <= k < 3 && DistinctNames(ds) && IsSelected(selected, ds[k])
      ensures SelectedHtml(ds, selected) == ds[k].html
    {
      SelectedFlagsAgree(ds, selected, k);
    }
  }

  /**
   * The error result shows placeholders exactly while the input is still a
   * prompt request, and otherwise the names and previews of the designs
   * that were being checked; the API help is attached for a prompt request
   * or a message that mentions MiniMax.
   */
  lemma ErrorResultOptions(current: CombinedInput, message: string)
    ensures var r := ErrorResult(current, message); var es := Entries(current.design);
            && !r.success && r.error && r.url.None? && r.selectedDesign == JNull && |r.options| == 3
            && (IsPromptWorkflow(current) ==>
                  forall k :: 0 <= k < 3 ==> r.options[k].preview == Some("N/A - generation failed")
                                             && r.options[k].name == Some("Generated Design " + NatToString(k + 1)))
            && (!IsPromptWorkflow(current) ==>
                  forall k :: 0 <= k < 3 ==> r.options[k].name == es[k].name
                                             && r.options[k].preview == Some(HtmlPreview(es[k].html)))
            && (r.apiHelp <==> IsPromptWorkflow(current) || Contains(message, "MiniMax"))
  {
  }
}
