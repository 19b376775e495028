/**
 * `execute` of `src/tools/DesignselectionTool.ts`: choose the workflow,
 * validate (and, for a prompt, generate) the three designs, serve the
 * selection page through the session of src/lib/utils/serverUtils.ts, poll
 * that session every half second until a selection arrives or fifteen
 * minutes have passed since the call started, and assemble the result.
 *
 * What happens in the browser reaches the session as events: HTTP requests
 * and WebSocket connections, messages and closes. `events(k)` is what
 * arrives during the pause before check `k`; the model of the generation
 * service is the parameter `generate`, and the page text is the parameter
 * `render`.
 */
module SelectionTool {
  import opened Wrappers
  import opened Text
  import opened JsValues
  import opened Http
  import opened Polling
  import opened ToolValidation
  import LibSession
  import PageAssembly

  // ---------------------------------------------------------------------
  // What the session sees between two checks
  // ---------------------------------------------------------------------

  datatype Event =
    | Incoming(req: Request)
    | SocketOpened(ws: LibSession.SocketId)
    | SocketMessage(ws: LibSession.SocketId, message: Option<Json>)
    | SocketClosed(ws: LibSession.SocketId)

  /** The effect of one event on the session fields; only finalization raises `selectionComplete`. */
  function Step(st: LibSession.SessionState, html: string, ev: Event): (r: LibSession.SessionState)
    ensures r.selectionComplete == st.selectionComplete
  {
    match ev
    case Incoming(req) => LibSession.Route(req, html, st).1
    case SocketMessage(_, message) =>
      (match LibSession.SelectionIn(message)
       case Some(v) => st.(selectedDesign := v)
       case None => st)
    case _ => st
  }

  /** The session fields after a run of events. */
  function Apply(st: LibSession.SessionState, html: string, evs: seq<Event>): (r: LibSession.SessionState)
    ensures r.selectionComplete == st.selectionComplete
    decreases |evs|
  {
    if evs == [] then st else Step(Apply(st, html, evs[..|evs| - 1]), html, evs[|evs| - 1])
  }

  /** The selection an event carries: a parsable result POST or a "selection" message. */
  function Recorded(ev: Event): Option<Json>
  {
    match ev
    case Incoming(req) =>
      if req.verb == "POST" && req.url == ResultPath then LoggedSelectionOf(req.body) else None
    case SocketMessage(_, message) => LibSession.SelectionIn(message)
    case _ => None
  }

  /** The selection of the last event that carries one, or `init`. */
  function LastRecorded(evs: seq<Event>, init: Json): Json
    decreases |evs|
  {
    if evs == [] then init
    else match Recorded(evs[|evs| - 1])
      case Some(v) => v
      case None => LastRecorded(evs[..|evs| - 1], init)
  }

  /** Last write wins: whichever channel carried it, the latest selection is the one held. */
  lemma {:induction false} ApplyHoldsLastSelection(st: LibSession.SessionState, html: string, evs: seq<Event>)
    ensures Apply(st, html, evs).selectedDesign == LastRecorded(evs, st.selectedDesign)
    decreases |evs|
  {
    if evs != [] {
      ApplyHoldsLastSelection(st, html, evs[..|evs| - 1]);
    }
  }

  /** The session fields when check `k` begins, before that check's events arrive. */
  function StateAt(st0: LibSession.SessionState, html: string, events: nat -> seq<Event>, k: nat): (r: LibSession.SessionState)
    ensures r.selectionComplete == st0.selectionComplete
    decreases k
  {
    if k == 0 then st0 else Apply(StateAt(st0, html, events, k - 1), html, events(k - 1))
  }

  /** What `getSelectedDesign()` returns at check `k`. */
  function Observed(st0: LibSession.SessionState, html: string, events: nat -> seq<Event>, k: nat): Json
  {
    StateAt(st0, html, events, k + 1).selectedDesign
  }

  /** Check `k` happens before the deadline and is the first to see a truthy selection. */
  ghost predicate FirstSelectionAt(st0: LibSession.SessionState, html: string, start: int, now: nat -> int,
                                   events: nat -> seq<Event>, k: nat)
  {
    && now(k) - start < Timeout
    && Truthy(Observed(st0, html, events, k))
    && forall j :: 0 <= j < k ==> !Truthy(Observed(st0, html, events, j))
  }

  /** Checks 0 to n - 1 all happen and see nothing, and check n would fall after the deadline. */
  ghost predicate NoSelectionBy(st0: LibSession.SessionState, html: string, start: int, now: nat -> int,
                                events: nat -> seq<Event>, n: nat)
  {
    && now(n) - start >= Timeout
    && forall j :: 0 <= j < n ==> now(j) - start < Timeout && !Truthy(Observed(st0, html, events, j))
  }

  // ---------------------------------------------------------------------
  // The polling loop
  // ---------------------------------------------------------------------

  /** Hand a run of events to the session's handlers, in order. */
  method Deliver(s: LibSession.Session, evs: seq<Event>)
    requires s.Valid() && s.server.Some?
    modifies s
    ensures s.Valid() && s.server == old(s.server)
    ensures s.State() == Apply(old(s.State()), old(s.server).value.html, evs)
  {
    for i := 0 to |evs|
      invariant s.Valid() && s.server == old(s.server)
      invariant s.State() == Apply(old(s.State()), old(s.server).value.html, evs[..i])
    {
      assert evs[..i + 1][..i] == evs[..i];
      match evs[i]
      case Incoming(req) =>
        var reply := s.HandleRequest(req);
      case SocketOpened(ws) =>
        s.Connect(ws);
      case SocketMessage(ws, message) =>
        s.Receive(ws, message);
      case SocketClosed(ws) =>
        s.Disconnect(ws);
    }
    assert evs[..|evs|] == evs;
  }

  /**
   * The `while` loop of `execute`: the first truthy selection seen before
   * the deadline is returned after one call of `notifySelectionFinalized`;
   * otherwise every check saw a falsy value and the deadline has passed.
   * When the value at that first check cannot be formatted, the getter
   * throws instead, before anything is notified.
   */
  method PollForSelection(s: LibSession.Session, start: int, now: nat -> int, events: nat -> seq<Event>)
    returns (selected: Result<Json, string>, checks: nat, ghost notifications: nat)
    requires s.Valid() && s.server.Some? && Paced(now)
    modifies s
    ensures s.Valid() && s.server == old(s.server)
    ensures selected.Err? ==>
              && checks > 0 && selected.error == ToStringFailure
              && FirstSelectionAt(old(s.State()), old(s.server).value.html, start, now, events, checks - 1)
              && ToStringThrows(Observed(old(s.State()), old(s.server).value.html, events, checks - 1))
    ensures selected.Ok? && Truthy(selected.value) ==>
              && checks > 0 && !ToStringThrows(selected.value)
              && FirstSelectionAt(old(s.State()), old(s.server).value.html, start, now, events, checks - 1)
              && selected.value == Observed(old(s.State()), old(s.server).value.html, events, checks - 1)
    ensures selected.Ok? && !Truthy(selected.value) ==>
              NoSelectionBy(old(s.State()), old(s.server).value.html, start, now, events, checks)
    ensures s.State() == StateAt(old(s.State()), old(s.server).value.html, events, checks)
                           .(selectionComplete := old(s.State()).selectionComplete || (selected.Ok? && Truthy(selected.value)))
    ensures notifications == if selected.Ok? && Truthy(selected.value) then 1 else 0
  {
    ghost var html := s.server.value.html;
    ghost var st0 := s.State();
    selected := Ok(JNull);
    checks := 0;
    notifications := 0;
    while now(checks) - start < Timeout
      invariant s.Valid() && s.server == old(s.server)
      invariant forall j :: 0 <= j < checks ==> now(j) - start < Timeout && !Truthy(Observed(st0, html, events, j))
      invariant s.State() == StateAt(st0, html, events, checks)
      invariant selected.Ok? && !Truthy(selected.value) && notifications == 0
      decreases Timeout - (now(checks) - start)
    {
      Deliver(s, events(checks));
      selected := s.GetSelectedDesign();
      if selected.Err? {
        ToStringThrowsIsTruthy(s.selectedDesign);
        checks := checks + 1;
        return;
      }
      if Truthy(selected.value) {
        s.NotifySelectionFinalized();
        notifications := 1;
        checks := checks + 1;
        return;
      }
      checks := checks + 1;
    }
  }

  // ---------------------------------------------------------------------
  // From the input to the designs shown
  // ---------------------------------------------------------------------

  const GateMessage :=
    "Either provide a \"prompt\" for AI generation, or provide \"design_name_1\" and \"design_html_1\" for manual input."

  /** How far `execute` got before serving: the input as it then stands and the designs or the error. */
  datatype Prepared = Prepared(current: CombinedInput, designs: Result<DesignInput, string>, generation: Option<Metadata>)

  function FieldValue(o: Option<string>): Json
  {
    if o.Some? then JStr(o.value) else JUndefined
  }

  /** The object `generateDesignSelectionHTML` receives. */
  function DesignJson(d: DesignInput): Json
  {
    JObj(map["design_name_1" := FieldValue(d.name1), "design_html_1" := FieldValue(d.html1),
             "design_name_2" := FieldValue(d.name2), "design_html_2" := FieldValue(d.html2),
             "design_name_3" := FieldValue(d.name3), "design_html_3" := FieldValue(d.html3)])
  }

  /** `validateDesignInput`, then the checks of `generateDesignSelectionHTML`. */
  function Checked(current: CombinedInput, generation: Option<Metadata>): (p: Prepared)
    ensures p.current == current && p.generation == generation
    ensures p.designs.Ok? ==> ValidateDesignInput(current.design).None? && p.designs.value == current.design
  {
    match ValidateDesignInput(current.design)
    case Some(e) => Prepared(current, Err(DesignErrorMessage(e)), generation)
    case None =>
      match PageAssembly.ValidateInput(DesignJson(current.design))
      case Some(e) => Prepared(current, Err(PageAssembly.Message(e)), generation)
      case None => Prepared(current, Ok(current.design), generation)
  }

  /**
   * Everything `execute` does before serving the page. A prompt request is
   * validated and sent to the generation service; its designs then replace
   * the input, which is then no longer a prompt request.
   */
  function Prepare(input: CombinedInput, generate: GenerationRequest -> GenerationResult): (p: Prepared)
    ensures p.designs.Ok? ==> PassesGate(input) && ValidateDesignInput(p.designs.value).None?
    ensures !IsPromptWorkflow(input) ==> p.current == input && p.generation.None?
    ensures IsPromptWorkflow(input) && p.designs.Ok? ==>
              !IsPromptWorkflow(p.current) && p.generation == Some(MetadataFor(input))
    ensures p.designs.Ok? ==> p.designs.value == p.current.design
  {
    if !PassesGate(input) then Prepared(input, Err(GateMessage), None)
    else if IsPromptWorkflow(input) then
      match ValidatePromptInput(input.prompt.value, input.framework)
      case Some(e) => Prepared(input, Err(PromptErrorMessage(e)), None)
      case None =>
        match GenerationRequestFor(input)
        case Err(m) => Prepared(input, Err(m), None)
        case Ok(request) =>
          match DesignsFromGeneration(generate(request))
          case Err(m) => Prepared(input, Err(m), None)
          case Ok(d) => Checked(CombinedInput(None, None, None, None, d), Some(MetadataFor(input)))
    else Checked(input, None)
  }

  /** Designs that passed `validateDesignInput` always pass the page's own checks. */
  lemma PageChecksFollow(d: DesignInput)
    requires ValidateDesignInput(d).None?
    ensures PageAssembly.ValidateInput(DesignJson(d)).None?
  {
    ValidatedFieldsGiven(d);
    var j := DesignJson(d);
    assert forall f :: f in PageAssembly.RequiredFields ==> Truthy(Get(j, f));
    PageAssembly.ValidateInputAccepts(j);
  }

  /**
   * The designs reach the page exactly when the gate passes and, for a
   * prompt request, the prompt is valid, generation succeeds and the
   * generated designs pass validation; for a design request, when the
   * given designs pass validation.
   */
  lemma PrepareAccepts(input: CombinedInput, generate: GenerationRequest -> GenerationResult)
    ensures var p := Prepare(input, generate);
            p.designs.Ok? <==>
              && PassesGate(input)
              && (IsPromptWorkflow(input) ==>
                    && ValidatePromptInput(input.prompt.value, input.framework).None?
                    && GenerationRequestFor(input).Ok?
                    && var g := DesignsFromGeneration(generate(GenerationRequestFor(input).value));
                       g.Ok? && ValidateDesignInput(g.value).None?)
              && (!IsPromptWorkflow(input) ==> ValidateDesignInput(input.design).None?)
  {
    if PassesGate(input) {
      if IsPromptWorkflow(input) {
        var q := GenerationRequestFor(input);
        if ValidatePromptInput(input.prompt.value, input.framework).None? && q.Ok? {
          var g := DesignsFromGeneration(generate(q.value));
          if g.Ok? && ValidateDesignInput(g.value).None? {
            PageChecksFollow(g.value);
          }
        }
      } else if ValidateDesignInput(input.design).None? {
        PageChecksFollow(input.design);
      }
    }
  }

  /**
   * A valid prompt request whose component type normalises to `constructor`
   * or `__proto__` is refused with the `TypeError` of the template call, and
   * the generation service is never asked.
   */
  lemma InheritedTemplateRefused(input: CombinedInput, generate: GenerationRequest -> GenerationResult)
    requires PassesGate(input) && IsPromptWorkflow(input)
    requires ValidatePromptInput(input.prompt.value, input.framework).None?
    requires Prompts.Normalize(Prompts.OrDefault(input.componentType, "button")) in {"constructor", "__proto__"}
    ensures Prepare(input, generate) == Prepared(input, Err(TemplateCallMessage), None)
  {
  }

  /**
   * A prompt that is present but blank still passes the gate when the
   * first design is given, and is then refused as an empty prompt: the
   * given designs are never looked at.
   */
  lemma BlankPromptHidesDesigns(d: DesignInput, generate: GenerationRequest -> GenerationResult)
    requires Prompts.Given(d.name1) && Prompts.Given(d.html1)
    ensures var p := Prepare(CombinedInput(Some(" "), None, None, None, d), generate);
            p.designs == Err(PromptErrorMessage(EmptyPrompt)) && IsPromptWorkflow(p.current)
  {
    assert IsBlank(" ");
  }

  // ---------------------------------------------------------------------
  // execute
  // ---------------------------------------------------------------------

  /**
   * `execute(input)`. `available` and `browserOpens` stand for the port
   * probes and the browser launch, `start` is `startTime`, `now(k)` the
   * clock at check `k`. The server is left running after a selection (its
   * delayed stop is a timer) and is stopped on every other path.
   */
  method Execute(s: LibSession.Session, input: CombinedInput,
                 generate: GenerationRequest -> GenerationResult, render: DesignInput -> string,
                 available: int -> bool, browserOpens: bool,
                 start: int, now: nat -> int, events: nat -> seq<Event>)
    returns (r: ToolResult)
    requires s.Valid() && Paced(now)
    modifies s
    ensures s.Valid()
    ensures var p := Prepare(input, generate);
            p.designs.Err? ==> r == ErrorResult(p.current, p.designs.error)
    ensures var p := Prepare(input, generate);
            p.designs.Ok? && r.error ==>
              || r == ErrorResult(p.current, LibSession.NoPortMessage)
              || r == ErrorResult(p.current, LibSession.BrowserFailedMessage)
              || (&& r == ErrorResult(p.current, ToStringFailure)
                  && exists k :: FirstSelectionAt(LibSession.SessionState(JNull, false), render(p.designs.value),
                                                  start, now, events, k)
                                 && ToStringThrows(Observed(LibSession.SessionState(JNull, false),
                                                            render(p.designs.value), events, k)))
    ensures var p := Prepare(input, generate);
            r.success ==>
              && p.designs.Ok? && r.url.Some?
              && r == SuccessResult(r.url.value, p.designs.value, r.selectedDesign, p.generation)
              && !ToStringThrows(r.selectedDesign)
              && s.IsSelectionComplete() && s.server.Some?
              && exists k :: FirstSelectionAt(LibSession.SessionState(JNull, false), render(p.designs.value),
                                              start, now, events, k)
                             && r.selectedDesign == Observed(LibSession.SessionState(JNull, false),
                                                             render(p.designs.value), events, k)
    ensures var p := Prepare(input, generate);
            !r.success && !r.error ==>
              && p.designs.Ok? && r.url.Some?
              && r == TimeoutResult(r.url.value, p.designs.value, p.generation)
              && exists n :: NoSelectionBy(LibSession.SessionState(JNull, false), render(p.designs.value),
                                           start, now, events, n)
    ensures !r.success ==> s.server.None?
  {
    var p := Prepare(input, generate);
    if p.designs.Err? {
      s.Stop();
      return ErrorResult(p.current, p.designs.error);
    }
    var d := p.designs.value;
    var url := s.Serve(render(d), available, browserOpens);
    if url.Err? {
      s.Stop();
      return ErrorResult(p.current, url.error);
    }
    var selected, checks, notifications := PollForSelection(s, start, now, events);
    if selected.Err? {
      s.Stop();
      return ErrorResult(p.current, selected.error);
    }
    if !Truthy(selected.value) {
      s.Stop();
      return TimeoutResult(url.value, d, p.generation);
    }
    r := SuccessResult(url.value, d, selected.value, p.generation);
  }
}
