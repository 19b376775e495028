/**
 * `execute` of the built `dist/tools/DesignselectionTool.js`: the earlier
 * design-only tool. It checks only name lengths and script markers, builds
 * the page (whose own checks then refuse empty fields), serves it through
 * the session of src/tools/utils/serverUtils.ts, polls that session every
 * half second for at most fifteen minutes and assembles a result without
 * previews.
 *
 * The schema makes all six fields required strings, so the input is three
 * designs. `arrivals(k)` are the HTTP requests that reach the server during
 * the pause before check `k`, each with the id its handler records.
 */
module DistSelectionTool {
  import opened Wrappers
  import opened Text
  import opened JsValues
  import opened Http
  import opened Polling
  import opened ToolValidation
  import ToolsSession
  import PageAssembly

  /** The path the tool serves its page under. */
  const PagePath := "design-selection"

  // ---------------------------------------------------------------------
  // What the session sees between two checks
  // ---------------------------------------------------------------------

  datatype Arrival = Arrival(id: nat, req: Request)

  /** The session fields after a run of requests; none of them raises the finalized flag. */
  function Apply(st: ToolsSession.SessionState, cleanPath: string, html: string, rs: seq<Arrival>): (r: ToolsSession.SessionState)
    ensures r.selectionFinalized == st.selectionFinalized
    decreases |rs|
  {
    if rs == [] then st
    else ToolsSession.Route(rs[|rs| - 1].req, cleanPath, html, Apply(st, cleanPath, html, rs[..|rs| - 1])).1
  }

  /** A request that the handler accepts as a selection. */
  predicate Accepted(cleanPath: string, a: Arrival)
  {
    a.req.verb == "POST" && a.req.url == ResultPath && a.req.url != cleanPath && SelectedDesignOf(a.req.body).Some?
  }

  /**
   * In this session an accepted POST also completes the selection: the
   * flag is up after a run of requests exactly when it was up before or
   * one of them was accepted.
   */
  lemma {:induction false} ApplyCompletes(st: ToolsSession.SessionState, cleanPath: string, html: string, rs: seq<Arrival>)
    ensures Apply(st, cleanPath, html, rs).selectionComplete <==>
              st.selectionComplete || exists i :: 0 <= i < |rs| && Accepted(cleanPath, rs[i])
    decreases |rs|
  {
    if rs != [] {
      var init := rs[..|rs| - 1];
      ApplyCompletes(st, cleanPath, html, init);
      assert forall i :: 0 <= i < |init| ==> init[i] == rs[i];
      if exists i :: 0 <= i < |init| && Accepted(cleanPath, init[i]) {
        var i :| 0 <= i < |init| && Accepted(cleanPath, init[i]);
        assert Accepted(cleanPath, rs[i]);
      }
      if exists i :: 0 <= i < |rs| && Accepted(cleanPath, rs[i]) {
        var i :| 0 <= i < |rs| && Accepted(cleanPath, rs[i]);
        if i < |init| {
          assert Accepted(cleanPath, init[i]);
        }
      }
    }
  }

  /** The session fields when check `k` begins. */
  function StateAt(st0: ToolsSession.SessionState, cleanPath: string, html: string,
                   arrivals: nat -> seq<Arrival>, k: nat): (r: ToolsSession.SessionState)
    ensures r.selectionFinalized == st0.selectionFinalized
    decreases k
  {
    if k == 0 then st0 else Apply(StateAt(st0, cleanPath, html, arrivals, k - 1), cleanPath, html, arrivals(k - 1))
  }

  /** What `getSelectedDesign()` returns at check `k`. */
  function Observed(st0: ToolsSession.SessionState, cleanPath: string, html: string,
                    arrivals: nat -> seq<Arrival>, k: nat): Json
  {
    StateAt(st0, cleanPath, html, arrivals, k + 1).selectedDesign
  }

  ghost predicate FirstSelectionAt(st0: ToolsSession.SessionState, cleanPath: string, html: string, start: int,
                                   now: nat -> int, arrivals: nat -> seq<Arrival>, k: nat)
  {
    && now(k) - start < Timeout
    && Truthy(Observed(st0, cleanPath, html, arrivals, k))
    && forall j :: 0 <= j < k ==> !Truthy(Observed(st0, cleanPath, html, arrivals, j))
  }

  ghost predicate NoSelectionBy(st0: ToolsSession.SessionState, cleanPath: string, html: string, start: int,
                                now: nat -> int, arrivals: nat -> seq<Arrival>, n: nat)
  {
    && now(n) - start >= Timeout
    && forall j :: 0 <= j < n ==> now(j) - start < Timeout && !Truthy(Observed(st0, cleanPath, html, arrivals, j))
  }

  // ---------------------------------------------------------------------
  // The polling loop
  // ---------------------------------------------------------------------

  /** Hand a run of requests to the live server's handler, in order. */
  method Deliver(s: ToolsSession.Session, rs: seq<Arrival>)
    requires s.server.Some?
    modifies s
    ensures s.server == old(s.server)
    ensures s.State() == Apply(old(s.State()), old(s.server).value.cleanPath, old(s.server).value.html, rs)
  {
    for i := 0 to |rs|
      invariant s.server == old(s.server)
      invariant s.State() == Apply(old(s.State()), old(s.server).value.cleanPath, old(s.server).value.html, rs[..i])
    {
      assert rs[..i + 1][..i] == rs[..i];
      var reply := s.Handle(rs[i].id, rs[i].req);
    }
    assert rs[..|rs|] == rs;
  }

  /**
   * The `while` loop of `execute`: the first truthy selection seen before
   * the deadline is returned after one call of `notifySelectionFinalized`,
   * which also stops the server; otherwise every check saw a falsy value,
   * the deadline has passed and the server still runs. A selection that
   * cannot be formatted makes the debug line before the notification throw,
   * so it is returned with the server still running.
   */
  method PollForSelection(s: ToolsSession.Session, start: int, now: nat -> int, arrivals: nat -> seq<Arrival>)
    returns (selected: Json, checks: nat, ghost notifications: nat)
    requires s.server.Some? && Paced(now)
    modifies s
    ensures var srv := old(s.server).value;
            Truthy(selected) ==>
              && checks > 0
              && (s.server.None? <==> !ToStringThrows(selected))
              && FirstSelectionAt(old(s.State()), srv.cleanPath, srv.html, start, now, arrivals, checks - 1)
              && selected == Observed(old(s.State()), srv.cleanPath, srv.html, arrivals, checks - 1)
    ensures var srv := old(s.server).value;
            !Truthy(selected) ==>
              s.server == old(s.server) && NoSelectionBy(old(s.State()), srv.cleanPath, srv.html, start, now, arrivals, checks)
    ensures var srv := old(s.server).value;
            s.State() == StateAt(old(s.State()), srv.cleanPath, srv.html, arrivals, checks)
                           .(selectionFinalized := old(s.State()).selectionFinalized
                                                   || (Truthy(selected) && !ToStringThrows(selected)))
    ensures notifications == if Truthy(selected) && !ToStringThrows(selected) then 1 else 0
  {
    ghost var srv := s.server.value;
    ghost var st0 := s.State();
    selected := JNull;
    checks := 0;
    notifications := 0;
    while now(checks) - start < Timeout
      invariant s.server == old(s.server)
      invariant forall j :: 0 <= j < checks ==>
                  now(j) - start < Timeout && !Truthy(Observed(st0, srv.cleanPath, srv.html, arrivals, j))
      invariant s.State() == StateAt(st0, srv.cleanPath, srv.html, arrivals, checks)
      invariant !Truthy(selected) && notifications == 0
      decreases Timeout - (now(checks) - start)
    {
      Deliver(s, arrivals(checks));
      selected := s.GetSelectedDesign();
      if Truthy(selected) {
        if !ToStringThrows(selected) {
          s.NotifySelectionFinalized();
          notifications := 1;
        }
        checks := checks + 1;
        return;
      }
      checks := checks + 1;
    }
  }

  // ---------------------------------------------------------------------
  // Checks before serving
  // ---------------------------------------------------------------------

  /** The texts this build throws; its unsafe-content message is shorter than the src one. */
  function DistMessage(e: DesignError): string
  {
    match e
    case UnsafeHtml => "Design HTML contains potentially unsafe content"
    case _ => DesignErrorMessage(e)
  }

  /** The object the page builder receives: six strings. */
  function DesignJson(ds: seq<Design>): Json
    requires |ds| == 3
  {
    JObj(map["design_name_1" := JStr(ds[0].name), "design_html_1" := JStr(ds[0].html),
             "design_name_2" := JStr(ds[1].name), "design_html_2" := JStr(ds[1].html),
             "design_name_3" := JStr(ds[2].name), "design_html_3" := JStr(ds[2].html)])
  }

  /** `validateDesignInput`, then the checks of `generateDesignSelectionHTML`: the message thrown, if any. */
  function Check(ds: seq<Design>): Option<string>
    requires |ds| == 3
  {
    match DistValidateDesignInput(ds)
    case Some(e) => Some(DistMessage(e))
    case None =>
      match PageAssembly.ValidateInput(DesignJson(ds))
      case Some(e) => Some(PageAssembly.Message(e))
      case None => None
  }

  /** Each field the page builder reads holds the corresponding string. */
  lemma DesignJsonReads(ds: seq<Design>)
    requires |ds| == 3
    ensures var j := DesignJson(ds);
            && Get(j, "design_name_1") == JStr(ds[0].name) && Get(j, "design_html_1") == JStr(ds[0].html)
            && Get(j, "design_name_2") == JStr(ds[1].name) && Get(j, "design_html_2") == JStr(ds[1].html)
            && Get(j, "design_name_3") == JStr(ds[2].name) && Get(j, "design_html_3") == JStr(ds[2].html)
  {
  }

  /** The page builder accepts the six strings exactly when none of them is empty. */
  lemma PageAccepts(ds: seq<Design>)
    requires |ds| == 3
    ensures PageAssembly.ValidateInput(DesignJson(ds)).None? <==>
              forall k :: 0 <= k < 3 ==> ds[k].name != "" && ds[k].html != ""
  {
    PageAssembly.ValidateInputAccepts(DesignJson(ds));
    DesignJsonReads(ds);
  }

  /**
   * Together the two checks accept exactly the designs with a non-empty
   * name of at most 100 characters and non-empty HTML free of the script
   * markers; unlike the src tool, a name or HTML of spaces passes.
   */
  lemma CheckAccepts(ds: seq<Design>)
    requires |ds| == 3
    ensures Check(ds).None? <==>
              forall k :: 0 <= k < 3 ==> ds[k].name != "" && |ds[k].name| <= MaxNameLength
                                         && ds[k].html != "" && !Unsafe(ds[k].html)
  {
    PageAccepts(ds);
  }

  /** An empty first name passes this build's validator and is refused by the page builder instead. */
  lemma EmptyNameFailsAtPage(html: string, rest: seq<Design>)
    requires |rest| == 2 && DistValidateDesignInput(rest).None? && !Unsafe(html)
    ensures DistValidateDesignInput([Design("", html)] + rest).None?
    ensures Check([Design("", html)] + rest) == Some(PageAssembly.Message(PageAssembly.MissingField("design_name_1")))
  {
    var ds := [Design("", html)] + rest;
    assert ds[1..] == rest;
    DesignJsonReads(ds);
    assert PageAssembly.FirstFalsy(DesignJson(ds), PageAssembly.RequiredFields) == Some("design_name_1");
  }

  // ---------------------------------------------------------------------
  // Results
  // ---------------------------------------------------------------------

  /** The options of every result of this build: names and labels only. */
  function Options(ds: seq<Design>): seq<DesignOption>
  {
    seq(|ds|, k requires 0 <= k < |ds| => DesignOption(Some(ds[k].name), OptionLabel(k), None, None))
  }

  function ErrorResult(ds: seq<Design>, message: string): ToolResult
  {
    ToolResult(false, true, Some(message), None, Options(ds), JNull, None, None, false)
  }

  function TimeoutResult(url: string, ds: seq<Design>): ToolResult
  {
    ToolResult(false, false, None, Some(url), Options(ds), JNull, None, None, false)
  }

  function SuccessResult(url: string, ds: seq<Design>, selected: Json): ToolResult
  {
    ToolResult(true, false, None, Some(url), Options(ds), selected, Some(SelectedHtml(ds, selected)), None, false)
  }

  // ---------------------------------------------------------------------
  // execute
  // ---------------------------------------------------------------------

  /**
   * `execute(input)`. `available` stands for the port probes, `start` is
   * `startTime`, `now(k)` the clock at check `k`. Every path ends with the
   * server stopped: after a selection, finalization has already stopped it.
   */
  method Execute(s: ToolsSession.Session, ds: seq<Design>, render: seq<Design> -> string,
                 available: int -> bool, start: int, now: nat -> int, arrivals: nat -> seq<Arrival>)
    returns (r: ToolResult)
    requires |ds| == 3 && Paced(now)
    modifies s
    ensures s.server.None?
    ensures Check(ds).Some? ==> r == ErrorResult(ds, Check(ds).value)
    ensures var st0 := ToolsSession.SessionState(JNull, false, false);
            var cleanPath := ToolsSession.CleanPath(PagePath);
            Check(ds).None? && r.error ==>
              || r == ErrorResult(ds, ToolsSession.NoPortsMessage)
              || (&& r == ErrorResult(ds, ToStringFailure)
                  && exists k :: FirstSelectionAt(st0, cleanPath, render(ds), start, now, arrivals, k)
                                 && ToStringThrows(Observed(st0, cleanPath, render(ds), arrivals, k)))
    ensures var st0 := ToolsSession.SessionState(JNull, false, false);
            var cleanPath := ToolsSession.CleanPath(PagePath);
            r.success ==>
              && Check(ds).None? && r.url.Some?
              && r == SuccessResult(r.url.value, ds, r.selectedDesign)
              && !ToStringThrows(r.selectedDesign)
              && s.State().selectionFinalized
              && exists k :: FirstSelectionAt(st0, cleanPath, render(ds), start, now, arrivals, k)
                             && r.selectedDesign == Observed(st0, cleanPath, render(ds), arrivals, k)
    ensures var st0 := ToolsSession.SessionState(JNull, false, false);
            var cleanPath := ToolsSession.CleanPath(PagePath);
            !r.success && !r.error ==>
              && Check(ds).None? && r.url.Some?
              && r == TimeoutResult(r.url.value, ds)
              && exists n :: NoSelectionBy(st0, cleanPath, render(ds), start, now, arrivals, n)
  {
    var fault := Check(ds);
    if fault.Some? {
      s.Stop();
      return ErrorResult(ds, fault.value);
    }
    var url := s.Serve(PagePath, render(ds), available);
    if url.Err? {
      s.Stop();
      return ErrorResult(ds, url.error);
    }
    var selected, checks, notifications := PollForSelection(s, start, now, arrivals);
    if !Truthy(selected) {
      s.Stop();
      return TimeoutResult(url.value, ds);
    }
    if ToStringThrows(selected) {
      s.Stop();
      return ErrorResult(ds, ToStringFailure);
    }
    r := SuccessResult(url.value, ds, selected);
  }
}
