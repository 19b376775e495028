/**
 * The selection session of src/tools/utils/serverUtils.ts: module-level
 * fields reset by `serveHtmlOnLocalhost`, written by the request handler,
 * `notifySelectionFinalized` and `stopLocalServer`.
 */
module ToolsSession {
  import opened Wrappers
  import opened JsValues
  import opened Text
  import opened Http

  /** The port the probe starts from, and the port the OS-level cleanup kills. */
  const DefaultPort := 8899

  const NoPortsMessage := "Could not start server: no available ports"

  /** The session fields that request routing reads and writes. */
  datatype SessionState = SessionState(selectedDesign: Json, selectionComplete: bool, selectionFinalized: bool)

  /** The replies of the request handler; the CORS headers are the same on all of them. */
  datatype Reply =
    | NoContent
    | Page(html: string)
    | SelectionReceived(selectedDesign: Json)
    | InvalidJson
    | FinalizedStatus(finalized: bool)
    | NotFound

  function StatusOf(reply: Reply): int
  {
    match reply
    case NoContent => StatusNoContent
    case Page(_) => StatusOk
    case SelectionReceived(_) => StatusOk
    case InvalidJson => StatusBadRequest
    case FinalizedStatus(_) => StatusOk
    case NotFound => StatusNotFound
  }

  /** `path.startsWith('/') ? path : `/${path}``. */
  function CleanPath(path: string): (r: string)
    ensures StartsWith(r, "/")
    ensures StartsWith(path, "/") ==> r == path
    ensures |path| <= |r| <= |path| + 1 && r[|r| - |path|..] == path
  {
    if StartsWith(path, "/") then path else "/" + path
  }

  /** The URL `serveHtmlOnLocalhost` resolves with. */
  function Url(port: nat, cleanPath: string): string
  {
    "http://localhost:" + NatToString(port) + cleanPath
  }

  /**
   * The request handler of `serveHtmlOnLocalhost` as a function of the
   * request, the served path and page, and the session fields.
   */
  function Route(req: Request, cleanPath: string, html: string, st: SessionState): (out: (Reply, SessionState))
    ensures StatusOf(out.0) in {StatusOk, StatusNoContent, StatusBadRequest, StatusNotFound}
    // Pre-flight first, for every URL.
    ensures req.verb == "OPTIONS" ==> out.0 == NoContent
    // Then the page, for every method.
    ensures req.verb != "OPTIONS" && req.url == cleanPath ==> out.0 == Page(html)
    // Then a POST of the selection.
    ensures req.verb != "OPTIONS" && req.url != cleanPath && req.url == ResultPath && req.verb == "POST" ==>
              match SelectedDesignOf(req.body)
              case Some(v) => out.0 == SelectionReceived(v)
              case None => out.0 == InvalidJson
    // Then a GET of the finalized flag.
    ensures req.verb != "OPTIONS" && req.url != cleanPath && req.url == FinalizedPath && req.verb == "GET" ==>
              out.0 == FinalizedStatus(st.selectionFinalized)
    // Everything else is not found.
    ensures (req.verb != "OPTIONS" && req.url != cleanPath
             && !(req.url == ResultPath && req.verb == "POST")
             && !(req.url == FinalizedPath && req.verb == "GET")) ==> out.0 == NotFound
    // Only an accepted selection changes the session, and it overwrites the previous one.
    ensures out.0.SelectionReceived? ==>
              out.1 == st.(selectedDesign := out.0.selectedDesign, selectionComplete := true)
    ensures !out.0.SelectionReceived? ==> out.1 == st
  {
    if req.verb == "OPTIONS" then (NoContent, st)
    else if req.url == cleanPath then (Page(html), st)
    else if req.url == ResultPath && req.verb == "POST" then
      match SelectedDesignOf(req.body)
      case Some(v) => (SelectionReceived(v), st.(selectedDesign := v, selectionComplete := true))
      case None => (InvalidJson, st)
    else if req.url == FinalizedPath && req.verb == "GET" then (FinalizedStatus(st.selectionFinalized), st)
    else (NotFound, st)
  }

  /** A result POST sent twice: the second selection is the one recorded (last write wins). */
  lemma LastSelectionWins(cleanPath: string, html: string, st: SessionState, a: Json, b: Json)
    requires cleanPath != ResultPath
    ensures var mid := Route(Request("POST", ResultPath, Some(JObj(map["selectedDesign" := a]))), cleanPath, html, st).1;
            var last := Route(Request("POST", ResultPath, Some(JObj(map["selectedDesign" := b]))), cleanPath, html, mid).1;
            last.selectedDesign == b && last.selectionComplete && last.selectionFinalized == st.selectionFinalized
  {
  }

  /**
   * A body that does not parse is answered with 400 and leaves the session as
   * it was, so every later request is answered as if it had never arrived.
   */
  lemma MalformedBodyIsHarmless(cleanPath: string, html: string, st: SessionState, later: Request)
    requires cleanPath != ResultPath
    ensures var out := Route(Request("POST", ResultPath, None), cleanPath, html, st);
            StatusOf(out.0) == StatusBadRequest && out.1 == st
            && Route(later, cleanPath, html, out.1) == Route(later, cleanPath, html, st)
  {
  }

  /** Polling the finalized flag reports it and changes nothing. */
  lemma FinalizedPollIsReadOnly(cleanPath: string, html: string, st: SessionState)
    requires cleanPath != FinalizedPath
    ensures Route(Request("GET", FinalizedPath, None), cleanPath, html, st) == (FinalizedStatus(st.selectionFinalized), st)
  {
  }

  /** The live server: where it listens and what its handler serves. */
  datatype Server = Server(port: nat, cleanPath: string, html: string)

  class Session {
    var server: Option<Server>
    var selectedDesign: Json
    var selectionComplete: bool
    var selectionFinalized: bool
    /** The id of the request whose response object was stored last. */
    var lastClientConnection: Option<nat>
    /** The ports handed to the OS-level process kill (`lsof ... | xargs kill -9`), in order. */
    ghost var kills: seq<int>

    function State(): SessionState
      reads this
    {
      SessionState(selectedDesign, selectionComplete, selectionFinalized)
    }

    /** `getSelectedDesign()`. */
    function GetSelectedDesign(): Json
      reads this
    {
      selectedDesign
    }

    /** `isSelectionComplete()`. */
    function IsSelectionComplete(): bool
      reads this
    {
      selectionComplete
    }

    /** Module load: the globals' initial values, after the load-time cleanup of the default port. */
    constructor ()
      ensures server == None && lastClientConnection == None
      ensures State() == SessionState(JNull, false, false)
      ensures kills == [DefaultPort]
    {
      server := None;
      selectedDesign := JNull;
      selectionComplete := false;
      selectionFinalized := false;
      lastClientConnection := None;
      kills := [DefaultPort];
    }

    /**
     * `serveHtmlOnLocalhost(path, htmlContent)`: reset the session, drop any
     * previous server, then listen on the first free port from 8899 on.
     * `available` answers whether a port can be bound.
     */
    method Serve(path: string, html: string, available: int -> bool) returns (r: Result<string, string>)
      modifies this
      ensures State() == SessionState(JNull, false, false) && lastClientConnection == None
      ensures kills == old(kills)
      ensures r.Ok? ==>
                && server.Some?
                && IsFirstAvailable(available, DefaultPort, DefaultPort + 100, server.value.port)
                && server.value == Server(server.value.port, CleanPath(path), html)
                && r.value == Url(server.value.port, CleanPath(path))
      ensures r.Err? ==>
                server == None && r.error == NoPortsMessage
                && NoneAvailable(available, DefaultPort, DefaultPort + 100)
    {
      selectedDesign := JNull;
      selectionComplete := false;
      selectionFinalized := false;
      lastClientConnection := None;
      server := None;
      var found := FindAvailablePort(DefaultPort, available);
      if found.None? {
        return Err(NoPortsMessage);
      }
      var cleanPath := CleanPath(path);
      server := Some(Server(found.value, cleanPath, html));
      r := Ok(Url(found.value, cleanPath));
    }

    /** The request handler of the live server, for the request numbered `id`. */
    method Handle(id: nat, req: Request) returns (reply: Reply)
      requires server.Some?
      modifies this
      ensures server == old(server) && kills == old(kills)
      ensures (reply, State()) == Route(req, server.value.cleanPath, server.value.html, old(State()))
      ensures lastClientConnection == Some(id)
    {
      lastClientConnection := Some(id);
      var out := Route(req, server.value.cleanPath, server.value.html, State());
      reply := out.0;
      selectedDesign, selectionComplete, selectionFinalized :=
        out.1.selectedDesign, out.1.selectionComplete, out.1.selectionFinalized;
    }

    /**
     * `notifySelectionFinalized()`: raise the finalized flag, then stop the
     * server (on the next tick in the source; right after, in this sequential model).
     */
    method NotifySelectionFinalized()
      modifies this
      ensures State() == old(State()).(selectionFinalized := true)
      ensures server == None && lastClientConnection == old(lastClientConnection)
      ensures kills == old(kills) + (if old(server).Some? then [DefaultPort] else [])
    {
      selectionFinalized := true;
      Stop();
    }

    /**
     * `stopLocalServer()`: when a server exists, close it, kill whatever holds
     * the DEFAULT port (not necessarily the bound one) and forget the server;
     * otherwise do nothing, so a second call is a no-op.
     */
    method Stop()
      modifies this
      ensures server == None
      ensures State() == old(State()) && lastClientConnection == old(lastClientConnection)
      ensures kills == old(kills) + (if old(server).Some? then [DefaultPort] else [])
    {
      if server.Some? {
        kills := kills + [DefaultPort];
        server := None;
      }
    }
  }

  /** Serving a second time discards the first session's selection and flags. */
  method ServeTwiceResets(s: Session, available: int -> bool, html: string, choice: Json)
    modifies s
    ensures s.State() == SessionState(JNull, false, false)
  {
    var first := s.Serve("design-selection", html, available);
    if first.Ok? {
      var body := Some(JObj(map["selectedDesign" := choice]));
      var reply := s.Handle(0, Request("POST", ResultPath, body));
      assert s.selectedDesign == choice && s.selectionComplete;
      s.NotifySelectionFinalized();
      assert s.server == None;
      s.Stop();
      assert s.kills == old(s.kills) + [DefaultPort];
    }
    var second := s.Serve("design-selection", html, available);
    assert s.State() == SessionState(JNull, false, false);
  }
}
