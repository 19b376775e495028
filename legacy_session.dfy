/**
 * The older selection session of src/tools/utils/serverUtils.js: HTTP only,
 * with a finalized-status route and a start port that moves past every port
 * it has used.
 */
module LegacySession {
  import opened Wrappers
  import opened JsValues
  import opened Text
  import opened Http

  const InitialPort := 3000
  const PagePath := "/design-selection"
  const NoPortMessage := "Could not find an available port"
  const BrowserFailedMessage := "the browser could not be opened"

  datatype SessionState = SessionState(selectedDesign: Json, selectionComplete: bool)

  datatype Reply =
    | NoContent
    | Page(html: string)
    | SelectionReceived
    | InvalidJson
    | FinalizedStatus(finalized: bool)
    | NotFound

  function StatusOf(reply: Reply): int
  {
    match reply
    case NoContent => StatusNoContent
    case Page(_) => StatusOk
    case SelectionReceived => StatusOk
    case InvalidJson => StatusBadRequest
    case FinalizedStatus(_) => StatusOk
    case NotFound => StatusNotFound
  }

  /**
   * The handler of `createServer`: preflight, the page for any method, a
   * POSTed selection (which does not complete the session), the finalized
   * status for any method, and 404 otherwise. The selection is printed
   * before it is stored, so a value that cannot be formatted is refused like
   * unparsable JSON.
   */
  function Route(req: Request, html: string, st: SessionState): (out: (Reply, SessionState))
    ensures StatusOf(out.0) in {StatusOk, StatusNoContent, StatusBadRequest, StatusNotFound}
    ensures req.verb == "OPTIONS" ==> out.0 == NoContent
    ensures req.verb != "OPTIONS" && req.url == PagePath ==> out.0 == Page(html)
    ensures req.verb == "POST" && req.url == ResultPath ==>
              match LoggedSelectionOf(req.body)
              case Some(v) => out == (SelectionReceived, st.(selectedDesign := v))
              case None => out == (InvalidJson, st)
    ensures req.verb != "OPTIONS" && req.url == FinalizedPath ==>
              out == (FinalizedStatus(st.selectionComplete), st)
    ensures req.verb != "OPTIONS" && req.url != PagePath && req.url != FinalizedPath
            && !(req.verb == "POST" && req.url == ResultPath) ==>
              out.0 == NotFound
    ensures out.1.selectionComplete == st.selectionComplete
    ensures !out.0.SelectionReceived? ==> out.1 == st
  {
    if req.verb == "OPTIONS" then (NoContent, st)
    else if req.url == PagePath then (Page(html), st)
    else if req.url == ResultPath && req.verb == "POST" then
      match LoggedSelectionOf(req.body)
      case Some(v) => (SelectionReceived, st.(selectedDesign := v))
      case None => (InvalidJson, st)
    else if req.url == FinalizedPath then (FinalizedStatus(st.selectionComplete), st)
    else (NotFound, st)
  }

  /** A POSTed selection whose formatting throws is refused and changes nothing. */
  lemma UnprintablePostIsRefused(v: Json, html: string, st: SessionState)
    requires ToStringThrows(v)
    ensures Route(Request("POST", ResultPath, Some(JObj(map["selectedDesign" := v]))), html, st) == (InvalidJson, st)
  {
  }

  /**
   * No sequence of requests completes the session: the finalized route keeps
   * reporting what it reported before the requests, whatever they were.
   */
  lemma {:induction false} RequestsNeverFinalize(reqs: seq<Request>, html: string, st: SessionState)
    ensures RunRequests(reqs, html, st).selectionComplete == st.selectionComplete
    decreases |reqs|
  {
    if reqs != [] {
      RequestsNeverFinalize(reqs[1..], html, Route(reqs[0], html, st).1);
    }
  }

  /** The state after handling `reqs` in order. */
  function RunRequests(reqs: seq<Request>, html: string, st: SessionState): SessionState
    decreases |reqs|
  {
    if reqs == [] then st else RunRequests(reqs[1..], html, Route(reqs[0], html, st).1)
  }

  /** The HTTP server object: the port it was created for and whether it listens. */
  datatype Server = Server(port: nat, listening: bool, html: string)

  class Session {
    var selectedDesign: Json
    var selectionComplete: bool
    var server: Option<Server>
    /** The module's `port`: where the next search starts. */
    var port: nat

    function State(): SessionState
      reads this
    {
      SessionState(selectedDesign, selectionComplete)
    }

    /** `getSelectedDesign()`. */
    function GetSelectedDesign(): Json
      reads this
    {
      selectedDesign
    }

    /** `isSelectionComplete()`. */
    function IsSelectionComplete(): bool
      reads this
    {
      selectionComplete
    }

    constructor ()
      ensures State() == SessionState(JNull, false)
      ensures server == None && port == InitialPort
    {
      selectedDesign := JNull;
      selectionComplete := false;
      server := None;
      port := InitialPort;
    }

    /**
     * `serveHtmlOnLocalhost(filename, htmlContent)`: reset the selection,
     * create a server on each port of [port, port + 100) until one listens,
     * move `port` past it and open the browser (`browserOpens` is whether
     * that resolves). A failed search leaves the last, non-listening server
     * in `server`.
     */
    method Serve(html: string, available: int -> bool, browserOpens: bool) returns (r: Result<string, string>)
      modifies this
      ensures State() == SessionState(JNull, false)
      ensures server.Some? && server.value.html == html
      ensures server.value.listening <==> !NoneAvailable(available, old(port), old(port) + 99)
      ensures server.value.listening ==>
                && IsFirstAvailable(available, old(port), old(port) + 99, server.value.port)
                && port == server.value.port + 1
      ensures !server.value.listening ==>
                server.value.port == old(port) + 99 && port == old(port) && r == Err(NoPortMessage)
      ensures r.Ok? <==> server.value.listening && browserOpens
      ensures r.Ok? ==> r.value == "http://localhost:" + NatToString(server.value.port) + PagePath
    {
      selectedDesign := JNull;
      selectionComplete := false;
      var created, current := TryPorts(port, available);
      if !created {
        server := Some(Server(current - 1, false, html));
        return Err(NoPortMessage);
      }
      server := Some(Server(current, true, html));
      port := current + 1;
      if !browserOpens {
        return Err(BrowserFailedMessage);
      }
      r := Ok("http://localhost:" + NatToString(current) + PagePath);
    }

    /** The HTTP handler for one request. */
    method HandleRequest(req: Request) returns (reply: Reply)
      requires server.Some?
      modifies this
      ensures (reply, State()) == Route(req, old(server).value.html, old(State()))
      ensures server == old(server) && port == old(port)
    {
      var out := Route(req, server.value.html, State());
      reply := out.0;
      selectedDesign := out.1.selectedDesign;
    }

    /** `notifySelectionFinalized()`: the only way `selectionComplete` becomes true. */
    method NotifySelectionFinalized()
      modifies this
      ensures State() == old(State()).(selectionComplete := true)
      ensures server == old(server) && port == old(port)
    {
      selectionComplete := true;
    }

    /** `stopLocalServer()`: close and forget the server, if there is one. */
    method Stop()
      modifies this
      ensures server == None
      ensures State() == old(State()) && port == old(port)
    {
      if server.Some? {
        server := None;
      }
    }
  }
}
