/**
 * The selection session of src/lib/utils/serverUtils.ts: an HTTP server with
 * a WebSocket server on the same port, at most one active socket, and a
 * start port that moves past every port it has used.
 */
module LibSession {
  import opened Wrappers
  import opened JsValues
  import opened Text
  import opened Http

  /** The initial value of the module's `port`. */
  const InitialPort := 3000

  const PagePath := "/design-selection"
  const NoPortMessage := "Could not find an available port"
  const BrowserFailedMessage := "the browser could not be opened"

  /** The session fields that HTTP routing reads and writes. */
  datatype SessionState = SessionState(selectedDesign: Json, selectionComplete: bool)

  datatype Reply =
    | NoContent
    | Page(html: string)
    | SelectionReceived
    | InvalidJson
    | NotFound

  function StatusOf(reply: Reply): int
  {
    match reply
    case NoContent => StatusNoContent
    case Page(_) => StatusOk
    case SelectionReceived => StatusOk
    case InvalidJson => StatusBadRequest
    case NotFound => StatusNotFound
  }

  /**
   * The HTTP handler of `createServer`. There is no finalized route in this
   * variant, and an accepted POST records the selection without raising
   * `selectionComplete`. The selection is logged before it is stored, so a
   * value that cannot be formatted is refused like unparsable JSON.
   */
  function Route(req: Request, html: string, st: SessionState): (out: (Reply, SessionState))
    ensures StatusOf(out.0) in {StatusOk, StatusNoContent, StatusBadRequest, StatusNotFound}
    ensures req.verb == "OPTIONS" ==> out.0 == NoContent
    ensures req.verb != "OPTIONS" && req.url == PagePath ==> out.0 == Page(html)
    ensures req.verb == "POST" && req.url == ResultPath ==>
              match LoggedSelectionOf(req.body)
              case Some(v) => out == (SelectionReceived, st.(selectedDesign := v))
              case None => out == (InvalidJson, st)
    ensures req.verb != "OPTIONS" && req.url != PagePath && !(req.verb == "POST" && req.url == ResultPath) ==>
              out.0 == NotFound
    ensures out.1.selectionComplete == st.selectionComplete
    ensures !out.0.SelectionReceived? ==> out.1 == st
  {
    if req.verb == "OPTIONS" then (NoContent, st)
    else if req.url == PagePath then (Page(html), st)
    else if req.url == ResultPath && req.verb == "POST" then
      match LoggedSelectionOf(req.body)
      case Some(v) => (SelectionReceived, st.(selectedDesign := v))
      case None => (InvalidJson, st)
    else (NotFound, st)
  }

  /** A result POST with an unparsable body is refused and changes nothing. */
  lemma MalformedPostIsHarmless(html: string, st: SessionState)
    ensures Route(Request("POST", ResultPath, None), html, st) == (InvalidJson, st)
  {
  }

  /** A POSTed selection whose formatting throws is refused and changes nothing. */
  lemma UnprintablePostIsRefused(v: Json, html: string, st: SessionState)
    requires ToStringThrows(v)
    ensures Route(Request("POST", ResultPath, Some(JObj(map["selectedDesign" := v]))), html, st) == (InvalidJson, st)
  {
  }

  /** A socket, identified by the order in which it connected. */
  type SocketId = nat

  /** The messages the server sends over a socket. */
  datatype Message =
    | Connected
    | SelectionPushed(selectedDesign: Json)
    | SelectionConfirmed(selectedDesign: Json)
    | Finalized

  datatype Sent = Sent(socket: SocketId, message: Message)

  /**
   * What a client sends over its socket, after `JSON.parse`: None when the
   * parse throws. Only an object whose `type` is "selection" has an effect.
   */
  function SelectionIn(message: Option<Json>): (r: Option<Json>)
    ensures r.Some? ==> message.Some? && message.value.JObj?
                        && "type" in message.value.fields && message.value.fields["type"] == JStr("selection")
                        && r.value == Get(message.value, "selectedDesign")
    ensures message.Some? && !Nullish(message.value) && Get(message.value, "type") == JStr("selection") ==>
              r == Some(Get(message.value, "selectedDesign"))
  {
    match message
    case None => None
    case Some(data) =>
      if Nullish(data) || Get(data, "type") != JStr("selection") then None
      else Some(Get(data, "selectedDesign"))
  }

  /** The HTTP server object: the port it was created for and whether it listens. */
  datatype Server = Server(port: nat, listening: bool, html: string)

  class Session {
    var selectedDesign: Json
    var selectionComplete: bool
    var server: Option<Server>
    /** Whether a WebSocket server is attached (`wss`). */
    var wss: bool
    var activeWebSocket: Option<SocketId>
    /** The module's `port`: where the next search starts. */
    var port: nat
    /** The sockets whose connection is open. */
    var openSockets: set<SocketId>
    /** Every message sent, in order. */
    ghost var sent: seq<Sent>

    /** The active socket, when there is one, is open: `readyState === OPEN` is implied. */
    ghost predicate Valid()
      reads this
    {
      activeWebSocket.Some? ==> activeWebSocket.value in openSockets
    }

    function State(): SessionState
      reads this
    {
      SessionState(selectedDesign, selectionComplete)
    }

    /**
     * `getSelectedDesign()`. It logs the value before returning it, so it
     * throws when the value cannot be formatted.
     */
    function GetSelectedDesign(): (r: Result<Json, string>)
      reads this
      ensures r.Ok? <==> !ToStringThrows(selectedDesign)
      ensures r.Ok? ==> r.value == selectedDesign
      ensures r.Err? ==> r.error == ToStringFailure
    {
      if ToStringThrows(selectedDesign) then Err(ToStringFailure) else Ok(selectedDesign)
    }

    /** `isSelectionComplete()`. */
    function IsSelectionComplete(): bool
      reads this
    {
      selectionComplete
    }

    constructor ()
      ensures Valid()
      ensures State() == SessionState(JNull, false)
      ensures server == None && !wss && activeWebSocket == None && port == InitialPort
      ensures openSockets == {} && sent == []
    {
      selectedDesign := JNull;
      selectionComplete := false;
      server := None;
      wss := false;
      activeWebSocket := None;
      port := InitialPort;
      openSockets := {};
      sent := [];
    }

    /**
     * `serveHtmlOnLocalhost(filename, htmlContent)`: reset the selection (but
     * not the active socket), create a server on each port of
     * [port, port + 100) until one listens, move `port` past it and open the
     * browser. Each failed attempt leaves its non-listening server in
     * `server`; a previous server is overwritten without being closed.
     * `browserOpens` is whether the `open` call resolves.
     */
    method Serve(html: string, available: int -> bool, browserOpens: bool) returns (r: Result<string, string>)
      requires Valid()
      modifies this
      ensures Valid()
      ensures State() == SessionState(JNull, false)
      ensures activeWebSocket == old(activeWebSocket) && openSockets == old(openSockets) && sent == old(sent)
      ensures wss && server.Some? && server.value.html == html
      ensures server.value.listening <==> !NoneAvailable(available, old(port), old(port) + 99)
      ensures server.value.listening ==>
                && IsFirstAvailable(available, old(port), old(port) + 99, server.value.port)
                && port == server.value.port + 1
      ensures !server.value.listening ==>
                server.value.port == old(port) + 99 && port == old(port) && r == Err(NoPortMessage)
      ensures r.Ok? <==> server.value.listening && browserOpens
      ensures server.value.listening && !browserOpens ==> r == Err(BrowserFailedMessage)
      ensures r.Ok? ==> r.value == "http://localhost:" + NatToString(server.value.port) + PagePath
    {
      selectedDesign := JNull;
      selectionComplete := false;
      var created, current := TryPorts(port, available);
      wss := true;
      if !created {
        server := Some(Server(current - 1, false, html));
        return Err(NoPortMessage);
      }
      server := Some(Server(current, true, html));
      port := current + 1;
      if !browserOpens {
        return Err(BrowserFailedMessage);
      }
      r := Ok("http://localhost:" + NatToString(current) + PagePath);
    }

    /** The HTTP handler for one request; an accepted selection is pushed to the active socket. */
    method HandleRequest(req: Request) returns (reply: Reply)
      requires Valid() && server.Some?
      modifies this
      ensures Valid()
      ensures (reply, State()) == Route(req, old(server).value.html, old(State()))
      ensures server == old(server) && wss == old(wss) && port == old(port)
      ensures activeWebSocket == old(activeWebSocket) && openSockets == old(openSockets)
      ensures sent == old(sent) + (if reply.SelectionReceived? && activeWebSocket.Some?
                                   then [Sent(activeWebSocket.value, SelectionPushed(selectedDesign))]
                                   else [])
    {
      var out := Route(req, server.value.html, State());
      reply := out.0;
      selectedDesign := out.1.selectedDesign;
      if reply.SelectionReceived? && activeWebSocket.Some? {
        sent := sent + [Sent(activeWebSocket.value, SelectionPushed(selectedDesign))];
      }
    }

    /** A WebSocket connects: it becomes the one active socket and is greeted. */
    method Connect(ws: SocketId)
      requires Valid()
      modifies this
      ensures Valid()
      ensures activeWebSocket == Some(ws) && openSockets == old(openSockets) + {ws}
      ensures sent == old(sent) + [Sent(ws, Connected)]
      ensures State() == old(State()) && server == old(server) && wss == old(wss) && port == old(port)
    {
      activeWebSocket := Some(ws);
      openSockets := openSockets + {ws};
      sent := sent + [Sent(ws, Connected)];
    }

    /**
     * A message arrives on socket `ws`: a "selection" records its
     * `selectedDesign` and is confirmed on that same socket; anything else,
     * including a message that does not parse, changes nothing. The value is
     * logged between the two, so a value that cannot be formatted is
     * recorded but never confirmed.
     */
    method Receive(ws: SocketId, message: Option<Json>)
      requires Valid()
      modifies this
      ensures Valid()
      ensures SelectionIn(message).Some? ==>
                selectedDesign == SelectionIn(message).value
                && sent == old(sent) + (if ToStringThrows(selectedDesign) then []
                                        else [Sent(ws, SelectionConfirmed(selectedDesign))])
      ensures SelectionIn(message).None? ==> selectedDesign == old(selectedDesign) && sent == old(sent)
      ensures selectionComplete == old(selectionComplete)
      ensures activeWebSocket == old(activeWebSocket) && openSockets == old(openSockets)
      ensures server == old(server) && wss == old(wss) && port == old(port)
    {
      var selection := SelectionIn(message);
      if selection.Some? {
        selectedDesign := selection.value;
        if !ToStringThrows(selectedDesign) {
          sent := sent + [Sent(ws, SelectionConfirmed(selectedDesign))];
        }
      }
    }

    /** Socket `ws` closes: the active reference is cleared only when it is that socket. */
    method Disconnect(ws: SocketId)
      requires Valid()
      modifies this
      ensures Valid()
      ensures openSockets == old(openSockets) - {ws}
      ensures activeWebSocket == if old(activeWebSocket) == Some(ws) then None else old(activeWebSocket)
      ensures State() == old(State()) && sent == old(sent)
      ensures server == old(server) && wss == old(wss) && port == old(port)
    {
      openSockets := openSockets - {ws};
      if activeWebSocket == Some(ws) {
        activeWebSocket := None;
      }
    }

    /** `notifySelectionFinalized()`: mark the selection complete; tell the active socket, if any. */
    method NotifySelectionFinalized()
      requires Valid()
      modifies this
      ensures Valid()
      ensures State() == old(State()).(selectionComplete := true)
      ensures sent == old(sent) + (if activeWebSocket.Some? then [Sent(activeWebSocket.value, Finalized)] else [])
      ensures activeWebSocket == old(activeWebSocket) && openSockets == old(openSockets)
      ensures server == old(server) && wss == old(wss) && port == old(port)
    {
      selectionComplete := true;
      if activeWebSocket.Some? {
        sent := sent + [Sent(activeWebSocket.value, Finalized)];
      }
    }

    /**
     * `stopLocalServer()`: close the WebSocket server, close and forget the
     * active socket, and drop the HTTP server (its close callback and the
     * 3-second fallback both end with `server = null`).
     */
    method Stop()
      requires Valid()
      modifies this
      ensures Valid()
      ensures server == None && !wss && activeWebSocket == None
      ensures openSockets == if old(activeWebSocket).Some? then old(openSockets) - {old(activeWebSocket).value}
                             else old(openSockets)
      ensures State() == old(State()) && sent == old(sent) && port == old(port)
    {
      wss := false;
      if activeWebSocket.Some? {
        openSockets := openSockets - {activeWebSocket.value};
        activeWebSocket := None;
      }
      server := None;
    }
  }

  /**
   * Two tabs connect; only the second one is told about the finalization,
   * and closing the first one does not disturb the second.
   */
  method SecondTabReplacesFirst(s: Session, first: SocketId, second: SocketId)
    requires s.Valid() && first != second
    modifies s
    ensures s.Valid() && s.State() == old(s.State()).(selectionComplete := true)
    ensures s.sent == old(s.sent) + [Sent(first, Connected), Sent(second, Connected), Sent(second, Finalized)]
    ensures s.activeWebSocket == None && s.server == None
  {
    s.Connect(first);
    s.Connect(second);
    s.Disconnect(first);
    assert s.activeWebSocket == Some(second);
    ghost var before := s.sent;
    s.NotifySelectionFinalized();
    assert s.sent == before + [Sent(second, Finalized)];
    s.Stop();
    assert s.activeWebSocket == None && s.server == None;
  }
}
