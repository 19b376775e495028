/**
 * What the three session servers share: the response status codes of
 * section 15 of RFC 9110, the request shape the handlers see, and the
 * bounded search for a port that can be bound.
 */
module Http {
  import opened Wrappers
  import opened JsValues

  /** 200 OK, section 15.3.1 of RFC 9110. */
  const StatusOk := 200
  /** 204 No Content, section 15.3.5 of RFC 9110 (the CORS pre-flight reply). */
  const StatusNoContent := 204
  /** 400 Bad Request, section 15.5.1 of RFC 9110 (a selection body that is not JSON). */
  const StatusBadRequest := 400
  /** 404 Not Found, section 15.5.5 of RFC 9110 (every other route). */
  const StatusNotFound := 404

  const ResultPath := "/design-selection-result"
  const FinalizedPath := "/design-selection-finalized"

  /**
   * One HTTP request as a handler sees it: `req.method` (as `verb`), `req.url`, and the
   * outcome of `JSON.parse` on the whole body (None when the parse throws).
   * The body is only parsed by the routes that read it.
   */
  datatype Request = Request(verb: string, url: string, body: Option<Json>)

  /**
   * `data.selectedDesign` for a parsed body: None when reading the property
   * throws (the body parsed to `null`), which the handlers' `catch` turns into
   * the same 400 reply as a parse failure.
   */
  function SelectedDesignOf(body: Option<Json>): (r: Option<Json>)
    ensures r.Some? <==> body.Some? && !Nullish(body.value)
    ensures body.Some? && body.value.JObj? && "selectedDesign" in body.value.fields ==>
              r == Some(body.value.fields["selectedDesign"])
  {
    match body
    case None => None
    case Some(data) => if Nullish(data) then None else Some(Get(data, "selectedDesign"))
  }

  /**
   * The selection of a result POST whose handler formats
   * `data.selectedDesign` into a log line before storing it: when that
   * formatting throws, the handler's `catch` answers 400 as for a parse
   * failure, and nothing is stored.
   */
  function LoggedSelectionOf(body: Option<Json>): (r: Option<Json>)
    ensures r.Some? <==> SelectedDesignOf(body).Some? && !ToStringThrows(SelectedDesignOf(body).value)
    ensures r.Some? ==> r == SelectedDesignOf(body)
  {
    match SelectedDesignOf(body)
    case Some(v) => if ToStringThrows(v) then None else Some(v)
    case None => None
  }

  /** `p` is the first port of [lo, hi] on which `available` holds. */
  ghost predicate IsFirstAvailable(available: int -> bool, lo: int, hi: int, p: int)
  {
    lo <= p <= hi && available(p) && forall q :: lo <= q < p ==> !available(q)
  }

  /** No port of [lo, hi] is available. */
  ghost predicate NoneAvailable(available: int -> bool, lo: int, hi: int)
  {
    forall q :: lo <= q <= hi ==> !available(q)
  }

  /**
   * `findAvailablePort` of src/tools/utils/serverUtils.ts: probe `start`,
   * `start + 1`, ... and give up once the candidate passes `start + 100`, so
   * that 101 ports are tried. `available` stands for a probe server that
   * listens and closes again.
   */
  method FindAvailablePort(start: int, available: int -> bool) returns (r: Option<int>)
    ensures r.Some? ==> IsFirstAvailable(available, start, start + 100, r.value)
    ensures r.None? ==> NoneAvailable(available, start, start + 100)
  {
    var port := start;
    while !available(port)
      invariant start <= port <= start + 100
      invariant forall q :: start <= q < port ==> !available(q)
      decreases start + 100 - port
    {
      port := port + 1;
      if port > start + 100 {
        return None;
      }
    }
    return Some(port);
  }

  /**
   * The port loop of `serveHtmlOnLocalhost` in src/lib/utils/serverUtils.ts
   * and src/tools/utils/serverUtils.js: try `createServer(currentPort)` while
   * nothing listens and `currentPort < start + 100`, so that 100 ports are
   * tried. Returns whether a server was created and the final `currentPort`.
   */
  method TryPorts(start: int, available: int -> bool) returns (created: bool, current: int)
    ensures created ==> IsFirstAvailable(available, start, start + 99, current)
    ensures !created ==> current == start + 100 && NoneAvailable(available, start, start + 99)
  {
    current := start;
    created := false;
    while !created && current < start + 100
      invariant start <= current <= start + 100
      invariant forall q :: start <= q < current ==> !available(q)
      invariant created ==> current < start + 100 && available(current)
      decreases start + 100 - current, if created then 0 else 1
    {
      if available(current) {
        created := true;
      } else {
        current := current + 1;
      }
    }
  }
}
