/**
 * The correlation-id middleware: choose the id (the inbound header, or a
 * freshly generated one), record it on the request before the rest of the
 * pipeline runs, and stamp it on the response that comes back.
 */
module RequestIdMiddleware {
  import opened Wrappers
  import opened PhpValues
  import opened Http
  import ApiResponse
  import Envelopes

  /**
   * What the rest of the pipeline comes back with: a response of one of the
   * framework's own classes, which have the `header()` method; a plain
   * Symfony response (a file download or a stream), which does not; or an
   * exception, which the middleware does not catch.
   */
  datatype Downstream =
    | WithHeaderMethod(response: Response)
    | WithoutHeaderMethod(response: Response)
    | Raised

  /** Why the middleware returns no response. */
  datatype MiddlewareError =
    | UndefinedHeaderMethod  // `header()` called on a response class that lacks it
    | DownstreamRaised       // the downstream exception, passed on untouched

  /** The request the downstream pipeline received, and what the middleware returns. */
  datatype Handled = Handled(forwarded: Request, result: Result<Response, MiddlewareError>)

  /**
   * One pass through the middleware. `freshId` stands for the generated
   * UUID, used only when the request has no `X-Request-Id` header; `next`
   * is the rest of the pipeline.
   */
  function Handle(req: Request, freshId: string, next: Request -> Downstream): (h: Handled)
    ensures req.requestIdHeader.Some? ==> h.forwarded.requestIdAttribute == req.requestIdHeader
    ensures req.requestIdHeader.None? ==> h.forwarded.requestIdAttribute == Some(freshId)
    ensures h.forwarded.requestIdHeader == req.requestIdHeader
    ensures h.forwarded.expectsJson == req.expectsJson && h.forwarded.isApiPath == req.isApiPath
    ensures h.result.Success? <==> next(h.forwarded).WithHeaderMethod?
    ensures next(h.forwarded).WithoutHeaderMethod? ==> h.result == Failure(UndefinedHeaderMethod)
    ensures next(h.forwarded).Raised? ==> h.result == Failure(DownstreamRaised)
    ensures h.result.Success? ==>
      && RequestIdHeader in h.result.value.headers
      && h.forwarded.requestIdAttribute == Some(h.result.value.headers[RequestIdHeader])
    ensures h.result.Success? ==>
      var downstream := next(h.forwarded).response;
      && h.result.value.status == downstream.status
      && h.result.value.body == downstream.body
      && h.result.value.headers.Keys == downstream.headers.Keys + {RequestIdHeader}
      && forall name :: name in downstream.headers && name != RequestIdHeader ==>
           h.result.value.headers[name] == downstream.headers[name]
  {
    var id := Coalesce(req.requestIdHeader, Some(freshId)).value;
    var forwarded := req.(requestIdAttribute := Some(id));
    match next(forwarded)
    case WithHeaderMethod(downstream) =>
      Handled(forwarded, Success(downstream.(headers := downstream.headers[RequestIdHeader := id])))
    case WithoutHeaderMethod(_) =>
      Handled(forwarded, Failure(UndefinedHeaderMethod))
    case Raised =>
      Handled(forwarded, Failure(DownstreamRaised))
  }

  /**
   * A handler behind the middleware always finds an id with
   * `header ?? attribute`, and it is the id put on the response header.
   */
  lemma HandlersSeeResponseId(req: Request, freshId: string, next: Request -> Downstream)
    ensures var h := Handle(req, freshId, next);
      && RequestIdOf(h.forwarded).Some?
      && (h.result.Success? ==> RequestIdOf(h.forwarded) == Some(h.result.value.headers[RequestIdHeader]))
  {
  }

  /**
   * A success envelope built behind the middleware, without a caller-supplied
   * `request_id`, carries the id of the response header in its meta.
   */
  lemma SuccessMetaMatchesHeader(req: Request, freshId: string, next: Request -> Downstream, data: Value, meta: PhpArray)
    requires StrKey(RequestIdKey) !in Keys(meta)
    ensures var h := Handle(req, freshId, next);
      var body := ApiResponse.Success(h.forwarded, data, meta := meta).body;
      h.result.Success? ==>
        Lookup(Envelopes.MetaOf(body), StrKey(RequestIdKey)) == Some(Str(h.result.value.headers[RequestIdHeader]))
  {
  }
}
