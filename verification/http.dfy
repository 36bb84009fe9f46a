/**
 * The parts of an HTTP request and response this layer reads or writes.
 * Header names are compared exactly; only the correlation header and the
 * correlation attribute of a request are represented.
 */
module Http {
  import opened Wrappers
  import opened PhpValues

  /** Name of the correlation header on requests and responses. */
  const RequestIdHeader := "X-Request-Id"

  /** Name of the request attribute (and meta key) holding the correlation id. */
  const RequestIdKey := "request_id"

  datatype Request = Request(
    requestIdHeader: Option<string>,    // headers->get('X-Request-Id'); None when absent
    requestIdAttribute: Option<string>, // attributes->get('request_id'); None when unset
    expectsJson: bool,                  // $request->expectsJson()
    isApiPath: bool)                    // $request->is('api/*')

  datatype Response = Response(status: int, headers: map<string, string>, body: Value)

  /** PHP's null-coalescing `a ?? b`: only a null left operand is replaced. */
  function Coalesce<T>(a: Option<T>, b: Option<T>): Option<T> {
    if a.Some? then a else b
  }

  /**
   * The correlation id a handler reads, `header ?? attribute`: an empty
   * header is still a value and is used as it is.
   */
  function RequestIdOf(req: Request): (rid: Option<string>)
    ensures rid.Some? <==> req.requestIdHeader.Some? || req.requestIdAttribute.Some?
    ensures req.requestIdHeader.Some? ==> rid == req.requestIdHeader
    ensures req.requestIdHeader.None? ==> rid == req.requestIdAttribute
  {
    Coalesce(req.requestIdHeader, req.requestIdAttribute)
  }

  /** A nullable string as a PHP value. */
  function NullableStr(o: Option<string>): Value {
    match o
    case Some(s) => Str(s)
    case None => Null
  }
}
