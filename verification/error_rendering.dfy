/**
 * The exception-to-JSON mapper: eight render callbacks registered in order,
 * each guarded by the exception classes its closure accepts, and the shared
 * response template they all call.
 */
module ErrorRendering {
  import opened Wrappers
  import opened PhpValues
  import opened Http
  import opened Envelopes
  import opened Exceptions

  /**
   * The argument type errors the template can raise. PHP checks arguments
   * left to right, so a null code is reported before anything about the id.
   */
  datatype TypeError =
    | NullTextCode                        // null passed for `string $textCode`
    | NullRequestId                       // null passed for `int $requestId`
    | NonIntRequestId(requestId: string)  // a string PHP will not coerce to `int`

  /** What rendering an exception comes to. */
  datatype Rendered =
    | Declined                  // no callback produced a response: default rendering takes over
    | Json(response: Response)  // a callback produced this JSON response
    | Threw(error: TypeError)   // the template raised a TypeError

  /**
   * PHP's coercion of a string argument to an `int` parameter: the integer
   * it becomes, or None when PHP raises a TypeError. Which strings coerce
   * is left open; every result below holds for any such coercion.
   */
  type IntCoercion = string -> Option<int>

  /** The arguments a callback passes to the template besides the request id. */
  datatype Invocation = Invocation(textCode: Option<string>, message: string, details: Value, status: int)

  /**
   * `$errorResponseTemplate($textCode, $message, $details, $requestId, $status)`
   * with its declared parameter types `string`, `string`, `mixed`, `int`, `int`.
   */
  function Template(coerce: IntCoercion, inv: Invocation, requestId: Option<string>): (r: Rendered)
    ensures !r.Declined?
    ensures r.Json? <==> inv.textCode.Some? && requestId.Some? && coerce(requestId.value).Some?
    ensures inv.textCode.None? ==> r == Threw(NullTextCode)
    ensures inv.textCode.Some? && requestId.None? ==> r == Threw(NullRequestId)
    ensures inv.textCode.Some? && requestId.Some? && coerce(requestId.value).None? ==>
      r == Threw(NonIntRequestId(requestId.value))
    ensures r.Json? ==>
      && r.response.status == inv.status
      && IsErrorEnvelope(r.response.body)
      && StrKey("data") !in FieldKeys(r.response.body)
      && Nested(r.response.body, "error", "code") == Some(Str(inv.textCode.value))
      && Nested(r.response.body, "error", "message") == Some(Str(inv.message))
      && Nested(r.response.body, "error", "details") == Some(inv.details)
      && Lookup(MetaOf(r.response.body), StrKey(RequestIdKey)) == Some(Int(coerce(requestId.value).value))
  {
    match (inv.textCode, requestId)
    case (None, _) => Threw(NullTextCode)
    case (Some(_), None) => Threw(NullRequestId)
    case (Some(code), Some(rid)) =>
      match coerce(rid)
      case None => Threw(NonIntRequestId(rid))
      case Some(n) => Json(Response(inv.status, map[], ErrorBody(Str(code), inv.message, inv.details, Int(n))))
  }

  /** The render callbacks, named after the exceptions they handle. */
  datatype Rule =
    | ValidationRule
    | AuthenticationRule
    | AuthorizationRule
    | NotFoundRule
    | ThrottleRule
    | ApiRule
    | HttpRule
    | FallbackRule

  /** The callbacks in registration order. */
  const Registered: seq<Rule> :=
    [ValidationRule, AuthenticationRule, AuthorizationRule, NotFoundRule,
     ThrottleRule, ApiRule, HttpRule, FallbackRule]

  /** The types of each closure's first parameter (a union for not-found). */
  function Accepts(rule: Rule): seq<Class> {
    match rule
    case ValidationRule => [ValidationException]
    case AuthenticationRule => [AuthenticationException]
    case AuthorizationRule => [AuthorizationException]
    case NotFoundRule => [NotFoundHttpException, ModelNotFoundException]
    case ThrottleRule => [ThrottleRequestsException]
    case ApiRule => [ApiException]
    case HttpRule => [HttpExceptionInterface]
    case FallbackRule => [Throwable]
  }

  /** The framework calls a callback only with an exception its closure accepts. */
  predicate Applies(rule: Rule, e: Exception) {
    InstanceOfAny(e, Accepts(rule))
  }

  /** `$e->getMessage() ?: $alt` */
  function MessageOr(e: Exception, alt: Value): Value {
    Elvis(Str(e.msg), alt)
  }

  /** `$e->getMessage() ?: 'literal'`, which is always a string. */
  function MessageOrText(e: Exception, alt: string): string {
    if Truthy(Str(e.msg)) then e.msg else alt
  }

  /**
   * What a callback passes to the template, or None when it returns null
   * (only the fallback does, for a request that is neither JSON nor API).
   */
  function Arguments(rule: Rule, e: Exception, req: Request): Option<Invocation>
    requires Applies(rule, e)
  {
    match rule
    case ValidationRule =>
      // method_exists($e, 'errors') holds of every validation exception
      Some(Invocation(Some("VALIDATION_ERROR"), MessageOrText(e, "The given data was invalid."), Arr(e.errors), 422))
    case AuthenticationRule =>
      Some(Invocation(Some("UNAUTHENTICATED"), "Unauthenticated.", MessageOr(e, Null), 401))
    case AuthorizationRule =>
      Some(Invocation(Some("FORBIDDEN"), "This action is unauthorized.", MessageOr(e, Null), 403))
    case NotFoundRule =>
      Some(Invocation(Some("NOT_FOUND"), "Resource not found.", MessageOr(e, Null), 404))
    case ThrottleRule =>
      Some(Invocation(Some("TOO_MANY_REQUESTS"), "Too many requests.", MessageOr(e, Null), 429))
    case ApiRule =>
      Some(Invocation(e.codeStr, e.msg, Elvis(Arr(e.details), Null), e.status))
    case HttpRule =>
      Some(Invocation(Some("HTTP_EXCEPTION"), MessageOrText(e, "HTTP error."), MessageOr(e, Null), StatusCode(e)))
    case FallbackRule =>
      if !(req.expectsJson || req.isApiPath) then None
      else Some(Invocation(Some("INTERNAL_SERVER_ERROR"), "Something went wrong.", MessageOr(e, Null), 500))
  }

  /**
   * The framework's callback loop: the first callback that accepts `e` and
   * does not return null decides. A callback that throws also ends the loop,
   * so selection does not depend on what the template does afterwards.
   */
  function Select(rules: seq<Rule>, e: Exception, req: Request): Option<Invocation> {
    if |rules| == 0 then None
    else if Applies(rules[0], e) && Arguments(rules[0], e, req).Some? then Arguments(rules[0], e, req)
    else Select(rules[1..], e, req)
  }

  /** Rendering an exception with the registered callbacks, as the source declares them. */
  function Render(coerce: IntCoercion, e: Exception, req: Request): Rendered {
    match Select(Registered, e, req)
    case None => Declined
    case Some(inv) => Template(coerce, inv, RequestIdOf(req))
  }

  /**
   * The mapper as its template's declared types evidently intend it: a
   * nullable code, and the request id passed on as it was read, the way the
   * `error` response helper treats both.
   */
  function RenderIntended(e: Exception, req: Request): Option<Response> {
    match Select(Registered, e, req)
    case None => None
    case Some(inv) =>
      Some(Response(inv.status, map[], ErrorBody(NullableStr(inv.textCode), inv.message, inv.details, NullableStr(RequestIdOf(req)))))
  }

  /** The classes whose instances are never reported. */
  const DontReport: seq<Class> := [ApiException]

  predicate ShouldntReport(e: Exception) {
    InstanceOfAny(e, DontReport)
  }
}
