/**
 * What the registered callbacks make of each exception kind, and the
 * properties of the mapper as a whole.
 */
module RenderingProperties {
  import opened Wrappers
  import opened PhpValues
  import opened Http
  import opened Envelopes
  import opened Exceptions
  import opened ErrorRendering
  import ApiResponse
  import RequestIdMiddleware

  /** The exceptions each callback receives, by kind. */
  lemma AppliesExactly(rule: Rule, e: Exception)
    ensures Applies(rule, e) <==>
      match rule
      case ValidationRule => e.Validation?
      case AuthenticationRule => e.Authentication?
      case AuthorizationRule => e.Authorization?
      case NotFoundRule => e.NotFoundHttp? || e.ModelNotFound?
      case ThrottleRule => e.Throttle?
      case ApiRule => e.Api?
      case HttpRule => e.NotFoundHttp? || e.Throttle? || e.OtherHttp?
      case FallbackRule => true
  {
    var cs := Accepts(rule);
    if InstanceOf(e, cs[0]) {
      assert InstanceOfAny(e, cs);
    } else if rule == NotFoundRule && e.ModelNotFound? {
      assert InstanceOf(e, cs[1]);
    }
  }

  lemma AppliesAll(e: Exception)
    ensures forall rule :: Applies(rule, e) <==>
      match rule
      case ValidationRule => e.Validation?
      case AuthenticationRule => e.Authentication?
      case AuthorizationRule => e.Authorization?
      case NotFoundRule => e.NotFoundHttp? || e.ModelNotFound?
      case ThrottleRule => e.Throttle?
      case ApiRule => e.Api?
      case HttpRule => e.NotFoundHttp? || e.Throttle? || e.OtherHttp?
      case FallbackRule => true
  {
    forall rule { AppliesExactly(rule, e); }
  }

  /**
   * First match wins: the callback at position `i` decides when it accepts
   * `e` and answers, and every earlier callback that accepts `e` returned null.
   */
  lemma {:induction false} SelectFirstMatch(rules: seq<Rule>, e: Exception, req: Request, i: nat)
    requires i < |rules| && Applies(rules[i], e) && Arguments(rules[i], e, req).Some?
    requires forall j :: 0 <= j < i && Applies(rules[j], e) ==> Arguments(rules[j], e, req).None?
    ensures Select(rules, e, req) == Arguments(rules[i], e, req)
    decreases i
  {
    if i > 0 {
      forall j | 0 <= j < i - 1 && Applies(rules[1..][j], e)
        ensures Arguments(rules[1..][j], e, req).None?
      {
        assert rules[1..][j] == rules[j + 1];
      }
      SelectFirstMatch(rules[1..], e, req, i - 1);
    }
  }

  /** Nothing is selected exactly when every callback that accepts `e` returns null. */
  lemma {:induction false} SelectNone(rules: seq<Rule>, e: Exception, req: Request)
    ensures Select(rules, e, req).None? <==>
      forall j :: 0 <= j < |rules| && Applies(rules[j], e) ==> Arguments(rules[j], e, req).None?
    decreases |rules|
  {
    if |rules| > 0 {
      SelectNone(rules[1..], e, req);
      assert forall j :: 0 <= j < |rules| - 1 ==> rules[1..][j] == rules[j + 1];
    }
  }

  /** `$message ?: null` for a message string: null exactly for `""` and `"0"`. */
  function MessageOrNull(msg: string): Value {
    if msg == "" || msg == "0" then Null else Str(msg)
  }

  /** Rendering applies the template to the selected callback's arguments. */
  lemma RenderSelected(coerce: IntCoercion, e: Exception, req: Request, inv: Invocation)
    requires Select(Registered, e, req) == Some(inv)
    ensures Render(coerce, e, req) == Template(coerce, inv, RequestIdOf(req))
  {
  }

  lemma MessageOrNullIsElvis(e: Exception)
    ensures MessageOr(e, Null) == MessageOrNull(e.msg)
  {
  }

  /**
   * The mapping as a table over exception kinds, written without reference
   * to the order or the guards of the callbacks.
   */
  function Table(e: Exception, req: Request): Option<Invocation> {
    match e
    case Validation(msg, errors) =>
      Some(Invocation(Some("VALIDATION_ERROR"), if msg == "" || msg == "0" then "The given data was invalid." else msg, Arr(errors), 422))
    case Authentication(msg) =>
      Some(Invocation(Some("UNAUTHENTICATED"), "Unauthenticated.", MessageOrNull(msg), 401))
    case Authorization(msg) =>
      Some(Invocation(Some("FORBIDDEN"), "This action is unauthorized.", MessageOrNull(msg), 403))
    case NotFoundHttp(msg) =>
      Some(Invocation(Some("NOT_FOUND"), "Resource not found.", MessageOrNull(msg), 404))
    case ModelNotFound(msg) =>
      Some(Invocation(Some("NOT_FOUND"), "Resource not found.", MessageOrNull(msg), 404))
    case Throttle(msg) =>
      Some(Invocation(Some("TOO_MANY_REQUESTS"), "Too many requests.", MessageOrNull(msg), 429))
    case Api(msg, _, status, codeStr, details) =>
      Some(Invocation(codeStr, msg, if |details| == 0 then Null else Arr(details), status))
    case OtherHttp(msg, status) =>
      Some(Invocation(Some("HTTP_EXCEPTION"), if msg == "" || msg == "0" then "HTTP error." else msg, MessageOrNull(msg), status))
    case Other(msg) =>
      if req.expectsJson || req.isApiPath
      then Some(Invocation(Some("INTERNAL_SERVER_ERROR"), "Something went wrong.", MessageOrNull(msg), 500))
      else None
  }

  /** The registered callbacks, taken in order, compute exactly the table. */
  lemma DispatchMatchesTable(e: Exception, req: Request)
    ensures Select(Registered, e, req) == Table(e, req)
  {
    AppliesAll(e);
    MessageOrNullIsElvis(e);
    assert Truthy(Str(e.msg)) <==> !(e.msg == "" || e.msg == "0");
    match e
    case Validation(_, _) => SelectFirstMatch(Registered, e, req, 0);
    case Authentication(_) => SelectFirstMatch(Registered, e, req, 1);
    case Authorization(_) => SelectFirstMatch(Registered, e, req, 2);
    case NotFoundHttp(_) => SelectFirstMatch(Registered, e, req, 3);
    case ModelNotFound(_) => SelectFirstMatch(Registered, e, req, 3);
    case Throttle(_) => SelectFirstMatch(Registered, e, req, 4);
    case Api(_, _, _, _, _) => SelectFirstMatch(Registered, e, req, 5);
    case OtherHttp(_, _) => SelectFirstMatch(Registered, e, req, 6);
    case Other(_) =>
      if req.expectsJson || req.isApiPath {
        SelectFirstMatch(Registered, e, req, 7);
      } else {
        SelectNone(Registered, e, req);
      }
  }

  /** Rendering applies the template to the table's row, or declines without one. */
  lemma RenderIsTableRow(coerce: IntCoercion, e: Exception, req: Request)
    ensures Table(e, req).None? ==> Render(coerce, e, req) == Declined
    ensures Table(e, req).Some? ==> Render(coerce, e, req) == Template(coerce, Table(e, req).value, RequestIdOf(req))
  {
    DispatchMatchesTable(e, req);
    if Table(e, req).Some? {
      RenderSelected(coerce, e, req, Table(e, req).value);
    }
  }

  lemma ValidationRendering(coerce: IntCoercion, msg: string, errors: PhpArray, req: Request)
    ensures Render(coerce, Validation(msg, errors), req) ==
      Template(coerce,
        Invocation(Some("VALIDATION_ERROR"),
          if msg == "" || msg == "0" then "The given data was invalid." else msg,
          Arr(errors), 422),
        RequestIdOf(req))
  {
    RenderIsTableRow(coerce, Validation(msg, errors), req);
  }

  lemma AuthenticationRendering(coerce: IntCoercion, msg: string, req: Request)
    ensures Render(coerce, Authentication(msg), req) ==
      Template(coerce, Invocation(Some("UNAUTHENTICATED"), "Unauthenticated.", MessageOrNull(msg), 401), RequestIdOf(req))
  {
    RenderIsTableRow(coerce, Authentication(msg), req);
  }

  lemma AuthorizationRendering(coerce: IntCoercion, msg: string, req: Request)
    ensures Render(coerce, Authorization(msg), req) ==
      Template(coerce, Invocation(Some("FORBIDDEN"), "This action is unauthorized.", MessageOrNull(msg), 403), RequestIdOf(req))
  {
    RenderIsTableRow(coerce, Authorization(msg), req);
  }

  /** A missing route and a missing model render alike. */
  lemma NotFoundRendering(coerce: IntCoercion, e: Exception, req: Request)
    requires e.NotFoundHttp? || e.ModelNotFound?
    ensures Render(coerce, e, req) ==
      Template(coerce, Invocation(Some("NOT_FOUND"), "Resource not found.", MessageOrNull(e.msg), 404), RequestIdOf(req))
  {
    RenderIsTableRow(coerce, e, req);
  }

  lemma ThrottleRendering(coerce: IntCoercion, msg: string, req: Request)
    ensures Render(coerce, Throttle(msg), req) ==
      Template(coerce, Invocation(Some("TOO_MANY_REQUESTS"), "Too many requests.", MessageOrNull(msg), 429), RequestIdOf(req))
  {
    RenderIsTableRow(coerce, Throttle(msg), req);
  }

  lemma ApiRendering(coerce: IntCoercion, e: Exception, req: Request)
    requires e.Api?
    ensures Render(coerce, e, req) ==
      Template(coerce,
        Invocation(e.codeStr, e.msg, if |e.details| == 0 then Null else Arr(e.details), e.status),
        RequestIdOf(req))
  {
    RenderIsTableRow(coerce, e, req);
  }

  lemma HttpRendering(coerce: IntCoercion, msg: string, status: int, req: Request)
    ensures Render(coerce, OtherHttp(msg, status), req) ==
      Template(coerce,
        Invocation(Some("HTTP_EXCEPTION"), if msg == "" || msg == "0" then "HTTP error." else msg, MessageOrNull(msg), status),
        RequestIdOf(req))
  {
    RenderIsTableRow(coerce, OtherHttp(msg, status), req);
  }

  /** The last resort declines unless the request wants JSON or is under `api/`. */
  lemma FallbackRendering(coerce: IntCoercion, msg: string, req: Request)
    ensures Render(coerce, Other(msg), req) ==
      if !(req.expectsJson || req.isApiPath) then Declined
      else Template(coerce, Invocation(Some("INTERNAL_SERVER_ERROR"), "Something went wrong.", MessageOrNull(msg), 500), RequestIdOf(req))
  {
    RenderIsTableRow(coerce, Other(msg), req);
  }

  /**
   * Route-not-found and throttling exceptions are HTTP exceptions too, but
   * their own callbacks come first, so they never render as `HTTP_EXCEPTION`.
   */
  lemma NotFoundAndThrottleNeverGeneric(coerce: IntCoercion, e: Exception, req: Request)
    requires e.NotFoundHttp? || e.Throttle?
    ensures InstanceOf(e, HttpExceptionInterface)
    ensures Select(Registered, e, req).Some? && Select(Registered, e, req).value.textCode != Some("HTTP_EXCEPTION")
    ensures Render(coerce, e, req).Json? ==>
      Nested(Render(coerce, e, req).response.body, "error", "code") != Some(Str("HTTP_EXCEPTION"))
  {
    DispatchMatchesTable(e, req);
    RenderIsTableRow(coerce, e, req);
  }

  /** Registered the other way round, the generic callback would take a missing route. */
  lemma OrderDecides(msg: string, req: Request)
    ensures Select([HttpRule, NotFoundRule], NotFoundHttp(msg), req).Some?
    ensures Select([HttpRule, NotFoundRule], NotFoundHttp(msg), req).value.textCode == Some("HTTP_EXCEPTION")
  {
    AppliesAll(NotFoundHttp(msg));
    SelectFirstMatch([HttpRule, NotFoundRule], NotFoundHttp(msg), req, 0);
  }

  /** Only the last resort can decline, and only for a request wanting neither JSON nor `api/`. */
  lemma OnlyFallbackDeclines(coerce: IntCoercion, e: Exception, req: Request)
    ensures Render(coerce, e, req).Declined? <==> e.Other? && !(req.expectsJson || req.isApiPath)
  {
    RenderIsTableRow(coerce, e, req);
  }

  /**
   * Every JSON response is an error envelope whose `meta.request_id` is the
   * request's `header ?? attribute`, coerced to an integer, and whose code is
   * one of the fixed codes or the domain exception's own.
   */
  lemma JsonResponsesAreEnvelopes(coerce: IntCoercion, e: Exception, req: Request)
    ensures var r := Render(coerce, e, req);
      r.Json? ==>
        && IsErrorEnvelope(r.response.body)
        && StrKey("data") !in FieldKeys(r.response.body)
        && RequestIdOf(req).Some?
        && Lookup(MetaOf(r.response.body), StrKey(RequestIdKey)) == Some(Int(coerce(RequestIdOf(req).value).value))
        && exists code ::
             && Nested(r.response.body, "error", "code") == Some(Str(code))
             && (code in {"VALIDATION_ERROR", "UNAUTHENTICATED", "FORBIDDEN", "NOT_FOUND",
                          "TOO_MANY_REQUESTS", "HTTP_EXCEPTION", "INTERNAL_SERVER_ERROR"}
                 || (e.Api? && e.codeStr == Some(code)))
  {
    RenderIsTableRow(coerce, e, req);
  }

  /**
   * The template throws exactly when a callback answers and either the code
   * is null (a domain exception without one) or the request id is null or
   * not coercible to an integer.
   */
  lemma TypeErrorsExactly(coerce: IntCoercion, e: Exception, req: Request)
    ensures Render(coerce, e, req).Threw? <==>
      && !(e.Other? && !(req.expectsJson || req.isApiPath))
      && ((e.Api? && e.codeStr.None?) || RequestIdOf(req).None? || coerce(RequestIdOf(req).value).None?)
    ensures e.Api? && e.codeStr.None? ==> Render(coerce, e, req) == Threw(NullTextCode)
  {
    RenderIsTableRow(coerce, e, req);
  }

  /** Of the exceptions modelled, only the domain exception is kept out of reports. */
  lemma OnlyApiExceptionsUnreported(e: Exception)
    ensures ShouldntReport(e) <==> e.Api?
  {
    if e.Api? {
      assert InstanceOf(e, DontReport[0]);
    }
  }

  /** The domain exception's defaults, and the null details they render to. */
  lemma ApiExceptionDefaults(message: string, req: Request)
    ensures var e := NewApiException(message);
      && e.status == 400 && e.codeStr.None? && e.details == [] && e.code == 400
      && Nested(ApiResponse.Error(req, e.msg, e.status, e.codeStr, e.details).body, "error", "details") == Some(Null)
  {
  }

  /** As written: a domain exception built with the default null code never renders. */
  lemma DefaultApiExceptionThrows(coerce: IntCoercion, message: string, req: Request)
    ensures Render(coerce, NewApiException(message), req) == Threw(NullTextCode)
  {
    ApiRendering(coerce, NewApiException(message), req);
  }

  /**
   * As written: behind the middleware, a request without an id header gets a
   * generated id, and when PHP cannot read that id as an integer the
   * template throws instead of rendering.
   */
  lemma GeneratedIdThrows(coerce: IntCoercion, req: Request, freshId: string, next: Request -> RequestIdMiddleware.Downstream, msg: string)
    requires req.requestIdHeader.None? && coerce(freshId).None?
    ensures var h := RequestIdMiddleware.Handle(req, freshId, next);
      Render(coerce, Authentication(msg), h.forwarded) == Threw(NonIntRequestId(freshId))
  {
    var h := RequestIdMiddleware.Handle(req, freshId, next);
    AuthenticationRendering(coerce, msg, h.forwarded);
  }

  /**
   * Intended: every exception except a declined last resort renders an error
   * envelope whose code is the row's (null allowed) and whose request id is
   * the request's `header ?? attribute`, unchanged.
   */
  lemma IntendedAlwaysRenders(e: Exception, req: Request)
    ensures RenderIntended(e, req).None? <==> e.Other? && !(req.expectsJson || req.isApiPath)
    ensures RenderIntended(e, req).Some? ==>
      var body := RenderIntended(e, req).value.body;
      && IsErrorEnvelope(body)
      && Nested(body, "error", "code") == Some(NullableStr(Table(e, req).value.textCode))
      && Lookup(MetaOf(body), StrKey(RequestIdKey)) == Some(NullableStr(RequestIdOf(req)))
  {
    DispatchMatchesTable(e, req);
  }

  /** Intended: a domain exception renders exactly as the `error` helper would. */
  lemma IntendedApiMatchesErrorHelper(e: Exception, req: Request)
    requires e.Api?
    ensures RenderIntended(e, req) == Some(ApiResponse.Error(req, e.msg, e.status, e.codeStr, e.details))
  {
    DispatchMatchesTable(e, req);
    var details := Elvis(Arr(e.details), Null);
    assert details == if |e.details| == 0 then Null else Arr(e.details);
    assert Select(Registered, e, req) == Some(Invocation(e.codeStr, e.msg, details, e.status));
    var body := ErrorBody(NullableStr(e.codeStr), e.msg, details, NullableStr(RequestIdOf(req)));
    assert RenderIntended(e, req) == Some(Response(e.status, map[], body));
    assert ApiResponse.Error(req, e.msg, e.status, e.codeStr, e.details) == Response(e.status, map[], body);
  }

  /** Where the declared types hold, the intended mapper gives the same status and error part. */
  lemma IntendedAgreesWhenTypesHold(coerce: IntCoercion, e: Exception, req: Request)
    ensures var r := Render(coerce, e, req);
      r.Json? ==>
        && RenderIntended(e, req).Some?
        && RenderIntended(e, req).value.status == r.response.status
        && Field(RenderIntended(e, req).value.body, "error") == Field(r.response.body, "error")
  {
    RenderIsTableRow(coerce, e, req);
    DispatchMatchesTable(e, req);
  }

  /** Intended: behind the middleware, the body's request id is the response header's. */
  lemma IntendedIdMatchesHeader(e: Exception, req: Request, freshId: string, next: Request -> RequestIdMiddleware.Downstream)
    ensures var h := RequestIdMiddleware.Handle(req, freshId, next);
      RenderIntended(e, h.forwarded).Some? && h.result.Success? ==>
        Lookup(MetaOf(RenderIntended(e, h.forwarded).value.body), StrKey(RequestIdKey))
          == Some(Str(h.result.value.headers[RequestIdHeader]))
  {
    var h := RequestIdMiddleware.Handle(req, freshId, next);
    IntendedAlwaysRenders(e, h.forwarded);
  }
}
