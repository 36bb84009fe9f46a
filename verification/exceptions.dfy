/**
 * The exception kinds the error layer distinguishes, the class hierarchy
 * `instanceof` is decided on, and the application's domain exception.
 */
module Exceptions {
  import opened Wrappers
  import opened PhpValues

  /** The classes and interfaces the handlers and the report filter name. */
  datatype Class =
    | Throwable
    | ValidationException
    | AuthenticationException
    | AuthorizationException
    | HttpExceptionInterface
    | NotFoundHttpException
    | ThrottleRequestsException
    | ModelNotFoundException
    | ApiException

  /** A thrown exception, by kind; every kind carries its message. */
  datatype Exception =
    | Validation(msg: string, errors: PhpArray)
    | Authentication(msg: string)
    | Authorization(msg: string)
    | NotFoundHttp(msg: string)
    | ModelNotFound(msg: string)
    | Throttle(msg: string)
      /** The domain exception: `code` is the base exception's numeric code. */
    | Api(msg: string, code: int, status: int, codeStr: Option<string>, details: PhpArray)
      /** Any other exception implementing the HTTP exception interface. */
    | OtherHttp(msg: string, statusCode: int)
    | Other(msg: string)

  /**
   * `e instanceof c`. Route-not-found and throttling exceptions are HTTP
   * exceptions; a missing model is not.
   */
  predicate InstanceOf(e: Exception, c: Class) {
    match c
    case Throwable => true
    case ValidationException => e.Validation?
    case AuthenticationException => e.Authentication?
    case AuthorizationException => e.Authorization?
    case HttpExceptionInterface => e.NotFoundHttp? || e.Throttle? || e.OtherHttp?
    case NotFoundHttpException => e.NotFoundHttp?
    case ThrottleRequestsException => e.Throttle?
    case ModelNotFoundException => e.ModelNotFound?
    case ApiException => e.Api?
  }

  /** `e` is an instance of at least one of `classes`. */
  predicate InstanceOfAny(e: Exception, classes: seq<Class>) {
    exists i :: 0 <= i < |classes| && InstanceOf(e, classes[i])
  }

  /** `getStatusCode()` of an HTTP exception. */
  function StatusCode(e: Exception): int
    requires InstanceOf(e, HttpExceptionInterface)
  {
    match e
    case NotFoundHttp(_) => 404
    case Throttle(_) => 429
    case OtherHttp(_, status) => status
  }

  /**
   * `new ApiException($message, $status = 400, $codeStr = null, $details = [])`:
   * the base exception receives the message and, as its numeric code, the status.
   */
  function NewApiException(message: string, status: int := 400, codeStr: Option<string> := None, details: PhpArray := []): (e: Exception)
    ensures e.Api? && InstanceOf(e, ApiException)
    ensures e.msg == message && e.status == status && e.codeStr == codeStr && e.details == details
    ensures e.code == e.status
  {
    Api(message, status, status, codeStr, details)
  }
}
