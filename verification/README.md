# Error envelopes and correlation ids — a Dafny model

This project models the error-normalisation layer of a Laravel API backend:

- the **exception mapper** in `bootstrap/app.php`: eight render callbacks registered in order, each guarded by the exception classes its closure accepts, all funnelled through one response template; plus the `dontReport` list;
- the **request-id middleware** `RequestId::handle`, which picks the correlation id (`X-Request-Id` header, else a generated UUID), stores it as the `request_id` request attribute before the rest of the pipeline runs, and stamps it on the response;
- the **response helpers** of the `ApiResponse` trait: `success`, `created`, `error`, `paginated` and `requestMeta`;
- the domain exception **`ApiException`** and its defaults.

PHP values are modelled explicitly (`PhpValues`): arrays are ordered key/value sequences, `?:` reads PHP truthiness (`""`, `"0"`, `[]`, `null`, `0`, `false` are falsy), `??` replaces only `null` (`Http.Coalesce`), and the array union `+` keeps the left operand's entry on a shared key (`PhpValues.Union`). Response bodies are PHP arrays; the envelope shapes are predicates over them (`Envelopes`).

The mapper is modelled the way the framework runs it: `ErrorRendering.Select` walks the callbacks in registration order and the first one that accepts the exception and does not return `null` decides; `ErrorRendering.Template` then applies the template's declared parameter types. The template declares `string $textCode` and `int $requestId`, but it is handed the nullable `ApiException::$codeStr` and a string (or null) request id. So rendering can end in a `TypeError`, modelled as `Threw(...)`. Whether a given string coerces to `int` depends on PHP's coercion rules. These are left open: every mapper function takes an `IntCoercion` (string to optional int) parameter, and every result holds for any such coercion. `ErrorRendering.RenderIntended` is the same mapper with a nullable code and the id passed through unchanged; see Findings.

Three behaviours of the code worth stating up front:
- An empty `X-Request-Id` header is echoed, because `??` replaces only `null`.
- `error()` and the domain-exception callback render empty details as `null`; the validation callback passes its errors array unchanged, so an empty one renders as `[]`.
- The meta key is `request_id`.

## Model

| member | source | states |
|---|---|---|
| PhpValues.Union | app/Support/ApiResponse.php:15 | `$meta + requestMeta()` keeps every key of both operands; on a shared key the caller's value wins, and the caller's entries come first and unchanged |
| Http.RequestIdOf | app/Support/ApiResponse.php:50 | the id read is the header whenever the header is present (even `""`), otherwise the `request_id` attribute; null only when both are missing |
| ApiResponse.RequestMeta | app/Support/ApiResponse.php:48-52 | meta holds exactly one key, `request_id`, whose value is the header when present, else the attribute (or null) |
| ApiResponse.Success | app/Support/ApiResponse.php:10-17 | status as given (default 200), body is exactly `{data, message, meta}` with no `error` key, meta is the caller's keys plus `request_id`, caller values kept, a caller `request_id` wins over the request's |
| ApiResponse.Created | app/Support/ApiResponse.php:19-22 | status 201, message default 'Created', meta holds only the request id |
| ApiResponse.Error | app/Support/ApiResponse.php:24-34 | status as given (default 400), body is an error envelope with no `data` key, code may be null, details null exactly when the array is empty and otherwise passed through, meta only `request_id` |
| ApiResponse.PaginationFieldsShape | app/Support/ApiResponse.php:39-44 | the pagination block has exactly the keys total, per_page, current_page, last_page, copied from the paginator |
| ApiResponse.Paginated | app/Support/ApiResponse.php:36-46 | status 200, data is the page's items, meta holds exactly `pagination` and `request_id`, with the pagination block copied from the paginator |
| RequestIdMiddleware.Handle | app/Http/Middleware/RequestId.php:11-18 | the downstream pipeline receives the request with `request_id` set to the header when present (verbatim, even `""`), else to the generated id. It returns a response exactly when the downstream pipeline returns one whose class has a `header()` method. A downstream exception is passed on untouched, with no header set. A plain Symfony file or stream response raises an undefined-method error. Otherwise the response carries that id in `X-Request-Id`, overwriting any earlier value, and its status, body and all other headers are the downstream response's |
| RequestIdMiddleware.HandlersSeeResponseId | app/Http/Middleware/RequestId.php:13-17 | behind the middleware, `header ?? attribute` always finds an id, and it is the id put on the response header |
| RequestIdMiddleware.SuccessMetaMatchesHeader | app/Support/ApiResponse.php:48-52 | behind the middleware, a success envelope without a caller `request_id` carries the response header's id |
| Exceptions.NewApiException | app/Exceptions/ApiException.php:9-16 | the built exception keeps message, status, code string and details, and its base numeric code equals its status |
| RenderingProperties.ApiExceptionDefaults | app/Exceptions/ApiException.php:11-15 | defaults are status 400, null code string, empty details, base code 400; rendered through `error` the empty details become null |
| Envelopes.ErrorBody | bootstrap/app.php:40-47 | the body is exactly `{error: {code, message, details}, meta: {request_id}}` carrying the four given values, with no `data` key |
| ErrorRendering.Template | bootstrap/app.php:33-48 | a null code throws a TypeError first. Otherwise a null id, or an id PHP cannot coerce to int, throws a TypeError. Otherwise the response has the given status and an error envelope with the given code, message and details, and the coerced integer id |
| RenderingProperties.AppliesExactly | bootstrap/app.php:50-94 | which exception kinds each callback's parameter type accepts: route-not-found and throttling are also HTTP exceptions, a missing model is not, and the last resort accepts every throwable |
| RenderingProperties.SelectFirstMatch | bootstrap/app.php:49-100 | the callback at position i decides when it accepts the exception and answers and every earlier accepting callback returned null |
| RenderingProperties.SelectNone | bootstrap/app.php:49-100 | nothing is selected exactly when every accepting callback returns null |
| RenderingProperties.DispatchMatchesTable | bootstrap/app.php:49-100 | the ordered callbacks compute exactly the status/code/message/details table over exception kinds |
| RenderingProperties.RenderIsTableRow | bootstrap/app.php:49-100 | rendering declines when the table has no row and otherwise applies the template to the row and the request's id |
| RenderingProperties.ValidationRendering | bootstrap/app.php:50-55 | 422, `VALIDATION_ERROR`, details are the errors array, message is 'The given data was invalid.' when the exception's own message is `""` or `"0"` and that message otherwise |
| RenderingProperties.AuthenticationRendering | bootstrap/app.php:58-61 | 401, `UNAUTHENTICATED`, 'Unauthenticated.', details the message or null when it is `""` or `"0"` |
| RenderingProperties.AuthorizationRendering | bootstrap/app.php:63-66 | 403, `FORBIDDEN`, 'This action is unauthorized.', details the message or null |
| RenderingProperties.NotFoundRendering | bootstrap/app.php:69-72 | a missing route or model gives 404, `NOT_FOUND`, 'Resource not found.', details the message or null |
| RenderingProperties.ThrottleRendering | bootstrap/app.php:75-78 | 429, `TOO_MANY_REQUESTS`, 'Too many requests.', details the message or null |
| RenderingProperties.ApiRendering | bootstrap/app.php:81-84 | a domain exception renders its own status, code string and message, details null exactly when its details array is empty |
| RenderingProperties.HttpRendering | bootstrap/app.php:87-91 | any other HTTP exception gives its own status and `HTTP_EXCEPTION`, message falling back to 'HTTP error.', details the message or null |
| RenderingProperties.FallbackRendering | bootstrap/app.php:94-100 | anything else declines when the request neither expects JSON nor is under `api/`, and otherwise gives 500, `INTERNAL_SERVER_ERROR`, 'Something went wrong.' |
| RenderingProperties.NotFoundAndThrottleNeverGeneric | bootstrap/app.php:69-91 | route-not-found and throttling exceptions are HTTP exceptions yet are never rendered with code `HTTP_EXCEPTION` |
| RenderingProperties.OrderDecides | bootstrap/app.php:69-91 | with the generic HTTP callback registered before the not-found one, a missing route would get `HTTP_EXCEPTION`: order is what decides |
| RenderingProperties.OnlyFallbackDeclines | bootstrap/app.php:94-100 | rendering declines exactly for an unclassified exception on a request that neither expects JSON nor is under `api/` |
| RenderingProperties.JsonResponsesAreEnvelopes | bootstrap/app.php:40-51 | every JSON response is an error envelope without `data`. Its `request_id` is the request's `header ?? attribute`, coerced to int. Its code is one of the seven fixed codes or the domain exception's own |
| RenderingProperties.TypeErrorsExactly | bootstrap/app.php:33-38 | the template throws exactly when a callback answers and the code is null or the id is null or not coercible; a domain exception without a code always throws `NullTextCode` |
| RenderingProperties.OnlyApiExceptionsUnreported | bootstrap/app.php:29-31 | the don't-report list excludes exactly the domain exceptions |
| RenderingProperties.DefaultApiExceptionThrows | bootstrap/app.php:83 | a domain exception built with the default (null) code string never renders: the template throws `NullTextCode` |
| RenderingProperties.GeneratedIdThrows | bootstrap/app.php:37 | behind the middleware, a request without an id header whose generated id does not coerce to int gets a TypeError instead of a 401 envelope |
| RenderingProperties.IntendedAlwaysRenders | bootstrap/app.php:33-51 | with the intended types, every exception except a declined last resort renders an error envelope whose code is the table's and whose `request_id` is `header ?? attribute` unchanged |
| RenderingProperties.IntendedApiMatchesErrorHelper | app/Support/ApiResponse.php:24-34 | with the intended types, a domain exception renders exactly as `error($message, $status, $codeStr, $details)` would |
| RenderingProperties.IntendedAgreesWhenTypesHold | bootstrap/app.php:33-48 | whenever the as-written template renders, the intended one gives the same status and the same `error` part |
| RenderingProperties.IntendedIdMatchesHeader | app/Http/Middleware/RequestId.php:13-17 | with the intended types, behind the middleware the body's `request_id` equals the `X-Request-Id` header the middleware stamps |

## Left out

- Application bootstrapping, routing and middleware registration (bootstrap/app.php:15-23) are framework configuration and are not modelled.
- `shouldRenderJsonWhen` (bootstrap/app.php:25-27) is left out. So is the framework's preparation of an exception before the callbacks see it. For example, the framework turns a missing model into a route-not-found exception and an authorization exception into an access-denied HTTP exception. That is library code outside these files, so the model takes exceptions as they reach the callbacks.
- The framework's callback loop itself is library code. The model assumes it: callbacks run in registration order, a callback runs only when the exception is an instance of its closure's parameter type, a `null` answer moves on to the next callback, and a thrown error ends the loop.
- Where a `TypeError` thrown by the template goes next is framework behaviour and is not modelled. The same holds for the undefined-method error the middleware raises on a response without `header()`, and for a downstream exception it passes on.
- The framework's internal don't-report list and the reporting pipeline are left out; only membership in the application's own `dontReport` list is modelled.
- UUID generation (`Str::uuid()`) is randomness. It becomes the `freshId` parameter of the middleware.
- PHP's string-to-int argument coercion is the `IntCoercion` parameter, not a definition.
- JSON serialisation, the `Content-Type` header, the response class's status-range check, header-name case-insensitivity and multi-valued headers are not modelled. Responses are records of status, headers and body; the middleware distinguishes only whether the response class has the `header()` method.
- PHP floats and objects are not modelled. Neither is PHP's normalisation of numeric string keys to integer keys.
- Request attributes other than `request_id` are not modelled. That attribute is a string or absent, since the middleware only stores strings.
- The paginator is a record of its five accessor values; its implementation is not modelled.
- The validation callback's `method_exists($e, 'errors')` always holds for a validation exception, so the `null` branch is not modelled.
- Throttling exceptions' retry headers are not modelled.
- The template's default `$status = 500` is never used, because every callback passes a status. `Invocation` therefore always carries one.
- ApiResponse.Success: states the keys and values of the body and of its meta, not the order in which the keys are serialised.
- ApiResponse.Created: states keys and values, not key order.
- ApiResponse.Error: states keys and values, not key order.
- ApiResponse.Paginated: states keys and values, not key order.
- Envelopes.ErrorBody: states keys and values, not key order.

## Findings

| source | as written | input that shows it | evidently intended | confidence | as-written member | corrected member |
|---|---|---|---|---|---|---|
| bootstrap/app.php:34,83 | the template declares `string $textCode` but the domain-exception callback passes `$e->codeStr`, which is nullable and null by default | `new ApiException('out of stock')` thrown on any request | render the envelope with a null code, as `error()` does with its `?string $code` | high; not executed | RenderingProperties.DefaultApiExceptionThrows | RenderingProperties.IntendedApiMatchesErrorHelper |
| bootstrap/app.php:37,51 | the template declares `int $requestId` but receives the `X-Request-Id` header or the middleware's UUID string (or null) | a request without `X-Request-Id` whose generated UUID starts with a letter, e.g. `f47ac10b-58cc-4372-a567-0e02b2c3d479`, or one sent with header `abc` | echo the id as a string, as `requestMeta()` does | high for non-numeric ids; not executed | RenderingProperties.GeneratedIdThrows | RenderingProperties.IntendedIdMatchesHeader |
