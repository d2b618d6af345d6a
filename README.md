# SwaggerRouter of vertx-swagger, modelled in Dafny

vertx-swagger turns a Swagger (OpenAPI 2) contract into a Vert.x HTTP gateway.
For every operation of the contract (a path template and an HTTP method) the
class `SwaggerRouter` does the following:

- it registers a Vert.x route at the path, translated from Swagger's
  `{param}` syntax to Vert.x's `:param` syntax;
- it gives the route the operation's `consumes`/`produces` content types;
- it installs a handler that builds a JSON message from the declared
  parameters, attaches the caller's identity, and sends the message over the
  event bus to a service address derived from the method and the path;
- it turns the backend's reply, or the transport's failure, into the HTTP
  response.

The model has one module per part of that work:

- `ServiceAddress`: `computeServiceId`, the method name followed by the path
  with `-` and `/` folded to `_` and the braces dropped.
- `PathTemplate`: `convertParametersToVertx`, one `replaceAll` of the Java
  regular expression `\{(.*)\}`, with its greedy `.*` and its `.`, which
  does not match line terminators.
- `JavaInt`: the parts of `Integer.parseInt` and of `int`-to-string
  conversion that the reply translation relies on.
- `Responses`: the `send` callback and the helpers `customHttpResponseEnd`,
  `internalServerErrorEnd` and `badRequestEnd`. It gives the whole reply
  translation as a pure function, `TranslateReply`. It also gives the same
  steps as methods on an `HttpServerResponse` class, proved to write exactly
  that function's result.
- `Identity`: `addUserIdentity` on a `DeliveryOptions` class, including its
  two null checks.
- `RequestHandler`: the route handler. A loop fills the message, and a
  failing extraction ends the request with 400. The method `HandleRequest`
  is proved equal to the function `Handle`.
- `Registrar`: `swaggerRouter` and `configureRoute` on `Router` and `Route`
  classes. The nested `forEach` loops are proved to append exactly the
  routes given by the function `SwaggerRoutes`, one per (path, method) pair.

Where the event bus, the backend and the parameter extractors act, the model
takes their result as a parameter:

- `transport` gives the one outcome the `send` callback receives;
- `extract` gives a parameter's value, or `None` where the extractor throws.

One might expect every `{x}` of a path to become `:x`. The greedy `.*` of
`\{(.*)\}` does not do this. On a path without line terminators there is at
most one match. It runs from the first `{` to the last `}` after it, so
`/a/{x}/b/{y}` becomes `/a/:x}/b/{y`. The model follows the code
(`PathTemplate.ConvertIsGreedyRewrite`, `PathTemplate.ConvertTwoParameters`).

## Model

All source paths are under `modules/vertx-swagger-router/src/main/java/io/vertx/ext/swagger/router/`.

| member | source | states |
|---|---|---|
| ServiceAddress.Name | modules/vertx-swagger-router/src/main/java/io/vertx/ext/swagger/router/SwaggerRouter.java:132 | `httpMethod.name()` has at least three characters, all capital letters |
| ServiceAddress.ReplaceChar | modules/vertx-swagger-router/src/main/java/io/vertx/ext/swagger/router/SwaggerRouter.java:132 | a one-character `replaceAll` keeps the length and replaces exactly the occurrences of that character |
| ServiceAddress.RemoveBraces | modules/vertx-swagger-router/src/main/java/io/vertx/ext/swagger/router/SwaggerRouter.java:132 | `replaceAll("[{}]", "")` leaves no brace, shortens the string by its number of braces, and changes nothing in a brace-free string |
| ServiceAddress.ServiceIdIsOnePass | modules/vertx-swagger-router/src/main/java/io/vertx/ext/swagger/router/SwaggerRouter.java:131-133 | the three chained `replaceAll` calls equal one pass over the path that drops braces and folds `-` and `/` to `_` |
| ServiceAddress.ServiceIdShape | modules/vertx-swagger-router/src/main/java/io/vertx/ext/swagger/router/SwaggerRouter.java:131-133 | the address starts with the method name, has no `-`, `/`, `{` or `}`, and is as long as the name plus the path minus its braces |
| ServiceAddress.ServiceIdRecoversPlainPath | modules/vertx-swagger-router/src/main/java/io/vertx/ext/swagger/router/SwaggerRouter.java:132 | for a path without `-`, `_` and braces, turning the address's `_` back into `/` gives the path again |
| ServiceAddress.ServiceIdInjectiveOnPlainPaths | modules/vertx-swagger-router/src/main/java/io/vertx/ext/swagger/router/SwaggerRouter.java:132 | under one method, two such plain paths with the same address are the same path |
| ServiceAddress.ServiceIdSeparatesMethods | modules/vertx-swagger-router/src/main/java/io/vertx/ext/swagger/router/SwaggerRouter.java:132 | two different methods never give the same address, whatever the two paths are |
| ServiceAddress.ServiceIdCollisions | modules/vertx-swagger-router/src/main/java/io/vertx/ext/swagger/router/SwaggerRouter.java:132 | the address is not injective: GET `/a-b`, `/a/b` and `/a_b` all give `GET_a_b` |
| ServiceAddress.ServiceIdIgnoresBraces | modules/vertx-swagger-router/src/main/java/io/vertx/ext/swagger/router/SwaggerRouter.java:132 | GET `/{id}` and GET `/id` share the address `GET_id` |
| ServiceAddress.AddressOfBraceFree | modules/vertx-swagger-router/src/main/java/io/vertx/ext/swagger/router/SwaggerRouter.java:132 | on a brace-free path the address part keeps the length and folds each character on its own |
| PathTemplate.MatchEnd | modules/vertx-swagger-router/src/main/java/io/vertx/ext/swagger/router/SwaggerRouter.java:37 | a match of `\{(.*)\}` starting at a `{` ends at the last `}` before the first line terminator, and there is none when no `}` lies within reach |
| PathTemplate.ConvertParametersToVertx | modules/vertx-swagger-router/src/main/java/io/vertx/ext/swagger/router/SwaggerRouter.java:126-129 | the translated path is never longer than the template |
| PathTemplate.ConvertWithoutMatch | modules/vertx-swagger-router/src/main/java/io/vertx/ext/swagger/router/SwaggerRouter.java:126-129 | a path where no `{` has a later `}` comes back unchanged |
| PathTemplate.ConvertIsGreedyRewrite | modules/vertx-swagger-router/src/main/java/io/vertx/ext/swagger/router/SwaggerRouter.java:126-129 | on a path without line terminators the translation turns the first `{` into `:` and drops the last `}`, provided that `}` comes after the `{` |
| PathTemplate.ConvertLength | modules/vertx-swagger-router/src/main/java/io/vertx/ext/swagger/router/SwaggerRouter.java:126-129 | on one line the translation removes exactly one character if some `{` has a later `}`, and none otherwise |
| PathTemplate.ConvertOneParameter | modules/vertx-swagger-router/src/main/java/io/vertx/ext/swagger/router/SwaggerRouter.java:126-129 | `/pets/{petId}` becomes `/pets/:petId` |
| PathTemplate.ConvertTwoParameters | modules/vertx-swagger-router/src/main/java/io/vertx/ext/swagger/router/SwaggerRouter.java:126-129 | `/a/{x}/b/{y}` becomes `/a/:x}/b/{y`, not `/a/:x/b/:y` |
| JavaInt.ParseInt | modules/vertx-swagger-router/src/main/java/io/vertx/ext/swagger/router/SwaggerRouter.java:138 | `Integer.parseInt` yields a 32-bit value, and only for text that starts with a digit or a sign |
| JavaInt.ParseIntReadsDigits | modules/vertx-swagger-router/src/main/java/io/vertx/ext/swagger/router/SwaggerRouter.java:138 | accepted text is an optional sign and digits which, without leading zeros, are the decimal form of the result's magnitude; only a `-` gives a negative result |
| JavaInt.ParseIntAcceptsPadded | modules/vertx-swagger-router/src/main/java/io/vertx/ext/swagger/router/SwaggerRouter.java:138 | every 32-bit number is read back from its decimal form with any leading zeros, after `+`, `-` (when not positive) or no sign |
| JavaInt.ParseIntRefusesOverflow | modules/vertx-swagger-router/src/main/java/io/vertx/ext/swagger/router/SwaggerRouter.java:138 | digits whose value is outside the 32-bit range are refused, with any sign and any leading zeros |
| JavaInt.ParseIntPaddedExample | modules/vertx-swagger-router/src/main/java/io/vertx/ext/swagger/router/SwaggerRouter.java:138 | `+007` is read as 7 |
| JavaInt.ParseIntRejectsNonDigit | modules/vertx-swagger-router/src/main/java/io/vertx/ext/swagger/router/SwaggerRouter.java:138 | a non-digit after the optional sign makes `parseInt` fail |
| JavaInt.ParseIntRejectsEmptyDigits | modules/vertx-swagger-router/src/main/java/io/vertx/ext/swagger/router/SwaggerRouter.java:138 | an empty string or a lone sign makes `parseInt` fail |
| JavaInt.IntToString | modules/vertx-swagger-router/src/main/java/io/vertx/ext/swagger/router/SwaggerRouter.java:139 | the decimal form of an `int` starts with `-` exactly for a negative number |
| JavaInt.ParseIntToString | modules/vertx-swagger-router/src/main/java/io/vertx/ext/swagger/router/SwaggerRouter.java:138-139 | `parseInt` reads back the decimal form of every 32-bit integer |
| Responses.TranslateReplyBody | modules/vertx-swagger-router/src/main/java/io/vertx/ext/swagger/router/SwaggerRouter.java:88-101 | the body is the reply's body verbatim, empty for a null body, and empty on a transport failure |
| Responses.TranslateReplyStatus | modules/vertx-swagger-router/src/main/java/io/vertx/ext/swagger/router/SwaggerRouter.java:88-101 | the status is 500 on failure; it is the parsed override when the reply has a body and a status-code header that parses; otherwise it is the default 200 |
| Responses.TranslateReplyMessage | modules/vertx-swagger-router/src/main/java/io/vertx/ext/swagger/router/SwaggerRouter.java:135-147 | a status message is set exactly on failure or on an applied override; it is then the reply's message header if present, else `Service Unavailable (<code>)` |
| Responses.ServiceUnavailableNamesCode | modules/vertx-swagger-router/src/main/java/io/vertx/ext/swagger/router/SwaggerRouter.java:139 | the generated message holds the code in a decimal form that `parseInt` reads back |
| Responses.ServiceUnavailableExample | modules/vertx-swagger-router/src/main/java/io/vertx/ext/swagger/router/SwaggerRouter.java:135-147 | an override `503` without a message gives `503 Service Unavailable (503)` with the body unchanged |
| Responses.MalformedOverrideIgnored | modules/vertx-swagger-router/src/main/java/io/vertx/ext/swagger/router/SwaggerRouter.java:144-147 | an unparsable status code leaves the default status and no message, and the body is still written |
| Responses.InternalServerErrorEnd | modules/vertx-swagger-router/src/main/java/io/vertx/ext/swagger/router/SwaggerRouter.java:150-152 | the response ends with 500, `Internal Server Error` and an empty body |
| Responses.BadRequestEnd | modules/vertx-swagger-router/src/main/java/io/vertx/ext/swagger/router/SwaggerRouter.java:154-156 | the response ends with 400, `Bad Request` and an empty body |
| Responses.CustomHttpResponseEnd | modules/vertx-swagger-router/src/main/java/io/vertx/ext/swagger/router/SwaggerRouter.java:135-148 | the body is always written; a parsable code sets the status and the message (header or generated); an unparsable one changes neither |
| Responses.OnReply | modules/vertx-swagger-router/src/main/java/io/vertx/ext/swagger/router/SwaggerRouter.java:88-102 | the callback leaves on a fresh response exactly `TranslateReply(outcome)` |
| Identity.AddUserIdentity | modules/vertx-swagger-router/src/main/java/io/vertx/ext/swagger/router/SwaggerRouter.java:112-124 | null options, then null context, raise `IllegalArgumentException` with their messages and write nothing; otherwise exactly the identity headers are appended |
| Identity.IdentityHeadersSpec | modules/vertx-swagger-router/src/main/java/io/vertx/ext/swagger/router/SwaggerRouter.java:119-123 | `userName` and `userToken` carry the principal's `name` and `token` exactly when there is a user; no other key is written |
| RequestHandler.ExtractParameter | modules/vertx-swagger-router/src/main/java/io/vertx/ext/swagger/router/SwaggerRouter.java:81 | a location outside the five extractor keys always fails |
| RequestHandler.BuildMessage | modules/vertx-swagger-router/src/main/java/io/vertx/ext/swagger/router/SwaggerRouter.java:78-83 | the `put` loop computes `Envelope`, the in-order fold over the declared parameters |
| RequestHandler.EnvelopeFailsIff | modules/vertx-swagger-router/src/main/java/io/vertx/ext/swagger/router/SwaggerRouter.java:79-83 | the message fails exactly when some declared parameter cannot be extracted |
| RequestHandler.EnvelopeKeys | modules/vertx-swagger-router/src/main/java/io/vertx/ext/swagger/router/SwaggerRouter.java:78-83 | a built message has exactly the declared parameter names as keys |
| RequestHandler.EnvelopeLastWins | modules/vertx-swagger-router/src/main/java/io/vertx/ext/swagger/router/SwaggerRouter.java:82 | each key holds the value of the last parameter with that name |
| RequestHandler.EnvelopeSize | modules/vertx-swagger-router/src/main/java/io/vertx/ext/swagger/router/SwaggerRouter.java:78-83 | with distinct names the message has one entry per declared parameter |
| RequestHandler.HandleBadRequest | modules/vertx-swagger-router/src/main/java/io/vertx/ext/swagger/router/SwaggerRouter.java:103-106 | nothing is sent exactly when an extraction fails, and the answer is then 400 `Bad Request` with an empty body |
| RequestHandler.HandleDispatch | modules/vertx-swagger-router/src/main/java/io/vertx/ext/swagger/router/SwaggerRouter.java:85-88 | otherwise one message goes to the service address with every declared parameter and the identity headers, and the response translates its outcome |
| RequestHandler.HandleRequest | modules/vertx-swagger-router/src/main/java/io/vertx/ext/swagger/router/SwaggerRouter.java:76-108 | the handler's send and its written response are those of `Handle` |
| Registrar.Router.Route | modules/vertx-swagger-router/src/main/java/io/vertx/ext/swagger/router/SwaggerRouter.java:38-48 | the route builder of every method appends one fresh, unconfigured route with that method and path |
| Registrar.ConfigureRoute | modules/vertx-swagger-router/src/main/java/io/vertx/ext/swagger/router/SwaggerRouter.java:72-76 | the route gains the operation's consumes and produces in order (nothing for a null list) and a handler for the service address |
| Registrar.RegisterOperation | modules/vertx-swagger-router/src/main/java/io/vertx/ext/swagger/router/SwaggerRouter.java:64-66 | one operation appends exactly its route: translated path, method, content types, handler |
| Registrar.RegisterPath | modules/vertx-swagger-router/src/main/java/io/vertx/ext/swagger/router/SwaggerRouter.java:63-67 | one path appends the routes of its operations in order |
| Registrar.SwaggerRouter | modules/vertx-swagger-router/src/main/java/io/vertx/ext/swagger/router/SwaggerRouter.java:60-70 | the routes already on the router stay, the contract's routes follow in order, and the same router is returned |
| Registrar.SwaggerRoutesCount | modules/vertx-swagger-router/src/main/java/io/vertx/ext/swagger/router/SwaggerRouter.java:63-67 | one route is registered per (path, method) pair |
| Registrar.SwaggerRoutesAre | modules/vertx-swagger-router/src/main/java/io/vertx/ext/swagger/router/SwaggerRouter.java:63-67 | a route is registered exactly when it is the route of some operation of some path |
| Registrar.PathRoutesAt | modules/vertx-swagger-router/src/main/java/io/vertx/ext/swagger/router/SwaggerRouter.java:63-66 | the k-th route of a path is the route of its k-th operation |
| Registrar.PathRoutesSeparateMethods | modules/vertx-swagger-router/src/main/java/io/vertx/ext/swagger/router/SwaggerRouter.java:65 | two operations of one path with different methods never share a service address |

## Left out

- Vert.x internals are not modelled: routing, content-type negotiation,
  event-bus delivery and reply timeouts. The event bus and the backend are
  the `transport` parameter, which gives the single outcome the `send`
  callback receives. The callback's asynchronous scheduling is not modelled.
- The concrete extractors (`PathParameterExtractor`, `QueryParameterExtractor`
  and the others) are not modelled. They are the `extract` parameter, whose
  `None` stands for any exception they throw.
- JSON encoding of the message and `body().toString()` are not modelled:
  values are an abstract type and bodies are opaque strings.
- Logging (`VERTX_LOGGER.debug`) is left out. It has no effect on the response.
- The reply's headers are reduced to the two the gateway reads. These are the
  status code and status message, whose `EventBusHeaders` key strings are not
  part of this model.
- Responses.HttpServerResponse: the status range check of `setStatusCode` is
  not modelled.
- JavaInt.ParseInt: `Integer.parseInt` also accepts non-ASCII Unicode digits;
  the model accepts only ASCII digits.
- Responses.HttpServerResponse.End: a second `end` (which Vert.x rejects) is
  excluded by a precondition, because the handler ends each response once.
- RequestHandler.HandleRequest: it assumes a response nobody has written yet,
  which is what a route handler receives.
- Identity.AddUserIdentity: the model takes the principal's `name` and
  `token` claims as strings. It does not model claims that are missing from
  the principal, nor `addHeader`'s rejection of a null value.
- RequestHandler.HandleBadRequest: its "nothing is sent exactly when an
  extraction fails" holds only for principals that carry both claims. In the
  source, a missing `name` or `token` makes `addHeader` throw, and the `catch`
  at SwaggerRouter.java:103-106 answers 400 with nothing sent.
- A contract whose `getPaths()` is null is not modelled; the model's
  contract always has a (possibly empty) path list.
- UserIdentity.java is not part of this model: it is a getter/setter
  interface with no logic.
