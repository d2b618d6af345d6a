/** The request handler each route installs (the lambda in `configureRoute`
    of SwaggerRouter.java): extract the declared parameters into a message,
    attach the caller's identity, send the message to the route's service
    address and turn the reply into the response; any exception while
    building the message ends the request with 400 Bad Request instead. */
module RequestHandler {
  import opened Wrappers
  import opened Responses
  import opened Identity

  /** A declared operation parameter: its name and its location (`in`). */
  datatype Parameter = Parameter(name: string, location: string)

  /** The part of a Swagger operation the gateway uses. `None` for consumes
      or produces is a null list. */
  datatype Operation = Operation(parameters: seq<Parameter>,
                                 consumes: Option<seq<string>>,
                                 produces: Option<seq<string>>)

  /** The keys of the extractor table `PARAMETER_EXTRACTORS`. */
  const ExtractorLocations: set<string> := {"path", "query", "header", "formData", "body"}

  /** One parameter's value: the extractor registered for its location
      applied to the current request. `extract` stands for the five
      extractors; its `None` is an exception they throw. A location outside the
      table makes the lookup return null, and the call throws. */
  function ExtractParameter<V>(p: Parameter, extract: Parameter -> Option<V>): (r: Option<V>)
    ensures p.location !in ExtractorLocations ==> r.None?
  {
    if p.location in ExtractorLocations then extract(p) else None
  }

  /** The message the handler builds: parameters are extracted in
      declaration order and `put` into an initially empty object; the first
      failure aborts the whole message. */
  function Envelope<V>(params: seq<Parameter>, extract: Parameter -> Option<V>): Option<map<string, V>>
  {
    if params == [] then Some(map[])
    else
      match Envelope(params[..|params| - 1], extract)
      case None => None
      case Some(message) =>
        var p := params[|params| - 1];
        match ExtractParameter(p, extract)
        case None => None
        case Some(v) => Some(message[p.name := v])
  }

  /** The loop that fills `message`, with the exception of a failing
      extraction as a `None` result. */
  method BuildMessage<V>(params: seq<Parameter>, extract: Parameter -> Option<V>)
    returns (result: Option<map<string, V>>)
    ensures result == Envelope(params, extract)
  {
    var message: map<string, V> := map[];
    var i := 0;
    while i < |params|
      invariant 0 <= i <= |params|
      invariant Envelope(params[..i], extract) == Some(message)
    {
      var p := params[i];
      assert params[..i + 1][..i] == params[..i];
      var value := ExtractParameter(p, extract);
      if value.None? {
        assert Envelope(params[..i + 1], extract).None?;
        EnvelopeFailurePersists(params, extract, i + 1);
        return None;
      }
      message := message[p.name := value.value];
      i := i + 1;
    }
    assert params[..i] == params;
    return Some(message);
  }

  /** A message that could not be built stays unbuilt however many
      parameters follow. */
  lemma {:induction false} EnvelopeFailurePersists<V>(params: seq<Parameter>, extract: Parameter -> Option<V>, n: nat)
    requires n <= |params| && Envelope(params[..n], extract).None?
    ensures Envelope(params, extract).None?
    decreases |params| - n
  {
    if n < |params| {
      assert params[..n + 1][..n] == params[..n];
      EnvelopeFailurePersists(params, extract, n + 1);
    } else {
      assert params[..n] == params;
    }
  }

  /** The message fails exactly when some declared parameter cannot be
      extracted, its location being unknown included. */
  lemma {:induction false} EnvelopeFailsIff<V>(params: seq<Parameter>, extract: Parameter -> Option<V>)
    ensures Envelope(params, extract).None? <==>
      exists i :: 0 <= i < |params| && ExtractParameter(params[i], extract).None?
  {
    if params != [] {
      var init := params[..|params| - 1];
      EnvelopeFailsIff(init, extract);
      assert forall i :: 0 <= i < |init| ==> init[i] == params[i];
      if exists i :: 0 <= i < |params| && ExtractParameter(params[i], extract).None? {
        var i :| 0 <= i < |params| && ExtractParameter(params[i], extract).None?;
        if i < |init| {
          assert ExtractParameter(init[i], extract).None?;
        }
      }
    }
  }

  /** The names the operation declares. */
  function Names(params: seq<Parameter>): set<string> {
    set i | 0 <= i < |params| :: params[i].name
  }

  lemma NamesSnoc(params: seq<Parameter>)
    requires params != []
    ensures Names(params) == Names(params[..|params| - 1]) + {params[|params| - 1].name}
  {
    var n := |params| - 1;
    var init := params[..n];
    forall x | x in Names(params) ensures x in Names(init) + {params[n].name} {
      var i :| 0 <= i < |params| && params[i].name == x;
      if i < n {
        assert init[i].name == x;
      }
    }
    forall x | x in Names(init) ensures x in Names(params) {
      var i :| 0 <= i < n && init[i].name == x;
      assert params[i].name == x;
    }
  }

  /** A built message has one key per declared parameter name. */
  lemma {:induction false} EnvelopeKeys<V>(params: seq<Parameter>, extract: Parameter -> Option<V>)
    requires Envelope(params, extract).Some?
    ensures Envelope(params, extract).value.Keys == Names(params)
  {
    if params != [] {
      EnvelopeKeys(params[..|params| - 1], extract);
      NamesSnoc(params);
    }
  }

  /** Each key of a built message holds the value of the last parameter of
      that name: a later parameter overwrites an earlier one. */
  lemma {:induction false} EnvelopeLastWins<V>(params: seq<Parameter>, extract: Parameter -> Option<V>, i: nat)
    requires Envelope(params, extract).Some?
    requires i < |params| && forall j :: i < j < |params| ==> params[j].name != params[i].name
    ensures params[i].name in Envelope(params, extract).value
    ensures Some(Envelope(params, extract).value[params[i].name]) == ExtractParameter(params[i], extract)
  {
    var n := |params| - 1;
    var init := params[..n];
    EnvelopeKeys(params, extract);
    if i < n {
      assert init[i] == params[i];
      assert forall j :: i < j < n ==> init[j] == params[j];
      EnvelopeLastWins(init, extract, i);
      EnvelopeKeys(init, extract);
    }
  }

  /** With distinct parameter names the message has exactly as many entries
      as the operation declares parameters. */
  lemma EnvelopeSize<V>(params: seq<Parameter>, extract: Parameter -> Option<V>)
    requires Envelope(params, extract).Some?
    requires forall i, j :: 0 <= i < j < |params| ==> params[i].name != params[j].name
    ensures |Envelope(params, extract).value| == |params|
  {
    EnvelopeKeys(params, extract);
    NamesCount(params);
  }

  lemma {:induction false} NamesCount(params: seq<Parameter>)
    requires forall i, j :: 0 <= i < j < |params| ==> params[i].name != params[j].name
    ensures |Names(params)| == |params|
  {
    if params != [] {
      var n := |params| - 1;
      var init := params[..n];
      NamesCount(init);
      NamesSnoc(params);
      forall x | x in Names(init) ensures x != params[n].name {
        var i :| 0 <= i < n && init[i].name == x;
        assert params[i].name == x;
      }
    }
  }

  /** What the handler hands to `eventBus.send`: the service address, the
      message, and the delivery-option headers. */
  datatype Dispatch<V> = Dispatch(address: string, message: map<string, V>, headers: seq<Header>)

  /** The handler for one request: whether a message was sent and what the
      response is. `transport` stands for the event bus and the backend,
      giving the one outcome the `send` callback receives. */
  function Handle<V>(serviceId: string, operation: Operation, user: Option<User>,
                     extract: Parameter -> Option<V>, transport: Dispatch<V> -> Outcome): (Option<Dispatch<V>>, Response)
  {
    match Envelope(operation.parameters, extract)
    case None => (None, BadRequest)
    case Some(message) =>
      var sent := Dispatch(serviceId, message, IdentityHeaders(user));
      (Some(sent), TranslateReply(transport(sent)))
  }

  /** Nothing is sent and the answer is 400 Bad Request with an empty body
      exactly when a declared parameter cannot be extracted. */
  lemma HandleBadRequest<V>(serviceId: string, operation: Operation, user: Option<User>,
                            extract: Parameter -> Option<V>, transport: Dispatch<V> -> Outcome)
    ensures var (sent, response) := Handle(serviceId, operation, user, extract, transport);
      && (sent.None? <==> exists i :: 0 <= i < |operation.parameters| &&
                                        ExtractParameter(operation.parameters[i], extract).None?)
      && (sent.None? ==> response == Response(400, Some("Bad Request"), ""))
  {
    EnvelopeFailsIff(operation.parameters, extract);
  }

  /** Otherwise one message goes to the route's service address, carrying
      every declared parameter and the identity headers, and the response is
      the translation of its outcome. */
  lemma HandleDispatch<V>(serviceId: string, operation: Operation, user: Option<User>,
                          extract: Parameter -> Option<V>, transport: Dispatch<V> -> Outcome)
    requires forall i :: 0 <= i < |operation.parameters| ==> ExtractParameter(operation.parameters[i], extract).Some?
    ensures var (sent, response) := Handle(serviceId, operation, user, extract, transport);
      && sent.Some?
      && sent.value.address == serviceId
      && sent.value.message.Keys == Names(operation.parameters)
      && HeaderValue(sent.value.headers, UserNameKey) == (if user.Some? then Some(user.value.name) else None)
      && HeaderValue(sent.value.headers, UserTokenKey) == (if user.Some? then Some(user.value.token) else None)
      && response == TranslateReply(transport(sent.value))
  {
    EnvelopeFailsIff(operation.parameters, extract);
    EnvelopeKeys(operation.parameters, extract);
    IdentityHeadersSpec(user);
  }

  /** The handler lambda, on the request's context: it writes the response
      and reports the message it sent, if any. */
  method HandleRequest<V>(serviceId: string, operation: Operation, context: RoutingContext,
                          extract: Parameter -> Option<V>, transport: Dispatch<V> -> Outcome)
    returns (sent: Option<Dispatch<V>>)
    requires context.response.Untouched()
    modifies context.response
    ensures context.response.ended.Some?
    ensures (sent, context.response.Sent()) == Handle(serviceId, operation, context.user, extract, transport)
  {
    var message := BuildMessage(operation.parameters, extract);
    if message.None? {
      BadRequestEnd(context.response);
      return None;
    }
    var options := new DeliveryOptions();
    // With both arguments non-null, addUserIdentity cannot throw here.
    var error := AddUserIdentity(options, context);
    assert options.headers == IdentityHeaders(context.user);
    var dispatch := Dispatch(serviceId, message.value, options.headers);
    OnReply(transport(dispatch), context.response);
    return Some(dispatch);
  }
}
