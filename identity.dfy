/** Caller-identity propagation (`addUserIdentity` in SwaggerRouter.java):
    the delivery options of the event-bus message receive the principal's
    `name` and `token` as the headers `userName` and `userToken`. */
module Identity {
  import opened Wrappers
  import Responses

  /** The claims of an authenticated principal that the gateway forwards. */
  datatype User = User(name: string, token: string)

  type Header = (string, string)

  const UserNameKey: string := "userName"
  const UserTokenKey: string := "userToken"

  /** The Vert.x `RoutingContext` of one request: the authenticated user, if
      any (`context.user()`), and the response to write. */
  class RoutingContext {
    const user: Option<User>
    const response: Responses.HttpServerResponse

    constructor (user: Option<User>, response: Responses.HttpServerResponse)
      ensures this.user == user && this.response == response
    {
      this.user := user;
      this.response := response;
    }
  }

  /** The Vert.x `DeliveryOptions` of one message: its headers, in the order
      they were added. */
  class DeliveryOptions {
    var headers: seq<Header>

    constructor ()
      ensures headers == []
    {
      headers := [];
    }

    /** `addHeader(key, value)` appends; it does not replace. */
    method AddHeader(key: string, value: string)
      modifies this
      ensures headers == old(headers) + [(key, value)]
    {
      headers := headers + [(key, value)];
    }
  }

  /** The value of the first header named `key` (`MultiMap.get`). */
  function HeaderValue(headers: seq<Header>, key: string): (r: Option<string>)
    ensures r.None? <==> forall k :: 0 <= k < |headers| ==> headers[k].0 != key
    ensures r.Some? ==> exists k :: 0 <= k < |headers| && headers[k] == (key, r.value)
  {
    if headers == [] then None
    else if headers[0].0 == key then Some(headers[0].1)
    else
      var r := HeaderValue(headers[1..], key);
      assert forall k :: 0 < k < |headers| ==> headers[k] == headers[1..][k - 1];
      r
  }

  /** The headers `addUserIdentity` adds for a request's user. */
  function IdentityHeaders(user: Option<User>): seq<Header> {
    match user
    case None => []
    case Some(u) => [(UserNameKey, u.name), (UserTokenKey, u.token)]
  }

  /** The exception `addUserIdentity` raises for a null argument. */
  datatype IllegalArgument = IllegalArgument(message: string)

  /** `addUserIdentity(options, context)`: both arguments must be non-null,
      checked in that order before anything is written. */
  method AddUserIdentity(options: DeliveryOptions?, context: RoutingContext?) returns (error: Option<IllegalArgument>)
    modifies options
    ensures options == null ==> error == Some(IllegalArgument("DeliveryOptions cannot be null"))
    ensures options != null && context == null ==>
      error == Some(IllegalArgument("RoutingContext cannot be null")) && options.headers == old(options.headers)
    ensures options != null && context != null ==>
      error.None? && options.headers == old(options.headers) + IdentityHeaders(context.user)
  {
    if options == null {
      return Some(IllegalArgument("DeliveryOptions cannot be null"));
    }
    if context == null {
      return Some(IllegalArgument("RoutingContext cannot be null"));
    }
    if context.user.Some? {
      var user := context.user.value;
      options.AddHeader(UserNameKey, user.name);
      options.AddHeader(UserTokenKey, user.token);
    }
    return None;
  }

  /** On fresh delivery options, `userName` and `userToken` carry the
      principal's claims exactly when there is a user, and no other key is
      written. */
  lemma IdentityHeadersSpec(user: Option<User>)
    ensures HeaderValue(IdentityHeaders(user), UserNameKey) == if user.Some? then Some(user.value.name) else None
    ensures HeaderValue(IdentityHeaders(user), UserTokenKey) == if user.Some? then Some(user.value.token) else None
    ensures forall key :: key != UserNameKey && key != UserTokenKey ==> HeaderValue(IdentityHeaders(user), key).None?
  {
    if user.Some? {
      var hs := IdentityHeaders(user);
      assert hs[1..] == [(UserTokenKey, user.value.token)];
      assert UserNameKey != UserTokenKey;
    }
  }
}
