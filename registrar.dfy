/** Route registration (`swaggerRouter` and `configureRoute` in
    SwaggerRouter.java): for every path of the Swagger contract and every
    operation under it, a route for the operation's method at the translated
    path, with the operation's content types and a handler bound to the
    operation's service address. */
module Registrar {
  import opened Wrappers
  import opened ServiceAddress
  import opened PathTemplate
  import opened RequestHandler

  /** The request handler a route is given: the service address and the
      operation it serves. */
  datatype Handler = Handler(serviceId: string, operation: Operation)

  /** The observable configuration of a Vert.x route. */
  datatype RouteRecord = RouteRecord(httpMethod: HttpMethod, path: string,
                                     consumes: seq<string>, produces: seq<string>,
                                     handler: Option<Handler>)

  /** A Vert.x `Route`: method and path are fixed when the router creates it;
      `consumes`, `produces` and `handler` configure it afterwards. */
  class Route {
    const httpMethod: HttpMethod
    const path: string
    var consumes: seq<string>
    var produces: seq<string>
    var handler: Option<Handler>

    function Record(): RouteRecord
      reads this
    {
      RouteRecord(httpMethod, path, consumes, produces, handler)
    }

    constructor (httpMethod: HttpMethod, path: string)
      ensures Record() == RouteRecord(httpMethod, path, [], [], None)
    {
      this.httpMethod := httpMethod;
      this.path := path;
      consumes, produces, handler := [], [], None;
    }

    method Consumes(contentType: string)
      modifies this
      ensures Record() == old(Record()).(consumes := old(consumes) + [contentType])
    {
      consumes := consumes + [contentType];
    }

    method Produces(contentType: string)
      modifies this
      ensures Record() == old(Record()).(produces := old(produces) + [contentType])
    {
      produces := produces + [contentType];
    }

    method SetHandler(h: Handler)
      modifies this
      ensures Record() == old(Record()).(handler := Some(h))
    {
      handler := Some(h);
    }
  }

  /** The configuration of a sequence of routes. */
  function Records(routes: seq<Route>): (r: seq<RouteRecord>)
    reads routes
    ensures |r| == |routes|
  {
    if routes == [] then []
    else Records(routes[..|routes| - 1]) + [routes[|routes| - 1].Record()]
  }

  /** A Vert.x `Router`: the routes in the order they were created. */
  class Router {
    var routes: seq<Route>

    constructor ()
      ensures routes == []
    {
      routes := [];
    }

    /** `router.get(path)`, `router.post(path)`, ...: the route builder of
        `ROUTE_BUILDERS` for the method, which covers every method. */
    method Route(httpMethod: HttpMethod, path: string) returns (route: Route)
      modifies this
      ensures fresh(route) && routes == old(routes) + [route]
      ensures route.Record() == RouteRecord(httpMethod, path, [], [], None)
    {
      route := new Route(httpMethod, path);
      routes := routes + [route];
    }
  }

  /** A Swagger path item: its operations, one per method. */
  datatype PathItem = PathItem(operations: seq<(HttpMethod, Operation)>)

  /** The parsed Swagger contract: its paths, in the order `getPaths()`
      iterates them. */
  datatype Swagger = Swagger(paths: seq<(string, PathItem)>)

  /** How `configureRoute` leaves a route: null lists add no content type. */
  function Configured(route: RouteRecord, serviceId: string, operation: Operation): RouteRecord {
    route.(consumes := route.consumes + operation.consumes.GetOr([]),
           produces := route.produces + operation.produces.GetOr([]),
           handler := Some(Handler(serviceId, operation)))
  }

  /** `configureRoute(route, serviceId, operation, eventBus)`. */
  method ConfigureRoute(route: Route, serviceId: string, operation: Operation)
    modifies route
    ensures route.Record() == Configured(old(route.Record()), serviceId, operation)
  {
    var consumes := operation.consumes.GetOr([]);
    var i := 0;
    while i < |consumes|
      invariant 0 <= i <= |consumes|
      invariant route.Record() == old(route.Record()).(consumes := old(route.consumes) + consumes[..i])
    {
      route.Consumes(consumes[i]);
      assert consumes[..i + 1] == consumes[..i] + [consumes[i]];
      i := i + 1;
    }
    assert consumes[..i] == consumes;
    var produces := operation.produces.GetOr([]);
    var j := 0;
    while j < |produces|
      invariant 0 <= j <= |produces|
      invariant route.Record() ==
        old(route.Record()).(consumes := old(route.consumes) + consumes,
                             produces := old(route.produces) + produces[..j])
    {
      route.Produces(produces[j]);
      assert produces[..j + 1] == produces[..j] + [produces[j]];
      j := j + 1;
    }
    assert produces[..j] == produces;
    route.SetHandler(Handler(serviceId, operation));
  }

  /** The route registered for one operation of one path. */
  function RouteFor(path: string, httpMethod: HttpMethod, operation: Operation): RouteRecord {
    Configured(RouteRecord(httpMethod, ConvertParametersToVertx(path), [], [], None),
               ComputeServiceId(httpMethod, path), operation)
  }

  /** The route registered for one (method, operation) entry of a path. */
  function RouteOf(path: string, entry: (HttpMethod, Operation)): RouteRecord {
    RouteFor(path, entry.0, entry.1)
  }

  /** The routes of one path, in the order of its operations. */
  function PathRoutes(path: string, operations: seq<(HttpMethod, Operation)>): (r: seq<RouteRecord>)
    ensures |r| == |operations|
  {
    MapWith(path, operations, RouteOf)
  }

  /** `f(c, x)` for each `x` of `xs`, in order. */
  function MapWith<C, A, B>(c: C, xs: seq<A>, f: (C, A) -> B): (r: seq<B>)
    ensures |r| == |xs|
  {
    if xs == [] then [] else MapWith(c, xs[..|xs| - 1], f) + [f(c, xs[|xs| - 1])]
  }

  lemma {:induction false} MapWithAt<C, A, B>(c: C, xs: seq<A>, f: (C, A) -> B, k: nat)
    requires k < |xs|
    ensures MapWith(c, xs, f)[k] == f(c, xs[k])
  {
    var n := |xs| - 1;
    if k < n {
      MapWithAt(c, xs[..n], f, k);
      assert xs[..n][k] == xs[k];
    }
  }

  lemma MapWithSnoc<C, A, B>(start: seq<B>, c: C, xs: seq<A>, f: (C, A) -> B, k: nat)
    requires k < |xs|
    ensures start + MapWith(c, xs[..k + 1], f) == (start + MapWith(c, xs[..k], f)) + [f(c, xs[k])]
  {
    assert xs[..k + 1][..k] == xs[..k];
  }

  /** The routes of one entry of the contract's path map. */
  function EntryRoutes(entry: (string, PathItem)): seq<RouteRecord> {
    PathRoutes(entry.0, entry.1.operations)
  }

  /** The routes of a whole contract, path by path. */
  function SwaggerRoutes(paths: seq<(string, PathItem)>): seq<RouteRecord> {
    ConcatMap(paths, EntryRoutes)
  }

  /** `xs` mapped to sequences by `f`, concatenated in order. */
  function ConcatMap<A, B>(xs: seq<A>, f: A -> seq<B>): seq<B> {
    if xs == [] then [] else ConcatMap(xs[..|xs| - 1], f) + f(xs[|xs| - 1])
  }

  lemma ConcatMapSnoc<A, B>(start: seq<B>, xs: seq<A>, f: A -> seq<B>, i: nat)
    requires i < |xs|
    ensures start + ConcatMap(xs[..i + 1], f) == (start + ConcatMap(xs[..i], f)) + f(xs[i])
  {
    assert xs[..i + 1][..i] == xs[..i];
  }

  /** What `f` gives for any element is part of the concatenation... */
  lemma {:induction false} ConcatMapHas<A, B>(xs: seq<A>, f: A -> seq<B>, i: nat, y: B)
    requires i < |xs| && y in f(xs[i])
    ensures y in ConcatMap(xs, f)
  {
    var n := |xs| - 1;
    if i < n {
      assert xs[..n][i] == xs[i];
      ConcatMapHas(xs[..n], f, i, y);
    }
  }

  /** ...and nothing else is. */
  lemma {:induction false} ConcatMapOnly<A, B>(xs: seq<A>, f: A -> seq<B>, y: B)
    requires y in ConcatMap(xs, f)
    ensures exists i :: 0 <= i < |xs| && y in f(xs[i])
  {
    var n := |xs| - 1;
    if y in ConcatMap(xs[..n], f) {
      ConcatMapOnly(xs[..n], f, y);
      var i :| 0 <= i < n && y in f(xs[..n][i]);
      assert xs[..n][i] == xs[i];
    } else {
      assert y in f(xs[n]);
    }
  }

  /** `swaggerRouter(baseRouter, swagger, eventBus)`: adds the contract's
      routes after those the router already has, and returns the router. */
  method SwaggerRouter(baseRouter: Router, swagger: Swagger) returns (router: Router)
    modifies baseRouter
    ensures router == baseRouter
    ensures Records(router.routes) == old(Records(baseRouter.routes)) + SwaggerRoutes(swagger.paths)
  {
    var paths := swagger.paths;
    ghost var start := Records(baseRouter.routes);
    var i := 0;
    while i < |paths|
      invariant 0 <= i <= |paths|
      invariant Records(baseRouter.routes) == start + SwaggerRoutes(paths[..i])
    {
      RegisterPath(baseRouter, paths[i].0, paths[i].1);
      ConcatMapSnoc(start, paths, EntryRoutes, i);
      i := i + 1;
    }
    assert paths[..i] == paths;
    router := baseRouter;
  }

  /** The inner `forEach` of `swaggerRouter`: one route per operation of a
      path. */
  method RegisterPath(router: Router, path: string, item: PathItem)
    modifies router
    ensures Records(router.routes) == old(Records(router.routes)) + PathRoutes(path, item.operations)
  {
    var operations := item.operations;
    ghost var start := Records(router.routes);
    var k := 0;
    while k < |operations|
      invariant 0 <= k <= |operations|
      invariant Records(router.routes) == start + PathRoutes(path, operations[..k])
    {
      RegisterOperation(router, path, operations[k].0, operations[k].1);
      PathRoutesSnoc(start, path, operations, k);
      k := k + 1;
    }
    assert operations[..k] == operations;
  }

  lemma PathRoutesSnoc(start: seq<RouteRecord>, path: string, operations: seq<(HttpMethod, Operation)>, k: nat)
    requires k < |operations|
    ensures start + PathRoutes(path, operations[..k + 1]) ==
            (start + PathRoutes(path, operations[..k])) + [RouteFor(path, operations[k].0, operations[k].1)]
  {
    MapWithSnoc(start, path, operations, RouteOf, k);
  }

  /** The body of the inner `forEach`: build the route, compute the service
      address, configure the route. */
  method RegisterOperation(router: Router, path: string, httpMethod: HttpMethod, operation: Operation)
    modifies router
    ensures Records(router.routes) == old(Records(router.routes)) + [RouteFor(path, httpMethod, operation)]
  {
    ghost var before := router.routes;
    var route := router.Route(httpMethod, ConvertParametersToVertx(path));
    var serviceId := ComputeServiceId(httpMethod, path);
    ConfigureRoute(route, serviceId, operation);
    assert router.routes[..|router.routes| - 1] == before;
  }

  /** The number of (path, method) pairs of a contract. */
  function OperationCount(paths: seq<(string, PathItem)>): nat {
    if paths == [] then 0
    else OperationCount(paths[..|paths| - 1]) + |paths[|paths| - 1].1.operations|
  }

  /** Exactly one route is registered per (path, method) pair... */
  lemma {:induction false} SwaggerRoutesCount(paths: seq<(string, PathItem)>)
    ensures |SwaggerRoutes(paths)| == OperationCount(paths)
  {
    if paths != [] {
      SwaggerRoutesCount(paths[..|paths| - 1]);
    }
  }

  /** Route `r` is the one registered for operation `k` of path `i`. */
  predicate RegisteredFor(paths: seq<(string, PathItem)>, i: int, k: int, r: RouteRecord) {
    0 <= i < |paths| && 0 <= k < |paths[i].1.operations| &&
    r == RouteFor(paths[i].0, paths[i].1.operations[k].0, paths[i].1.operations[k].1)
  }

  /** ...and the routes of a contract are exactly the routes of its
      operations: translated path, method, content types, and a handler bound
      to the service address of the method and the original path. */
  lemma SwaggerRoutesAre(paths: seq<(string, PathItem)>, r: RouteRecord)
    ensures r in SwaggerRoutes(paths) <==> exists i, k :: RegisteredFor(paths, i, k, r)
  {
    if r in SwaggerRoutes(paths) {
      ConcatMapOnly(paths, EntryRoutes, r);
      var i :| 0 <= i < |paths| && r in EntryRoutes(paths[i]);
      PathRoutesAre(paths[i].0, paths[i].1.operations, r);
      var k :| 0 <= k < |paths[i].1.operations| &&
               r == RouteFor(paths[i].0, paths[i].1.operations[k].0, paths[i].1.operations[k].1);
      assert RegisteredFor(paths, i, k, r);
    }
    if exists i, k :: RegisteredFor(paths, i, k, r) {
      var i, k :| RegisteredFor(paths, i, k, r);
      PathRoutesAt(paths[i].0, paths[i].1.operations, k);
      ConcatMapHas(paths, EntryRoutes, i, r);
    }
  }

  /** The routes of one path are exactly the routes of its operations. */
  lemma PathRoutesAre(path: string, operations: seq<(HttpMethod, Operation)>, r: RouteRecord)
    ensures r in PathRoutes(path, operations) <==>
      exists k :: 0 <= k < |operations| && r == RouteFor(path, operations[k].0, operations[k].1)
  {
    forall k | 0 <= k < |operations|
      ensures PathRoutes(path, operations)[k] == RouteFor(path, operations[k].0, operations[k].1)
    {
      PathRoutesAt(path, operations, k);
    }
  }

  /** Two operations of one path never share a service address, since their
      methods differ. */
  lemma PathRoutesSeparateMethods(path: string, operations: seq<(HttpMethod, Operation)>, k1: nat, k2: nat)
    requires k1 < |operations| && k2 < |operations| && operations[k1].0 != operations[k2].0
    ensures PathRoutes(path, operations)[k1].handler.Some? && PathRoutes(path, operations)[k2].handler.Some?
    ensures PathRoutes(path, operations)[k1].handler.value.serviceId !=
            PathRoutes(path, operations)[k2].handler.value.serviceId
  {
    PathRoutesAt(path, operations, k1);
    PathRoutesAt(path, operations, k2);
    ServiceIdSeparatesMethods(operations[k1].0, operations[k2].0, path, path);
  }

  lemma PathRoutesAt(path: string, operations: seq<(HttpMethod, Operation)>, k: nat)
    requires k < |operations|
    ensures PathRoutes(path, operations)[k] == RouteFor(path, operations[k].0, operations[k].1)
  {
    MapWithAt(path, operations, RouteOf, k);
  }
}
