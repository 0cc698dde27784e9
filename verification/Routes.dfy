/** Routes and routers as a tree, and what dispatching one request through the tree does to
    the state of the exchange. */
module Routes {
  import opened Text
  import opened KeyedLists
  import opened Message
  import opened Response
  import opened Sessions
  import opened Callbacks

  // ----- what handlers see and may do

  /** The parts of a request that routing never changes. */
  datatype Facts = Facts(
    verb: HttpMethod,
    domain: string,
    port: int,
    ssl: bool,
    query: Option<string>,
    headers: seq<Pair>,
    cookies: seq<Cookie>,
    contentLength: nat,
    userAgent: Option<string>,
    authorization: Option<string>)

  /** What a handler can read: the request, the resource relative to its router, the mount
      paths joined into its base path, and the connection's request counter. */
  datatype View = View(facts: Facts, resource: Option<string>, basePath: seq<string>, counter: nat)

  /** What a handler can change. */
  datatype Exchange = Exchange(connection: ConnectionType, reply: Reply, table: map<string, Session>)

  datatype Load = LoadNothing | LoadText | LoadFile
  datatype Loaded = NotLoaded | AsText(text: Option<string>) | AsFile(result: FileResult)
  datatype Decision = Continue | Done
  datatype Answer = Answer(exchange: Exchange, callbacks: seq<nat>, decision: Decision)

  /** An application handler: it may load the body, and then answers or passes. */
  datatype Handler = Handler(
    load: (View, Exchange) -> Load,
    respond: (View, Exchange, Loaded) -> Answer)

  datatype Serve =
    | NoServe
    | Application(handler: Handler)
    | MaxRequests(limit: nat)
    | SessionRoute(context: SessionContext)
    | Mount(router: Router)

  datatype Route = Route(path: Option<string>, isParent: bool, verbs: set<HttpMethod>, serve: Serve)

  datatype Router = Router(routes: seq<Route>, keepAlive: bool)

  // ----- the state of one exchange

  /** A leaf that was called: what it saw, what it could change, what it got of the body; then
      what it left of what it could change, the callbacks it registered, and its decision. */
  datatype Call = Call(route: Route, view: View, exchange: Exchange, loaded: Loaded,
                       result: Exchange, registers: seq<Callback>, decision: Decision)

  datatype Flow = Flow(
    // the request
    facts: Facts,
    resource: Option<string>,
    connection: ConnectionType,
    body: Body,
    // the response, the route data and the callbacks
    reply: Reply,
    table: map<string, Session>,
    callbacks: seq<Callback>,
    // the session store and its id generator
    storage: map<string, string>,
    issued: nat,
    // the router's own state
    done: bool,
    closed: bool,
    basePath: seq<string>,
    // the connection
    attached: bool,
    open: bool,
    written: string,
    counter: nat,
    // what happened so far: the leaves called, and whether the last response announced that the
    // connection closes
    calls: seq<Call>,
    announced: bool)
  {
    /** hs_socket_is_open on the connection's socket. */
    predicate IsOpen() { attached && open }

    function SeenBy(): View { View(facts, resource, basePath, counter) }

    function Changeable(): Exchange { Exchange(connection, reply, table) }
  }

  // ----- matching and stripping

  /** hs_route_is_allowed_for_method. */
  predicate AllowedForMethod(verbs: set<HttpMethod>, verb: HttpMethod) {
    verb != UnknownMethod && verb in verbs
  }

  /** hs_route_is_supported_path. */
  predicate SupportedPath(path: Option<string>, isParent: bool, resource: string) {
    match path
    case None => true
    case Some(p) =>
      if p == [] || p[0] != '/' then false
      else if |resource| < |p| then false
      else if |resource| == |p| then p == resource
      else if !isParent || (resource[|p| - 1] != '/' && resource[|p|] != '/') then false
      else p <= resource
  }

  /** The resource hs_router_remove_path_prefix leaves for the routes below a mount. */
  function Stripped(path: string, resource: string): string
    requires SupportedPath(Some(path), true, resource) || |path| <= 1
  {
    if |path| <= 1 then resource
    else if |resource| == |path| then "/"
    else if path[|path| - 1] == '/' then resource[|path| - 1..]
    else resource[|path|..]
  }

  // ----- leaves

  function Owned(tags: seq<nat>): (r: seq<Callback>)
    ensures |r| == |tags| && forall i :: 0 <= i < |r| ==> r[i] == Own(tags[i])
  {
    seq(|tags|, i requires 0 <= i < |tags| => Own(tags[i]))
  }

  /** The body after the load a handler asks for, and what it gets. */
  function Perform(load: Load, body: Body, length: nat): (Body, Loaded) {
    match load
    case LoadNothing => (body, NotLoaded)
    case LoadText => var (after, text) := TextLoad(body, length); (after, AsText(text))
    case LoadFile => var (after, result) := FileLoad(body, length); (after, AsFile(result))
  }

  /** The load a handler asks for, performed. */
  function LoadFor(handler: Handler, f: Flow): (Body, Loaded) {
    Perform(handler.load(f.SeenBy(), f.Changeable()), f.body, f.facts.contentLength)
  }

  /** What a handler answers, given the body it asked for. */
  function AnswerOf(handler: Handler, f: Flow): Answer {
    handler.respond(f.SeenBy(), f.Changeable(), LoadFor(handler, f).1)
  }

  function RunApplication(handler: Handler, f: Flow): (Flow, Decision) {
    var answer := AnswerOf(handler, f);
    (f.(connection := answer.exchange.connection, reply := answer.exchange.reply,
        table := answer.exchange.table, callbacks := f.callbacks + Owned(answer.callbacks),
        body := LoadFor(handler, f).0),
     answer.decision)
  }

  /** _hs_routes_ratelimit_max_connection_requests_route_serve. */
  function RunMaxRequests(limit: nat, f: Flow): Flow {
    if limit < 2 || f.counter >= limit then f.(connection := CloseConnection) else f
  }

  /** The id under which a session is opened, the data found, and the ids drawn so far. */
  datatype Opened = Opened(id: string, data: Data, issued: nat)

  function OpenSession(context: SessionContext, cookies: seq<Cookie>,
                       storage: map<string, string>, issued: nat): Opened
  {
    var sent := LookupCookie(cookies, context.cookieName);
    var asked := if sent.Some? then sent.value.value else context.ids(issued);
    var next := if sent.Some? then issued else issued + 1;
    if asked in storage then Opened(asked, context.fromText(storage[asked]), next)
    else Opened(context.ids(next), map[], next + 1)
  }

  /** _hs_routes_session_route_serve. */
  function RunSession(context: SessionContext, f: Flow): Flow {
    var start := OpenSession(context, f.facts.cookies, f.storage, f.issued);
    f.(reply := f.reply.(cookies := f.reply.cookies + [SessionCookie(context, start.id)]),
       table := f.table[context.sessionName := Session(start.id, start.data)],
       callbacks := f.callbacks + [WriteBack(start.id, context)],
       issued := start.issued)
  }

  predicate IsLeaf(route: Route) { !route.serve.Mount? && !route.serve.NoServe? }

  function RunServe(route: Route, f: Flow): (Flow, Decision)
    requires IsLeaf(route)
  {
    match route.serve
    case Application(handler) => RunApplication(handler, f)
    case MaxRequests(limit) => (RunMaxRequests(limit, f), Continue)
    case SessionRoute(context) => (RunSession(context, f), Continue)
  }

  /** What a leaf gets of the body when it is called. */
  function GivenTo(route: Route, f: Flow): Loaded
    requires IsLeaf(route)
  {
    if route.serve.Application? then LoadFor(route.serve.handler, f).1 else NotLoaded
  }

  /** The callbacks a leaf hands over when it is called. */
  function Registers(route: Route, f: Flow): seq<Callback>
    requires IsLeaf(route)
  {
    match route.serve
    case Application(handler) => Owned(AnswerOf(handler, f).callbacks)
    case MaxRequests(_) => []
    case SessionRoute(context) =>
      [WriteBack(OpenSession(context, f.facts.cookies, f.storage, f.issued).id, context)]
  }

  function CallOf(route: Route, f: Flow): Call
    requires IsLeaf(route)
  {
    var (g, decision) := RunServe(route, f);
    Call(route, f.SeenBy(), f.Changeable(), GivenTo(route, f), g.Changeable(), Registers(route, f), decision)
  }

  function Noted(route: Route, f: Flow): Flow
    requires IsLeaf(route)
  {
    f.(calls := f.calls + [CallOf(route, f)])
  }

  /** A leaf's serve function, with the call on record. */
  function RunLeaf(route: Route, f: Flow): (Flow, Decision)
    requires IsLeaf(route)
  {
    RunServe(route, Noted(route, f))
  }

  // ----- the response

  /** Will the response announce that the connection closes? */
  predicate AnnouncesClose(keepAlive: bool, f: Flow) {
    !keepAlive || f.connection == CloseConnection || f.connection == UnknownConnection
  }

  /** Is a declared body still on the wire? */
  predicate LeavesBody(f: Flow) { f.facts.contentLength != 0 && !f.body.loaded }

  /** The exchange once `bytes` went out as the response `reply`: the connection is closed if
      that was announced, or if a declared body was left unread. */
  function SentOff(f: Flow, reply: Reply, bytes: string, announced: bool): Flow {
    var g := f.(reply := reply, written := f.written + bytes, announced := announced);
    if announced || LeavesBody(f) then g.(open := false, attached := false, closed := true) else g
  }

  /** The second half of _hs_router_serve: write the response, then close if need be. */
  function Respond(keepAlive: bool, f: Flow): Flow {
    var announced := AnnouncesClose(keepAlive, f);
    var reply := Typed(f.reply);
    SentOff(f, reply, ReplyBytes(reply, announced), announced)
  }

  /** A route that passed, or whose router below has answered already, sends nothing. */
  function Conclude(keepAlive: bool, ran: (Flow, Decision)): (Flow, bool) {
    if ran.1 == Continue || ran.0.done then (ran.0, ran.0.done) else (Respond(keepAlive, ran.0), true)
  }

  /** Will a waiting request reach this route's serve function? */
  predicate Reaches(route: Route, f: Flow)
    requires f.resource.Some?
  {
    && AllowedForMethod(route.verbs, f.facts.verb)
    && SupportedPath(route.path, route.isParent, f.resource.value)
    && !route.serve.NoServe?
  }

  /** The state in which the routes below a mount are tried. */
  function Entered(route: Route, f: Flow): Flow
    requires f.resource.Some? && SupportedPath(route.path, route.isParent, f.resource.value)
  {
    match route.path
    case None => f
    case Some(path) => f.(basePath := f.basePath + [path], resource := Some(Stripped(path, f.resource.value)))
  }

  // ----- dispatch

  /** _hs_router_find_route_and_serve: the first route that answers ends the scan. */
  function ServeRoutes(routes: seq<Route>, keepAlive: bool, f: Flow): (Flow, bool)
    decreases routes, 1
  {
    if routes == [] then (f, false)
    else
      var (g, answered) := ServeRoute(routes[0], keepAlive, f);
      if answered then (g, true) else ServeRoutes(routes[1..], keepAlive, g)
  }

  /** _hs_router_serve. */
  function ServeRoute(route: Route, keepAlive: bool, f: Flow): (Flow, bool)
    decreases route, 2
  {
    if !f.IsOpen() || f.resource.None? || f.closed then (f, false)
    else if f.done then (f, true)
    else if !AllowedForMethod(route.verbs, f.facts.verb) then (f, false)
    else if !SupportedPath(route.path, route.isParent, f.resource.value) then (f, false)
    else if route.serve.NoServe? then (f, false)
    else
      Conclude(keepAlive, if route.serve.Mount? then ServeMount(route, f) else RunLeaf(route, f))
  }

  /** _hs_router_as_route_serve, entered with an open connection and an unanswered request:
      strip the mount path, dispatch below, restore. A mount without a path strips nothing and
      leaves the request without a resource. */
  function ServeMount(route: Route, f: Flow): (Flow, Decision)
    requires route.serve.Mount? && f.resource.Some?
    requires SupportedPath(route.path, route.isParent, f.resource.value)
    decreases route, 1
  {
    var router := route.serve.router;
    var (g, answered) := ServeRoutes(router.routes, router.keepAlive, Entered(route, f));
    (g.(done := answered,
        resource := if route.path.Some? then f.resource else None,
        basePath := f.basePath),
     if answered then Done else Continue)
  }

  // ----- after the dispatch

  /** What the callbacks work on, and the record of those that ran. */
  datatype After = After(storage: map<string, string>, ran: seq<Callback>)

  /** _hs_routes_session_callback_run writes the session found in the route data to storage. */
  function RunCallback(callback: Callback, table: map<string, Session>, a: After): After {
    var b := a.(ran := a.ran + [callback]);
    match callback
    case Own(_) => b
    case WriteBack(id, context) =>
      if context.sessionName !in table then b
      else
        match context.toText(table[context.sessionName].data)
        case None => b
        case Some(text) => b.(storage := b.storage[id := text])
  }

  /** _hs_router_run_callbacks: last registered first. */
  function RunCallbacks(callbacks: seq<Callback>, table: map<string, Session>, a: After): After {
    if callbacks == [] then a
    else
      var last := |callbacks| - 1;
      RunCallbacks(callbacks[..last], table, RunCallback(callbacks[last], table, a))
  }

  /** The state after hs_router_serve: the exchange, the callbacks that ran, and the result. */
  datatype Served = Served(flow: Flow, ran: seq<Callback>, answered: bool)

  /** The end of hs_router_serve: the callbacks run, whether or not a route answered. */
  function WithCallbacks(g: Flow, answered: bool): Served {
    var after := RunCallbacks(g.callbacks, g.table, After(g.storage, []));
    Served(g.(storage := after.storage), after.ran, answered)
  }

  /** hs_router_serve. */
  function ServeRequest(router: Router, f: Flow): Served {
    if !f.IsOpen() || f.resource.None? then Served(f, [], false)
    else if f.done then Served(f, [], true)
    else if f.resource.value == [] || f.resource.value[0] != '/' then Served(f, [], false)
    else
      var (g, answered) := ServeRoutes(router.routes, router.keepAlive, f);
      WithCallbacks(g, answered)
  }
}
