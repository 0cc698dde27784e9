/** The router's own code: the objects of one exchange, updated in place, and the recursive
    dispatch over them. Every method is proved to do what its function in Routes says. */
module Dispatcher {
  import opened Text
  import opened KeyedLists
  import opened Io
  import opened Message
  import opened Response
  import opened Sessions
  import opened Callbacks
  import opened Routes

  ghost function IfAny(o: object?): set<object> { if o == null then {} else {o} }

  /** struct HSHttpResponse. */
  class HttpResponse {
    var code: nat
    const headers: PairArray
    const cookies: CookieList
    var mimeType: Option<string>
    var content: Option<string>
    var file: Option<ContentFile>

    /** hs_types_http_response_new. */
    constructor ()
      ensures fresh(headers) && fresh(cookies) && Value() == NEW_REPLY
    {
      code, mimeType, content, file := 200, None, None, None;
      headers := new PairArray();
      cookies := new CookieList();
    }

    function Value(): Reply
      reads this, headers, cookies
    {
      Reply(code, headers.pairs, cookies.cookies, mimeType, content, file)
    }

    /** A handler leaves the response like this. */
    method Become(reply: Reply)
      modifies this, headers, cookies
      ensures Value() == reply
    {
      code, mimeType, content, file := reply.code, reply.mimeType, reply.content, reply.file;
      headers.pairs := reply.headers;
      cookies.cookies := reply.cookies;
    }
  }

  /** struct HSRouterFlowState; the base path is kept as the list of the paths joined in it. */
  class RouterState {
    var done: bool
    var closedConnection: bool
    var basePath: seq<string>

    constructor ()
      ensures !done && !closedConnection && basePath == []
    {
      done, closedConnection, basePath := false, false, [];
    }
  }

  /** struct HSServerConnectionState. */
  class ConnectionState {
    var socket: Socket?
    var requestCounter: nat

    constructor (socket: Socket)
      ensures this.socket == socket && requestCounter == 0
    {
      this.socket, requestCounter := socket, 0;
    }
  }

  /** The session store and the state of its id generator. */
  class SessionStore {
    var storage: map<string, string>
    var issued: nat

    constructor (storage: map<string, string>, issued: nat)
      ensures this.storage == storage && this.issued == issued
    {
      this.storage, this.issued := storage, issued;
    }
  }

  /** struct HSServeFlowParams, with the route data table of its HSRouteFlowState. */
  class FlowParams {
    const request: Request
    const response: HttpResponse
    const callbacks: CallbackArray
    const routerState: RouterState
    const connectionState: ConnectionState
    const store: SessionStore
    const socket: Socket
    var table: map<string, Session>
    ghost var calls: seq<Call>
    ghost var announced: bool

    /** hs_types_serve_flow_params_new_pre_populated. */
    constructor (request: Request, connectionState: ConnectionState, store: SessionStore, socket: Socket)
      requires request.payload.socket == socket && connectionState.socket == socket
      ensures Valid() && this.request == request && this.connectionState == connectionState
      ensures this.store == store && this.socket == socket
      ensures fresh(this.response) && fresh(response.headers) && fresh(response.cookies)
      ensures fresh(callbacks) && fresh(callbacks.items) && fresh(routerState)
      ensures response.Value() == NEW_REPLY && callbacks.Contents() == []
      ensures !routerState.done && !routerState.closedConnection && routerState.basePath == []
      ensures table == map[] && calls == [] && !announced
    {
      this.request := request;
      this.connectionState := connectionState;
      this.store := store;
      this.socket := socket;
      response := new HttpResponse();
      callbacks := new CallbackArray(1);
      routerState := new RouterState();
      table, calls, announced := map[], [], false;
    }

    ghost predicate Valid()
      reads this, request, connectionState, callbacks
    {
      && request.payload.socket == socket
      && (connectionState.socket == null || connectionState.socket == socket)
      && request.headers != response.headers && request.cookies != response.cookies
      && callbacks.Valid() && callbacks.capacity > 0
    }

    /** The objects an exchange may change. */
    ghost function Footprint(): set<object>
      reads this, request, callbacks, request.payload
    {
      {this, request, request.payload, response, response.headers, response.cookies, callbacks,
       callbacks.items, routerState, connectionState, store, socket}
      + IfAny(request.payload.partial)
    }

    function RequestFacts(): Facts
      reads request, request.headers, request.cookies
    {
      Facts(request.verb, request.domain, request.port, request.ssl, request.queryString,
            request.headers.pairs, request.cookies.cookies, request.contentLength,
            request.userAgent, request.authorization)
    }

    /** The state of the exchange, as one value. */
    ghost function Snapshot(): Flow
      requires Valid()
      reads Footprint(), this, request, connectionState, callbacks, request.payload,
            request.headers, request.cookies
    {
      Flow(RequestFacts(), request.resource, request.connection, request.payload.Value(),
           response.Value(), table, callbacks.Contents(), store.storage, store.issued,
           routerState.done, routerState.closedConnection, routerState.basePath,
           connectionState.socket != null, socket.isOpen, socket.written,
           connectionState.requestCounter, calls, announced)
    }

    predicate SocketIsOpen()
      reads connectionState, connectionState.socket
    {
      connectionState.socket != null && connectionState.socket.isOpen
    }
  }

  // ----- the leaves

  /** A file load, on a disk with room for the body. */
  method LoadToFile(request: Request) returns (result: FileResult)
    requires request.payload.socket.isOpen
    modifies request.payload, request.payload.socket`unread
    ensures (request.payload.Value(), result) == FileLoad(old(request.payload.Value()), request.contentLength)
    ensures request.payload.partial == null || request.payload.partial == old(request.payload.partial)
  {
    var done, file := request.PayloadToFile(Some(request.contentLength));
    result := FileResult(done, file);
  }

  /** A handler's load of the body. */
  method PerformLoad(params: FlowParams, load: Load) returns (loaded: Loaded)
    requires params.Valid() && params.socket.isOpen
    modifies params.request.payload, params.request.payload.partial, params.socket`unread
    ensures params.Valid() && params.Footprint() <= old(params.Footprint())
    ensures var (body, l) := Perform(load, old(params.request.payload.Value()), params.request.contentLength);
            loaded == l && params.Snapshot() == old(params.Snapshot()).(body := body)
  {
    match load {
      case LoadNothing => loaded := NotLoaded;
      case LoadText =>
        var text := params.request.PayloadToString();
        loaded := AsText(text);
      case LoadFile =>
        var result := LoadToFile(params.request);
        loaded := AsFile(result);
    }
  }

  /** A handler registers its callbacks. */
  method AddOwn(callbacks: CallbackArray, tags: seq<nat>)
    requires callbacks.Valid() && callbacks.capacity > 0
    modifies callbacks, callbacks.items
    ensures callbacks.Valid() && callbacks.capacity > 0 && (callbacks.items == old(callbacks.items) || fresh(callbacks.items))
    ensures callbacks.Contents() == old(callbacks.Contents()) + Owned(tags)
  {
    for index := 0 to |tags|
      invariant callbacks.Valid() && callbacks.capacity > 0
      invariant callbacks.items == old(callbacks.items) || fresh(callbacks.items)
      invariant callbacks.Contents() == old(callbacks.Contents()) + Owned(tags)[..index]
    {
      callbacks.Add(Own(tags[index]));
    }
  }

  /** The exchange takes over what a handler answered. */
  method Adopt(params: FlowParams, answer: Answer)
    requires params.Valid()
    modifies params`table, params.request`connection, params.response, params.response.headers,
             params.response.cookies, params.callbacks, params.callbacks.items
    ensures params.Valid() && fresh(params.Footprint() - old(params.Footprint()))
    ensures params.Snapshot() == old(params.Snapshot()).(
              connection := answer.exchange.connection, reply := answer.exchange.reply,
              table := answer.exchange.table,
              callbacks := old(params.Snapshot()).callbacks + Owned(answer.callbacks))
  {
    AddOwn(params.callbacks, answer.callbacks);
    params.request.connection := answer.exchange.connection;
    params.response.Become(answer.exchange.reply);
    params.table := answer.exchange.table;
    assert params.RequestFacts() == old(params.RequestFacts());
    assert params.request.payload.Value() == old(params.request.payload.Value());
    assert params.callbacks.Contents() == old(params.callbacks.Contents()) + Owned(answer.callbacks);
  }

  /** The handler of an application route. */
  method ServeApplication(params: FlowParams, handler: Handler) returns (decision: Decision)
    requires params.Valid() && params.socket.isOpen
    modifies params.Footprint()
    ensures params.Valid() && fresh(params.Footprint() - old(params.Footprint()))
    ensures (params.Snapshot(), decision) == RunApplication(handler, old(params.Snapshot()))
  {
    var view := View(params.RequestFacts(), params.request.resource, params.routerState.basePath,
                     params.connectionState.requestCounter);
    var exchange := Exchange(params.request.connection, params.response.Value(), params.table);
    var loaded := PerformLoad(params, handler.load(view, exchange));
    var answer := handler.respond(view, exchange, loaded);
    Adopt(params, answer);
    decision := answer.decision;
  }

  /** _hs_routes_ratelimit_max_connection_requests_route_serve. */
  method ServeMaxRequests(params: FlowParams, limit: nat)
    requires params.Valid()
    modifies params.request`connection
    ensures params.Valid() && params.Footprint() == old(params.Footprint())
    ensures params.Snapshot() == RunMaxRequests(limit, old(params.Snapshot()))
    ensures params.request.connection ==
            if limit < 2 || params.connectionState.requestCounter >= limit then CloseConnection
            else old(params.request.connection)
  {
    if limit < 2 || params.connectionState.requestCounter >= limit {
      params.request.connection := CloseConnection;
    }
  }

  /** The id under which the session route opens a session, and the data it finds. */
  method FindSession(context: SessionContext, cookies: CookieList, store: SessionStore)
    returns (id: string, data: Data)
    modifies store`issued
    ensures OpenSession(context, cookies.cookies, store.storage, old(store.issued)) ==
            Opened(id, data, store.issued)
  {
    var cookie := cookies.GetByName(context.cookieName);
    if cookie.Some? {
      id := cookie.value.value;
    } else {
      id := context.ids(store.issued);
      store.issued := store.issued + 1;
    }
    if id in store.storage {
      data := context.fromText(store.storage[id]);
    } else {
      id := context.ids(store.issued);
      store.issued := store.issued + 1;
      data := map[];
    }
  }

  method AddCookie(params: FlowParams, cookie: Cookie)
    requires params.Valid()
    modifies params.response.cookies
    ensures params.Valid() && params.Footprint() == old(params.Footprint())
    ensures var f := old(params.Snapshot());
            params.Snapshot() == f.(reply := f.reply.(cookies := f.reply.cookies + [cookie]))
  {
    var _ := params.response.cookies.Add(cookie);
    assert params.RequestFacts() == old(params.RequestFacts());
  }

  method Register(params: FlowParams, callback: Callback)
    requires params.Valid()
    modifies params.callbacks, params.callbacks.items
    ensures params.Valid() && fresh(params.Footprint() - old(params.Footprint()))
    ensures var f := old(params.Snapshot());
            params.Snapshot() == f.(callbacks := f.callbacks + [callback])
  {
    params.callbacks.Add(callback);
    assert params.RequestFacts() == old(params.RequestFacts());
    assert params.request.payload.Value() == old(params.request.payload.Value());
  }

  method EnterTable(params: FlowParams, name: string, session: Session)
    requires params.Valid()
    modifies params`table
    ensures params.Valid() && params.Footprint() == old(params.Footprint())
    ensures var f := old(params.Snapshot());
            params.Snapshot() == f.(table := f.table[name := session])
  {
    params.table := params.table[name := session];
  }

  method EnterSession(params: FlowParams, name: string, session: Session, writeBack: Callback)
    requires params.Valid()
    modifies params`table, params.callbacks, params.callbacks.items
    ensures params.Valid() && fresh(params.Footprint() - old(params.Footprint()))
    ensures var f := old(params.Snapshot());
            params.Snapshot() == f.(table := f.table[name := session],
                                    callbacks := f.callbacks + [writeBack])
  {
    EnterTable(params, name, session);
    Register(params, writeBack);
  }

  method DrawSession(params: FlowParams, context: SessionContext) returns (id: string, data: Data)
    requires params.Valid()
    modifies params.store`issued
    ensures params.Valid() && params.Footprint() == old(params.Footprint())
    ensures var f := old(params.Snapshot());
            var start := OpenSession(context, f.facts.cookies, f.storage, f.issued);
            id == start.id && data == start.data && params.Snapshot() == f.(issued := start.issued)
  {
    id, data := FindSession(context, params.request.cookies, params.store);
  }

  /** _hs_routes_session_route_serve. */
  method ServeSession(params: FlowParams, context: SessionContext)
    requires params.Valid()
    modifies params`table, params.response.cookies, params.callbacks,
             params.callbacks.items, params.store`issued
    ensures params.Valid() && fresh(params.Footprint() - old(params.Footprint()))
    ensures params.Snapshot() == RunSession(context, old(params.Snapshot()))
    ensures var f := old(params.Snapshot());
            var start := OpenSession(context, f.facts.cookies, f.storage, f.issued);
            params.table == f.table[context.sessionName := Session(start.id, start.data)]
  {
    var id, data := DrawSession(params, context);
    AddCookie(params, SessionCookie(context, id));
    EnterSession(params, context.sessionName, Session(id, data), WriteBack(id, context));
  }

  /** Records the call of a leaf's serve function. */
  ghost method NoteCall(params: FlowParams, route: Route)
    requires params.Valid() && IsLeaf(route)
    modifies params`calls
    ensures params.Valid() && params.Footprint() == old(params.Footprint())
    ensures var f := old(params.Snapshot());
            params.Snapshot() == Noted(route, f)
  {
    params.calls := params.calls + [CallOf(route, params.Snapshot())];
  }

  /** The dispatch on a leaf's serve function. */
  method CallServe(params: FlowParams, route: Route) returns (decision: Decision)
    requires params.Valid() && params.socket.isOpen && IsLeaf(route)
    modifies params.Footprint()
    ensures params.Valid() && fresh(params.Footprint() - old(params.Footprint()))
    ensures (params.Snapshot(), decision) == RunServe(route, old(params.Snapshot()))
  {
    if route.serve.Application? {
      decision := ServeApplication(params, route.serve.handler);
    } else {
      decision := Continue;
      if route.serve.MaxRequests? {
        ServeMaxRequests(params, route.serve.limit);
      } else {
        ServeSession(params, route.serve.context);
      }
    }
  }

  method ServeLeaf(params: FlowParams, route: Route) returns (decision: Decision)
    requires params.Valid() && params.socket.isOpen && IsLeaf(route)
    modifies params.Footprint()
    ensures params.Valid() && fresh(params.Footprint() - old(params.Footprint()))
    ensures (params.Snapshot(), decision) == RunLeaf(route, old(params.Snapshot()))
    ensures params.SocketIsOpen() == old(params.SocketIsOpen())
  {
    NoteCall(params, route);
    decision := CallServe(params, route);
    LeafKeepsConnection(route, old(params.Snapshot()));
  }

  lemma LeafKeepsConnection(route: Route, f: Flow)
    requires IsLeaf(route)
    ensures RunLeaf(route, f).0.open == f.open && RunLeaf(route, f).0.attached == f.attached
  {
    match route.serve
    case Application(_) =>
    case MaxRequests(_) =>
    case SessionRoute(_) =>
  }

  // ----- the response

  /** The mime type of a content file, when nobody declared one. */
  method GuessType(response: HttpResponse)
    modifies response`mimeType
    ensures response.Value() == Typed(old(response.Value()))
  {
    var contentType := response.headers.GetByKey("Content-Type");
    if contentType.None? && response.mimeType.None? && response.file.Some? {
      response.mimeType := Some(response.file.value.typeByName);
    }
  }

  /** The whole text of a response, built header line by header line. */
  method ReplyText(response: HttpResponse, close: bool) returns (text: string)
    ensures text + ContentOf(response.Value()) == ReplyBytes(response.Value(), close)
  {
    ghost var reply := response.Value();
    var buffer := WriteCommonHeader(response.code, response.headers, response.cookies, close);
    ghost var start := StatusLine(response.code) + CRLF;
    ghost var pairs := CommonPairs(reply.headers, reply.cookies, close);
    var contentType := response.headers.GetByKey("Content-Type");
    if contentType.None? && response.mimeType.Some? {
      AppendHeader(buffer, "Content-Type", response.mimeType.value, start, pairs);
      assert TypePairs(reply) == [Pair("Content-Type", Some(response.mimeType.value))];
    } else {
      assert pairs + TypePairs(reply) == pairs;
    }
    var length := 0;
    if response.content.Some? {
      length := |response.content.value|;
    } else if response.file.Some? {
      length := |response.file.value.bytes|;
    }
    AppendHeader(buffer, "Content-Length", Decimal(length), start, pairs + TypePairs(reply));
    buffer.Append(CRLF);
    text := buffer.content;
    ConsLine(StatusLine(response.code), PairLines(PrintedPairs(reply, close)));
    assert text == start + Joined(PairLines(PrintedPairs(reply, close))) + CRLF;
  }

  method SendContent(socket: Socket, response: HttpResponse)
    requires socket.isOpen
    modifies socket`written
    ensures socket.written == old(socket.written) + ContentOf(response.Value())
  {
    if response.content.Some? {
      var _ := WriteString(socket, response.content.value);
    } else if response.file.Some? && response.file.value.bytes != [] {
      var _ := WriteFile(socket, response.file.value.bytes);
    }
  }

  method SendBoth(socket: Socket, header: string, response: HttpResponse)
    requires socket.isOpen
    modifies socket`written
    ensures socket.written == old(socket.written) + (header + ContentOf(response.Value()))
  {
    ghost var start, content := socket.written, ContentOf(response.Value());
    var _ := WriteString(socket, header);
    SendContent(socket, response);
    assert start + (header + content) == start + header + content;
  }

  method SendReply(socket: Socket, response: HttpResponse, close: bool)
    requires socket.isOpen
    modifies socket`written, response`mimeType
    ensures response.Value() == Typed(old(response.Value()))
    ensures socket.written == old(socket.written) + ReplyBytes(response.Value(), close)
  {
    GuessType(response);
    var header := ReplyText(response, close);
    SendBoth(socket, header, response);
  }

  ghost method NoteAnnouncement(params: FlowParams, close: bool)
    requires params.Valid()
    modifies params`announced
    ensures params.Valid() && params.Footprint() == old(params.Footprint())
    ensures params.Snapshot() == old(params.Snapshot()).(announced := close)
  {
    params.announced := close;
  }

  method WriteReply(params: FlowParams, close: bool)
    requires params.Valid() && params.SocketIsOpen()
    modifies params`announced, params.socket`written, params.response`mimeType
    ensures params.Valid() && params.Footprint() == old(params.Footprint())
    ensures var f := old(params.Snapshot());
            var reply := Typed(f.reply);
            params.Snapshot() ==
              f.(reply := reply, written := f.written + ReplyBytes(reply, close), announced := close)
  {
    NoteAnnouncement(params, close);
    SendReply(params.socket, params.response, close);
  }

  method HangUp(params: FlowParams)
    requires params.Valid()
    modifies params.socket`isOpen, params.connectionState`socket, params.routerState`closedConnection
    ensures params.Valid() && params.Footprint() == old(params.Footprint())
    ensures params.Snapshot() == old(params.Snapshot()).(open := false, attached := false, closed := true)
  {
    params.socket.Close();
    params.connectionState.socket := null;
    params.routerState.closedConnection := true;
  }

  /** The second half of _hs_router_serve. */
  method SendResponse(params: FlowParams, keepAlive: bool)
    requires params.Valid() && params.SocketIsOpen()
    modifies params`announced, params.response`mimeType, params.socket`written, params.socket`isOpen,
             params.connectionState`socket, params.routerState`closedConnection
    ensures params.Valid() && params.Footprint() == old(params.Footprint())
    ensures params.Snapshot() == Respond(keepAlive, old(params.Snapshot()))
  {
    var close := !keepAlive || params.request.connection == CloseConnection
                 || params.request.connection == UnknownConnection;
    WriteReply(params, close);
    if params.request.contentLength != 0 && !params.request.payload.loaded {
      close := true;
    }
    if close {
      HangUp(params);
    }
  }

  // ----- dispatch

  /** hs_router_remove_path_prefix: the request goes on with the stripped resource; the
      original is returned, to be put back. */
  method RemovePathPrefix(route: Route, request: Request) returns (original: Option<string>)
    requires request.resource.Some?
    requires SupportedPath(route.path, route.isParent, request.resource.value)
    modifies request`resource
    ensures original == if route.path.Some? then old(request.resource) else None
    ensures request.resource ==
            if route.path.Some? then Some(Stripped(route.path.value, old(request.resource.value)))
            else old(request.resource)
  {
    if route.path.None? {
      return None;
    }
    var path, resource := route.path.value, request.resource.value;
    original := request.resource;
    if |path| <= 1 {
      return;
    }
    if |resource| == |path| {
      request.resource := Some("/");
    } else {
      var endsWithSeparator := path[|path| - 1] == '/';
      var start := |path| - 1;
      if !endsWithSeparator {
        start := start + 1;
      }
      request.resource := Some(resource[start..]);
    }
  }

  /** _hs_router_find_route_and_serve. */
  method FindRouteAndServe(routes: seq<Route>, keepAlive: bool, params: FlowParams) returns (done: bool)
    requires params.Valid()
    modifies params.Footprint()
    ensures params.Valid() && fresh(params.Footprint() - old(params.Footprint()))
    ensures (params.Snapshot(), done) == ServeRoutes(routes, keepAlive, old(params.Snapshot()))
    decreases routes, 1
  {
    ghost var start := params.Snapshot();
    for index := 0 to |routes|
      invariant params.Valid() && fresh(params.Footprint() - old(params.Footprint()))
      invariant ServeRoutes(routes, keepAlive, start) ==
                ServeRoutes(routes[index..], keepAlive, params.Snapshot())
    {
      assert routes[index..][0] == routes[index] && routes[index..][1..] == routes[index + 1..];
      done := ServeOne(params, routes[index], keepAlive);
      if done {
        return;
      }
    }
    done := false;
  }

  /** _hs_router_serve: the guards. */
  method ServeOne(params: FlowParams, route: Route, keepAlive: bool) returns (answered: bool)
    requires params.Valid()
    modifies params.Footprint()
    ensures params.Valid() && fresh(params.Footprint() - old(params.Footprint()))
    ensures (params.Snapshot(), answered) == ServeRoute(route, keepAlive, old(params.Snapshot()))
    decreases route, 3
  {
    if !params.SocketIsOpen() || params.request.resource.None? || params.routerState.closedConnection {
      return false;
    }
    if params.routerState.done {
      return true;
    }
    if !AllowedForMethod(route.verbs, params.request.verb) {
      return false;
    }
    if !SupportedPath(route.path, route.isParent, params.request.resource.value) {
      return false;
    }
    if route.serve.NoServe? {
      return false;
    }
    answered := ServeMatched(params, route, keepAlive);
  }

  /** _hs_router_serve: a matching route runs, and its answer is sent. */
  method ServeMatched(params: FlowParams, route: Route, keepAlive: bool) returns (answered: bool)
    requires params.Valid() && params.SocketIsOpen() && !route.serve.NoServe?
    requires params.request.resource.Some? && !params.routerState.closedConnection && !params.routerState.done
    requires SupportedPath(route.path, route.isParent, params.request.resource.value)
    modifies params.Footprint()
    ensures params.Valid() && fresh(params.Footprint() - old(params.Footprint()))
    ensures (params.Snapshot(), answered) ==
            Conclude(keepAlive, if route.serve.Mount? then ServeMount(route, old(params.Snapshot()))
                                else RunLeaf(route, old(params.Snapshot())))
    decreases route, 2
  {
    var decision;
    if route.serve.Mount? {
      decision := ServeAsRoute(params, route);
    } else {
      decision := ServeLeaf(params, route);
    }
    answered := FinishServe(params, decision, keepAlive);
  }

  /** _hs_router_serve: what becomes of a route's decision. */
  method FinishServe(params: FlowParams, decision: Decision, keepAlive: bool) returns (answered: bool)
    requires params.Valid() && (decision == Continue || params.routerState.done || params.SocketIsOpen())
    modifies params`announced, params.response`mimeType, params.socket`written, params.socket`isOpen,
             params.connectionState`socket, params.routerState`closedConnection
    ensures params.Valid() && params.Footprint() == old(params.Footprint())
    ensures (params.Snapshot(), answered) == Conclude(keepAlive, (old(params.Snapshot()), decision))
  {
    if decision == Continue || params.routerState.done {
      return params.routerState.done;
    }
    SendResponse(params, keepAlive);
    answered := true;
  }

  /** On the way in: join the base path and strip the resource. */
  method EnterMount(params: FlowParams, route: Route) returns (originalPath: Option<string>)
    requires params.Valid() && params.request.resource.Some?
    requires SupportedPath(route.path, route.isParent, params.request.resource.value)
    modifies params.routerState`basePath, params.request`resource
    ensures params.Valid() && params.Footprint() == old(params.Footprint())
    ensures var f := old(params.Snapshot());
            && originalPath == (if route.path.Some? then f.resource else None)
            && params.Snapshot() == Entered(route, f)
  {
    if route.path.Some? {
      params.routerState.basePath := params.routerState.basePath + [route.path.value];
    }
    originalPath := RemovePathPrefix(route, params.request);
  }

  /** On the way out: put both back, and remember whether the router below answered. */
  method LeaveMount(params: FlowParams, done: bool, originalPath: Option<string>, originalBasePath: seq<string>)
    requires params.Valid()
    modifies params.routerState`done, params.routerState`basePath, params.request`resource
    ensures params.Valid() && params.Footprint() == old(params.Footprint())
    ensures params.Snapshot() ==
            old(params.Snapshot()).(done := done, resource := originalPath, basePath := originalBasePath)
  {
    params.routerState.done := done;
    params.request.resource := originalPath;
    params.routerState.basePath := originalBasePath;
  }

  /** _hs_router_as_route_serve. */
  method ServeAsRoute(params: FlowParams, route: Route) returns (decision: Decision)
    requires params.Valid() && route.serve.Mount?
    requires params.request.resource.Some?
    requires SupportedPath(route.path, route.isParent, params.request.resource.value)
    modifies params.Footprint()
    ensures params.Valid() && fresh(params.Footprint() - old(params.Footprint()))
    ensures (params.Snapshot(), decision) == ServeMount(route, old(params.Snapshot()))
    decreases route, 1
  {
    var originalBasePath := params.routerState.basePath;
    var originalPath := EnterMount(params, route);
    var router := route.serve.router;
    var done := FindRouteAndServe(router.routes, router.keepAlive, params);
    LeaveMount(params, done, originalPath, originalBasePath);
    decision := if done then Done else Continue;
  }
}
