/** Sessions over any sequence of requests: the store behaves as a map from id to data. */
module SessionHistory {
  import opened Text
  import opened KeyedLists
  import opened Response
  import opened Sessions
  import opened Callbacks
  import opened Routes
  import opened FlatRouting
  import opened Serving
  import opened Calls

  // ----- one request

  /** The ids whose write-backs are registered, in order. */
  function WriteBacks(callbacks: seq<Callback>): seq<Callback> {
    if callbacks == [] then []
    else (if callbacks[0].WriteBack? then [callbacks[0]] else []) + WriteBacks(callbacks[1..])
  }

  lemma {:induction false} WriteBacksAppend(a: seq<Callback>, b: seq<Callback>)
    ensures WriteBacks(a + b) == WriteBacks(a) + WriteBacks(b)
  {
    if a == [] {
      assert a + b == b;
    } else {
      var first := if a[0].WriteBack? then [a[0]] else [];
      assert (a + b)[1..] == a[1..] + b && (a + b)[0] == a[0];
      WriteBacksAppend(a[1..], b);
      assert first + (WriteBacks(a[1..]) + WriteBacks(b)) == (first + WriteBacks(a[1..])) + WriteBacks(b);
    }
  }

  lemma {:induction false} OwnedWriteNothing(tags: seq<nat>)
    ensures WriteBacks(Owned(tags)) == []
  {
    if tags != [] {
      assert Owned(tags)[1..] == Owned(tags[1..]);
      OwnedWriteNothing(tags[1..]);
    }
  }

  /** A session as its route opened it. */
  datatype Opening = Opening(id: string, data: Data)

  /** The sessions these calls entered in the route data, in order: what a session route left
      there, and so what the next handler finds. */
  function OpenedBy(calls: seq<Call>): seq<Opening> {
    if calls == [] then [] else OpenedBy(calls[..|calls| - 1]) + EnteredBy(calls[|calls| - 1])
  }

  function EnteredBy(call: Call): seq<Opening> {
    match call.route.serve
    case SessionRoute(context) =>
      if context.sessionName !in call.result.table then []
      else
        var session := call.result.table[context.sessionName];
        [Opening(session.id, session.data)]
    case _ => []
  }

  lemma OneMoreCall(calls: seq<Call>, call: Call)
    ensures OpenedBy(calls + [call]) == OpenedBy(calls) + EnteredBy(call)
  {
    assert (calls + [call])[..|calls|] == calls;
  }

  /** From `f` to `g` no session was opened. */
  ghost predicate NoSession(f: Flow, g: Flow) {
    && g.facts == f.facts && g.storage == f.storage && g.issued == f.issued
    && OpenedBy(g.calls) == OpenedBy(f.calls) && WriteBacks(g.callbacks) == WriteBacks(f.callbacks)
  }

  /** From `f` to `g` one session was opened: the one its route opens for the request. */
  ghost predicate OneSession(context: SessionContext, f: Flow, g: Flow) {
    var start := OpenSession(context, f.facts.cookies, f.storage, f.issued);
    && g.facts == f.facts && g.storage == f.storage && g.issued == start.issued
    && OpenedBy(g.calls) == OpenedBy(f.calls) + [Opening(start.id, start.data)]
    && WriteBacks(g.callbacks) == WriteBacks(f.callbacks) + [WriteBack(start.id, context)]
  }

  lemma ApplicationWithoutSession(handler: Handler, f: Flow)
    ensures NoSession(f, RunApplication(handler, f).0)
  {
    var loaded := Perform(handler.load(f.SeenBy(), f.Changeable()), f.body, f.facts.contentLength).1;
    var tags := handler.respond(f.SeenBy(), f.Changeable(), loaded).callbacks;
    WriteBacksAppend(f.callbacks, Owned(tags));
    OwnedWriteNothing(tags);
  }

  lemma NotedOpensNothing(route: Route, f: Flow)
    requires IsLeaf(route) && !route.serve.SessionRoute?
    ensures NoSession(f, Noted(route, f))
  {
    OneMoreCall(f.calls, CallOf(route, f));
    assert OpenedBy(f.calls) + [] == OpenedBy(f.calls);
  }

  lemma ServeWithoutSession(route: Route, f: Flow)
    requires IsLeaf(route) && !route.serve.SessionRoute?
    ensures NoSession(f, RunServe(route, f).0)
  {
    if route.serve.Application? { ApplicationWithoutSession(route.serve.handler, f); }
  }

  lemma LeafWithoutSession(route: Route, f: Flow)
    requires IsLeaf(route) && !route.serve.SessionRoute?
    ensures NoSession(f, RunLeaf(route, f).0)
  {
    NotedOpensNothing(route, f);
    ServeWithoutSession(route, Noted(route, f));
  }

  lemma SessionEnters(context: SessionContext, f: Flow, call: Call)
    requires call.route.serve == SessionRoute(context) && call.result == RunSession(context, f).Changeable()
    ensures var start := OpenSession(context, f.facts.cookies, f.storage, f.issued);
            EnteredBy(call) == [Opening(start.id, start.data)]
  {}

  lemma SessionOpens(context: SessionContext, f: Flow, call: Call)
    requires call.route.serve == SessionRoute(context) && call.result == RunSession(context, f).Changeable()
    ensures OneSession(context, f, RunSession(context, f.(calls := f.calls + [call])))
  {
    SessionEnters(context, f, call);
    OneSessionFrom(context, f, RunSession(context, f.(calls := f.calls + [call])), call,
                   OpenSession(context, f.facts.cookies, f.storage, f.issued));
  }

  lemma OneSessionFrom(context: SessionContext, f: Flow, g: Flow, call: Call, start: Opened)
    requires start == OpenSession(context, f.facts.cookies, f.storage, f.issued)
    requires g.facts == f.facts && g.storage == f.storage && g.issued == start.issued
    requires g.calls == f.calls + [call] && EnteredBy(call) == [Opening(start.id, start.data)]
    requires g.callbacks == f.callbacks + [WriteBack(start.id, context)]
    ensures OneSession(context, f, g)
  {
    WriteBacksAppend(f.callbacks, [WriteBack(start.id, context)]);
    OneMoreCall(f.calls, call);
  }

  lemma LeafWithSession(route: Route, context: SessionContext, f: Flow)
    requires route.serve == SessionRoute(context)
    ensures OneSession(context, f, RunLeaf(route, f).0) && RunLeaf(route, f).1 == Continue
  {
    SessionOpens(context, f, CallOf(route, f));
  }

  /** What a matching flat route does to sessions is what its leaf does. */
  lemma FlatIsLeaf(e: FlatRoute, f: Flow, g: Flow)
    requires ValidEntry(e) && f.IsOpen() && f.resource.Some? && !f.closed
    requires FlatMatches(e, f.facts.verb, f.resource.value) && Under(e.place, f.resource.value)
    requires g == RunLeaf(e.route, Inside(e.place, f)).0
    ensures var h := ServeFlat(e, f).0;
            && h.facts == g.facts && h.storage == g.storage && h.issued == g.issued
            && h.calls == g.calls && h.callbacks == g.callbacks
  {}

  lemma FlatWithoutSession(e: FlatRoute, f: Flow)
    requires ValidEntry(e) && !e.route.serve.SessionRoute?
    ensures NoSession(f, ServeFlat(e, f).0)
  {
    if f.IsOpen() && f.resource.Some? && !f.closed && FlatMatches(e, f.facts.verb, f.resource.value) {
      MatchIsUnder(e, f.facts.verb, f.resource.value);
      var inner := Inside(e.place, f);
      LeafWithoutSession(e.route, inner);
      FlatIsLeaf(e, f, RunLeaf(e.route, inner).0);
    }
  }

  lemma FlatWithSession(e: FlatRoute, context: SessionContext, f: Flow)
    requires ValidEntry(e) && e.route.serve == SessionRoute(context)
    ensures var (g, answered) := ServeFlat(e, f);
            !answered && (NoSession(f, g) || OneSession(context, f, g))
  {
    if f.IsOpen() && f.resource.Some? && !f.closed && FlatMatches(e, f.facts.verb, f.resource.value) {
      MatchIsUnder(e, f.facts.verb, f.resource.value);
      var inner := Inside(e.place, f);
      LeafWithSession(e.route, context, inner);
      FlatIsLeaf(e, f, RunLeaf(e.route, inner).0);
    }
  }

  lemma {:induction false} ScanWithoutSession(list: seq<FlatRoute>, f: Flow)
    requires ValidList(list) && forall e :: e in list ==> !e.route.serve.SessionRoute?
    ensures NoSession(f, Scan(list, f).0)
  {
    if list != [] {
      assert list[0] in list;
      FlatWithoutSession(list[0], f);
      if !ServeFlat(list[0], f).1 { ScanWithoutSession(list[1..], ServeFlat(list[0], f).0); }
    }
  }

  /** Exactly one route of the list is a session route, with this context. */
  ghost predicate OneSessionRoute(list: seq<FlatRoute>, context: SessionContext, at: nat) {
    && at < |list| && list[at].route.serve == SessionRoute(context)
    && forall i :: 0 <= i < |list| && i != at ==> !list[i].route.serve.SessionRoute?
  }

  lemma {:induction false} ScanWithOneSession(list: seq<FlatRoute>, context: SessionContext, at: nat, f: Flow)
    requires ValidList(list) && OneSessionRoute(list, context, at)
    ensures NoSession(f, Scan(list, f).0) || OneSession(context, f, Scan(list, f).0)
    decreases at
  {
    assert list[0] in list;
    var (g, answered) := ServeFlat(list[0], f);
    if at == 0 {
      FlatWithSession(list[0], context, f);
      ScanWithoutSession(list[1..], g);
    } else {
      FlatWithoutSession(list[0], f);
      if !answered { ScanWithOneSession(list[1..], context, at - 1, g); }
    }
  }

  /** What the callbacks leave in the store depends on the write-backs only. */
  lemma {:induction false} StoreAfterCallbacks(callbacks: seq<Callback>, table: map<string, Session>, a: After)
    ensures WriteBacks(callbacks) == [] ==> RunCallbacks(callbacks, table, a).storage == a.storage
    ensures |WriteBacks(callbacks)| == 1 ==>
              RunCallbacks(callbacks, table, a).storage ==
              RunCallback(WriteBacks(callbacks)[0], table, a).storage
  {
    if callbacks != [] {
      var last := |callbacks| - 1;
      var b := RunCallback(callbacks[last], table, a);
      assert callbacks == callbacks[..last] + [callbacks[last]];
      WriteBacksAppend(callbacks[..last], [callbacks[last]]);
      assert [callbacks[last]][1..] == [];
      StoreAfterCallbacks(callbacks[..last], table, b);
    }
  }

  // ----- the refinement

  /** Reading back what was written gives the data again. */
  ghost predicate RoundTrips(context: SessionContext) {
    forall data: Data :: context.toText(data).Some? && context.fromText(context.toText(data).value) == data
  }

  /** The store holds exactly the texts of `sessions`. */
  ghost predicate Holds(context: SessionContext, storage: map<string, string>, sessions: map<string, Data>) {
    && storage.Keys == sessions.Keys
    && forall id :: id in sessions ==> context.toText(sessions[id]) == Some(storage[id])
  }

  /** The generator's remaining results are new, and differ from each other. */
  ghost predicate NewIds(context: SessionContext, storage: map<string, string>, issued: nat) {
    && (forall n: nat :: n >= issued ==> context.ids(n) !in storage)
    && (forall n: nat, m: nat :: issued <= n < m ==> context.ids(n) != context.ids(m))
  }

  function AskedId(context: SessionContext, f: Flow): Option<string> {
    match LookupCookie(f.facts.cookies, context.cookieName)
    case None => None
    case Some(cookie) => Some(cookie.value)
  }

  /** The client does not name an id that has yet to be drawn. */
  ghost predicate NoGuess(context: SessionContext, f: Flow) {
    AskedId(context, f).Some? ==>
      forall n: nat :: n >= f.issued ==> context.ids(n) != AskedId(context, f).value
  }

  /** A request as the session store sees it: the id it came with, the id its session has, the
      data it saw, and the data it left to be written (None if its handlers dropped it). */
  datatype Visit = Visit(asked: Option<string>, id: string, seen: Data, left: Option<Data>)

  function LeftData(context: SessionContext, g: Flow): Option<Data> {
    if context.sessionName in g.table then Some(g.table[context.sessionName].data) else None
  }

  /** The visit a served request made, if it reached the session route. */
  function VisitOf(context: SessionContext, f: Flow, g: Flow): Option<Visit> {
    var found := OpenedBy(g.calls);
    if found == [] then None
    else Some(Visit(AskedId(context, f), found[0].id, found[0].data, LeftData(context, g)))
  }

  /** The specification is a map from id to data. A known id sees exactly its data; any other
      request gets a new id, not the one it asked for, and sees nothing. */
  ghost predicate VisitOk(sessions: map<string, Data>, v: Visit) {
    if v.asked.Some? && v.asked.value in sessions
    then v.id == v.asked.value && v.seen == sessions[v.id]
    else v.id !in sessions && Some(v.id) != v.asked && v.seen == map[]
  }

  /** Afterwards the session's own id holds what the request left, and nothing else changed. */
  function Updated(sessions: map<string, Data>, v: Option<Visit>): map<string, Data> {
    if v.None? || v.value.left.None? then sessions else sessions[v.value.id := v.value.left.value]
  }

  lemma OpeningIsOk(context: SessionContext, f: Flow, sessions: map<string, Data>, left: Option<Data>)
    requires RoundTrips(context) && Holds(context, f.storage, sessions)
    requires NewIds(context, f.storage, f.issued) && NoGuess(context, f)
    ensures var start := OpenSession(context, f.facts.cookies, f.storage, f.issued);
            && VisitOk(sessions, Visit(AskedId(context, f), start.id, start.data, left))
            && start.issued >= f.issued
            && (start.id !in f.storage ==> start.issued > f.issued && start.id == context.ids(start.issued - 1))
  {
    var asked := AskedId(context, f);
    if asked.Some? && asked.value in sessions {
      assert context.toText(sessions[asked.value]) == Some(f.storage[asked.value]);
    } else if asked.None? {
      assert context.ids(f.issued) !in f.storage;
    }
  }

  lemma StoringHolds(context: SessionContext, storage: map<string, string>, sessions: map<string, Data>,
                     id: string, data: Data)
    requires RoundTrips(context) && Holds(context, storage, sessions)
    ensures context.toText(data).Some?
    ensures Holds(context, storage[id := context.toText(data).value], sessions[id := data])
  {
    assert context.toText(data).Some?;
  }

  lemma IdsStayNew(context: SessionContext, storage: map<string, string>, issued: nat, later: nat,
                   id: string, text: string)
    requires NewIds(context, storage, issued) && later >= issued
    requires id in storage || (later > issued && id == context.ids(later - 1))
    ensures NewIds(context, storage, later) && NewIds(context, storage[id := text], later)
  {}

  /** An exchange that nobody has answered yet. */
  predicate Fresh(f: Flow) { f.IsOpen() && !f.closed && !f.done }

  /** What serving does to the store, through however many routers. */
  lemma ServedSession(router: Router, context: SessionContext, at: nat, f: Flow) returns (g: Flow)
    requires WellMounted(router.routes) && Fresh(f) && f.callbacks == []
    requires OneSessionRoute(Flatten(router.routes, router.keepAlive, ROOT), context, at)
    ensures NoSession(f, g) || OneSession(context, f, g)
    ensures g == if Waiting(f) then ServeRoutes(router.routes, router.keepAlive, f).0 else f
    ensures var s := ServeRequest(router, f);
            && s.flow.calls == g.calls && s.flow.issued == g.issued && s.flow.table == g.table
            && (NoSession(f, g) ==> s.flow.storage == f.storage)
            && (OneSession(context, f, g) ==>
                  var start := OpenSession(context, f.facts.cookies, f.storage, f.issued);
                  s.flow.storage ==
                    RunCallback(WriteBack(start.id, context), g.table, After(f.storage, [])).storage)
  {
    if Waiting(f) {
      NestedIsFlat(router, f);
      g := Scan(Flatten(router.routes, router.keepAlive, ROOT), f).0;
      ScanWithOneSession(Flatten(router.routes, router.keepAlive, ROOT), context, at, f);
      StoreAfterCallbacks(g.callbacks, g.table, After(g.storage, []));
    } else {
      g := f;
    }
  }

  lemma {:induction false} WriteBackIsListed(callbacks: seq<Callback>, callback: Callback)
    requires callback in callbacks && callback.WriteBack?
    ensures callback in WriteBacks(callbacks)
  {
    if callback != callbacks[0] { WriteBackIsListed(callbacks[1..], callback); }
  }

  lemma {:induction false} FirstOpening(calls: seq<Call>) returns (k: nat)
    requires OpenedBy(calls) != []
    ensures k < |calls| && EnteredBy(calls[k]) == [OpenedBy(calls)[0]]
  {
    k := |calls| - 1;
    if OpenedBy(calls[..k]) != [] { k := FirstOpening(calls[..k]); }
  }

  /** The session route was called, and whoever was called next found the visit's session, with
      its id and data, in the route data. */
  ghost predicate SeenBehind(context: SessionContext, calls: seq<Call>, v: Visit) {
    exists k: nat :: SeenAt(context, calls, v, k)
  }

  ghost predicate SeenAt(context: SessionContext, calls: seq<Call>, v: Visit, k: nat) {
    && k < |calls| && calls[k].route.serve == SessionRoute(context)
    && (k + 1 < |calls| ==>
          var table := calls[k + 1].exchange.table;
          context.sessionName in table && table[context.sessionName] == Session(v.id, v.seen))
  }

  lemma NextSees(context: SessionContext, facts: Facts, counter: nat, x: Exchange, calls: seq<Call>,
                 v: Visit, k: nat)
    requires Conducted(facts, counter, x, calls) && k < |calls|
    requires calls[k].route.serve == SessionRoute(context) && EnteredBy(calls[k]) == [Opening(v.id, v.seen)]
    ensures SeenAt(context, calls, v, k)
  {
    if k + 1 < |calls| {
      assert calls[k + 1].exchange == Onward(x, calls[..k + 1]);
      assert calls[..k + 1][k] == calls[k];
    }
  }

  /** What the handlers behind the session route find is what the visit saw. */
  lemma SessionIsSeen(router: Router, context: SessionContext, at: nat, f: Flow)
    requires WellMounted(router.routes) && Fresh(f) && f.callbacks == [] && f.calls == []
    requires OneSessionRoute(Flatten(router.routes, router.keepAlive, ROOT), context, at)
    ensures var g := ServeRequest(router, f).flow;
            var v := VisitOf(context, f, g);
            v.Some? ==> SeenBehind(context, g.calls, v.value)
  {
    var h := ServedSession(router, context, at, f);
    if OpenedBy(h.calls) != [] {
      var calls := FreshCalls(router, f);
      SessionIsSeenIn(context, f, h, calls, VisitOf(context, f, ServeRequest(router, f).flow).value);
    }
  }

  lemma SessionIsSeenIn(context: SessionContext, f: Flow, h: Flow, calls: seq<Call>, v: Visit)
    requires f.callbacks == [] && f.calls == [] && OneSession(context, f, h)
    requires h.calls == calls && h.callbacks == RegisteredBy(calls)
    requires Conducted(f.facts, f.counter, f.Changeable(), calls)
    requires OpenedBy(calls) != [] && OpenedBy(calls)[0] == Opening(v.id, v.seen)
    ensures SeenBehind(context, calls, v)
  {
    var k := FirstOpening(calls);
    SessionCallIsOurs(context, f, h, calls, k);
    NextSees(context, f.facts, f.counter, f.Changeable(), calls, v, k);
    assert SeenAt(context, calls, v, k);
  }

  /** The one session route is the one that was called. */
  lemma SessionCallIsOurs(context: SessionContext, f: Flow, h: Flow, calls: seq<Call>, k: nat)
    requires k < |calls| && calls[k].route.serve.SessionRoute? && TrueToRoute(calls[k])
    requires h.callbacks == RegisteredBy(calls) && f.callbacks == [] && OneSession(context, f, h)
    ensures calls[k].route.serve == SessionRoute(context)
  {
    var callback := calls[k].registers[0];
    RegisteredIsThere(calls, calls[k], callback);
    WriteBackIsListed(h.callbacks, callback);
  }

  /** One request through a whole router is one step of the map: it leaves the store alone if
      it never reaches the session route, and otherwise makes one correct visit, after which
      the store holds exactly the updated map. */
  lemma RequestRefinesMap(router: Router, context: SessionContext, at: nat, f: Flow,
                          sessions: map<string, Data>)
    requires WellMounted(router.routes) && Fresh(f) && f.callbacks == [] && f.calls == []
    requires OneSessionRoute(Flatten(router.routes, router.keepAlive, ROOT), context, at)
    requires RoundTrips(context) && Holds(context, f.storage, sessions)
    requires NewIds(context, f.storage, f.issued) && NoGuess(context, f)
    ensures var g := ServeRequest(router, f).flow;
            var v := VisitOf(context, f, g);
            && (v.Some? ==> VisitOk(sessions, v.value) && SeenBehind(context, g.calls, v.value))
            && Holds(context, g.storage, Updated(sessions, v))
            && NewIds(context, g.storage, g.issued)
  {
    SessionIsSeen(router, context, at, f);
    var h := ServedSession(router, context, at, f);
    if OneSession(context, f, h) {
      var start := OpenSession(context, f.facts.cookies, f.storage, f.issued);
      OpeningIsOk(context, f, sessions, LeftData(context, h));
      WriteBackHolds(context, f, sessions, start, h.table);
    }
  }

  /** What the write-back of an opened session does to the store and the remaining ids. */
  lemma WriteBackHolds(context: SessionContext, f: Flow, sessions: map<string, Data>, start: Opened,
                       table: map<string, Session>)
    requires RoundTrips(context) && Holds(context, f.storage, sessions) && NewIds(context, f.storage, f.issued)
    requires start.issued >= f.issued
    requires start.id !in f.storage ==> start.issued > f.issued && start.id == context.ids(start.issued - 1)
    ensures var storage := RunCallback(WriteBack(start.id, context), table, After(f.storage, [])).storage;
            && Holds(context, storage,
                     if context.sessionName in table then sessions[start.id := table[context.sessionName].data]
                     else sessions)
            && NewIds(context, storage, start.issued)
  {
    if context.sessionName in table {
      var data := table[context.sessionName].data;
      StoringHolds(context, f.storage, sessions, start.id, data);
      IdsStayNew(context, f.storage, f.issued, start.issued, start.id, context.toText(data).value);
    } else {
      IdsStayNew(context, f.storage, f.issued, start.issued, start.id, "");
    }
  }

  // ----- the session cookie

  /** A handler that leaves the cookies the response has so far. */
  ghost predicate KeepsCookies(handler: Handler) {
    forall view: View, exchange: Exchange, loaded: Loaded ::
      exchange.reply.cookies <= handler.respond(view, exchange, loaded).exchange.reply.cookies
  }

  ghost predicate KeepsCookie(e: FlatRoute, context: SessionContext) {
    match e.route.serve
    case Application(handler) => KeepsCookies(handler)
    case SessionRoute(own) => own == context
    case _ => true
  }

  /** Every session opened so far has its cookie in the response. */
  ghost predicate Carries(context: SessionContext, f: Flow) {
    forall opening :: opening in OpenedBy(f.calls) ==> SessionCookie(context, opening.id) in f.reply.cookies
  }

  lemma ApplicationCarries(handler: Handler, context: SessionContext, f: Flow)
    requires KeepsCookies(handler) && Carries(context, f)
    ensures Carries(context, RunApplication(handler, f).0)
  {
    assert f.Changeable().reply.cookies <= AnswerOf(handler, f).exchange.reply.cookies;
  }

  lemma SessionLeafCarries(context: SessionContext, f: Flow, call: Call)
    requires Carries(context, f)
    requires call.route.serve == SessionRoute(context) && call.result == RunSession(context, f).Changeable()
    ensures Carries(context, RunSession(context, f.(calls := f.calls + [call])))
  {
    OneMoreCall(f.calls, call);
    SessionEnters(context, f, call);
  }

  lemma NotedCarries(route: Route, context: SessionContext, f: Flow)
    requires IsLeaf(route) && !route.serve.SessionRoute? && Carries(context, f)
    ensures Carries(context, Noted(route, f))
  {
    OneMoreCall(f.calls, CallOf(route, f));
  }

  lemma LeafCarries(e: FlatRoute, context: SessionContext, f: Flow)
    requires ValidEntry(e) && KeepsCookie(e, context) && Carries(context, f)
    ensures Carries(context, RunLeaf(e.route, f).0)
  {
    if e.route.serve.SessionRoute? {
      SessionLeafCarries(context, f, CallOf(e.route, f));
    } else {
      NotedCarries(e.route, context, f);
      if e.route.serve.Application? { ApplicationCarries(e.route.serve.handler, context, Noted(e.route, f)); }
    }
  }

  lemma RespondCarries(context: SessionContext, f: Flow, keepAlive: bool, done: bool)
    requires Carries(context, f)
    ensures Carries(context, Respond(keepAlive, f).(done := done))
  {
    assert Respond(keepAlive, f).calls == f.calls;
    assert Respond(keepAlive, f).reply.cookies == f.reply.cookies;
  }

  lemma FlatCarries(e: FlatRoute, context: SessionContext, f: Flow)
    requires ValidEntry(e) && KeepsCookie(e, context) && Carries(context, f)
    ensures Carries(context, ServeFlat(e, f).0)
  {
    if f.IsOpen() && f.resource.Some? && !f.closed && FlatMatches(e, f.facts.verb, f.resource.value) {
      MatchIsUnder(e, f.facts.verb, f.resource.value);
      LeafCarries(e, context, Inside(e.place, f));
      var h := RunLeaf(e.route, Inside(e.place, f)).0.(resource := f.resource, basePath := f.basePath);
      assert Carries(context, h);
      RespondCarries(context, h, e.keepAlive, e.place.bases != []);
    }
  }

  lemma {:induction false} ScanCarries(list: seq<FlatRoute>, context: SessionContext, f: Flow)
    requires ValidList(list) && (forall e :: e in list ==> KeepsCookie(e, context)) && Carries(context, f)
    ensures Carries(context, Scan(list, f).0)
  {
    if list != [] {
      assert list[0] in list;
      FlatCarries(list[0], context, f);
      if !ServeFlat(list[0], f).1 { ScanCarries(list[1..], context, ServeFlat(list[0], f).0); }
    }
  }

  lemma {:induction false} CookieIsPrinted(cookies: seq<Cookie>, cookie: Cookie)
    requires cookie in cookies
    ensures Pair("Set-Cookie", Some(CookieText(cookie))) in CookiePairs(cookies)
  {
    var last := |cookies| - 1;
    if cookie != cookies[last] { CookieIsPrinted(cookies[..last], cookie); }
  }

  /** The visit's id is what the client learns and what the store is keyed by: the session
      cookie for that id is in the reply and, if the request was answered, among the header
      lines of the one response written; and what the handlers left is stored under it. */
  ghost predicate NamedByCookie(context: SessionContext, f: Flow, s: Served, v: Visit) {
    var cookie := SessionCookie(context, v.id);
    && cookie in s.flow.reply.cookies
    && (s.answered ==>
          && s.flow.written == f.written + ReplyBytes(s.flow.reply, s.flow.announced)
          && Pair("Set-Cookie", Some(CookieText(cookie))) in PrintedPairs(s.flow.reply, s.flow.announced))
    && (v.left.Some? && context.toText(v.left.value).Some? ==>
          v.id in s.flow.storage && Some(s.flow.storage[v.id]) == context.toText(v.left.value))
    && (context.modifyCookie == None ==>
          cookie == Cookie(context.cookieName, v.id, None, 2 * 365 * 86400, true, true, None, None, SameSiteStrict))
  }

  /** For every router tree with one session route whose handlers only add cookies, and every
      request: a visit's Set-Cookie names exactly the entry its data is later stored under. */
  lemma CookieNamesTheWriteBack(router: Router, context: SessionContext, at: nat, f: Flow)
    requires WellMounted(router.routes) && Fresh(f) && f.callbacks == [] && f.calls == []
    requires OneSessionRoute(Flatten(router.routes, router.keepAlive, ROOT), context, at)
    requires CookiesAreKept(router, context)
    ensures var s := ServeRequest(router, f);
            var v := VisitOf(context, f, s.flow);
            v.Some? ==> NamedByCookie(context, f, s, v.value)
  {
    var list := Flatten(router.routes, router.keepAlive, ROOT);
    var s := ServeRequest(router, f);
    var h := ServedSession(router, context, at, f);
    if OpenedBy(h.calls) != [] {
      NestedIsFlat(router, f);
      ScanCarries(list, context, f);
      var opening := OpenedBy(s.flow.calls)[0];
      assert opening in OpenedBy(s.flow.calls);
      CookieIsPrinted(s.flow.reply.cookies, SessionCookie(context, opening.id));
      ServedExactlyOnce(router, f);
    }
  }

  ghost predicate CookiesAreKept(router: Router, context: SessionContext) {
    forall e :: e in Flatten(router.routes, router.keepAlive, ROOT) ==> KeepsCookie(e, context)
  }

  /** The session goes on: a later request that brings the id back sees exactly the data that
      this request left, under the same id. */
  lemma SessionContinues(router: Router, context: SessionContext, at: nat, f: Flow, next: Flow,
                         sessions: map<string, Data>)
    requires WellMounted(router.routes) && Fresh(f) && f.callbacks == [] && f.calls == []
    requires OneSessionRoute(Flatten(router.routes, router.keepAlive, ROOT), context, at)
    requires RoundTrips(context) && Holds(context, f.storage, sessions)
    requires NewIds(context, f.storage, f.issued) && NoGuess(context, f)
    requires Fresh(next) && next.callbacks == [] && next.calls == []
    requires var g := ServeRequest(router, f).flow;
             var v := VisitOf(context, f, g);
             && next.storage == g.storage && next.issued == g.issued
             && v.Some? && v.value.left.Some? && AskedId(context, next) == Some(v.value.id)
    ensures var v := VisitOf(context, f, ServeRequest(router, f).flow).value;
            var w := VisitOf(context, next, ServeRequest(router, next).flow);
            w.Some? ==>
              && w.value.id == v.id && Some(w.value.seen) == v.left
              && SeenBehind(context, ServeRequest(router, next).flow.calls, w.value)
  {
    RequestRefinesMap(router, context, at, f, sessions);
    var later := Updated(sessions, VisitOf(context, f, ServeRequest(router, f).flow));
    RequestRefinesMap(router, context, at, next, later);
  }

  // ----- any sequence of requests

  /** What outlives a request. */
  datatype Store = Store(storage: map<string, string>, issued: nat)

  /** A request arriving at the store: its route data and callbacks are its own. */
  function Arriving(f: Flow, store: Store): Flow {
    f.(storage := store.storage, issued := store.issued, table := map[], callbacks := [], calls := [])
  }

  function ServeArrival(router: Router, f: Flow, store: Store): Served {
    ServeRequest(router, Arriving(f, store))
  }

  /** Requests, over one connection or many, none of which guesses an id. */
  ghost predicate Honest(router: Router, context: SessionContext, arrivals: seq<Flow>, store: Store) {
    arrivals == [] ||
    (&& Fresh(arrivals[0]) && NoGuess(context, Arriving(arrivals[0], store))
     && var g := ServeArrival(router, arrivals[0], store).flow;
        Honest(router, context, arrivals[1..], Store(g.storage, g.issued)))
  }

  /** Every request of the sequence is a correct visit to the map left by the ones before it,
      its response names the visited entry (where no handler drops cookies), and the store
      always holds that map. */
  ghost predicate Explained(router: Router, context: SessionContext, arrivals: seq<Flow>, store: Store,
                            sessions: map<string, Data>)
  {
    && Holds(context, store.storage, sessions)
    && (arrivals == [] ||
        var f := Arriving(arrivals[0], store);
        var s := ServeArrival(router, arrivals[0], store);
        var v := VisitOf(context, f, s.flow);
        && (v.Some? ==> VisitOk(sessions, v.value))
        && (v.Some? && CookiesAreKept(router, context) ==> NamedByCookie(context, f, s, v.value))
        && Explained(router, context, arrivals[1..], Store(s.flow.storage, s.flow.issued), Updated(sessions, v)))
  }

  /** Sessions refine a map from id to data, over any sequence of requests. */
  lemma {:induction false} SessionsRefineMap(router: Router, context: SessionContext, at: nat,
                                             arrivals: seq<Flow>, store: Store, sessions: map<string, Data>)
    requires WellMounted(router.routes)
    requires OneSessionRoute(Flatten(router.routes, router.keepAlive, ROOT), context, at)
    requires RoundTrips(context) && Holds(context, store.storage, sessions)
    requires NewIds(context, store.storage, store.issued)
    requires Honest(router, context, arrivals, store)
    ensures Explained(router, context, arrivals, store, sessions)
  {
    if arrivals != [] {
      var f := Arriving(arrivals[0], store);
      RequestRefinesMap(router, context, at, f, sessions);
      if CookiesAreKept(router, context) { CookieNamesTheWriteBack(router, context, at, f); }
      var g := ServeArrival(router, arrivals[0], store).flow;
      SessionsRefineMap(router, context, at, arrivals[1..], Store(g.storage, g.issued),
                        Updated(sessions, VisitOf(context, f, g)));
    }
  }
}
