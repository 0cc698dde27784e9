/** The leaves one request calls: what they see, what becomes of what they answer, and which of
    their callbacks run. */
module Calls {
  import opened Text
  import opened KeyedLists
  import opened Message
  import opened Response
  import opened Sessions
  import opened Callbacks
  import opened Routes
  import opened FlatRouting

  // ----- callbacks

  function Reversed(s: seq<Callback>): (r: seq<Callback>)
    ensures |r| == |s| && forall i :: 0 <= i < |s| ==> r[i] == s[|s| - 1 - i]
  {
    if s == [] then [] else [s[|s| - 1]] + Reversed(s[..|s| - 1])
  }

  /** Every registered callback runs exactly once, the last registered first. */
  lemma {:induction false} CallbacksRunInReverse(callbacks: seq<Callback>, table: map<string, Session>, a: After)
    ensures RunCallbacks(callbacks, table, a).ran == a.ran + Reversed(callbacks)
  {
    if callbacks != [] {
      var last := |callbacks| - 1;
      CallbacksRunInReverse(callbacks[..last], table, RunCallback(callbacks[last], table, a));
    }
  }

  /** All callbacks that the handlers of these calls registered, in order. */
  function RegisteredBy(calls: seq<Call>): seq<Callback> {
    if calls == [] then []
    else RegisteredBy(calls[..|calls| - 1]) + calls[|calls| - 1].registers
  }

  lemma {:induction false} RegisteredByAppend(a: seq<Call>, b: seq<Call>)
    ensures RegisteredBy(a + b) == RegisteredBy(a) + RegisteredBy(b)
  {
    if b == [] {
      assert a + b == a;
    } else {
      var last := |b| - 1;
      assert (a + b)[..|a| + last] == a + b[..last];
      RegisteredByAppend(a, b[..last]);
      Regrouped(RegisteredBy(a), RegisteredBy(b[..last]), b[last].registers);
    }
  }

  lemma Regrouped(a: seq<Callback>, b: seq<Callback>, c: seq<Callback>)
    ensures a + (b + c) == (a + b) + c
  {}

  // ----- what calls mean

  function AskedFor(loaded: Loaded): Load {
    match loaded case NotLoaded => LoadNothing case AsText(_) => LoadText case AsFile(_) => LoadFile
  }

  /** Performing the loads of these calls one after the other, from `body` on, gives each call
      what it got and leaves `after`. */
  ghost predicate Loads(body: Body, calls: seq<Call>, length: nat, after: Body)
    decreases calls
  {
    if calls == [] then after == body
    else
      var (next, loaded) := Perform(AskedFor(calls[0].loaded), body, length);
      loaded == calls[0].loaded && Loads(next, calls[1..], length, after)
  }

  lemma {:induction false} LoadsAppend(body: Body, a: seq<Call>, middle: Body, b: seq<Call>, length: nat, after: Body)
    requires Loads(body, a, length, middle) && Loads(middle, b, length, after)
    ensures Loads(body, a + b, length, after)
    decreases a
  {
    if a == [] {
      assert a + b == b;
    } else {
      assert (a + b)[1..] == a[1..] + b;
      LoadsAppend(Perform(AskedFor(a[0].loaded), body, length).0, a[1..], middle, b, length, after);
    }
  }

  /** The call did what its route's serve function says, with what is on its record: an
      application's handler got the recorded view, exchange and load, and its answer is what
      came of it; the limit closes from its value on, and only then; the session route enters a
      session, sends its cookie, and registers its write-back. */
  ghost predicate TrueToRoute(call: Call) {
    match call.route.serve
    case Application(handler) =>
      var answer := handler.respond(call.view, call.exchange, call.loaded);
      && AskedFor(call.loaded) == handler.load(call.view, call.exchange)
      && call.result == answer.exchange && call.registers == Owned(answer.callbacks)
      && call.decision == answer.decision
    case MaxRequests(limit) =>
      && call.loaded == NotLoaded && call.registers == [] && call.decision == Continue
      && call.result ==
           if limit < 2 || call.view.counter >= limit
           then call.exchange.(connection := CloseConnection) else call.exchange
    case SessionRoute(context) =>
      && call.loaded == NotLoaded && call.decision == Continue
      && context.sessionName in call.result.table
      && var session := call.result.table[context.sessionName];
      && call.registers == [WriteBack(session.id, context)]
      && call.result == Exchange(
           call.exchange.connection,
           call.exchange.reply.(cookies := call.exchange.reply.cookies + [SessionCookie(context, session.id)]),
           call.exchange.table[context.sessionName := session])
    case _ => false
  }

  /** What the call after `calls` gets to change. */
  function Onward(x: Exchange, calls: seq<Call>): Exchange {
    if calls == [] then x else calls[|calls| - 1].result
  }

  /** The calls of one request, from `x` on: all see the request's facts, each starts from what
      the one before it left, and each is true to its route. */
  ghost predicate Conducted(facts: Facts, counter: nat, x: Exchange, calls: seq<Call>) {
    forall i :: 0 <= i < |calls| ==>
      && calls[i].view.facts == facts && calls[i].view.counter == counter
      && calls[i].exchange == Onward(x, calls[..i])
      && TrueToRoute(calls[i])
  }

  lemma ConductedAppend(facts: Facts, counter: nat, x: Exchange, a: seq<Call>, b: seq<Call>)
    requires Conducted(facts, counter, x, a) && Conducted(facts, counter, Onward(x, a), b)
    ensures Conducted(facts, counter, x, a + b) && Onward(x, a + b) == Onward(Onward(x, a), b)
  {
    var calls := a + b;
    forall i | 0 <= i < |calls|
      ensures calls[i].view.facts == facts && calls[i].view.counter == counter
      ensures calls[i].exchange == Onward(x, calls[..i]) && TrueToRoute(calls[i])
    {
      if i < |a| {
        assert calls[i] == a[i] && calls[..i] == a[..i];
      } else {
        var j := i - |a|;
        assert calls[i] == b[j] && calls[..i] == a + b[..j];
        assert j > 0 ==> calls[..i][i - 1] == b[..j][j - 1];
      }
    }
  }

  /** Nobody answered. */
  ghost predicate Passed(calls: seq<Call>) {
    forall call :: call in calls ==> call.decision == Continue
  }

  /** The last one called answered, and nobody before. */
  ghost predicate AnsweredLast(calls: seq<Call>) {
    calls != [] && Passed(calls[..|calls| - 1]) && calls[|calls| - 1].decision == Done
  }

  lemma AnsweredLater(a: seq<Call>, b: seq<Call>)
    requires Passed(a)
    ensures Passed(b) ==> Passed(a + b)
    ensures AnsweredLast(b) ==> AnsweredLast(a + b)
  {
    if b != [] {
      assert (a + b)[..|a + b| - 1] == a + b[..|b| - 1];
      assert (a + b)[|a + b| - 1] == b[|b| - 1];
    }
  }

  /** Sending a response fills in the type of a content file that has none; nothing else that
      handlers left changes. */
  ghost predicate UpToType(x: Exchange, y: Exchange) {
    && y.connection == x.connection && y.table == x.table
    && y.reply ==
         if Lookup(x.reply.headers, "Content-Type") == None && x.reply.mimeType.None? && x.reply.file.Some?
         then x.reply.(mimeType := Some(x.reply.file.value.typeByName)) else x.reply
  }

  /** How a request's scan ended: passed by all it called, or answered by the last of them. */
  ghost predicate Ended(f: Flow, g: Flow, answered: bool, calls: seq<Call>) {
    var last := Onward(f.Changeable(), calls);
    if answered then AnsweredLast(calls) && UpToType(last, g.Changeable())
    else Passed(calls) && g.Changeable() == last && g.done == f.done
  }

  ghost predicate Gathered(f: Flow, g: Flow, calls: seq<Call>) {
    && g.facts == f.facts && g.counter == f.counter && g.calls == f.calls + calls
    && g.callbacks == f.callbacks + RegisteredBy(calls)
    && Loads(f.body, calls, f.facts.contentLength, g.body)
  }

  lemma GatheredChain(f: Flow, g: Flow, h: Flow, first: seq<Call>, second: seq<Call>)
    requires Gathered(f, g, first) && Gathered(g, h, second)
    ensures Gathered(f, h, first + second)
  {
    RegisteredByAppend(first, second);
    Regrouped(f.callbacks, RegisteredBy(first), RegisteredBy(second));
    LoadsAppend(f.body, first, g.body, second, f.facts.contentLength, h.body);
    assert f.calls + first + second == f.calls + (first + second);
  }

  /** From `f` to `g` the leaves `calls` were called, one after the other: the callbacks grew by
      exactly what they registered, the body went through exactly the loads they made, and what
      they could change is what they left. */
  ghost predicate CollectedFrom(f: Flow, g: Flow, answered: bool, calls: seq<Call>) {
    && Gathered(f, g, calls)
    && Conducted(f.facts, f.counter, f.Changeable(), calls)
    && (!f.done ==> Ended(f, g, answered, calls))
  }

  ghost predicate Collected(f: Flow, g: Flow, answered: bool) {
    exists calls :: CollectedFrom(f, g, answered, calls)
  }

  lemma EndedChain(f: Flow, g: Flow, h: Flow, answered: bool, first: seq<Call>, second: seq<Call>)
    requires !f.done && Ended(f, g, false, first) && Ended(g, h, answered, second)
    requires Onward(f.Changeable(), first + second) == Onward(Onward(f.Changeable(), first), second)
    ensures Ended(f, h, answered, first + second)
  {
    AnsweredLater(first, second);
  }

  lemma CollectedFromChain(f: Flow, g: Flow, h: Flow, answered: bool, first: seq<Call>, second: seq<Call>)
    requires !f.done && CollectedFrom(f, g, false, first) && CollectedFrom(g, h, answered, second)
    ensures CollectedFrom(f, h, answered, first + second)
  {
    GatheredChain(f, g, h, first, second);
    ConductedAppend(f.facts, f.counter, f.Changeable(), first, second);
    EndedChain(f, g, h, answered, first, second);
  }

  lemma CollectedChain(f: Flow, g: Flow, h: Flow, answered: bool)
    requires !f.done && Collected(f, g, false) && Collected(g, h, answered)
    ensures Collected(f, h, answered)
  {
    var first :| CollectedFrom(f, g, false, first);
    var second :| CollectedFrom(g, h, answered, second);
    CollectedFromChain(f, g, h, answered, first, second);
  }

  lemma NothingCollected(f: Flow)
    ensures Collected(f, f, false)
    ensures f.done ==> Collected(f, f, true)
  {
    assert CollectedFrom(f, f, false, []);
    assert f.done ==> CollectedFrom(f, f, true, []);
  }

  /** However deep their routers, for every tree: dispatch calls leaves one after the other, each
      starting from what the one before it left; it adds exactly the callbacks they register and
      takes the body through exactly the loads they make; and it answers exactly if the last one
      called did. */
  lemma {:induction false} CallbacksPileUp(routes: seq<Route>, keepAlive: bool, f: Flow)
    ensures var (g, answered) := ServeRoutes(routes, keepAlive, f); Collected(f, g, answered)
    decreases routes, 1
  {
    if routes == [] {
      NothingCollected(f);
    } else if f.done {
      DoneCollectsNothing(routes, keepAlive, f);
    } else {
      var (g, answered) := ServeRoute(routes[0], keepAlive, f);
      RoutePilesUp(routes[0], keepAlive, f);
      if !answered {
        var (h, later) := ServeRoutes(routes[1..], keepAlive, g);
        CallbacksPileUp(routes[1..], keepAlive, g);
        CollectedChain(f, g, h, later);
      }
    }
  }

  lemma {:induction false} DoneCollectsNothing(routes: seq<Route>, keepAlive: bool, f: Flow)
    requires f.done
    ensures var (g, answered) := ServeRoutes(routes, keepAlive, f); g == f && Collected(f, g, answered)
  {
    NothingCollected(f);
    if routes != [] { DoneCollectsNothing(routes[1..], keepAlive, f); }
  }

  lemma {:induction false} RoutePilesUp(route: Route, keepAlive: bool, f: Flow)
    requires !f.done
    ensures var (g, answered) := ServeRoute(route, keepAlive, f); Collected(f, g, answered)
    decreases route, 2
  {
    if f.IsOpen() && f.resource.Some? && !f.closed && Reaches(route, f) {
      if route.serve.Mount? {
        MountPilesUp(route, f);
        assert ServeRoute(route, keepAlive, f) ==
               (ServeMount(route, f).0, ServeMount(route, f).1 == Done);
      } else {
        LeafCollects(route, f);
        LeafConcludes(keepAlive, f, RunLeaf(route, f), CallOf(route, f));
      }
    } else {
      NothingCollected(f);
    }
  }

  lemma {:induction false} MountPilesUp(route: Route, f: Flow)
    requires route.serve.Mount? && f.resource.Some? && !f.done
    requires SupportedPath(route.path, route.isParent, f.resource.value)
    ensures var (g, decision) := ServeMount(route, f);
            Collected(f, g, decision == Done) && g.done == (decision == Done)
    decreases route, 1
  {
    var router, inner := route.serve.router, Entered(route, f);
    var (g, answered) := ServeRoutes(router.routes, router.keepAlive, inner);
    CallbacksPileUp(router.routes, router.keepAlive, inner);
    var calls :| CollectedFrom(inner, g, answered, calls);
    assert CollectedFrom(f, ServeMount(route, f).0, answered, calls);
  }

  /** From `f` to `g` one call was made, and it is on record. */
  ghost predicate OneCallMade(f: Flow, g: Flow, call: Call) {
    && g.facts == f.facts && g.counter == f.counter && g.done == f.done && g.calls == f.calls + [call]
    && g.callbacks == f.callbacks + call.registers
    && Perform(AskedFor(call.loaded), f.body, f.facts.contentLength) == (g.body, call.loaded)
    && call.view.facts == f.facts && call.view.counter == f.counter
    && call.exchange == f.Changeable() && call.result == g.Changeable()
    && TrueToRoute(call)
  }

  lemma LeafCollects(route: Route, f: Flow)
    requires IsLeaf(route)
    ensures OneCallMade(f, RunLeaf(route, f).0, CallOf(route, f))
    ensures RunLeaf(route, f).1 == CallOf(route, f).decision
  {
    var call := CallOf(route, f);
    match route.serve
    case Application(handler) => ApplicationCollects(handler, f, Noted(route, f), call);
    case MaxRequests(limit) => LimitCollects(limit, f, Noted(route, f), call);
    case SessionRoute(context) => SessionCollects(context, f, Noted(route, f), call);
  }

  lemma PerformsAsAsked(load: Load, body: Body, length: nat)
    ensures var (after, loaded) := Perform(load, body, length);
            AskedFor(loaded) == load && Perform(AskedFor(loaded), body, length) == (after, loaded)
  {
    match load case LoadNothing => case LoadText => case LoadFile =>
  }

  lemma ApplicationCollects(handler: Handler, f: Flow, noted: Flow, call: Call)
    requires noted == f.(calls := f.calls + [call]) && call.route.serve == Application(handler)
    requires call == Call(call.route, f.SeenBy(), f.Changeable(), LoadFor(handler, f).1,
                          RunApplication(handler, f).0.Changeable(),
                          Owned(AnswerOf(handler, f).callbacks), RunApplication(handler, f).1)
    ensures OneCallMade(f, RunApplication(handler, noted).0, call)
    ensures RunApplication(handler, noted).1 == call.decision
  {
    PerformsAsAsked(handler.load(f.SeenBy(), f.Changeable()), f.body, f.facts.contentLength);
    assert LoadFor(handler, noted) == LoadFor(handler, f);
  }

  lemma LimitCollects(limit: nat, f: Flow, noted: Flow, call: Call)
    requires noted == f.(calls := f.calls + [call]) && call.route.serve == MaxRequests(limit)
    requires call == Call(call.route, f.SeenBy(), f.Changeable(), NotLoaded,
                          RunMaxRequests(limit, f).Changeable(), [], Continue)
    ensures OneCallMade(f, RunMaxRequests(limit, noted), call)
  {}

  lemma SessionCollects(context: SessionContext, f: Flow, noted: Flow, call: Call)
    requires noted == f.(calls := f.calls + [call]) && call.route.serve == SessionRoute(context)
    requires call == Call(call.route, f.SeenBy(), f.Changeable(), NotLoaded, RunSession(context, f).Changeable(),
                          [WriteBack(OpenSession(context, f.facts.cookies, f.storage, f.issued).id, context)],
                          Continue)
    ensures OneCallMade(f, RunSession(context, noted), call)
  {}

  lemma OneCall(f: Flow, g: Flow, call: Call)
    requires OneCallMade(f, g, call)
    ensures g.callbacks == f.callbacks + RegisteredBy([call])
    ensures Loads(f.body, [call], f.facts.contentLength, g.body)
    ensures Conducted(f.facts, f.counter, f.Changeable(), [call])
    ensures Onward(f.Changeable(), [call]) == g.Changeable()
  {
    assert [call][..0] == [] && [call][1..] == [];
    assert RegisteredBy([call]) == RegisteredBy([]) + call.registers == call.registers;
  }

  lemma OneDecides(call: Call)
    ensures call.decision == Continue ==> Passed([call])
    ensures call.decision == Done ==> AnsweredLast([call])
  {
    assert [call][..0] == [] && [call][0] == call;
  }

  lemma SentOffKeeps(f: Flow, reply: Reply, bytes: string, announced: bool)
    ensures var g := SentOff(f, reply, bytes, announced);
            && g.facts == f.facts && g.counter == f.counter && g.calls == f.calls
            && g.callbacks == f.callbacks && g.body == f.body
  {}

  lemma SentOffChanges(f: Flow, reply: Reply, bytes: string, announced: bool)
    ensures SentOff(f, reply, bytes, announced).Changeable() == Exchange(f.connection, reply, f.table)
  {}

  lemma TypedIsUpToType(x: Exchange)
    ensures UpToType(x, Exchange(x.connection, Typed(x.reply), x.table))
  {}

  lemma RespondKeeps(keepAlive: bool, f: Flow)
    ensures var g := Respond(keepAlive, f);
            && g.facts == f.facts && g.counter == f.counter && g.calls == f.calls
            && g.callbacks == f.callbacks && g.body == f.body && UpToType(f.Changeable(), g.Changeable())
  {
    var announced, reply := AnnouncesClose(keepAlive, f), Typed(f.reply);
    SentOffKeeps(f, reply, ReplyBytes(reply, announced), announced);
    SentOffChanges(f, reply, ReplyBytes(reply, announced), announced);
    TypedIsUpToType(f.Changeable());
  }

  lemma LeafConcludes(keepAlive: bool, f: Flow, ran: (Flow, Decision), call: Call)
    requires !f.done && OneCallMade(f, ran.0, call) && ran.1 == call.decision
    ensures Collected(f, Conclude(keepAlive, ran).0, Conclude(keepAlive, ran).1)
  {
    OneCall(f, ran.0, call);
    OneDecides(call);
    RespondKeeps(keepAlive, ran.0);
    var (g, answered) := Conclude(keepAlive, ran);
    assert CollectedFrom(f, g, answered, [call]);
  }

  /** The calls of a request that starts afresh. */
  lemma FreshCalls(router: Router, f: Flow) returns (calls: seq<Call>)
    requires Waiting(f) && f.calls == [] && f.callbacks == []
    ensures var g := ServeRoutes(router.routes, router.keepAlive, f).0;
            g.calls == calls && g.callbacks == RegisteredBy(calls)
    ensures Conducted(f.facts, f.counter, f.Changeable(), calls)
  {
    var (g, answered) := ServeRoutes(router.routes, router.keepAlive, f);
    CallbacksPileUp(router.routes, router.keepAlive, f);
    calls :| CollectedFrom(f, g, answered, calls);
    assert [] + calls == calls && [] + RegisteredBy(calls) == RegisteredBy(calls);
  }

  /** The whole of a served request, in terms of the calls it made. */
  lemma HandlersDecide(router: Router, f: Flow)
    requires Waiting(f)
    ensures var s := ServeRequest(router, f);
            && f.calls <= s.flow.calls
            && var calls := s.flow.calls[|f.calls|..];
            && Conducted(f.facts, f.counter, f.Changeable(), calls)
            && (s.answered <==> AnsweredLast(calls)) && (!s.answered <==> Passed(calls))
            && (s.answered ==> UpToType(Onward(f.Changeable(), calls), s.flow.Changeable()))
            && (!s.answered ==> s.flow.Changeable() == Onward(f.Changeable(), calls))
  {
    var (g, answered) := ServeRoutes(router.routes, router.keepAlive, f);
    CallbacksPileUp(router.routes, router.keepAlive, f);
    var calls :| CollectedFrom(f, g, answered, calls);
    assert g.calls[|f.calls|..] == calls;
    if answered { assert calls[|calls| - 1] in calls; }
  }

  /** A served request runs, whether or not a route answered, every callback it came with and
      every callback a handler registered, at whatever depth of the tree: each exactly once, in
      reverse. */
  lemma ServedRunsCallbacks(router: Router, f: Flow)
    requires Waiting(f)
    ensures var s := ServeRequest(router, f);
            && f.calls <= s.flow.calls
            && s.ran == Reversed(f.callbacks + RegisteredBy(s.flow.calls[|f.calls|..]))
  {
    var (g, answered) := ServeRoutes(router.routes, router.keepAlive, f);
    CallbacksRunInReverse(g.callbacks, g.table, After(g.storage, []));
    CallbacksPileUp(router.routes, router.keepAlive, f);
    var calls :| CollectedFrom(f, g, answered, calls);
    assert g.calls[|f.calls|..] == calls;
    assert [] + Reversed(g.callbacks) == Reversed(g.callbacks);
  }

  lemma {:induction false} RegisteredIsThere(calls: seq<Call>, call: Call, callback: Callback)
    requires call in calls && callback in call.registers
    ensures callback in RegisteredBy(calls)
  {
    var last := |calls| - 1;
    if call != calls[last] { RegisteredIsThere(calls[..last], call, callback); }
  }

  lemma {:induction false} ReversedHolds(s: seq<Callback>, callback: Callback)
    ensures callback in Reversed(s) <==> callback in s
  {
    if s != [] {
      var last := |s| - 1;
      assert s == s[..last] + [s[last]];
      ReversedHolds(s[..last], callback);
    }
  }

  /** In particular no registered callback is left out. */
  lemma EveryCallbackRuns(router: Router, f: Flow)
    requires Waiting(f)
    ensures var s := ServeRequest(router, f);
            && f.calls <= s.flow.calls
            && forall call, callback ::
                 call in s.flow.calls[|f.calls|..] && callback in call.registers ==> callback in s.ran
  {
    var s := ServeRequest(router, f);
    ServedRunsCallbacks(router, f);
    var calls := s.flow.calls[|f.calls|..];
    forall call, callback | call in calls && callback in call.registers ensures callback in s.ran {
      RegisteredIsThere(calls, call, callback);
      ReversedHolds(f.callbacks + RegisteredBy(calls), callback);
    }
  }

  // ----- the body

  /** The whole body, as a load of either kind hands it over. */
  ghost predicate IsBody(loaded: Loaded, body: string) {
    match loaded
    case NotLoaded => false
    case AsText(text) => text == Some(body)
    case AsFile(result) => result == FileResult(true, if body == [] then None else Some(body))
  }

  /** The first call that loads gets the whole body; whoever loads later gets nothing. */
  ghost predicate ReadOnce(calls: seq<Call>, body: string) {
    forall i :: 0 <= i < |calls| && calls[i].loaded != NotLoaded ==>
      if forall j :: 0 <= j < i ==> calls[j].loaded == NotLoaded then IsBody(calls[i].loaded, body)
      else IsNothing(calls[i].loaded)
  }

  predicate IsNothing(loaded: Loaded) {
    loaded == AsText(None) || loaded == AsFile(FileResult(false, None))
  }

  lemma {:induction false} LaterLoadsGetNothing(body: Body, calls: seq<Call>, length: nat, after: Body)
    requires body.loaded && Loads(body, calls, length, after)
    ensures forall i :: 0 <= i < |calls| && calls[i].loaded != NotLoaded ==> IsNothing(calls[i].loaded)
  {
    if calls != [] {
      LaterLoadsGetNothing(body, calls[1..], length, after);
      assert forall i :: 0 < i < |calls| ==> calls[i] == calls[1..][i - 1];
    }
  }

  lemma FirstLoadGetsBody(body: Body, load: Load, length: nat)
    requires !body.loaded && |Pending(body)| == length && load != LoadNothing
    ensures var (next, loaded) := Perform(load, body, length);
            next.loaded && IsBody(loaded, Pending(body))
  {
    TextLoadExact(body, length);
    assert Pending(body)[..length] == Pending(body);
    if length > 0 { FileLoadAgrees(body, length); }
  }

  lemma {:induction false} LoadsReadOnce(body: Body, calls: seq<Call>, length: nat, after: Body)
    requires !body.loaded && |Pending(body)| == length && Loads(body, calls, length, after)
    ensures ReadOnce(calls, Pending(body))
  {
    if calls != [] {
      assert forall i :: 0 < i < |calls| ==> calls[i] == calls[1..][i - 1];
      if calls[0].loaded == NotLoaded {
        LoadsReadOnce(body, calls[1..], length, after);
        ReadOnceShifts(calls, Pending(body));
      } else {
        var next := Perform(AskedFor(calls[0].loaded), body, length).0;
        FirstLoadGetsBody(body, AskedFor(calls[0].loaded), length);
        LaterLoadsGetNothing(next, calls[1..], length, after);
      }
    }
  }

  lemma ReadOnceShifts(calls: seq<Call>, body: string)
    requires calls != [] && calls[0].loaded == NotLoaded && ReadOnce(calls[1..], body)
    ensures ReadOnce(calls, body)
  {
    var rest := calls[1..];
    forall i | 0 <= i < |calls| && calls[i].loaded != NotLoaded
      ensures if forall j :: 0 <= j < i ==> calls[j].loaded == NotLoaded then IsBody(calls[i].loaded, body)
              else IsNothing(calls[i].loaded)
    {
      assert calls[i] == rest[i - 1];
      assert forall j :: 0 <= j < i - 1 ==> rest[j] == calls[j + 1];
      assert forall j :: 0 < j < i ==> calls[j] == rest[j - 1];
    }
  }

  /** When the body arrives whole, then of all handlers a request reaches, at whatever depth and
      by whichever kind of load, the first to load gets exactly the body, the others nothing; and
      what they got is what they answered with. */
  lemma BodyIsReadOnce(router: Router, f: Flow)
    requires Waiting(f) && !f.body.loaded && |Pending(f.body)| == f.facts.contentLength
    ensures var s := ServeRequest(router, f);
            && f.calls <= s.flow.calls && ReadOnce(s.flow.calls[|f.calls|..], Pending(f.body))
            && forall call :: call in s.flow.calls[|f.calls|..] ==> TrueToRoute(call)
  {
    var (g, answered) := ServeRoutes(router.routes, router.keepAlive, f);
    CallbacksPileUp(router.routes, router.keepAlive, f);
    var calls :| CollectedFrom(f, g, answered, calls);
    assert g.calls[|f.calls|..] == calls;
    LoadsReadOnce(f.body, calls, f.facts.contentLength, g.body);
  }
}
