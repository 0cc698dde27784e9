/** What one served request does: at most one response, first match wins, callbacks in reverse. */
module Serving {
  import opened Text
  import opened Message
  import opened Response
  import opened Routes
  import opened FlatRouting

  // ----- exactly one response, or none

  /** From `f` to `g` nothing was sent and the connection stayed as it was. */
  ghost predicate Silent(f: Flow, g: Flow) {
    && g.written == f.written && g.closed == f.closed
    && g.open == f.open && g.attached == f.attached
  }

  /** From `f` to `g` one response was sent, the final reply. It announces the close whenever
      the request's connection type is not keep-alive; the socket is closed exactly if that was
      announced or if a declared body is still unread. */
  ghost predicate Responded(f: Flow, g: Flow) {
    && g.written == f.written + ReplyBytes(g.reply, g.announced)
    && (g.connection != KeepAlive ==> g.announced)
    && g.closed == (g.announced || (g.facts.contentLength != 0 && !g.body.loaded))
    && g.open == !g.closed && g.attached == !g.closed
  }

  /** The body was left alone, or loaded once: then what is left on the socket is what one
      load leaves. */
  ghost predicate BodyAfter(f: Flow, g: Flow) {
    g.body == f.body
    || (!f.body.loaded && g.body.loaded
        && g.body.unread == TextLoad(f.body, f.facts.contentLength).0.unread)
  }

  ghost predicate OneResponse(f: Flow, g: Flow, answered: bool) {
    && g.facts == f.facts && g.counter == f.counter && g.storage == f.storage
    && BodyAfter(f, g)
    && if answered then Responded(f, g) else Silent(f, g) && !g.done
  }

  /** The scan of any router, at any depth and with any mounts, sends one response if it
      reports an answer and none otherwise. */
  lemma {:induction false} RoutesRespondOnce(routes: seq<Route>, keepAlive: bool, f: Flow)
    requires f.IsOpen() && !f.closed && !f.done
    ensures OneResponse(f, ServeRoutes(routes, keepAlive, f).0, ServeRoutes(routes, keepAlive, f).1)
    decreases routes, 1
  {
    if routes != [] {
      RouteRespondsOnce(routes[0], keepAlive, f);
      var (g, answered) := ServeRoute(routes[0], keepAlive, f);
      if !answered { RoutesRespondOnce(routes[1..], keepAlive, g); }
    }
  }

  lemma {:induction false} RouteRespondsOnce(route: Route, keepAlive: bool, f: Flow)
    requires f.IsOpen() && !f.closed && !f.done
    ensures OneResponse(f, ServeRoute(route, keepAlive, f).0, ServeRoute(route, keepAlive, f).1)
    decreases route, 0
  {
    if f.resource.Some? && Reaches(route, f) {
      if route.serve.Mount? {
        var router := route.serve.router;
        RoutesRespondOnce(router.routes, router.keepAlive, Entered(route, f));
        MountRelays(route, keepAlive, f, ServeRoutes(router.routes, router.keepAlive, Entered(route, f)));
      } else {
        LeafRespondsOnce(route, keepAlive, f);
      }
    }
  }

  lemma MountRelays(route: Route, keepAlive: bool, f: Flow, below: (Flow, bool))
    requires route.serve.Mount? && f.resource.Some? && f.IsOpen() && !f.closed && !f.done
    requires Reaches(route, f)
    requires below == ServeRoutes(route.serve.router.routes, route.serve.router.keepAlive, Entered(route, f))
    requires OneResponse(Entered(route, f), below.0, below.1)
    ensures OneResponse(f, ServeRoute(route, keepAlive, f).0, ServeRoute(route, keepAlive, f).1)
  {
    var (g, answered) := below;
    assert ServeRoute(route, keepAlive, f)
        == (g.(done := answered, resource := if route.path.Some? then f.resource else None,
               basePath := f.basePath), answered);
  }

  lemma LoadIsBodyAfter(handler: Handler, f: Flow)
    ensures BodyAfter(f, RunApplication(handler, f).0)
  {
    if !f.body.loaded && f.facts.contentLength > 0 { FileLoadAgrees(f.body, f.facts.contentLength); }
  }

  lemma LeafRespondsOnce(route: Route, keepAlive: bool, f: Flow)
    requires IsLeaf(route) && f.IsOpen() && !f.closed && !f.done && f.resource.Some? && Reaches(route, f)
    ensures OneResponse(f, ServeRoute(route, keepAlive, f).0, ServeRoute(route, keepAlive, f).1)
  {
    LeafRunsOnce(route, f);
    ConcludesOnce(keepAlive, f, RunLeaf(route, f));
    assert ServeRoute(route, keepAlive, f) == Conclude(keepAlive, RunLeaf(route, f));
  }

  lemma LeafRunsOnce(route: Route, f: Flow)
    requires IsLeaf(route) && f.IsOpen() && !f.closed && !f.done
    ensures OneResponse(f, RunLeaf(route, f).0, false)
  {
    LeafKeeps(route, f);
    if route.serve.Application? {
      LoadIsBodyAfter(route.serve.handler, Noted(route, f));
    }
  }

  lemma ConcludesOnce(keepAlive: bool, f: Flow, ran: (Flow, Decision))
    requires f.IsOpen() && !f.closed && OneResponse(f, ran.0, false)
    ensures OneResponse(f, Conclude(keepAlive, ran).0, Conclude(keepAlive, ran).1)
  {}

  lemma ReplyIsNotEmpty(reply: Reply, close: bool)
    ensures ReplyBytes(reply, close) != []
  {}

  /** hs_router_serve on a fresh exchange returns true exactly when one response went out, and
      then it is the only one; false exactly when nothing did. */
  lemma ServedExactlyOnce(router: Router, f: Flow)
    requires f.IsOpen() && !f.closed && !f.done
    ensures var s := ServeRequest(router, f);
            && (s.answered <==> Responded(f, s.flow))
            && (!s.answered <==> s.flow.written == f.written)
            && (!s.answered ==> Silent(f, s.flow))
            && BodyAfter(f, s.flow) && s.flow.facts == f.facts && s.flow.counter == f.counter
  {
    var s := ServeRequest(router, f);
    RoutesRespondOnce(router.routes, router.keepAlive, f);
    ReplyIsNotEmpty(s.flow.reply, s.flow.announced);
  }

  /** Every router of the tree supports keep-alive. */
  predicate AllKeepAlive(routes: seq<Route>)
    decreases routes, 1
  {
    routes == [] || (RouteKeepsAlive(routes[0]) && AllKeepAlive(routes[1..]))
  }

  predicate RouteKeepsAlive(route: Route)
    decreases route, 0
  {
    route.serve.Mount? ==> route.serve.router.keepAlive && AllKeepAlive(route.serve.router.routes)
  }

  /** Then a response announces the close exactly when the connection is not to be kept. */
  lemma {:induction false} KeepAliveIsHonoured(routes: seq<Route>, f: Flow)
    requires AllKeepAlive(routes) && f.IsOpen() && !f.closed && !f.done
    ensures var (g, answered) := ServeRoutes(routes, true, f);
            answered ==> (g.announced <==> g.connection != KeepAlive)
    decreases routes, 1
  {
    if routes != [] {
      RouteHonoursKeepAlive(routes[0], f);
      RouteRespondsOnce(routes[0], true, f);
      var (g, answered) := ServeRoute(routes[0], true, f);
      if !answered { KeepAliveIsHonoured(routes[1..], g); }
    }
  }

  lemma {:induction false} RouteHonoursKeepAlive(route: Route, f: Flow)
    requires RouteKeepsAlive(route) && f.IsOpen() && !f.closed && !f.done
    ensures var (g, answered) := ServeRoute(route, true, f);
            answered ==> (g.announced <==> g.connection != KeepAlive)
    decreases route, 0
  {
    if f.resource.Some? && Reaches(route, f) {
      if route.serve.Mount? {
        KeepAliveIsHonoured(route.serve.router.routes, Entered(route, f));
      } else {
        LeafKeeps(route, f);
        AnnouncedAsAsked(RunLeaf(route, f).0);
      }
    }
  }

  lemma AnnouncedAsAsked(f: Flow)
    ensures var g := Respond(true, f); g.announced <==> g.connection != KeepAlive
  {
    Announced(true, f);
  }

  /** A route that answers has its own router announce: the close, if the router does not support
      keep-alive or the connection type is not keep-alive. */
  lemma FlatAnnounces(e: FlatRoute, f: Flow)
    requires ValidEntry(e)
    ensures var (g, answered) := ServeFlat(e, f);
            answered ==> (g.announced <==> !e.keepAlive || g.connection != KeepAlive)
  {
    if f.IsOpen() && f.resource.Some? && !f.closed && FlatMatches(e, f.facts.verb, f.resource.value) {
      MatchIsUnder(e, f.facts.verb, f.resource.value);
      var h := RunLeaf(e.route, Inside(e.place, f)).0.(resource := f.resource, basePath := f.basePath);
      Announced(e.keepAlive, h);
    }
  }

  lemma SentOffAnnounces(f: Flow, reply: Reply, bytes: string, announced: bool)
    ensures var g := SentOff(f, reply, bytes, announced);
            g.announced == announced && g.connection == f.connection
  {}

  lemma Announced(keepAlive: bool, f: Flow)
    ensures var g := Respond(keepAlive, f); g.announced <==> !keepAlive || g.connection != KeepAlive
  {
    var announced, reply := AnnouncesClose(keepAlive, f), Typed(f.reply);
    SentOffAnnounces(f, reply, ReplyBytes(reply, announced), announced);
    match f.connection case KeepAlive => case _ =>
  }

  /** The routes before the i-th pass, and the i-th answers with what the scan returns. */
  ghost predicate AnswersAt(list: seq<FlatRoute>, f: Flow, i: nat)
    requires ValidList(list)
  {
    && i < |list| && ValidList(list[..i]) && ValidEntry(list[i])
    && var (g, answered) := Scan(list[..i], f);
    && !answered && ServeFlat(list[i], g) == Scan(list, f) && Scan(list, f).1
  }

  lemma AnswersLater(list: seq<FlatRoute>, f: Flow, i: nat)
    requires list != [] && ValidList(list) && ValidList(list[1..]) && ValidEntry(list[0])
    requires !ServeFlat(list[0], f).1 && AnswersAt(list[1..], ServeFlat(list[0], f).0, i)
    ensures AnswersAt(list, f, i + 1)
  {
    assert list[..i + 1][1..] == list[1..][..i] && list[..i + 1][0] == list[0];
    assert forall e :: e in list[..i + 1] ==> e in list;
    assert list[i + 1] in list;
  }

  /** When the scan answers, exactly the routes up to the first one that answers ran: those
      before it passed, and no later route of any router was tried. */
  lemma {:induction false} FirstAnswerWins(list: seq<FlatRoute>, f: Flow)
    requires ValidList(list)
    ensures Scan(list, f).1 <==> exists i: nat :: AnswersAt(list, f, i)
  {
    if list != [] {
      assert list[0] in list;
      var (g, answered) := ServeFlat(list[0], f);
      if answered {
        assert list[..0] == [];
        assert AnswersAt(list, f, 0);
      } else {
        FirstAnswerWins(list[1..], g);
        if Scan(list, f).1 {
          var i: nat :| AnswersAt(list[1..], g, i);
          AnswersLater(list, f, i);
        }
      }
    }
  }

  /** So a response announces the close exactly if the router that sends it, at whatever depth,
      does not support keep-alive or the connection type is not keep-alive. */
  lemma RouterAnnounces(router: Router, f: Flow)
    requires WellMounted(router.routes) && Waiting(f) && ServeRequest(router, f).answered
    ensures var list := Flatten(router.routes, router.keepAlive, ROOT);
            var g := ServeRequest(router, f).flow;
            exists i: nat :: AnswersAt(list, f, i)
              && (g.announced <==> !list[i].keepAlive || g.connection != KeepAlive)
  {
    var list := Flatten(router.routes, router.keepAlive, ROOT);
    NestedIsFlat(router, f);
    FirstAnswerWins(list, f);
    var i: nat :| AnswersAt(list, f, i);
    FlatAnnounces(list[i], Scan(list[..i], f).0);
  }
}
