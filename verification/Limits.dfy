/** The rate limit is not only kept but reached: until then a kept connection stays open. */
module Limits {
  import opened Text
  import opened Io
  import opened Message
  import opened RequestParser
  import opened Routes
  import opened FlatRouting
  import opened Serving
  import opened Connection

  /** A handler that leaves the connection type as the request has it. */
  ghost predicate KeepsType(handler: Handler) {
    forall view: View, exchange: Exchange, loaded: Loaded ::
      handler.respond(view, exchange, loaded).exchange.connection == exchange.connection
  }

  /** No handler touches the connection type, and no limit is below `limit`. */
  ghost predicate Lenient(routes: seq<Route>, limit: nat)
    decreases routes, 1
  {
    routes == [] || (LenientRoute(routes[0], limit) && Lenient(routes[1..], limit))
  }

  ghost predicate LenientRoute(route: Route, limit: nat)
    decreases route, 0
  {
    match route.serve
    case Application(handler) => KeepsType(handler)
    case MaxRequests(own) => own >= limit
    case Mount(router) => Lenient(router.routes, limit)
    case _ => true
  }

  lemma {:induction false} StaysKept(routes: seq<Route>, keepAlive: bool, limit: nat, f: Flow)
    requires Lenient(routes, limit) && f.counter < limit && limit >= 2 && f.connection == KeepAlive
    ensures var g := ServeRoutes(routes, keepAlive, f).0; g.connection == KeepAlive && g.counter == f.counter
    decreases routes, 1
  {
    if routes != [] {
      RouteStaysKept(routes[0], keepAlive, limit, f);
      StaysKept(routes[1..], keepAlive, limit, ServeRoute(routes[0], keepAlive, f).0);
    }
  }

  lemma {:induction false} RouteStaysKept(route: Route, keepAlive: bool, limit: nat, f: Flow)
    requires LenientRoute(route, limit) && f.counter < limit && limit >= 2 && f.connection == KeepAlive
    ensures var g := ServeRoute(route, keepAlive, f).0; g.connection == KeepAlive && g.counter == f.counter
    decreases route, 0
  {
    if f.resource.Some? && Reaches(route, f) {
      if route.serve.Mount? {
        StaysKept(route.serve.router.routes, route.serve.router.keepAlive, limit, Entered(route, f));
      } else {
        LeafStaysKept(route, limit, f);
      }
    }
  }

  lemma LeafStaysKept(route: Route, limit: nat, f: Flow)
    requires IsLeaf(route) && LenientRoute(route, limit)
    requires f.counter < limit && limit >= 2 && f.connection == KeepAlive
    ensures var g := RunLeaf(route, f).0; g.connection == KeepAlive && g.counter == f.counter
  {
    LeafKeeps(route, f);
    ServeStaysKept(route, limit, Noted(route, f));
  }

  lemma ServeStaysKept(route: Route, limit: nat, f: Flow)
    requires IsLeaf(route) && LenientRoute(route, limit)
    requires f.counter < limit && limit >= 2 && f.connection == KeepAlive
    ensures RunServe(route, f).0.connection == KeepAlive
  {
    match route.serve
    case Application(handler) => ApplicationStaysKept(handler, f);
    case MaxRequests(_) =>
    case SessionRoute(context) => SessionLeavesConnection(context, f);
  }

  lemma ApplicationStaysKept(handler: Handler, f: Flow)
    requires KeepsType(handler)
    ensures RunApplication(handler, f).0.connection == f.connection
  {
    assert AnswerOf(handler, f).exchange.connection == f.Changeable().connection;
  }

  /** Below the limit, a request to keep the connection is granted. */
  lemma Spared(router: Router, limit: nat, f: Flow)
    requires router.keepAlive && AllKeepAlive(router.routes) && Lenient(router.routes, limit)
    requires f.IsOpen() && !f.closed && !f.done
    requires f.connection == KeepAlive && f.counter < limit && limit >= 2
    ensures var s := ServeRequest(router, f);
            s.answered ==> !s.flow.announced && s.flow.closed == LeavesBody(s.flow)
  {
    ServedExactlyOnce(router, f);
    StaysKept(router.routes, true, limit, f);
    KeepAliveIsHonoured(router.routes, f);
  }

  /** A router that answers every request and leaves no body behind. */
  ghost predicate AnswersEverything(router: Router) {
    forall f: Flow :: Waiting(f) ==>
      ServeRequest(router, f).answered && !LeavesBody(ServeRequest(router, f).flow)
  }

  /** A well-formed message that asks for a proper resource and to keep the connection. */
  ghost predicate Polite(m: Sent) {
    var head := HeadOf(m);
    && WellFormed(m) && head.fields.connection == KeepAlive
    && head.target.resource.Some? && head.target.resource.value != [] && head.target.resource.value[0] == '/'
  }

  /** What a served message comes to, in a router that answers everything. */
  lemma AnsweredNext(router: Router, c: Conn, cut: nat, m: Sent)
    requires AnswersEverything(router) && Polite(m) && c.open && c.unread == PrintRequest(m)
    ensures ServeNext(router, c, cut).0.log != [] && |ServeNext(router, c, cut).0.log| == |c.log| + 2
    ensures Answers(ServeNext(router, c, cut).0.log) == Answers(c.log) + 1
  {
    var k := Min(cut, |m.body|);
    var f := NewFlow(c, HeadOf(m), m.body[..k], m.body[k..]);
    ParsePrinted(m);
    assert Waiting(f);
    var outcome := OutcomeOf(ServeRequest(router, f).flow, true);
    CountsOne(c.log, Received(Meant(m)), outcome);
  }

  lemma CountsOne(log: seq<Event>, request: Event, outcome: Event)
    requires request.Received? && outcome.Answered?
    ensures Answers(log + [request, outcome]) == Answers(log) + 1
  {
    assert [request, outcome] == [request] + [outcome];
    AnswersAppend([request], [outcome]);
    AnswersAppend(log, [request, outcome]);
  }

  lemma SparedNext(router: Router, limit: nat, c: Conn, cut: nat, m: Sent)
    requires router.keepAlive && AllKeepAlive(router.routes) && Lenient(router.routes, limit)
    requires AnswersEverything(router) && Polite(m) && c.open && c.unread == PrintRequest(m)
    requires c.counter < limit && limit >= 2
    ensures ServeNext(router, c, cut).1
  {
    var k := Min(cut, |m.body|);
    var f := NewFlow(c, HeadOf(m), m.body[..k], m.body[k..]);
    ParsePrinted(m);
    assert Waiting(f);
    Spared(router, limit, f);
  }

  /** One turn answers, and below the limit the loop goes on. */
  lemma TurnIsAnswered(router: Router, at: nat, limit: nat, c: Conn, round: Round, m: Sent)
    requires router.keepAlive && AllKeepAlive(router.routes) && Lenient(router.routes, limit)
    requires Limited(router, at, limit) && AnswersEverything(router)
    requires Polite(m) && c.open && c.unread == [] && round.delivered == PrintRequest(m)
    ensures var d := Turn(router, None, c, round);
            && Answers(d.log) == Answers(c.log) + 1
            && (d.running <==> limit >= 2 && c.counter + 1 < limit)
  {
    var before := Before(c, round);
    assert [] + round.delivered == round.delivered;
    AnsweredNext(router, before, round.cut, m);
    if limit >= 2 && c.counter + 1 < limit {
      SparedNext(router, limit, before, round.cut, m);
    } else {
      LimitedTurn(router, at, limit, None, c, round);
    }
  }

  /** The bound is exact: over a run of messages that ask to keep the connection, to routers that
      support it and handlers that leave it alone, each of the first max(1, limit) is answered,
      and the loop goes on after each of them but the last. */
  lemma {:induction false} LimitIsReached(router: Router, at: nat, limit: nat, c: Conn,
                                          rounds: seq<Round>, sent: seq<Sent>)
    requires router.keepAlive && AllKeepAlive(router.routes) && Lenient(router.routes, limit)
    requires Limited(router, at, limit) && AnswersEverything(router)
    requires c.open && c.running && c.unread == [] && Requests(c.log) == []
    requires c.counter == 0 && ClosesLast(c) && Answers(c.log) == 0
    requires Delivers(rounds, sent) && forall m :: m in sent ==> Polite(m)
    ensures var d := Run(router, None, c, rounds);
            && Answers(d.log) == Min(|rounds|, Max(1, limit))
            && (d.running <==> |rounds| < Max(1, limit))
  {
    if rounds != [] {
      var n := |rounds| - 1;
      DeliversPrefix(rounds, sent, n);
      LimitIsReached(router, at, limit, c, rounds[..n], sent[..n]);
      KeepAliveFraming(router, None, c, rounds[..n], sent[..n]);
      RateBound(router, at, limit, None, c, rounds[..n]);
      var d := Run(router, None, c, rounds[..n]);
      if d.running {
        TurnIsAnswered(router, at, limit, d, rounds[n], sent[n]);
      }
    }
  }
}
