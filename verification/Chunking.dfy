/** How the reads cut the stream cannot be observed: two runs over the same messages, cut
    differently, write the same bytes, log the same events and leave the same store. */
module Chunking {
  import opened Text
  import opened Io
  import opened Message
  import opened RequestParser
  import opened Response
  import opened Sessions
  import opened Routes
  import opened Connection

  /** The same body, divided differently between work buffer and socket. A text load of a body
      of length 0 hands over the work buffer, so then the division must be the same. Once loaded,
      the body does not matter any more. */
  ghost predicate SameBody(a: Body, b: Body, length: nat) {
    && a.loaded == b.loaded
    && (!a.loaded ==> Pending(a) == Pending(b) && (length == 0 ==> Held(a) == Held(b)))
  }

  ghost predicate Alike(f: Flow, g: Flow) {
    g == f.(body := g.body) && SameBody(f.body, g.body, f.facts.contentLength)
  }

  lemma TextLoadsAlike(a: Body, b: Body, length: nat)
    requires SameBody(a, b, length)
    ensures TextLoad(a, length).1 == TextLoad(b, length).1
    ensures SameBody(TextLoad(a, length).0, TextLoad(b, length).0, length)
  {
    if !a.loaded {
      TextLoadExact(a, length);
      TextLoadExact(b, length);
    }
  }

  lemma FileLoadsAlike(a: Body, b: Body, length: nat)
    requires SameBody(a, b, length)
    ensures FileLoad(a, length).1 == FileLoad(b, length).1
    ensures SameBody(FileLoad(a, length).0, FileLoad(b, length).0, length)
  {
    if !a.loaded && length > 0 {
      FileLoadAgrees(a, length);
      FileLoadAgrees(b, length);
      TextLoadsAlike(a, b, length);
    }
  }

  lemma LoadsAlike(load: Load, a: Body, b: Body, length: nat)
    requires SameBody(a, b, length)
    ensures Perform(load, a, length).1 == Perform(load, b, length).1
    ensures SameBody(Perform(load, a, length).0, Perform(load, b, length).0, length)
  {
    match load
    case LoadNothing =>
    case LoadText => TextLoadsAlike(a, b, length);
    case LoadFile => FileLoadsAlike(a, b, length);
  }

  lemma ApplicationsAlike(handler: Handler, f: Flow, g: Flow)
    requires Alike(f, g)
    ensures Alike(RunApplication(handler, f).0, RunApplication(handler, g).0)
    ensures RunApplication(handler, f).1 == RunApplication(handler, g).1
  {
    LoadsAlike(handler.load(f.SeenBy(), f.Changeable()), f.body, g.body, f.facts.contentLength);
  }

  lemma CallsAlike(route: Route, f: Flow, g: Flow)
    requires IsLeaf(route) && Alike(f, g)
    ensures CallOf(route, f) == CallOf(route, g)
  {
    if route.serve.Application? {
      var handler := route.serve.handler;
      LoadsAlike(handler.load(f.SeenBy(), f.Changeable()), f.body, g.body, f.facts.contentLength);
    }
  }

  lemma LimitsAlike(limit: nat, f: Flow, g: Flow)
    requires Alike(f, g)
    ensures Alike(RunMaxRequests(limit, f), RunMaxRequests(limit, g))
  {}

  lemma SessionsAlike(context: SessionContext, f: Flow, g: Flow)
    requires Alike(f, g)
    ensures Alike(RunSession(context, f), RunSession(context, g))
  {}

  lemma ServesAlike(route: Route, f: Flow, g: Flow)
    requires IsLeaf(route) && Alike(f, g)
    ensures Alike(RunServe(route, f).0, RunServe(route, g).0)
    ensures RunServe(route, f).1 == RunServe(route, g).1
  {
    match route.serve
    case Application(handler) => ApplicationsAlike(handler, f, g);
    case MaxRequests(limit) => LimitsAlike(limit, f, g);
    case SessionRoute(context) => SessionsAlike(context, f, g);
  }

  lemma LeavesAlike(route: Route, f: Flow, g: Flow)
    requires IsLeaf(route) && Alike(f, g)
    ensures Alike(RunLeaf(route, f).0, RunLeaf(route, g).0)
    ensures RunLeaf(route, f).1 == RunLeaf(route, g).1
  {
    CallsAlike(route, f, g);
    ServesAlike(route, Noted(route, f), Noted(route, g));
  }

  /** The response does not look at the bytes of the body. */
  lemma SentWithBody(f: Flow, reply: Reply, bytes: string, announced: bool, body: Body)
    requires LeavesBody(f.(body := body)) == LeavesBody(f)
    ensures var s := SentOff(f, reply, bytes, announced);
            && SentOff(f.(body := body), reply, bytes, announced) == s.(body := body)
            && s.body == f.body && s.facts == f.facts
  {}

  lemma StillAlike(f: Flow, g: Flow, s: Flow, t: Flow)
    requires Alike(f, g) && t == s.(body := g.body) && s.body == f.body && s.facts == f.facts
    ensures Alike(s, t)
  {}

  lemma RespondsAlike(keepAlive: bool, f: Flow, g: Flow)
    requires Alike(f, g)
    ensures Alike(Respond(keepAlive, f), Respond(keepAlive, g))
  {
    var announced, reply := AnnouncesClose(keepAlive, f), Typed(f.reply);
    SentWithBody(f, reply, ReplyBytes(reply, announced), announced, g.body);
    StillAlike(f, g, Respond(keepAlive, f), Respond(keepAlive, g));
  }

  lemma ConcludeAlike(keepAlive: bool, f: Flow, g: Flow, decision: Decision)
    requires Alike(f, g)
    ensures Alike(Conclude(keepAlive, (f, decision)).0, Conclude(keepAlive, (g, decision)).0)
    ensures Conclude(keepAlive, (f, decision)).1 == Conclude(keepAlive, (g, decision)).1
  {
    if decision == Done && !f.done { RespondsAlike(keepAlive, f, g); }
  }

  lemma {:induction false} RoutesAlike(routes: seq<Route>, keepAlive: bool, f: Flow, g: Flow)
    requires Alike(f, g)
    ensures Alike(ServeRoutes(routes, keepAlive, f).0, ServeRoutes(routes, keepAlive, g).0)
    ensures ServeRoutes(routes, keepAlive, f).1 == ServeRoutes(routes, keepAlive, g).1
    decreases routes, 1
  {
    if routes != [] {
      RouteAlike(routes[0], keepAlive, f, g);
      RoutesAlike(routes[1..], keepAlive, ServeRoute(routes[0], keepAlive, f).0,
                  ServeRoute(routes[0], keepAlive, g).0);
    }
  }

  lemma {:induction false} RouteAlike(route: Route, keepAlive: bool, f: Flow, g: Flow)
    requires Alike(f, g)
    ensures Alike(ServeRoute(route, keepAlive, f).0, ServeRoute(route, keepAlive, g).0)
    ensures ServeRoute(route, keepAlive, f).1 == ServeRoute(route, keepAlive, g).1
    decreases route, 2
  {
    if f.IsOpen() && f.resource.Some? && !f.closed && !f.done && Reaches(route, f) {
      if route.serve.Mount? {
        MountAlike(route, f, g);
        ConcludeAlike(keepAlive, ServeMount(route, f).0, ServeMount(route, g).0, ServeMount(route, f).1);
      } else {
        LeavesAlike(route, f, g);
        ConcludeAlike(keepAlive, RunLeaf(route, f).0, RunLeaf(route, g).0, RunLeaf(route, f).1);
      }
    }
  }

  lemma {:induction false} MountAlike(route: Route, f: Flow, g: Flow)
    requires Alike(f, g) && route.serve.Mount? && f.resource.Some?
    requires SupportedPath(route.path, route.isParent, f.resource.value)
    ensures Alike(ServeMount(route, f).0, ServeMount(route, g).0)
    ensures ServeMount(route, f).1 == ServeMount(route, g).1
    decreases route, 1
  {
    RoutesAlike(route.serve.router.routes, route.serve.router.keepAlive, Entered(route, f), Entered(route, g));
  }

  ghost predicate ServedAlike(s: Served, t: Served) {
    Alike(s.flow, t.flow) && s.answered == t.answered && s.ran == t.ran
  }

  lemma CallbacksAlike(f: Flow, g: Flow, answered: bool)
    requires Alike(f, g)
    ensures ServedAlike(WithCallbacks(f, answered), WithCallbacks(g, answered))
  {}

  /** A whole request cannot tell how its body was cut. */
  lemma RequestsAlike(router: Router, f: Flow, g: Flow)
    requires Alike(f, g)
    ensures ServedAlike(ServeRequest(router, f), ServeRequest(router, g))
  {
    RoutesAlike(router.routes, router.keepAlive, f, g);
    CallbacksAlike(ServeRoutes(router.routes, router.keepAlive, f).0,
                   ServeRoutes(router.routes, router.keepAlive, g).0,
                   ServeRoutes(router.routes, router.keepAlive, f).1);
  }

  // ----- runs

  /** The same connection, but for bytes nobody is going to read. */
  ghost predicate SameConn(c: Conn, d: Conn) {
    d == c.(unread := d.unread) && (c.running ==> c.unread == d.unread)
  }

  lemma StartsAlike(c: Conn, head: RequestHead, rest: string, k: nat, l: nat)
    requires k <= |rest| && l <= |rest| && (rest == [] || head.fields.contentLength > 0)
    ensures Alike(NewFlow(c, head, rest[..k], rest[k..]), NewFlow(c, head, rest[..l], rest[l..]))
  {
    assert rest[..k] + rest[k..] == rest && rest[..l] + rest[l..] == rest;
  }

  lemma ParsedAlike(router: Router, c: Conn, cut: nat, other: nat, head: RequestHead, rest: string)
    requires c.open && ParseBytes(c.unread) == Parsed(head, rest)
    requires rest == [] || head.fields.contentLength > 0
    ensures var x, y := ServeNext(router, c, cut), ServeNext(router, c, other);
            y.0 == x.0.(unread := y.0.unread) && x.1 == y.1
  {
    var k, l := Min(cut, |rest|), Min(other, |rest|);
    StartsAlike(c, head, rest, k, l);
    RequestsAlike(router, NewFlow(c, head, rest[..k], rest[k..]), NewFlow(c, head, rest[..l], rest[l..]));
  }

  lemma NextAlike(router: Router, c: Conn, cut: nat, other: nat, m: Sent)
    requires c.open && c.unread == PrintRequest(m) && WellFormed(m)
    ensures var x, y := ServeNext(router, c, cut), ServeNext(router, c, other);
            && y.0 == x.0.(unread := y.0.unread) && x.1 == y.1
            && (x.1 ==> x.0.unread == [] && y.0.unread == [])
  {
    ParsePrinted(m);
    ParsedAlike(router, c, cut, other, HeadOf(m), m.body);
    var _ := Exchanged(router, c, cut, HeadOf(m), m.body);
    var _ := Exchanged(router, c, other, HeadOf(m), m.body);
  }

  lemma TurnAlike(router: Router, stop: Option<nat -> bool>, c: Conn, round: Round, other: Round, m: Sent)
    requires c.open && c.unread == [] && WellFormed(m)
    requires round.delivered == other.delivered == PrintRequest(m)
    ensures SameConn(Turn(router, stop, c, round), Turn(router, stop, c, other))
  {
    assert Before(c, round) == Before(c, other);
    NextAlike(router, Before(c, round), round.cut, other.cut, m);
  }

  /** Nor does it matter how a read that finds nothing is cut. */
  lemma SilenceAlike(router: Router, stop: Option<nat -> bool>, c: Conn, round: Round, other: Round)
    requires c.unread == [] && round.delivered == other.delivered == []
    ensures Turn(router, stop, c, round) == Turn(router, stop, c, other)
  {
    assert Before(c, round) == Before(c, other) && Before(c, round).unread == [];
  }

  /** Whatever the chunking: the same messages, with silence after them, give the same log, the
      same bytes written, the same store, and a run that stops at the same point. */
  lemma {:induction false} ChunkingIsInvisible(router: Router, stop: Option<nat -> bool>, c: Conn,
                                               rounds: seq<Round>, others: seq<Round>, sent: seq<Sent>)
    requires c.open && c.unread == [] && Requests(c.log) == []
    requires DeliversThenSilence(rounds, sent) && DeliversThenSilence(others, sent)
    requires |rounds| == |others|
    ensures SameConn(Run(router, stop, c, rounds), Run(router, stop, c, others))
  {
    if rounds != [] {
      var n := |rounds| - 1;
      SilencePrefix(rounds, sent, n);
      SilencePrefix(others, sent, n);
      ChunkingIsInvisible(router, stop, c, rounds[..n], others[..n], sent);
      WholeScriptFraming(router, stop, c, rounds[..n], sent);
      var d := Run(router, stop, c, rounds[..n]);
      if d.running {
        if n < |sent| {
          TurnAlike(router, stop, d, rounds[n], others[n], sent[n]);
        } else {
          SilenceAlike(router, stop, d, rounds[n], others[n]);
        }
      }
    }
  }

  lemma SilencePrefix(rounds: seq<Round>, sent: seq<Sent>, n: nat)
    requires DeliversThenSilence(rounds, sent) && n <= |rounds|
    ensures DeliversThenSilence(rounds[..n], sent)
  {
    forall i | 0 <= i < n ensures rounds[..n][i].delivered == if i < |sent| then PrintRequest(sent[i]) else [] {
      assert rounds[..n][i] == rounds[i];
    }
  }

  lemma OneRoundLater(router: Router, stop: Option<nat -> bool>, c: Conn, rounds: seq<Round>, round: Round)
    requires !Run(router, stop, c, rounds).running
    ensures Run(router, stop, c, rounds + [round]) == Run(router, stop, c, rounds)
  {
    assert (rounds + [round])[..|rounds|] == rounds;
  }

  /** A loop that has stopped stays as it is. */
  lemma {:induction false} StoppedStays(router: Router, stop: Option<nat -> bool>, c: Conn,
                                        rounds: seq<Round>, more: seq<Round>)
    requires !Run(router, stop, c, rounds).running
    ensures Run(router, stop, c, rounds + more) == Run(router, stop, c, rounds)
    decreases more
  {
    if more == [] {
      assert rounds + more == rounds;
    } else {
      var front, round := more[..|more| - 1], more[|more| - 1];
      assert rounds + more == (rounds + front) + [round];
      StoppedStays(router, stop, c, rounds, front);
      OneRoundLater(router, stop, c, rounds + front, round);
    }
  }

  /** Two finished runs over the same messages agree, however many rounds were planned. */
  lemma FinishedRunsAlike(router: Router, stop: Option<nat -> bool>, c: Conn,
                          rounds: seq<Round>, others: seq<Round>, sent: seq<Sent>)
    requires c.open && c.unread == [] && Requests(c.log) == []
    requires DeliversThenSilence(rounds, sent) && DeliversThenSilence(others, sent)
    requires !Run(router, stop, c, rounds).running && !Run(router, stop, c, others).running
    ensures SameConn(Run(router, stop, c, rounds), Run(router, stop, c, others))
    decreases if |rounds| < |others| then 1 else 0
  {
    if |rounds| < |others| {
      FinishedRunsAlike(router, stop, c, others, rounds, sent);
    } else {
      var more := rounds[|others|..];
      assert |others + more| == |rounds|;
      StoppedStays(router, stop, c, others, more);
      ChunkingIsInvisible(router, stop, c, rounds, others + more, sent);
    }
  }
}
