/** A whole keep-alive connection: one request after another until somebody stops. */
module Connection {
  import opened Text
  import opened Io
  import opened Message
  import opened RequestParser
  import opened Response
  import opened Sessions
  import opened Routes
  import opened FlatRouting
  import opened Serving
  import opened Calls

  // ----- the run

  /** A request as the server receives it: its head, and the bytes that follow the head. */
  datatype Incoming = Incoming(head: RequestHead, rest: string)

  /** What a connection does that matters to its two ends. */
  datatype Event =
    | AskedToStop(counter: nat)
    | Received(request: Incoming)
    | Answered(reply: Reply, announced: bool, leftBody: bool)
    | Unanswered
    | Undefined   // the request line did not have three words

  datatype Conn = Conn(
    open: bool,
    unread: string,
    written: string,
    counter: nat,
    storage: map<string, string>,
    issued: nat,
    running: bool,
    log: seq<Event>)

  /** One turn of the loop as the outside sees it: the bytes that arrive before the request is
      read, and how many bytes after the head the reads happened to pull into the work buffer. */
  datatype Round = Round(delivered: string, cut: nat)

  function FactsOf(head: RequestHead): Facts {
    Facts(head.verb, head.target.domain, head.target.port, head.target.ssl, head.target.query,
          head.fields.headers, head.fields.cookies, head.fields.contentLength,
          head.fields.userAgent, head.fields.authorization)
  }

  /** The exchange hs_router_serve_next starts for a parsed request. */
  function NewFlow(c: Conn, head: RequestHead, buffered: string, unread: string): Flow {
    Flow(FactsOf(head), head.target.resource, head.fields.connection,
         Body(false, Some(buffered), unread), NEW_REPLY, map[], [], c.storage, c.issued,
         false, false, [], true, c.open, c.written, c.counter, [], false)
  }

  function OutcomeOf(g: Flow, answered: bool): Event {
    if answered then Answered(g.reply, g.announced, LeavesBody(g)) else Unanswered
  }

  /** hs_router_serve_next: the connection afterwards, and whether it may go on. */
  function ServeNext(router: Router, c: Conn, cut: nat): (Conn, bool) {
    if !c.open then (c, false)
    else
      var parse := ParseBytes(c.unread);
      var k := Min(cut, |parse.rest|);
      match parse
      case NoRequest(rest) => (c.(unread := rest[k..]), false)
      case BadLine(rest) => (c.(unread := rest[k..], log := c.log + [Undefined]), false)
      case Parsed(head, rest) =>
        var s := ServeRequest(router, NewFlow(c, head, rest[..k], rest[k..]));
        var outcome := OutcomeOf(s.flow, s.answered);
        (c.(open := s.flow.IsOpen(), unread := s.flow.body.unread, written := s.flow.written,
            storage := s.flow.storage, issued := s.flow.issued,
            log := c.log + [Received(Incoming(head, rest)), outcome]),
         s.answered && !s.flow.closed)
  }

  /** should_stop, when there is one, decides whether a connection that may go on does. */
  function Ask(stop: Option<nat -> bool>, c: Conn): Conn {
    match stop
    case None => c.(running := true)
    case Some(f) => c.(running := !f(c.counter), log := c.log + [AskedToStop(c.counter)])
  }

  /** The next request is counted, and its bytes arrive. */
  function Before(c: Conn, round: Round): Conn {
    c.(counter := c.counter + 1, unread := c.unread + round.delivered)
  }

  function AfterNext(stop: Option<nat -> bool>, next: (Conn, bool)): Conn {
    if next.1 then Ask(stop, next.0) else next.0.(running := false)
  }

  /** One turn of the loop in hs_router_serve_forever. */
  function Turn(router: Router, stop: Option<nat -> bool>, c: Conn, round: Round): Conn {
    AfterNext(stop, ServeNext(router, Before(c, round), round.cut))
  }

  /** An open socket, before the first request. */
  function Begin(stop: Option<nat -> bool>, unread: string, written: string,
                 storage: map<string, string>, issued: nat): Conn
  {
    Ask(stop, Conn(true, unread, written, 0, storage, issued, true, []))
  }

  /** The connection after any number of turns; a stopped loop stays as it is. */
  function Run(router: Router, stop: Option<nat -> bool>, c: Conn, rounds: seq<Round>): Conn {
    if rounds == [] then c
    else
      var d := Run(router, stop, c, rounds[..|rounds| - 1]);
      if d.running then Turn(router, stop, d, rounds[|rounds| - 1]) else d
  }

  /** Every round's cut is one that the reads can bring about. */
  ghost predicate Feasible(router: Router, stop: Option<nat -> bool>, c: Conn, rounds: seq<Round>) {
    rounds == [] ||
    var n := |rounds| - 1;
    var d := Run(router, stop, c, rounds[..n]);
    && Feasible(router, stop, c, rounds[..n])
    && (d.running && d.open ==> PossibleCut(Before(d, rounds[n]).unread, rounds[n].cut))
  }

  lemma OneMoreRound(router: Router, stop: Option<nat -> bool>, c: Conn, rounds: seq<Round>, round: Round)
    requires Run(router, stop, c, rounds).running
    ensures Run(router, stop, c, rounds + [round]) == Turn(router, stop, Run(router, stop, c, rounds), round)
  {
    assert (rounds + [round])[..|rounds|] == rounds;
  }

  lemma OneMoreCut(router: Router, stop: Option<nat -> bool>, c: Conn, rounds: seq<Round>, round: Round, d: Conn)
    requires d == Run(router, stop, c, rounds) && Feasible(router, stop, c, rounds)
    requires d.open ==> PossibleCut(d.unread + round.delivered, round.cut)
    ensures Feasible(router, stop, c, rounds + [round])
  {
    assert (rounds + [round])[..|rounds|] == rounds;
  }

  /** Serving does not count, and does not look at what the socket held before the head. */
  lemma CounterStays(router: Router, c: Conn, head: RequestHead, buffered: string, unread: string)
    requires c.open
    ensures ServeRequest(router, NewFlow(c, head, buffered, unread)).flow.counter == c.counter
    ensures NewFlow(c, head, buffered, unread) == NewFlow(c.(unread := unread), head, buffered, unread)
  {
    ServedExactlyOnce(router, NewFlow(c, head, buffered, unread));
  }

  /** The connection lets go of the socket exactly when it closes it. */
  lemma AttachedWhileOpen(router: Router, c: Conn, head: RequestHead, buffered: string, unread: string)
    requires c.open
    ensures var g := ServeRequest(router, NewFlow(c, head, buffered, unread)).flow;
            g.attached == g.open
  {
    ServedExactlyOnce(router, NewFlow(c, head, buffered, unread));
  }

  // ----- what is written

  /** The bytes an event puts on the socket. */
  function Output(event: Event): string {
    match event
    case Answered(reply, announced, _) => ReplyBytes(reply, announced)
    case _ => []
  }

  function WrittenBy(log: seq<Event>): string {
    if log == [] then [] else WrittenBy(log[..|log| - 1]) + Output(log[|log| - 1])
  }

  lemma LastWrites(log: seq<Event>, event: Event)
    ensures WrittenBy(log + [event]) == WrittenBy(log) + Output(event)
  {
    assert (log + [event])[..|log|] == log;
  }

  lemma ExchangeWrites(request: Incoming, outcome: Event)
    ensures WrittenBy([Received(request), outcome]) == Output(outcome)
  {
    LastWrites([], Received(request));
    LastWrites([Received(request)], outcome);
    assert [] + [Received(request)] == [Received(request)];
    assert [Received(request)] + [outcome] == [Received(request), outcome];
    assert [] + Output(outcome) == Output(outcome);
  }

  lemma {:induction false} WrittenByAppend(a: seq<Event>, b: seq<Event>)
    ensures WrittenBy(a + b) == WrittenBy(a) + WrittenBy(b)
  {
    if b == [] {
      assert a + b == a;
    } else {
      var front, event := b[..|b| - 1], b[|b| - 1];
      assert a + b == (a + front) + [event] && b == front + [event];
      WrittenByAppend(a, front);
      LastWrites(a + front, event);
      LastWrites(front, event);
      Regroup(WrittenBy(a), WrittenBy(front), Output(event));
    }
  }

  // ----- keep-alive framing

  /** The requests received, in order. */
  function Requests(log: seq<Event>): seq<Incoming> {
    if log == [] then []
    else
      var last := log[|log| - 1];
      Requests(log[..|log| - 1]) + (if last.Received? then [last.request] else [])
  }

  /** A message as its sender means it to be received. */
  function Meant(m: Sent): Incoming { Incoming(HeadOf(m), m.body) }

  function AllMeant(sent: seq<Sent>): (r: seq<Incoming>)
    ensures |r| == |sent| && forall i :: 0 <= i < |r| ==> r[i] == Meant(sent[i])
  {
    seq(|sent|, i requires 0 <= i < |sent| => Meant(sent[i]))
  }

  /** Round i delivers exactly message i, whole: the client waits for each response. */
  ghost predicate Delivers(rounds: seq<Round>, sent: seq<Sent>) {
    && |rounds| == |sent|
    && forall i :: 0 <= i < |rounds| ==>
         WellFormed(sent[i]) && rounds[i].delivered == PrintRequest(sent[i])
  }

  /** Between requests, or after an answer: the stream stands on a message boundary unless the
      socket is closed. */
  ghost predicate OnBoundary(c: Conn) {
    (c.log == [] || !c.log[|c.log| - 1].Unanswered?) && c.open ==> c.unread == []
  }

  /** From `c` to `d` one request was received and had its outcome; should_stop may have been
      asked after it. */
  ghost predicate OneRequest(c: Conn, d: Conn, request: Incoming, outcome: Event) {
    && (outcome.Answered? || outcome.Unanswered?)
    && (d.log == c.log + [Received(request), outcome]
        || d.log == c.log + [Received(request), outcome] + [AskedToStop(d.counter)])
    && (outcome.Unanswered? ==> d.log == c.log + [Received(request), outcome])
    && (outcome.Answered? && d.open ==> d.unread == [])
  }

  /** The state a received request starts from. */
  lemma NextStarts(c: Conn, head: RequestHead, rest: string, k: nat)
    requires c.open && k <= |rest|
    ensures var f := NewFlow(c, head, rest[..k], rest[k..]);
            && f.IsOpen() && !f.closed && !f.done && !f.body.loaded
            && Pending(f.body) == rest && |Held(f.body)| == k
            && f.facts.contentLength == head.fields.contentLength && f.counter == c.counter
  {}

  lemma NextEnds(router: Router, f: Flow)
    requires f.IsOpen() && !f.closed && !f.done
    ensures var s := ServeRequest(router, f);
            && s.flow.facts == f.facts && BodyAfter(f, s.flow)
            && s.flow.closed == (s.answered && (s.flow.announced || LeavesBody(s.flow)))
            && s.flow.IsOpen() == !s.flow.closed
            && s.flow.written == f.written + Output(OutcomeOf(s.flow, s.answered))
  {
    ServedExactlyOnce(router, f);
  }

  /** The exchange behind a received request: where it starts, and what serving it comes to. */
  lemma NextIs(router: Router, c: Conn, cut: nat, head: RequestHead, rest: string)
    returns (f: Flow, g: Flow, answered: bool)
    requires c.open && ParseBytes(c.unread) == Parsed(head, rest)
    ensures !f.body.loaded && Pending(f.body) == rest && |Held(f.body)| == Min(cut, |rest|)
    ensures f.facts.contentLength == head.fields.contentLength && g.facts == f.facts && BodyAfter(f, g)
    ensures g.closed == (answered && (g.announced || LeavesBody(g))) && g.IsOpen() == !g.closed
    ensures g.written == c.written + Output(OutcomeOf(g, answered))
    ensures ServeNext(router, c, cut) ==
            (c.(open := g.IsOpen(), unread := g.body.unread, written := g.written,
                storage := g.storage, issued := g.issued,
                log := c.log + [Received(Incoming(head, rest)), OutcomeOf(g, answered)]),
             answered && !g.closed)
  {
    var k := Min(cut, |rest|);
    f := NewFlow(c, head, rest[..k], rest[k..]);
    NextStarts(c, head, rest, k);
    NextEnds(router, f);
    g, answered := ServeRequest(router, f).flow, ServeRequest(router, f).answered;
  }

  /** A body that arrived whole is read to its end, or the socket is closed. */
  lemma ReadToTheEnd(f: Flow, g: Flow)
    requires BodyAfter(f, g) && !f.body.loaded && g.facts == f.facts && !LeavesBody(g)
    requires |Pending(f.body)| == f.facts.contentLength
    ensures g.body.unread == []
  {
    TextLoadExact(f.body, f.facts.contentLength);
  }

  /** What one received request comes to. */
  lemma Exchanged(router: Router, c: Conn, cut: nat, head: RequestHead, rest: string)
    returns (outcome: Event)
    requires c.open && ParseBytes(c.unread) == Parsed(head, rest)
    ensures outcome.Answered? || outcome.Unanswered?
    ensures var (d, goesOn) := ServeNext(router, c, cut);
            && d.log == c.log + [Received(Incoming(head, rest)), outcome] && d.counter == c.counter
            && d.open == !Closing(outcome) && d.written == c.written + Output(outcome)
            && goesOn == (outcome.Answered? && d.open)
            && (|rest| == head.fields.contentLength && goesOn ==> d.unread == [])
  {
    var f, g, answered := NextIs(router, c, cut, head, rest);
    outcome := OutcomeOf(g, answered);
    if |rest| == head.fields.contentLength && answered && !g.closed { ReadToTheEnd(f, g); }
  }

  /** How the log and the socket move when one request is served: `events` is what happened. */
  ghost predicate Step(c: Conn, next: (Conn, bool), events: seq<Event>) {
    var (d, goesOn) := next;
    && d.counter == c.counter && d.log == c.log + events
    && (|| ((events == [] || events == [Undefined]) && !goesOn && d.open == c.open)
        || (&& |events| == 2 && events[0].Received? && (events[1].Answered? || events[1].Unanswered?)
            && d.open == !Closing(events[1]) && goesOn == (events[1].Answered? && d.open)))
  }

  /** The step writes what its events say. */
  ghost predicate Writes(c: Conn, next: (Conn, bool), events: seq<Event>) {
    next.0.written == c.written + WrittenBy(events)
  }

  lemma WithoutRequest(router: Router, c: Conn, cut: nat) returns (events: seq<Event>)
    requires c.open && !ParseBytes(c.unread).Parsed?
    ensures Step(c, ServeNext(router, c, cut), events) && Writes(c, ServeNext(router, c, cut), events)
  {
    assert c.log + [] == c.log && c.written + [] == c.written;
    events := if ParseBytes(c.unread).NoRequest? then [] else [Undefined];
    LastWrites([], Undefined);
    assert [] + [Undefined] == [Undefined] && [] + Output(Undefined) == [];
  }

  lemma NextSteps(router: Router, c: Conn, cut: nat) returns (events: seq<Event>)
    requires c.open
    ensures Step(c, ServeNext(router, c, cut), events) && Writes(c, ServeNext(router, c, cut), events)
  {
    var parse := ParseBytes(c.unread);
    if parse.Parsed? {
      var request := Incoming(parse.head, parse.rest);
      var outcome := Exchanged(router, c, cut, parse.head, parse.rest);
      events := [Received(request), outcome];
      ExchangeWrites(request, outcome);
    } else {
      events := WithoutRequest(router, c, cut);
    }
  }

  lemma BodyBoundary(f: Flow, g: Flow, body: string, next: string)
    requires BodyAfter(f, g) && !f.body.loaded && g.facts == f.facts && !LeavesBody(g)
    requires Pending(f.body) == body + next && |body| == f.facts.contentLength
    ensures g.body.unread == (body + next)[Max(|Held(f.body)|, |body|)..]
    ensures g.body.unread == next <==> |Held(f.body)| <= |body|
  {
    TextLoadExact(f.body, |body|);
    var pending := Pending(f.body);
    assert pending[|body|..] == next;
    assert pending[|Held(f.body)|..] == f.body.unread;
    var stop := Max(|Held(f.body)|, |body|);
    assert |pending[stop..]| == |pending| - stop;
  }

  /** A client that does send ahead: the loop goes on at the next message exactly when the
      reads for this request pulled in nothing beyond its body; what they did pull in is lost. */
  lemma NextBoundary(router: Router, c: Conn, cut: nat, head: RequestHead, body: string, next: string)
    requires c.open && ParseBytes(c.unread) == Parsed(head, body + next)
    requires |body| == head.fields.contentLength
    ensures var (d, goesOn) := ServeNext(router, c, cut);
            goesOn ==>
              && d.unread == (body + next)[Max(Min(cut, |body + next|), |body|)..]
              && (d.unread == next <==> Min(cut, |body + next|) <= |body|)
  {
    var f, g, answered := NextIs(router, c, cut, head, body + next);
    if answered && !g.closed { BodyBoundary(f, g, body, next); }
  }

  /** What the handlers of a received message get of its body: the first to load gets exactly
      the body that was sent, whatever the cut and however deep its router. */
  lemma SentBodyIsRead(router: Router, c: Conn, m: Sent, cut: nat)
    requires c.open && WellFormed(m)
    ensures var k := Min(cut, |m.body|);
            var f := NewFlow(c, HeadOf(m), m.body[..k], m.body[k..]);
            && ReadOnce(ServeRequest(router, f).flow.calls, m.body)
            && forall call :: call in ServeRequest(router, f).flow.calls ==> TrueToRoute(call)
  {
    var k := Min(cut, |m.body|);
    var f := NewFlow(c, HeadOf(m), m.body[..k], m.body[k..]);
    NextStarts(c, HeadOf(m), m.body, k);
    if Waiting(f) {
      BodyIsReadOnce(router, f);
      var calls := ServeRequest(router, f).flow.calls;
      assert calls[0..] == calls;
    }
  }

  lemma BodyShrinks(f: Flow, g: Flow)
    requires BodyAfter(f, g)
    ensures |g.body.unread| <= |f.body.unread|
  {}

  /** A loop that goes on has read something: every received request takes bytes. */
  lemma NextShrinks(router: Router, c: Conn, cut: nat)
    ensures var (d, goesOn) := ServeNext(router, c, cut);
            goesOn ==> |d.unread| < |c.unread|
  {
    var parse := ParseBytes(c.unread);
    if c.open && parse.Parsed? {
      var f, g, answered := NextIs(router, c, cut, parse.head, parse.rest);
      BodyShrinks(f, g);
    }
  }

  lemma AfterNextShape(stop: Option<nat -> bool>, next: (Conn, bool))
    ensures var (d, goesOn) := next;
            var e := AfterNext(stop, next);
            && e.open == d.open && e.unread == d.unread && e.counter == d.counter
            && (e.running ==> goesOn)
            && (e.log == d.log || (goesOn && e.log == d.log + [AskedToStop(d.counter)]))
  {}

  /** One turn on a boundary: the delivered message is the one received, and an answered
      exchange ends on the next boundary unless the socket is closed. */
  lemma TurnKeepsFraming(router: Router, stop: Option<nat -> bool>, c: Conn, round: Round, m: Sent)
    returns (outcome: Event)
    requires c.open && c.unread == [] && WellFormed(m) && round.delivered == PrintRequest(m)
    ensures OneRequest(c, Turn(router, stop, c, round), Meant(m), outcome)
    ensures Turn(router, stop, c, round).running ==>
              Turn(router, stop, c, round).open && Turn(router, stop, c, round).unread == []
  {
    var before := Before(c, round);
    ParsePrinted(m);
    assert [] + round.delivered == round.delivered;
    outcome := Exchanged(router, before, round.cut, HeadOf(m), m.body);
    AfterNextShape(stop, ServeNext(router, before, round.cut));
  }

  lemma RequestsAfterTurn(log: seq<Event>, request: Incoming, outcome: Event, more: seq<Event>)
    requires !outcome.Received?
    requires more == [] || (|more| == 1 && more[0].AskedToStop?)
    ensures Requests(log + [Received(request), outcome] + more) == Requests(log) + [request]
  {
    var a := log + [Received(request)];
    var b := log + [Received(request), outcome];
    assert a[..|log|] == log && b[..|a|] == a;
    assert b == a + [outcome];
    assert Requests(b) == Requests(log) + [request];
    if more == [] { assert b + more == b; } else { assert (b + more)[..|b|] == b; }
  }

  /** A run is framed by the messages sent so far: it received a prefix of them, heads and
      bodies, all of them while it runs, and it stands on a boundary. */
  ghost predicate Framed(c: Conn, meant: seq<Incoming>) {
    && Requests(c.log) <= meant && OnBoundary(c)
    && (c.running ==> c.open && c.unread == [] && Requests(c.log) == meant)
  }

  lemma FramedStep(router: Router, stop: Option<nat -> bool>, c: Conn, round: Round, m: Sent,
                   meant: seq<Incoming>)
    requires Framed(c, meant) && c.running
    requires WellFormed(m) && round.delivered == PrintRequest(m)
    ensures Framed(Turn(router, stop, c, round), meant + [Meant(m)])
  {
    var d := Turn(router, stop, c, round);
    var outcome := TurnKeepsFraming(router, stop, c, round, m);
    var plain := c.log + [Received(Meant(m)), outcome];
    RequestsAfterTurn(c.log, Meant(m), outcome, []);
    RequestsAfterTurn(c.log, Meant(m), outcome, [AskedToStop(d.counter)]);
    assert plain + [] == plain;
  }

  lemma DeliversPrefix(rounds: seq<Round>, sent: seq<Sent>, n: nat)
    requires Delivers(rounds, sent) && n < |rounds|
    ensures Delivers(rounds[..n], sent[..n])
    ensures WellFormed(sent[n]) && rounds[n].delivered == PrintRequest(sent[n])
  {
    forall i | 0 <= i < n ensures WellFormed(sent[..n][i]) && rounds[..n][i].delivered == PrintRequest(sent[..n][i]) {
      assert sent[..n][i] == sent[i] && rounds[..n][i] == rounds[i];
    }
  }

  lemma AllMeantLast(sent: seq<Sent>)
    requires sent != []
    ensures AllMeant(sent) == AllMeant(sent[..|sent| - 1]) + [Meant(sent[|sent| - 1])]
  {}

  /** Keep-alive framing over a whole run: as long as the loop runs, the k-th request received
      is the k-th message sent, none is lost, and the stream stands exactly where the next
      message will begin. A run that has stopped received a prefix of the messages, and ends on
      a boundary too, unless the socket is closed or the last request went unanswered. */
  lemma {:induction false} KeepAliveFraming(router: Router, stop: Option<nat -> bool>, c: Conn,
                                            rounds: seq<Round>, sent: seq<Sent>)
    requires c.open && c.unread == [] && Requests(c.log) == []
    requires Delivers(rounds, sent)
    ensures Framed(Run(router, stop, c, rounds), AllMeant(sent))
  {
    if rounds != [] {
      var n := |rounds| - 1;
      DeliversPrefix(rounds, sent, n);
      AllMeantLast(sent);
      KeepAliveFraming(router, stop, c, rounds[..n], sent[..n]);
      var d := Run(router, stop, c, rounds[..n]);
      if d.running {
        FramedStep(router, stop, d, rounds[n], sent[n], AllMeant(sent[..n]));
      }
    }
  }

  lemma SilenceStops(router: Router, stop: Option<nat -> bool>, c: Conn, round: Round)
    requires c.unread == [] && round.delivered == []
    ensures var d := Turn(router, stop, c, round);
            !d.running && d.log == c.log && d.open == c.open && d.unread == []
  {
    assert Before(c, round).unread == [];
  }

  lemma AllMeantPrefix(sent: seq<Sent>, n: nat)
    requires n <= |sent|
    ensures AllMeant(sent[..n]) <= AllMeant(sent)
  {
    assert AllMeant(sent)[..n] == AllMeant(sent[..n]);
  }

  /** Round i delivers message i, and after the last message nothing. */
  ghost predicate DeliversThenSilence(rounds: seq<Round>, sent: seq<Sent>) {
    && (forall i :: 0 <= i < |sent| ==> WellFormed(sent[i]))
    && forall i :: 0 <= i < |rounds| ==>
         rounds[i].delivered == if i < |sent| then PrintRequest(sent[i]) else []
  }

  /** A client that sends its messages and falls silent: whatever the run, it received a prefix
      of them, and it stands on a boundary. */
  lemma {:induction false} WholeScriptFraming(router: Router, stop: Option<nat -> bool>, c: Conn,
                                              rounds: seq<Round>, sent: seq<Sent>)
    requires c.open && c.unread == [] && Requests(c.log) == []
    requires DeliversThenSilence(rounds, sent)
    ensures var d := Run(router, stop, c, rounds);
            && Requests(d.log) <= AllMeant(sent) && OnBoundary(d)
            && (d.running ==> d.open && d.unread == [])
            && (d.running ==> |rounds| <= |sent| && Requests(d.log) == AllMeant(sent[..|rounds|]))
  {
    var n := |rounds|;
    if n <= |sent| {
      KeepAliveFraming(router, stop, c, rounds, sent[..n]);
      AllMeantPrefix(sent, n);
    } else {
      WholeScriptFraming(router, stop, c, rounds[..n - 1], sent);
      var d := Run(router, stop, c, rounds[..n - 1]);
      if d.running { SilenceStops(router, stop, d, rounds[n - 1]); }
    }
  }

  // ----- nothing after an announced close

  predicate Closing(event: Event) { event.Answered? && (event.announced || event.leftBody) }

  /** A closing answer is the last thing that happens, and it is what closes the socket. */
  ghost predicate ClosesLast(c: Conn) {
    && (forall i :: 0 <= i < |c.log| && Closing(c.log[i]) ==> i == |c.log| - 1)
    && (!c.open <==> c.log != [] && Closing(c.log[|c.log| - 1]))
    && (c.running ==> c.open)
  }

  lemma StepClosesLast(c: Conn, next: (Conn, bool), events: seq<Event>)
    requires ClosesLast(c) && c.open && Step(c, next, events)
    ensures ClosesLast(next.0.(running := false)) && (next.1 ==> next.0.open)
  {
    forall i | 0 <= i < |c.log| ensures !Closing(c.log[i]) {}
  }

  lemma AskKeepsOrder(stop: Option<nat -> bool>, next: (Conn, bool))
    requires ClosesLast(next.0.(running := false)) && (next.1 ==> next.0.open)
    ensures ClosesLast(AfterNext(stop, next))
  {
    if next.1 {
      forall i | 0 <= i < |next.0.log| ensures !Closing(next.0.log[i]) {}
    }
  }

  lemma TurnClosesLast(router: Router, stop: Option<nat -> bool>, c: Conn, round: Round)
    requires ClosesLast(c) && c.open
    ensures ClosesLast(Turn(router, stop, c, round))
  {
    var before := Before(c, round);
    var events := NextSteps(router, before, round.cut);
    StepClosesLast(before, ServeNext(router, before, round.cut), events);
    AskKeepsOrder(stop, ServeNext(router, before, round.cut));
  }

  /** Over every run: once a response has announced the close or left a declared body unread,
      the socket is closed, no further request is received and should_stop is not asked again.
      Otherwise the socket is open. */
  lemma {:induction false} NoRequestAfterClose(router: Router, stop: Option<nat -> bool>, c: Conn, rounds: seq<Round>)
    requires ClosesLast(c)
    ensures ClosesLast(Run(router, stop, c, rounds))
  {
    if rounds != [] {
      var n := |rounds| - 1;
      NoRequestAfterClose(router, stop, c, rounds[..n]);
      var d := Run(router, stop, c, rounds[..n]);
      if d.running { TurnClosesLast(router, stop, d, rounds[n]); }
    }
  }

  lemma FirstQuestion(counter: nat)
    ensures var log := [AskedToStop(counter)];
            Requests(log) == [] && Answers(log) == 0 && !Closing(log[0])
  {
    var log := [AskedToStop(counter)];
    assert log[..0] == [] && log[1..] == [];
  }

  /** A run may start there: all the run theorems apply from the beginning. */
  lemma BeginsInOrder(stop: Option<nat -> bool>, unread: string, written: string,
                      storage: map<string, string>, issued: nat)
    ensures var c := Begin(stop, unread, written, storage, issued);
            ClosesLast(c) && c.open && c.unread == unread && Requests(c.log) == []
            && c.counter == 0 && Answers(c.log) == 0
  {
    if stop.Some? {
      FirstQuestion(0);
      assert Begin(stop, unread, written, storage, issued).log == [AskedToStop(0)];
    } else {
      assert Begin(stop, unread, written, storage, issued).log == [];
    }
  }

  // ----- stopping

  /** The last event of a log that has grown. */
  function NewLast(c: Conn, d: Conn): Option<Event> {
    if |d.log| > |c.log| then Some(d.log[|d.log| - 1]) else None
  }

  /** What a turn from `c` to `d` does with should_stop's verdict: the loop goes on exactly if it
      was asked and said no; without it, exactly after an answer that keeps the connection. */
  ghost predicate HeedsStop(stop: Option<nat -> bool>, c: Conn, d: Conn) {
    match NewLast(c, d)
    case Some(AskedToStop(n)) => stop.Some? && n == d.counter && (d.running <==> !stop.value(n))
    case Some(Answered(reply, announced, leftBody)) =>
      (d.running <==> !announced && !leftBody) && (d.running ==> stop.None?)
    case _ => !d.running
  }

  lemma StepHeedsStop(stop: Option<nat -> bool>, c: Conn, next: (Conn, bool), events: seq<Event>)
    requires Step(c, next, events)
    ensures HeedsStop(stop, c, AfterNext(stop, next))
  {
    if |events| == 2 { assert next.0.log[|next.0.log| - 1] == events[1]; }
  }

  lemma TurnHeedsStop(router: Router, stop: Option<nat -> bool>, c: Conn, round: Round)
    requires c.open
    ensures HeedsStop(stop, c, Turn(router, stop, c, round))
  {
    var before := Before(c, round);
    var events := NextSteps(router, before, round.cut);
    StepHeedsStop(stop, before, ServeNext(router, before, round.cut), events);
  }

  /** should_stop is asked before the first request. */
  lemma BeginHeedsStop(stop: Option<nat -> bool>, unread: string, written: string,
                       storage: map<string, string>, issued: nat)
    ensures var c := Begin(stop, unread, written, storage, issued);
            match stop
            case None => c.log == [] && c.running
            case Some(ask) => c.log == [AskedToStop(0)] && (c.running <==> !ask(0))
  {}

  /** Every verdict but the last was no, and a running loop's last verdict was no. */
  ghost predicate NeverToldToStop(stop: Option<nat -> bool>, c: Conn) {
    forall i :: 0 <= i < |c.log| && c.log[i].AskedToStop? ==>
      && stop.Some?
      && (i < |c.log| - 1 || c.running ==> !stop.value(c.log[i].counter))
  }

  lemma StepKeepsVerdicts(stop: Option<nat -> bool>, c: Conn, next: (Conn, bool), events: seq<Event>)
    requires c.running && NeverToldToStop(stop, c) && Step(c, next, events)
    ensures NeverToldToStop(stop, AfterNext(stop, next))
  {
    var d, log := AfterNext(stop, next), c.log + events;
    assert forall i :: 0 <= i < |c.log| ==> d.log[i] == c.log[i];
    assert forall i :: |c.log| <= i < |log| ==> d.log[i] == events[i - |c.log|];
  }

  lemma TurnKeepsVerdicts(router: Router, stop: Option<nat -> bool>, c: Conn, round: Round)
    requires c.open && c.running && NeverToldToStop(stop, c)
    ensures NeverToldToStop(stop, Turn(router, stop, c, round))
  {
    var before := Before(c, round);
    var events := NextSteps(router, before, round.cut);
    StepKeepsVerdicts(stop, before, ServeNext(router, before, round.cut), events);
  }

  /** Over every run: the loop goes on past a question exactly if should_stop said no. */
  lemma {:induction false} StopIsHeeded(router: Router, stop: Option<nat -> bool>, c: Conn, rounds: seq<Round>)
    requires ClosesLast(c) && NeverToldToStop(stop, c)
    ensures NeverToldToStop(stop, Run(router, stop, c, rounds))
    ensures rounds != [] ==>
              var d := Run(router, stop, c, rounds[..|rounds| - 1]);
              d.running ==> HeedsStop(stop, d, Run(router, stop, c, rounds))
  {
    if rounds != [] {
      var n := |rounds| - 1;
      StopIsHeeded(router, stop, c, rounds[..n]);
      NoRequestAfterClose(router, stop, c, rounds[..n]);
      var d := Run(router, stop, c, rounds[..n]);
      if d.running {
        TurnKeepsVerdicts(router, stop, d, rounds[n]);
        TurnHeedsStop(router, stop, d, rounds[n]);
      }
    }
  }

  // ----- the rate bound

  /** A route that passes on every request it is given. */
  ghost predicate NeverAnswers(route: Route, keepAlive: bool) {
    forall f: Flow :: !f.done ==> !ServeRoute(route, keepAlive, f).1
  }

  /** A handler that leaves a connection that is to close that way. */
  ghost predicate NeverRevives(handler: Handler) {
    forall view: View, exchange: Exchange, loaded: Loaded ::
      exchange.connection != KeepAlive ==>
        handler.respond(view, exchange, loaded).exchange.connection != KeepAlive
  }

  ghost predicate NoneRevives(routes: seq<Route>)
    decreases routes, 1
  {
    routes == [] || (RouteNeverRevives(routes[0]) && NoneRevives(routes[1..]))
  }

  ghost predicate RouteNeverRevives(route: Route)
    decreases route, 0
  {
    match route.serve
    case Application(handler) => NeverRevives(handler)
    case Mount(router) => NoneRevives(router.routes)
    case _ => true
  }

  lemma {:induction false} StaysClosing(routes: seq<Route>, keepAlive: bool, f: Flow)
    requires NoneRevives(routes) && f.connection != KeepAlive
    ensures ServeRoutes(routes, keepAlive, f).0.connection != KeepAlive
    decreases routes, 1
  {
    if routes != [] {
      RouteStaysClosing(routes[0], keepAlive, f);
      StaysClosing(routes[1..], keepAlive, ServeRoute(routes[0], keepAlive, f).0);
    }
  }

  lemma {:induction false} RouteStaysClosing(route: Route, keepAlive: bool, f: Flow)
    requires RouteNeverRevives(route) && f.connection != KeepAlive
    ensures ServeRoute(route, keepAlive, f).0.connection != KeepAlive
    decreases route, 0
  {
    if f.resource.Some? && Reaches(route, f) {
      if route.serve.Mount? {
        StaysClosing(route.serve.router.routes, route.serve.router.keepAlive, Entered(route, f));
      } else {
        LeafStaysClosing(route, f);
      }
    }
  }

  lemma LeafStaysClosing(route: Route, f: Flow)
    requires IsLeaf(route) && RouteNeverRevives(route) && f.connection != KeepAlive
    ensures RunLeaf(route, f).0.connection != KeepAlive
  {
    var g := Noted(route, f);
    if route.serve.Application? {
      ApplicationStaysClosing(route.serve.handler, g);
    } else if route.serve.SessionRoute? {
      SessionLeavesConnection(route.serve.context, g);
    }
  }

  lemma ApplicationStaysClosing(handler: Handler, f: Flow)
    requires NeverRevives(handler) && f.connection != KeepAlive
    ensures RunApplication(handler, f).0.connection != KeepAlive
  {}

  lemma SessionLeavesConnection(context: SessionContext, f: Flow)
    ensures RunSession(context, f).connection == f.connection
  {}

  /** The max-requests route, as its constructor makes it: it takes every request. */
  predicate IsLimit(route: Route, limit: nat) {
    && route.path == None && route.serve == MaxRequests(limit)
    && route.verbs == ROOT.verbs
  }

  /** Such a route in the root router, behind routes that never answer and before handlers
      that never revive a connection. */
  ghost predicate Limited(router: Router, at: nat, limit: nat) {
    && at < |router.routes| && IsLimit(router.routes[at], limit)
    && (forall i :: 0 <= i < at ==> NeverAnswers(router.routes[i], router.keepAlive))
    && NoneRevives(router.routes[at + 1..])
  }

  lemma {:induction false} SkipPassing(routes: seq<Route>, keepAlive: bool, f: Flow, at: nat)
    requires at <= |routes| && f.IsOpen() && !f.closed && !f.done
    requires forall i :: 0 <= i < at ==> NeverAnswers(routes[i], keepAlive)
    ensures exists g :: OneResponse(f, g, false) &&
              ServeRoutes(routes, keepAlive, f) == ServeRoutes(routes[at..], keepAlive, g)
    decreases at
  {
    if at == 0 {
      assert routes[0..] == routes;
      assert OneResponse(f, f, false);
    } else {
      RouteRespondsOnce(routes[0], keepAlive, f);
      var (h, answered) := ServeRoute(routes[0], keepAlive, f);
      assert NeverAnswers(routes[0], keepAlive);
      SkipPassing(routes[1..], keepAlive, h, at - 1);
      var g :| OneResponse(h, g, false) &&
        ServeRoutes(routes[1..], keepAlive, h) == ServeRoutes(routes[1..][at - 1..], keepAlive, g);
      assert routes[1..][at - 1..] == routes[at..];
      assert OneResponse(f, g, false);
    }
  }

  /** Behind the limit route, an answer only comes on a connection that is to close. */
  lemma LimitTurnsClosing(rest: seq<Route>, keepAlive: bool, limit: nat, g: Flow)
    requires rest != [] && IsLimit(rest[0], limit) && NoneRevives(rest[1..])
    requires g.IsOpen() && !g.closed && !g.done && (limit < 2 || g.counter >= limit)
    ensures ServeRoutes(rest, keepAlive, g).1 ==> ServeRoutes(rest, keepAlive, g).0.connection != KeepAlive
  {
    if g.resource.Some? && g.facts.verb != UnknownMethod {
      match g.facts.verb case UnknownMethod => case _ =>
      var h := ServeRoute(rest[0], keepAlive, g).0;
      assert h.connection == CloseConnection;
      StaysClosing(rest[1..], keepAlive, h);
    } else {
      NothingToServe(rest, keepAlive, g);
    }
  }

  /** From the limit on, an answer always closes the connection. */
  lemma LimitCloses(router: Router, at: nat, limit: nat, f: Flow)
    requires Limited(router, at, limit) && f.IsOpen() && !f.closed && !f.done
    requires limit < 2 || f.counter >= limit
    ensures var s := ServeRequest(router, f);
            s.answered ==> s.flow.closed && s.flow.announced
  {
    ServedExactlyOnce(router, f);
    SkipPassing(router.routes, router.keepAlive, f, at);
    var g :| OneResponse(f, g, false) &&
      ServeRoutes(router.routes, router.keepAlive, f) == ServeRoutes(router.routes[at..], router.keepAlive, g);
    assert router.routes[at..][0] == router.routes[at];
    assert router.routes[at..][1..] == router.routes[at + 1..];
    LimitTurnsClosing(router.routes[at..], router.keepAlive, limit, g);
  }

  lemma {:induction false} NothingToServe(routes: seq<Route>, keepAlive: bool, f: Flow)
    requires !f.done && (f.resource.None? || f.facts.verb == UnknownMethod)
    ensures !ServeRoutes(routes, keepAlive, f).1
  {
    if routes != [] { NothingToServe(routes[1..], keepAlive, f); }
  }

  /** The bound and the termination of the loop: with the limit in place, no run, however long
      the client goes on sending and whatever should_stop says, is still running after
      max(1, limit) turns, and it never answers more requests than that. */
  lemma {:induction false} RateBound(router: Router, at: nat, limit: nat, stop: Option<nat -> bool>,
                                     c: Conn, rounds: seq<Round>)
    requires Limited(router, at, limit) && c.counter == 0 && ClosesLast(c) && Answers(c.log) == 0
    ensures var d := Run(router, stop, c, rounds);
            && Answers(d.log) <= d.counter <= Max(1, limit)
            && (d.running ==> d.counter == |rounds| < Max(1, limit))
  {
    if rounds != [] {
      var n := |rounds| - 1;
      RateBound(router, at, limit, stop, c, rounds[..n]);
      NoRequestAfterClose(router, stop, c, rounds[..n]);
      var d := Run(router, stop, c, rounds[..n]);
      if d.running {
        TurnCounts(router, stop, d, rounds[n]);
        if limit < 2 || d.counter + 1 >= limit { LimitedTurn(router, at, limit, stop, d, rounds[n]); }
      }
    }
  }

  lemma StepCounts(stop: Option<nat -> bool>, c: Conn, next: (Conn, bool), events: seq<Event>)
    requires Step(c, next, events)
    ensures var d := AfterNext(stop, next);
            d.counter == c.counter && Answers(d.log) <= Answers(c.log) + 1
  {
    AnswersAppend(c.log, events);
    if |events| == 2 {
      assert events == [events[0]] + [events[1]];
      AnswersAppend([events[0]], [events[1]]);
    }
    AnswersAppend(next.0.log, [AskedToStop(next.0.counter)]);
  }

  /** One turn counts one request and answers at most one. */
  lemma TurnCounts(router: Router, stop: Option<nat -> bool>, c: Conn, round: Round)
    requires c.open
    ensures var d := Turn(router, stop, c, round);
            d.counter == c.counter + 1 && Answers(d.log) <= Answers(c.log) + 1
  {
    var before := Before(c, round);
    var events := NextSteps(router, before, round.cut);
    StepCounts(stop, before, ServeNext(router, before, round.cut), events);
  }

  lemma LimitedTurn(router: Router, at: nat, limit: nat, stop: Option<nat -> bool>, c: Conn, round: Round)
    requires Limited(router, at, limit) && c.open
    requires limit < 2 || c.counter + 1 >= limit
    ensures !Turn(router, stop, c, round).running
  {
    var before := Before(c, round);
    var parse := ParseBytes(before.unread);
    if parse.Parsed? {
      var k := Min(round.cut, |parse.rest|);
      LimitCloses(router, at, limit, NewFlow(before, parse.head, parse.rest[..k], parse.rest[k..]));
    }
  }

  /** The number of requests answered. */
  function Answers(log: seq<Event>): nat {
    if log == [] then 0 else (if log[0].Answered? then 1 else 0) + Answers(log[1..])
  }

  lemma {:induction false} AnswersAppend(a: seq<Event>, b: seq<Event>)
    ensures Answers(a + b) == Answers(a) + Answers(b)
    ensures |b| == 1 ==> Answers(b) == if b[0].Answered? then 1 else 0
  {
    if a == [] {
      assert a + b == b;
    } else {
      assert (a + b)[1..] == a[1..] + b;
      AnswersAppend(a[1..], b);
    }
  }
}
