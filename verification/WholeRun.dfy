/** The server's own loop against a client, end to end: the run theorems, joined to the code. */
module WholeRun {
  import opened Text
  import opened Io
  import opened Message
  import opened RequestParser
  import opened Routes
  import opened Dispatcher
  import opened Connection
  import opened Chunking
  import opened FlatRouting
  import opened Replies
  import opened SessionHistory
  import opened SessionRuns
  import opened Sessions
  import opened ServeLoop

  ghost predicate AllWellFormed(sent: seq<Sent>) {
    forall m :: m in sent ==> WellFormed(m)
  }

  function PrintedText(m: Sent): CText
    requires WellFormed(m)
  {
    PrintRequest(m)
  }

  function Printed(sent: seq<Sent>): (script: seq<CText>)
    requires AllWellFormed(sent)
    ensures |script| == |sent| && forall i :: 0 <= i < |sent| ==> script[i] == PrintRequest(sent[i])
  {
    if sent == [] then []
    else
      assert sent[0] in sent;
      [PrintedText(sent[0])] + Printed(sent[1..])
  }

  /** Every message in a piece of its own, and a last round in which nothing arrives. */
  function Uncut(sent: seq<Sent>): (rounds: seq<Round>)
    ensures |rounds| == |sent| + 1
    ensures forall i :: 0 <= i < |rounds| ==>
              rounds[i] == Round(if i < |sent| then PrintRequest(sent[i]) else [], 0)
  {
    seq(|sent| + 1, i requires 0 <= i <= |sent| =>
      Round(if i < |sent| then PrintRequest(sent[i]) else [], 0))
  }

  /** Everything a client that waits for its responses can rely on, of a finished connection:
      the requests received are its messages in order, heads and bodies; each has its response
      right behind it, and the responses are all that was written; the stream ends on a
      boundary; nothing follows a closing answer; and a rate limit is kept. */
  ghost predicate Accountable(router: Router, sent: seq<Sent>, before: string, c: Conn) {
    && Requests(c.log) <= AllMeant(sent) && Paired(c.log) && WroteItsLog(c, before)
    && OnBoundary(c) && ClosesLast(c)
    && forall at, limit :: Limited(router, at, limit) ==> Answers(c.log) <= Max(1, limit)
  }

  /** Any finished run over the client's messages is accountable, and shows exactly what the
      run with uncut messages shows. */
  lemma FinishedRun(router: Router, stop: Option<nat -> bool>, c: Conn, rounds: seq<Round>, sent: seq<Sent>,
                    before: string)
    requires c.open && c.unread == [] && Requests(c.log) == []
    requires ClosesLast(c) && c.counter == 0 && Answers(c.log) == 0
    requires WroteItsLog(c, before) && Paired(c.log) && LeftOpen(c.log)
    requires AllWellFormed(sent) && Follows(rounds, Printed(sent))
    requires !Run(router, stop, c, rounds).running
    ensures Accountable(router, sent, before, Run(router, stop, c, rounds))
    ensures SameConn(Run(router, stop, c, rounds), Run(router, stop, c, Uncut(sent)))
  {
    assert forall i :: 0 <= i < |sent| ==> sent[i] in sent;
    WholeScriptFraming(router, stop, c, rounds, sent);
    NoRequestAfterClose(router, stop, c, rounds);
    RunWritesItsLog(router, stop, c, rounds, before);
    AnswersArePaired(router, stop, c, rounds);
    forall at, limit | Limited(router, at, limit)
      ensures Answers(Run(router, stop, c, rounds).log) <= Max(1, limit)
    {
      RateBound(router, at, limit, stop, c, rounds);
    }
    WholeScriptFraming(router, stop, c, Uncut(sent), sent);
    FinishedRunsAlike(router, stop, c, rounds, Uncut(sent), sent);
  }

  /** A session route in the router, a store that holds `sessions`, and a client that guesses no
      ids. */
  ghost predicate KeepsSessions(router: Router, context: SessionContext, at: nat, stop: Option<nat -> bool>,
                                c: Conn, sent: seq<Sent>, sessions: map<string, Data>)
  {
    && WellMounted(router.routes)
    && OneSessionRoute(Flatten(router.routes, router.keepAlive, ROOT), context, at)
    && RoundTrips(context) && Holds(context, c.storage, sessions) && NewIds(context, c.storage, c.issued)
    && HonestRun(router, context, stop, c, Uncut(sent))
  }

  /** Every request was a correct visit to the map left by the ones before it, and the store
      holds the map that the last one left. */
  ghost predicate SessionsKept(router: Router, context: SessionContext, stop: Option<nat -> bool>,
                               c: Conn, sent: seq<Sent>, sessions: map<string, Data>,
                               storage: map<string, string>)
  {
    var visits := Visits(router, context, stop, c, Uncut(sent));
    AllOk(sessions, visits) && Holds(context, storage, Visited(sessions, visits))
  }

  lemma FinishedSessions(router: Router, stop: Option<nat -> bool>, c: Conn, sent: seq<Sent>)
    requires ClosesLast(c)
    ensures forall context, at, sessions :: KeepsSessions(router, context, at, stop, c, sent, sessions) ==>
              SessionsKept(router, context, stop, c, sent, sessions, Run(router, stop, c, Uncut(sent)).storage)
  {
    forall context, at, sessions | KeepsSessions(router, context, at, stop, c, sent, sessions)
      ensures SessionsKept(router, context, stop, c, sent, sessions, Run(router, stop, c, Uncut(sent)).storage)
    {
      RunRefinesMap(router, context, at, stop, c, Uncut(sent), sessions);
    }
  }

  /** hs_router_serve_forever, on a new connection, against a client that sends these messages
      one by one: whatever the reads do, the log, the bytes written, the store and the end of
      the connection are one function of the messages, and accountable; the client reads back
      exactly the responses; and the store has followed the map of sessions. */
  method ServeClient(router: Router, socket: Socket, store: SessionStore, stop: Option<nat -> bool>,
                     sent: seq<Sent>)
    returns (served: bool, ghost log: seq<Event>)
    requires socket.unread == [] && AllWellFormed(sent)
    modifies socket, store
    ensures served == old(socket.isOpen)
    ensures served ==>
              var start := Begin(stop, [], old(socket.written), old(store.storage), old(store.issued));
              var c := Run(router, stop, start, Uncut(sent));
              && log == c.log && socket.written == c.written && socket.isOpen == c.open
              && store.storage == c.storage && store.issued == c.issued
              && Accountable(router, sent, old(socket.written), c.(unread := socket.unread))
              && (forall context, at, sessions :: KeepsSessions(router, context, at, stop, start, sent, sessions) ==>
                    SessionsKept(router, context, stop, start, sent, sessions, store.storage))
    ensures served && CleanLog(log) ==>
              old(socket.written) <= socket.written
              && ToldBy(ReadReplies(socket.written[|old(socket.written)|..]), log)
  {
    ghost var before := socket.written;
    ghost var start := Begin(stop, [], before, store.storage, store.issued);
    BeginsInOrder(stop, [], before, store.storage, store.issued);
    BeginsPaired(stop, [], before, store.storage, store.issued);
    ghost var rounds;
    served, rounds, log := ServeForever(router, socket, store, stop, Printed(sent));
    if served {
      FinishedRun(router, stop, start, rounds, sent, before);
      FinishedSessions(router, stop, start, sent);
      assert socket.written[|before|..] == WrittenBy(log);
      if CleanLog(log) {
        RepliesReadBack(log);
        RepliedTells(log);
      }
    }
  }
}
