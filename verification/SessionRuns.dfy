/** Sessions over the runs of a connection: whatever the client sends and however it arrives,
    the store follows the map of sessions. */
module SessionRuns {
  import opened Text
  import opened Io
  import opened RequestParser
  import opened Sessions
  import opened Routes
  import opened FlatRouting
  import opened Connection
  import opened SessionHistory

  /** The exchange that a turn serves, if a request arrives in it. */
  function TurnFlow(c: Conn, round: Round): Option<Flow> {
    var before := Before(c, round);
    match ParseBytes(before.unread)
    case Parsed(head, rest) =>
      var k := Min(round.cut, |rest|);
      Some(NewFlow(before, head, rest[..k], rest[k..]))
    case _ => None
  }

  /** The visit that a turn makes to the session store, if any. */
  function TurnVisit(router: Router, context: SessionContext, c: Conn, round: Round): Option<Visit> {
    match TurnFlow(c, round)
    case None => None
    case Some(f) => VisitOf(context, f, ServeRequest(router, f).flow)
  }

  /** The visits of a run, one entry for each turn taken. */
  function Visits(router: Router, context: SessionContext, stop: Option<nat -> bool>, c: Conn,
                  rounds: seq<Round>): seq<Option<Visit>>
  {
    if rounds == [] then []
    else
      var n := |rounds| - 1;
      var d := Run(router, stop, c, rounds[..n]);
      Visits(router, context, stop, c, rounds[..n])
      + (if d.running then [TurnVisit(router, context, d, rounds[n])] else [])
  }

  /** The map that a history of visits leaves. */
  function Visited(sessions: map<string, Data>, visits: seq<Option<Visit>>): map<string, Data> {
    if visits == [] then sessions
    else
      var n := |visits| - 1;
      Updated(Visited(sessions, visits[..n]), visits[n])
  }

  /** Each visit saw the map that the earlier ones left. */
  ghost predicate AllOk(sessions: map<string, Data>, visits: seq<Option<Visit>>) {
    forall i :: 0 <= i < |visits| && visits[i].Some? ==>
      VisitOk(Visited(sessions, visits[..i]), visits[i].value)
  }

  /** A client that never guesses an id. */
  ghost predicate HonestRun(router: Router, context: SessionContext, stop: Option<nat -> bool>, c: Conn,
                            rounds: seq<Round>)
  {
    rounds == [] ||
    var n := |rounds| - 1;
    var d := Run(router, stop, c, rounds[..n]);
    && HonestRun(router, context, stop, c, rounds[..n])
    && (d.running && TurnFlow(d, rounds[n]).Some? ==> NoGuess(context, TurnFlow(d, rounds[n]).value))
  }

  lemma AskingKeepsStore(stop: Option<nat -> bool>, next: (Conn, bool))
    ensures var d := AfterNext(stop, next); d.storage == next.0.storage && d.issued == next.0.issued
  {}

  /** A turn takes its store from the exchange it serves. */
  lemma TurnStore(router: Router, stop: Option<nat -> bool>, c: Conn, round: Round)
    requires c.open
    ensures var d := Turn(router, stop, c, round);
            match TurnFlow(c, round)
            case None => d.storage == c.storage && d.issued == c.issued
            case Some(f) =>
              var g := ServeRequest(router, f).flow;
              && Fresh(f) && f.callbacks == [] && f.calls == []
              && f.storage == c.storage && f.issued == c.issued
              && d.storage == g.storage && d.issued == g.issued
  {
    var next := ServeNext(router, Before(c, round), round.cut);
    AskingKeepsStore(stop, next);
  }

  lemma TurnRefinesMap(router: Router, context: SessionContext, at: nat, stop: Option<nat -> bool>,
                       c: Conn, round: Round, sessions: map<string, Data>)
    requires c.open && WellMounted(router.routes)
    requires OneSessionRoute(Flatten(router.routes, router.keepAlive, ROOT), context, at)
    requires RoundTrips(context) && Holds(context, c.storage, sessions) && NewIds(context, c.storage, c.issued)
    requires TurnFlow(c, round).Some? ==> NoGuess(context, TurnFlow(c, round).value)
    ensures var d := Turn(router, stop, c, round);
            var v := TurnVisit(router, context, c, round);
            && (v.Some? ==> VisitOk(sessions, v.value))
            && Holds(context, d.storage, Updated(sessions, v)) && NewIds(context, d.storage, d.issued)
  {
    TurnStore(router, stop, c, round);
    if TurnFlow(c, round).Some? {
      RequestRefinesMap(router, context, at, TurnFlow(c, round).value, sessions);
    }
  }

  lemma OneMoreVisit(sessions: map<string, Data>, visits: seq<Option<Visit>>, v: Option<Visit>)
    requires AllOk(sessions, visits) && (v.Some? ==> VisitOk(Visited(sessions, visits), v.value))
    ensures AllOk(sessions, visits + [v])
    ensures Visited(sessions, visits + [v]) == Updated(Visited(sessions, visits), v)
  {
    var all := visits + [v];
    assert all[..|visits|] == visits;
    forall i | 0 <= i < |all| && all[i].Some? ensures VisitOk(Visited(sessions, all[..i]), all[i].value) {
      if i < |visits| { assert all[..i] == visits[..i]; }
    }
  }

  /** Over every run of a connection, for every way the bytes arrive: each request that reaches
      the session route is a correct visit to the map left by the ones before it, and the store
      ends up holding exactly that map, ready for the next connection. */
  lemma {:induction false} RunRefinesMap(router: Router, context: SessionContext, at: nat,
                                         stop: Option<nat -> bool>, c: Conn, rounds: seq<Round>,
                                         sessions: map<string, Data>)
    requires WellMounted(router.routes) && ClosesLast(c)
    requires OneSessionRoute(Flatten(router.routes, router.keepAlive, ROOT), context, at)
    requires RoundTrips(context) && Holds(context, c.storage, sessions) && NewIds(context, c.storage, c.issued)
    requires HonestRun(router, context, stop, c, rounds)
    ensures var d := Run(router, stop, c, rounds);
            var visits := Visits(router, context, stop, c, rounds);
            && AllOk(sessions, visits) && Holds(context, d.storage, Visited(sessions, visits))
            && NewIds(context, d.storage, d.issued)
  {
    if rounds != [] {
      var n := |rounds| - 1;
      RunRefinesMap(router, context, at, stop, c, rounds[..n], sessions);
      NoRequestAfterClose(router, stop, c, rounds[..n]);
      var d := Run(router, stop, c, rounds[..n]);
      var visits := Visits(router, context, stop, c, rounds[..n]);
      if d.running {
        TurnRefinesMap(router, context, at, stop, d, rounds[n], Visited(sessions, visits));
        OneMoreVisit(sessions, visits, TurnVisit(router, context, d, rounds[n]));
      } else {
        assert visits + [] == visits;
      }
    }
  }
}
