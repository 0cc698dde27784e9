/** Serving one request, and one connection, with the program's own objects and loops. */
module ServeLoop {
  import opened Text
  import opened Io
  import opened Message
  import opened RequestParser
  import opened Sessions
  import opened Callbacks
  import opened Routes
  import opened Dispatcher
  import Connection

  /** _hs_routes_session_callback_run, and a handler's own callback (which only leaves a trace). */
  method RunOne(callback: Callback, table: map<string, Session>, store: SessionStore, ghost ran: seq<Callback>)
    returns (ghost after: seq<Callback>)
    modifies store`storage
    ensures After(store.storage, after) == RunCallback(callback, table, After(old(store.storage), ran))
  {
    after := ran + [callback];
    if callback.WriteBack? {
      var WriteBack(id, context) := callback;
      if context.sessionName in table {
        var text := context.toText(table[context.sessionName].data);
        if text.Some? {
          store.storage := store.storage[id := text.value];
        }
      }
    }
  }

  /** _hs_router_run_callbacks. */
  method RunAll(callbacks: CallbackArray, table: map<string, Session>, store: SessionStore)
    returns (ghost ran: seq<Callback>)
    requires callbacks.Valid()
    modifies store`storage
    ensures After(store.storage, ran) ==
            RunCallbacks(callbacks.Contents(), table, After(old(store.storage), []))
  {
    ran := [];
    var index := callbacks.count;
    ghost var contents := callbacks.Contents();
    assert contents[..index] == contents;
    while index > 0
      invariant index <= |contents| && contents == callbacks.Contents()
      invariant RunCallbacks(contents, table, After(old(store.storage), [])) ==
                RunCallbacks(contents[..index], table, After(store.storage, ran))
    {
      var callback := callbacks.items[index - 1];
      assert contents[..index][index - 1] == callback;
      assert contents[..index][..index - 1] == contents[..index - 1];
      ran := RunOne(callback, table, store, ran);
      index := index - 1;
    }
  }

  /** The end of hs_router_serve. */
  method RunCallbacksOf(params: FlowParams) returns (ghost ran: seq<Callback>)
    requires params.Valid()
    modifies params.store`storage
    ensures params.Valid() && params.Footprint() == old(params.Footprint())
    ensures var g := old(params.Snapshot());
            var after := RunCallbacks(g.callbacks, g.table, After(g.storage, []));
            ran == after.ran && params.Snapshot() == g.(storage := after.storage)
  {
    ran := RunAll(params.callbacks, params.table, params.store);
  }

  /** hs_router_serve. */
  method Serve(router: Router, params: FlowParams) returns (done: bool, ghost ran: seq<Callback>)
    requires params.Valid()
    modifies params.Footprint()
    ensures params.Valid() && fresh(params.Footprint() - old(params.Footprint()))
    ensures Served(params.Snapshot(), ran, done) == ServeRequest(router, old(params.Snapshot()))
  {
    ran := [];
    if !params.SocketIsOpen() || params.request.resource.None? {
      return false, [];
    }
    if params.routerState.done {
      return true, [];
    }
    if params.request.resource.value == [] || params.request.resource.value[0] != '/' {
      return false, [];
    }
    done := FindRouteAndServe(router.routes, router.keepAlive, params);
    ran := RunCallbacksOf(params);
  }

  // ----- the connection

  /** The connection as one value. */
  ghost function ConnOf(state: ConnectionState, socket: Socket, store: SessionStore,
                        running: bool, log: seq<Connection.Event>): Connection.Conn
    reads state, socket, store
  {
    Connection.Conn(state.socket != null && socket.isOpen, socket.unread, socket.written,
                    state.requestCounter, store.storage, store.issued, running, log)
  }

  /** How many bytes of `rest` the reads left out of the unread stream. */
  lemma CutOf(rest: string, buffered: string, unread: string)
    requires buffered + unread == rest
    ensures Min(|buffered|, |rest|) == |buffered|
    ensures rest[..|buffered|] == buffered && rest[|buffered|..] == unread
  {}

  /** The exchange of a parsed request, from its start to its end. */
  method ServeParsed(router: Router, request: Request, state: ConnectionState, socket: Socket,
                     store: SessionStore, ghost c: Connection.Conn, ghost head: RequestHead)
    returns (done: bool, closed: bool, ghost s: Served)
    requires state.socket == socket && socket.isOpen && request.payload.socket == socket
    requires request.payload.partial != null && !request.payload.loaded
    requires c == ConnOf(state, socket, store, c.running, c.log) && HeadValue(request) == head
    modifies state, socket, store, request, request.payload, request.payload.partial
    ensures s == ServeRequest(router, Connection.NewFlow(c, head, old(request.payload.partial.content), old(socket.unread)))
    ensures done == s.answered && closed == s.flow.closed
    ensures ConnOf(state, socket, store, c.running, c.log) ==
            c.(open := s.flow.IsOpen(), unread := s.flow.body.unread, written := s.flow.written,
               counter := s.flow.counter, storage := s.flow.storage, issued := s.flow.issued)
    ensures state.socket == if socket.isOpen then socket else null
  {
    var params := new FlowParams(request, state, store, socket);
    assert params.Snapshot() ==
           Connection.NewFlow(c, head, old(request.payload.partial.content), old(socket.unread));
    ghost var ran;
    done, ran := Serve(router, params);
    closed := params.routerState.closedConnection;
    s := Served(params.Snapshot(), ran, done);
    Connection.AttachedWhileOpen(router, c, head, old(request.payload.partial.content), old(socket.unread));
  }

  /** hs_router_serve_next. */
  method ServeNext(router: Router, state: ConnectionState, socket: Socket, store: SessionStore,
                   ghost running: bool, ghost log: seq<Connection.Event>)
    returns (goesOn: bool, ghost cut: nat, ghost newLog: seq<Connection.Event>)
    requires state.socket == if socket.isOpen then socket else null
    modifies state, socket, store
    ensures state.socket == if socket.isOpen then socket else null
    ensures (ConnOf(state, socket, store, running, newLog), goesOn) ==
            Connection.ServeNext(router, old(ConnOf(state, socket, store, running, log)), cut)
    ensures old(socket.isOpen) ==> PossibleCut(old(socket.unread), cut)
  {
    ghost var c := ConnOf(state, socket, store, running, log);
    newLog, cut := log, 0;
    if state.socket == null || !socket.isOpen {
      return false, cut, newLog;
    }
    ghost var parse := ParseBytes(socket.unread);
    var outcome := ParseRequest(socket);
    if !outcome.Made? {
      cut := |parse.rest| - |socket.unread|;
      if outcome.Malformed? {
        newLog := log + [Connection.Undefined];
      }
      return false, cut, newLog;
    }
    var request := outcome.request;
    ghost var head := parse.head;
    ghost var buffered, unread := request.payload.partial.content, socket.unread;
    cut := |buffered|;
    CutOf(parse.rest, buffered, unread);
    ghost var d := c.(unread := unread);
    ghost var s;
    var done, closed;
    done, closed, s := ServeParsed(router, request, state, socket, store, d, head);
    goesOn := done && !closed;
    newLog := log + [Connection.Received(Connection.Incoming(head, parse.rest)),
                     Connection.OutcomeOf(s.flow, s.answered)];
    Connection.CounterStays(router, c, head, buffered, unread);
  }

  /** The bytes that arrive before turn `i`. */
  function Delivery(script: seq<CText>, i: nat): CText {
    if i < |script| then script[i] else ""
  }

  /** How many bytes of the script have yet to arrive at turn `i`. */
  function Ahead(script: seq<CText>, i: nat): nat
    decreases |script| - i
  {
    if i < |script| then |script[i]| + Ahead(script, i + 1) else 0
  }

  ghost predicate Follows(rounds: seq<Connection.Round>, script: seq<CText>) {
    forall i :: 0 <= i < |rounds| ==> rounds[i].delivered == Delivery(script, i)
  }

  /** should_stop's verdict on a connection that may go on. */
  method AskToStop(stop: Option<nat -> bool>, state: ConnectionState, ghost socket: Socket,
                   ghost store: SessionStore, ghost log: seq<Connection.Event>)
    returns (goesOn: bool, ghost newLog: seq<Connection.Event>)
    ensures ConnOf(state, socket, store, goesOn, newLog) ==
            Connection.Ask(stop, ConnOf(state, socket, store, true, log))
  {
    goesOn, newLog := true, log;
    if stop.Some? {
      goesOn := !stop.value(state.requestCounter);
      newLog := log + [Connection.AskedToStop(state.requestCounter)];
    }
  }

  /** The end of a turn: a connection that may go on is put to should_stop. */
  method EndTurn(mayGoOn: bool, stop: Option<nat -> bool>, state: ConnectionState, ghost socket: Socket,
                 ghost store: SessionStore, ghost log: seq<Connection.Event>)
    returns (goesOn: bool, ghost newLog: seq<Connection.Event>)
    ensures ConnOf(state, socket, store, goesOn, newLog) ==
            Connection.AfterNext(stop, (ConnOf(state, socket, store, true, log), mayGoOn))
    ensures goesOn ==> mayGoOn
  {
    goesOn, newLog := mayGoOn, log;
    if mayGoOn {
      goesOn, newLog := AskToStop(stop, state, socket, store, log);
    }
  }

  /** The start of a turn: count the request, and let the next bytes arrive. */
  method StartTurn(state: ConnectionState, socket: Socket, ghost store: SessionStore, delivered: CText,
                   ghost log: seq<Connection.Event>)
    modifies state`requestCounter, socket`unread
    ensures ConnOf(state, socket, store, true, log) ==
            Connection.Before(old(ConnOf(state, socket, store, true, log)), Connection.Round(delivered, 0))
    ensures socket.unread == old(socket.unread) + delivered
  {
    state.requestCounter := state.requestCounter + 1;
    socket.Deliver(delivered);
  }

  /** One turn of the loop: count, let the next bytes arrive, serve, and ask whether to stop. */
  method ServeTurn(router: Router, stop: Option<nat -> bool>, state: ConnectionState, socket: Socket,
                   store: SessionStore, delivered: CText, ghost log: seq<Connection.Event>)
    returns (goesOn: bool, ghost round: Connection.Round, ghost newLog: seq<Connection.Event>)
    requires state.socket == if socket.isOpen then socket else null
    modifies state, socket, store
    ensures state.socket == if socket.isOpen then socket else null
    ensures round.delivered == delivered
    ensures ConnOf(state, socket, store, goesOn, newLog) ==
            Connection.Turn(router, stop, old(ConnOf(state, socket, store, true, log)), round)
    ensures old(socket.isOpen) ==> PossibleCut(old(socket.unread) + delivered, round.cut)
    ensures goesOn ==> |socket.unread| < |old(socket.unread)| + |delivered|
  {
    ghost var c := ConnOf(state, socket, store, true, log);
    StartTurn(state, socket, store, delivered, log);
    ghost var before, cut := ConnOf(state, socket, store, true, log), 0;
    goesOn, cut, newLog := ServeNext(router, state, socket, store, true, log);
    round := Connection.Round(delivered, cut);
    assert before == Connection.Before(c, round);
    Connection.NextShrinks(router, before, cut);
    goesOn, newLog := EndTurn(goesOn, stop, state, socket, store, newLog);
  }

  /** The connection `c` is where these rounds of the script have brought it. */
  ghost predicate InStep(c: Connection.Conn, router: Router, stop: Option<nat -> bool>, start: Connection.Conn,
                         rounds: seq<Connection.Round>, script: seq<CText>)
  {
    && c == Connection.Run(router, stop, start, rounds) && Follows(rounds, script)
    && Connection.Feasible(router, stop, start, rounds)
  }

  lemma OneMorePiece(rounds: seq<Connection.Round>, script: seq<CText>, round: Connection.Round)
    requires Follows(rounds, script) && round.delivered == Delivery(script, |rounds|)
    ensures Follows(rounds + [round], script)
  {}

  lemma NextInStep(c: Connection.Conn, router: Router, stop: Option<nat -> bool>, start: Connection.Conn,
                   rounds: seq<Connection.Round>, script: seq<CText>, round: Connection.Round)
    requires InStep(c, router, stop, start, rounds, script) && c.running
    requires round.delivered == Delivery(script, |rounds|)
    requires c.open ==> PossibleCut(c.unread + round.delivered, round.cut)
    ensures InStep(Connection.Turn(router, stop, c, round), router, stop, start, rounds + [round], script)
  {
    Connection.OneMoreRound(router, stop, start, rounds, round);
    Connection.OneMoreCut(router, stop, start, rounds, round, c);
    OneMorePiece(rounds, script, round);
  }

  /** hs_router_serve_forever, against a client that sends `script` one piece per turn and then
      nothing more: a finished run of Connection.Run, with cuts that reads can bring about. */
  method ServeForever(router: Router, socket: Socket, store: SessionStore, stop: Option<nat -> bool>,
                      script: seq<CText>)
    returns (served: bool, ghost rounds: seq<Connection.Round>, ghost log: seq<Connection.Event>)
    modifies socket, store
    ensures served == old(socket.isOpen)
    ensures !served ==> unchanged(socket) && unchanged(store)
    ensures served ==>
              var start := Connection.Begin(stop, old(socket.unread), old(socket.written),
                                            old(store.storage), old(store.issued));
              var c := Connection.Run(router, stop, start, rounds);
              && Follows(rounds, script) && Connection.Feasible(router, stop, start, rounds)
              && !c.running && c.log == log
              && c.open == socket.isOpen && c.unread == socket.unread && c.written == socket.written
              && c.storage == store.storage && c.issued == store.issued
  {
    rounds, log := [], [];
    if !socket.isOpen {
      return false, rounds, log;
    }
    ghost var start := Connection.Begin(stop, socket.unread, socket.written, store.storage, store.issued);
    var state := new ConnectionState(socket);
    var canContinue;
    canContinue, log := AskToStop(stop, state, socket, store, []);
    assert InStep(ConnOf(state, socket, store, canContinue, log), router, stop, start, rounds, script);
    var next := 0;
    while canContinue
      invariant fresh(state) && state.socket == if socket.isOpen then socket else null
      invariant next == |rounds|
      invariant InStep(ConnOf(state, socket, store, canContinue, log), router, stop, start, rounds, script)
      decreases if canContinue then |socket.unread| + Ahead(script, next) + 1 else 0
    {
      var delivered := Delivery(script, next);
      ghost var round, c := Connection.Round(delivered, 0), ConnOf(state, socket, store, true, log);
      canContinue, round, log := ServeTurn(router, stop, state, socket, store, delivered, log);
      NextInStep(c, router, stop, start, rounds, script, round);
      rounds := rounds + [round];
      next := next + 1;
    }
    served := true;
  }
}
