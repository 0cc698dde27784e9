/** Clients that send the next message before they have the response to this one. */
module Pipelining {
  import opened Text
  import opened Io
  import opened Message
  import opened Url
  import opened RequestParser
  import opened Routes
  import opened FlatRouting
  import opened Connection
  import opened Chunking

  /** However the reads cut the stream, a loop that goes on stands at the next message. */
  ghost predicate AlwaysOnNext(router: Router, c: Conn, next: string) {
    forall cut: nat :: PossibleCut(c.unread, cut) && ServeNext(router, c, cut).1 ==>
      ServeNext(router, c, cut).0.unread == next
  }

  /** With a body to read, the cut does not decide whether the loop goes on. */
  lemma GoesOnAlike(router: Router, c: Conn, cut: nat, head: RequestHead, rest: string)
    requires c.open && ParseBytes(c.unread) == Parsed(head, rest) && head.fields.contentLength > 0
    ensures ServeNext(router, c, cut).1 == ServeNext(router, c, 0).1
  {
    ParsedAlike(router, c, cut, 0, head, rest);
  }

  lemma SafeAhead(router: Router, c: Conn, head: RequestHead, body: string, next: string)
    requires c.open && ParseBytes(c.unread) == Parsed(head, body + next)
    requires |body| == head.fields.contentLength > 0
    requires next == [] || (HeadEnds(c.unread) && |body| >= READ_LIMIT - 1) || !ServeNext(router, c, 0).1
    ensures AlwaysOnNext(router, c, next)
  {
    forall cut: nat | PossibleCut(c.unread, cut) && ServeNext(router, c, cut).1
      ensures ServeNext(router, c, cut).0.unread == next
    {
      GoesOnAlike(router, c, cut, head, body + next);
      NextBoundary(router, c, cut, head, body, next);
    }
  }

  /** The client's side of it: with a body, the boundary is safe from every way of reading
      exactly if nothing was sent ahead, or the body is so long that the read completing the
      head cannot reach beyond it, or the answer ends the connection anyway. Without one, some
      read that goes beyond the head must end in an answer that keeps the connection; what the
      handlers see of the bytes ahead may decide about that. */
  lemma SendingAhead(router: Router, c: Conn, head: RequestHead, body: string, next: string)
    requires c.open && ParseBytes(c.unread) == Parsed(head, body + next)
    requires |body| == head.fields.contentLength
    ensures |body| > 0 ==>
              (AlwaysOnNext(router, c, next) <==>
                 || next == []
                 || (HeadEnds(c.unread) && |body| >= READ_LIMIT - 1)
                 || !ServeNext(router, c, 0).1)
    ensures |body| == 0 ==>
              (AlwaysOnNext(router, c, next) <==>
                 || next == []
                 || forall cut: nat :: PossibleCut(c.unread, cut) && cut > 0 ==> !ServeNext(router, c, cut).1)
  {
    if |body| == 0 {
      forall cut: nat | PossibleCut(c.unread, cut) && ServeNext(router, c, cut).1
        ensures ServeNext(router, c, cut).0.unread == next <==> next == [] || cut == 0
      {
        NextBoundary(router, c, cut, head, body, next);
      }
    } else if next == [] || (HeadEnds(c.unread) && |body| >= READ_LIMIT - 1) || !ServeNext(router, c, 0).1 {
      SafeAhead(router, c, head, body, next);
    } else {
      var cut := if HeadEnds(c.unread) then |body| + 1 else |body + next|;
      GoesOnAlike(router, c, cut, head, body + next);
      NextBoundary(router, c, cut, head, body, next);
    }
  }

  /** A router whose one handler answers everything at once and keeps the connection. */
  const EAGER := Router([Route(None, true, ROOT.verbs, Application(Handler(
    (_, _) => LoadNothing,
    (_, exchange: Exchange, _) => Answer(exchange.(connection := KeepAlive), [], Done))))], true)

  const BARE_GET := Sent("GET", "/", "HTTP/1.1", [], "")

  lemma ParseAhead(m: Sent, next: string)
    requires Word(m.verb) && Word(m.uri) && Word(m.version) && ProperLines(m.lines)
    ensures ParseBytes(PrintRequest(m) + next) == Parsed(HeadOf(m), m.body + next)
    ensures HeadEnds(PrintRequest(m) + next)
  {
    var longer := m.(body := m.body + next);
    ParsePrinted(longer);
    assert PrintRequest(m) + next == PrintRequest(longer);
  }

  lemma RootTarget()
    ensures TargetOf("/", false) == Some(Target([], -1, false, Some("/"), None))
  {
    OriginForm("/", None);
    assert "/" + QueryText(None) == "/";
  }

  lemma BareGetHead()
    ensures HeadOf(BARE_GET) == RequestHead(Get, Target([], -1, false, Some("/"), None), NO_FIELDS)
  {
    RootTarget();
  }

  lemma BareGetAhead(next: string)
    ensures ParseBytes(PrintRequest(BARE_GET) + next) == Parsed(HeadOf(BARE_GET), next)
    ensures HeadEnds(PrintRequest(BARE_GET) + next)
  {
    ParseAhead(BARE_GET, next);
    assert [] + next == next;
  }

  lemma EagerAnswers(f: Flow)
    requires Waiting(f) && f.facts.verb == Get && f.facts.contentLength == 0 && f.callbacks == []
    ensures var s := ServeRequest(EAGER, f);
            s.answered && !s.flow.closed && s.flow.body == f.body
  {
    var route := EAGER.routes[0];
    assert Reaches(route, f);
    assert Owned([]) == [];
    var ran := RunLeaf(route, f);
    assert ran.1 == Done && ran.0.connection == KeepAlive && !ran.0.done;
    assert ServeRoute(route, true, f) == Conclude(true, ran);
  }

  lemma EagerGoesOn(c: Conn, cut: nat, head: RequestHead, rest: string)
    requires c.open && ParseBytes(c.unread) == Parsed(head, rest)
    requires head.verb == Get && head.target.resource == Some("/") && head.fields.contentLength == 0
    ensures ServeNext(EAGER, c, cut).1 && ServeNext(EAGER, c, cut).0.open
  {
    var k := Min(cut, |rest|);
    EagerAnswers(NewFlow(c, head, rest[..k], rest[k..]));
    var _ := Exchanged(EAGER, c, cut, head, rest);
  }

  lemma EagerLoses(c: Conn, cut: nat, head: RequestHead, next: string)
    requires c.open && ParseBytes(c.unread) == Parsed(head, next) && next != [] && cut > 0
    requires head.verb == Get && head.target.resource == Some("/") && head.fields.contentLength == 0
    ensures var (d, goesOn) := ServeNext(EAGER, c, cut);
            goesOn && d.open && d.unread == next[Min(cut, |next|)..] && d.unread != next
  {
    assert [] + next == next;
    EagerGoesOn(c, cut, head, next);
    NextBoundary(EAGER, c, cut, head, [], next);
  }

  /** Bytes do get lost: with this router, a client that sends one GET and anything after it
      loses exactly the bytes that the reads for the GET pulled in, on a connection that goes
      on. */
  lemma AheadIsLost(c: Conn, next: string, cut: nat)
    requires c.open && c.unread == PrintRequest(BARE_GET) + next && next != [] && cut > 0
    ensures var (d, goesOn) := ServeNext(EAGER, c, cut);
            goesOn && d.open && d.unread == next[Min(cut, |next|)..] && d.unread != next
    ensures cut < READ_LIMIT ==> PossibleCut(c.unread, cut)
  {
    BareGetHead();
    BareGetAhead(next);
    EagerLoses(c, cut, HeadOf(BARE_GET), next);
  }
}
