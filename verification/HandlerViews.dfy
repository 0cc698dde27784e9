/** From the bytes a client writes to what handlers see, and from what they answer to the bytes
    the client reads. */
module HandlerViews {
  import opened Text
  import opened KeyedLists
  import opened Io
  import opened Url
  import opened Message
  import opened RequestParser
  import opened Response
  import opened Routes
  import opened FlatRouting
  import opened Serving
  import opened Calls
  import opened Heads
  import opened Connection

  /** The facts of a request, told from its text. */
  ghost predicate Facing(facts: Facts, verb: HttpMethod, query: Option<string>, headers: seq<Pair>, body: string) {
    && facts.verb == verb && facts.query == query && facts.headers == headers
    && facts.domain == [] && facts.port == -1 && !facts.ssl
    && facts.cookies == CookiesOf(headers) && facts.contentLength == |body|
    && facts.userAgent == LastValue(headers, "user-agent")
    && facts.authorization == LastValue(headers, "authorization")
  }

  /** What a handler can change, before any handler did. */
  function Untouched(connection: ConnectionType): Exchange {
    Exchange(connection, Reply(200, [], [], None, None, None), map[])
  }

  lemma FactsFace(head: RequestHead, path: string, verb: HttpMethod, query: Option<string>, headers: seq<Pair>,
                  body: string)
    requires head.verb == verb && head.target == Target([], -1, false, Some(path), query)
    requires Reads(head.fields, headers) && head.fields.contentLength == |body|
    ensures Facing(FactsOf(head), verb, query, headers, body)
  {}

  lemma FlowStarts(c: Conn, head: RequestHead, path: string, buffered: string, unread: string)
    requires c.open && path != [] && path[0] == '/' && head.target.resource == Some(path)
    ensures var f := NewFlow(c, head, buffered, unread);
            && f.facts == FactsOf(head) && f.Changeable() == Untouched(head.fields.connection)
            && Waiting(f) && f.resource == Some(path) && f.basePath == [] && f.counter == c.counter
            && f.calls == [] && f.callbacks == [] && !f.body.loaded && Pending(f.body) == buffered + unread
  {}

  /** Every leaf the request reaches, at any depth, sees these facts and the connection's
      counter; its resource completes the mounts above it to the request's path; the first starts
      from an empty response, every other from what the one before it left; and each is true to
      its route. What they get of the body is the whole body, once. */
  ghost predicate Seen(router: Router, c: Conn, verb: HttpMethod, path: string, query: Option<string>,
                       headers: seq<Pair>, body: string, s: Served)
  {
    var calls := s.flow.calls;
    && (forall i :: 0 <= i < |calls| ==>
          && Facing(calls[i].view.facts, verb, query, headers, body)
          && calls[i].view.counter == c.counter
          && calls[i].exchange == Onward(Untouched(LastConnection(headers)), calls[..i])
          && TrueToRoute(calls[i])
          && (WellMounted(router.routes) ==> FaithfulView(calls[i], path)))
    && ReadOnce(calls, body)
    && (s.answered <==> AnsweredLast(calls))
  }

  lemma FlowIsSeen(router: Router, c: Conn, f: Flow, verb: HttpMethod, path: string, query: Option<string>,
                   headers: seq<Pair>, body: string)
    requires Facing(f.facts, verb, query, headers, body) && f.Changeable() == Untouched(LastConnection(headers))
    requires Waiting(f) && f.resource == Some(path) && f.basePath == [] && f.counter == c.counter
    requires f.calls == [] && f.callbacks == [] && !f.body.loaded && Pending(f.body) == body
    ensures Seen(router, c, verb, path, query, headers, body, ServeRequest(router, f))
  {
    var calls := ServeRequest(router, f).flow.calls;
    HandlersDecide(router, f);
    BodyIsReadOnce(router, f);
    assert calls[0..] == calls;
    if WellMounted(router.routes) { StrippingKeepsTheStack(router, f); }
  }

  lemma HeadIsSeen(router: Router, c: Conn, head: RequestHead, verb: HttpMethod, path: string,
                   query: Option<string>, headers: seq<Pair>, body: string, cut: nat)
    requires c.open && path != [] && path[0] == '/'
    requires head.verb == verb && head.target == Target([], -1, false, Some(path), query)
    requires Reads(head.fields, headers) && head.fields.contentLength == |body|
    ensures var k := Min(cut, |body|);
            Seen(router, c, verb, path, query, headers, body,
                 ServeRequest(router, NewFlow(c, head, body[..k], body[k..])))
  {
    var k := Min(cut, |body|);
    FactsFace(head, path, verb, query, headers, body);
    FlowStarts(c, head, path, body[..k], body[k..]);
    assert body[..k] + body[k..] == body;
    FlowIsSeen(router, c, NewFlow(c, head, body[..k], body[k..]), verb, path, query, headers, body);
  }

  /** What a client writes is what every handler sees, whatever the cut. */
  lemma WrittenRequestIsSeen(router: Router, c: Conn, verb: HttpMethod, path: string, query: Option<string>,
                             version: string, lines: seq<string>, body: string, cut: nat)
    requires verb != UnknownMethod && path != [] && GoodPath(path) && query != Some([])
    requires c.open && WellFormed(Written(verb, path, query, version, lines, body))
    ensures var m, k := Written(verb, path, query, version, lines, body), Min(cut, |body|);
            Seen(router, c, verb, path, query, HeadersIn(lines), body,
                 ServeRequest(router, NewFlow(c, HeadOf(m), body[..k], body[k..])))
  {
    var m := Written(verb, path, query, version, lines, body);
    WrittenIsParsed(verb, path, query, version, lines, body);
    HeadIsSeen(router, c, HeadOf(m), verb, path, query, HeadersIn(lines), body, cut);
  }

  /** What the last leaf called answers is what goes out: the one response written is printed
      from its reply, with the type of a content file filled in if nobody gave one. */
  lemma AnswerGoesOut(router: Router, f: Flow)
    requires Waiting(f) && ServeRequest(router, f).answered
    ensures var s := ServeRequest(router, f);
            && f.calls <= s.flow.calls && |f.calls| < |s.flow.calls|
            && var last := s.flow.calls[|s.flow.calls| - 1];
            && last.decision == Done && UpToType(last.result, s.flow.Changeable())
            && s.flow.written == f.written + ReplyBytes(s.flow.reply, s.flow.announced)
  {
    HandlersDecide(router, f);
    ServedExactlyOnce(router, f);
    var s := ServeRequest(router, f);
    var calls := s.flow.calls[|f.calls|..];
    assert calls[|calls| - 1] == s.flow.calls[|s.flow.calls| - 1];
  }
}
