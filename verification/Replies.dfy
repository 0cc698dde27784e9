/** What a connection writes: over every run it is the responses, one after the other, and the
    repository's reader cuts it back into them. */
module Replies {
  import opened Text
  import opened KeyedLists
  import opened Io
  import opened Message
  import opened RequestParser
  import opened Response
  import opened Routes
  import opened Connection

  // ----- reading a stream of responses

  /** A response as the reader gets it. */
  datatype Reading = Reading(status: string, headers: seq<Pair>, connection: ConnectionType, content: string)

  datatype ReadOff = NoReply | ReadOff(reading: Reading, rest: string)

  /** One response taken off a stream: status line, header lines, and as much content as they
      declare. */
  function ReadReply(bytes: string): (r: ReadOff)
    ensures r.ReadOff? ==> |r.rest| < |bytes|
  {
    var h := SplitHead(bytes);
    if !h.ended || h.lines == [] then NoReply
    else
      SplitHeadRebuilds(bytes);
      var f := ApplyLines(NO_FIELDS, h.lines[1..]);
      if |h.rest| < f.contentLength then NoReply
      else ReadOff(Reading(h.lines[0], f.headers, f.connection, h.rest[..f.contentLength]),
                   h.rest[f.contentLength..])
  }

  function ReadReplies(bytes: string): seq<Reading>
    decreases |bytes|
  {
    match ReadReply(bytes)
    case NoReply => []
    case ReadOff(reading, rest) => [reading] + ReadReplies(rest)
  }

  /** What the reader should make of a response. */
  function AsRead(reply: Reply, close: bool): Reading {
    Reading(StatusLine(reply.code), LowerKeys(PrintedPairs(reply, close)),
            if close then CloseConnection else KeepAlive, ContentOf(reply))
  }

  // ----- what a response says, told from its fields

  /** The handler's headers that have a value, in order, with lower-case keys. */
  ghost predicate OwnHeaders(read: seq<Pair>, headers: seq<Pair>)
    decreases headers
  {
    if headers == [] then read == []
    else if headers[0].value.None? then OwnHeaders(read, headers[1..])
    else
      && read != [] && read[0] == Pair(Lower(headers[0].key), headers[0].value)
      && OwnHeaders(read[1..], headers[1..])
  }

  ghost predicate SetsCookie(header: Pair, key: string, c: Cookie) {
    header == Pair(key, Some(CookieText(c)))
  }

  /** One Set-Cookie for each cookie, in order. */
  ghost predicate CookieHeaders(read: seq<Pair>, key: string, cookies: seq<Cookie>) {
    && |read| == |cookies|
    && forall i :: 0 <= i < |cookies| ==> SetsCookie(read[i], key, cookies[i])
  }

  /** The handler's first Content-Type header has a value. */
  ghost predicate SaysType(headers: seq<Pair>) {
    exists i: nat :: FirstAt(headers, "Content-Type", i) && headers[i].value.Some?
  }

  /** A content type, if there is one and the handler did not say it itself. */
  ghost predicate TypeHeader(read: seq<Pair>, reply: Reply) {
    if reply.mimeType.Some? && !SaysType(reply.headers)
    then read == [Pair("content-type", reply.mimeType)] else read == []
  }

  ghost predicate HeadersTell(read: seq<Pair>, own: seq<Pair>, cookies: seq<Pair>, types: seq<Pair>,
                              reply: Reply, close: bool, length: nat)
  {
    && read == own + cookies + [Pair("connection", Some(if close then "close" else "keep-alive"))]
               + types + [Pair("content-length", Some(Decimal(length)))]
    && OwnHeaders(own, reply.headers) && CookieHeaders(cookies, "set-cookie", reply.cookies) && TypeHeader(types, reply)
  }

  /** The client's reading says exactly what the response's fields say. */
  ghost predicate Tells(r: Reading, reply: Reply, close: bool) {
    && WordsOf(r.status) == ["HTTP/1.1", Decimal(reply.code), Decimal(reply.code)]
    && r.connection == (if close then CloseConnection else KeepAlive)
    && IsContent(r.content, reply)
    && exists own, cookies, types :: HeadersTell(r.headers, own, cookies, types, reply, close, |r.content|)
  }

  lemma StatusWords(code: nat)
    ensures WordsOf(StatusLine(code)) == ["HTTP/1.1", Decimal(code), Decimal(code)]
  {
    var digits := Decimal(code);
    assert forall i :: 0 <= i < |digits| ==> IsDigit(digits[i]);
    ThreeWords("HTTP/1.1", digits, digits);
    assert "HTTP/1.1 " + digits == "HTTP/1.1" + " " + digits;
  }

  lemma LowerKeysAppend(a: seq<Pair>, b: seq<Pair>)
    ensures LowerKeys(a + b) == LowerKeys(a) + LowerKeys(b)
  {}

  lemma {:induction false} ValuedAppend(a: seq<Pair>, b: seq<Pair>)
    ensures Valued(a + b) == Valued(a) + Valued(b)
  {
    if b == [] {
      assert a + b == a;
    } else {
      var front, last := b[..|b| - 1], b[|b| - 1];
      assert (a + b)[..|a + b| - 1] == a + front;
      ValuedAppend(a, front);
    }
  }

  lemma ValuedFirst(first: Pair, rest: seq<Pair>)
    ensures Valued([first] + rest) == (if first.value.Some? then [first] else []) + Valued(rest)
  {
    ValuedAppend([first], rest);
    assert [first][..0] == [] && [first][0] == first;
    assert Valued([first]) == Valued([]) + if first.value.Some? then [first] else [];
  }

  lemma LowerFirst(first: Pair, rest: seq<Pair>)
    ensures LowerKeys([first] + rest) == [Pair(Lower(first.key), first.value)] + LowerKeys(rest)
    ensures LowerKeys([first] + rest)[1..] == LowerKeys(rest)
  {}

  lemma {:induction false} OwnHeadersAreValued(headers: seq<Pair>)
    ensures OwnHeaders(LowerKeys(Valued(headers)), headers)
    decreases headers
  {
    if headers != [] {
      var first, rest := headers[0], headers[1..];
      assert headers == [first] + rest;
      ValuedFirst(first, rest);
      OwnHeadersAreValued(rest);
      if first.value.Some? {
        LowerFirst(first, Valued(rest));
      } else {
        assert [] + Valued(rest) == Valued(rest);
      }
    }
  }

  lemma OneMoreCookie(pairs: seq<Pair>, cookies: seq<Cookie>, p: Pair, c: Cookie)
    requires CookieHeaders(pairs, "Set-Cookie", cookies) && SetsCookie(p, "Set-Cookie", c)
    ensures CookieHeaders(pairs + [p], "Set-Cookie", cookies + [c])
  {}

  lemma LastCookiePair(cookies: seq<Cookie>) returns (p: Pair)
    requires cookies != []
    ensures CookiePairs(cookies) == CookiePairs(cookies[..|cookies| - 1]) + [p]
    ensures SetsCookie(p, "Set-Cookie", cookies[|cookies| - 1])
  {
    p := Pair("Set-Cookie", Some(CookieText(cookies[|cookies| - 1])));
  }

  lemma {:induction false} CookiePairsAre(cookies: seq<Cookie>, pairs: seq<Pair>)
    requires pairs == CookiePairs(cookies)
    ensures CookieHeaders(pairs, "Set-Cookie", cookies)
    decreases cookies
  {
    if cookies != [] {
      var front, last := cookies[..|cookies| - 1], cookies[|cookies| - 1];
      var p := LastCookiePair(cookies);
      CookiePairsAre(front, CookiePairs(front));
      OneMoreCookie(CookiePairs(front), front, p, last);
      assert front + [last] == cookies;
    }
  }

  lemma LowerKeysOfCookies(pairs: seq<Pair>, cookies: seq<Cookie>)
    requires CookieHeaders(pairs, "Set-Cookie", cookies)
    ensures CookieHeaders(LowerKeys(pairs), "set-cookie", cookies)
  {
    assert Lower("Set-Cookie") == "set-cookie";
    forall i | 0 <= i < |cookies| ensures SetsCookie(LowerKeys(pairs)[i], "set-cookie", cookies[i]) {
      assert SetsCookie(pairs[i], "Set-Cookie", cookies[i]);
    }
  }

  lemma CookieHeadersAre(cookies: seq<Cookie>)
    ensures CookieHeaders(LowerKeys(CookiePairs(cookies)), "set-cookie", cookies)
  {
    CookiePairsAre(cookies, CookiePairs(cookies));
    LowerKeysOfCookies(CookiePairs(cookies), cookies);
  }

  lemma TypeHeaderIs(reply: Reply)
    ensures TypeHeader(LowerKeys(TypePairs(reply)), reply)
  {
    LookupFinds(reply.headers, "Content-Type");
    LowerNames();
    forall i: nat | FirstAt(reply.headers, "Content-Type", i)
      ensures Lookup(reply.headers, "Content-Type") == reply.headers[i].value
    {
      LookupIsFirst(reply.headers, "Content-Type", i);
    }
  }

  lemma ReadHeadersTell(reply: Reply, close: bool)
    ensures HeadersTell(LowerKeys(PrintedPairs(reply, close)), LowerKeys(Valued(reply.headers)),
                        LowerKeys(CookiePairs(reply.cookies)), LowerKeys(TypePairs(reply)),
                        reply, close, |ContentOf(reply)|)
  {
    OwnHeadersAreValued(reply.headers);
    CookieHeadersAre(reply.cookies);
    TypeHeaderIs(reply);
    LowerNames();
    PrintedKeys(Valued(reply.headers), CookiePairs(reply.cookies), ConnectionPair(close), TypePairs(reply),
                Pair("Content-Length", Some(Decimal(|ContentOf(reply)|))));
  }

  lemma PrintedKeys(a: seq<Pair>, b: seq<Pair>, c: Pair, d: seq<Pair>, e: Pair)
    ensures LowerKeys(a + b + [c] + d + [e]) ==
            LowerKeys(a) + LowerKeys(b) + [Pair(Lower(c.key), c.value)] + LowerKeys(d) + [Pair(Lower(e.key), e.value)]
  {}

  lemma ReadingTells(reply: Reply, close: bool)
    ensures Tells(AsRead(reply, close), reply, close)
  {
    StatusWords(reply.code);
    ReadHeadersTell(reply, close);
  }

  lemma HeadOfPrinted(lines: seq<string>, content: string, rest: string)
    requires ProperLines(lines)
    ensures SplitHead(Joined(lines) + CRLF + content + rest) == Head(lines, true, content + rest)
  {
    SplitHeadJoined(lines, content + rest);
    assert Joined(lines) + CRLF + content + rest == Joined(lines) + CRLF + (content + rest);
  }

  lemma HeadOfReply(reply: Reply, close: bool, rest: string)
    requires CleanReply(reply)
    ensures SplitHead(ReplyBytes(reply, close) + rest) ==
            Head(ReplyLines(reply, close), true, ContentOf(reply) + rest)
  {
    ReplyLinesAreProper(reply, close);
    HeadOfPrinted(ReplyLines(reply, close), ContentOf(reply), rest);
  }

  lemma FieldsOfReply(reply: Reply, close: bool)
    requires CleanReply(reply)
    ensures var f := ApplyLines(NO_FIELDS, ReplyLines(reply, close)[1..]);
            && f.headers == LowerKeys(PrintedPairs(reply, close))
            && f.contentLength == |ContentOf(reply)|
            && f.connection == if close then CloseConnection else KeepAlive
  {
    var pairs := PrintedPairs(reply, close);
    ReplyLinesAreProper(reply, close);
    assert ReplyLines(reply, close)[1..] == PairLines(pairs);
    ReadPairs(NO_FIELDS, pairs);
    assert [] + LowerKeys(pairs) == LowerKeys(pairs);
    ReadFraming(reply, close);
  }

  /** Whatever follows it, a response is read off exactly. */
  lemma ReplyIsReadOff(reply: Reply, close: bool, rest: string)
    requires CleanReply(reply)
    ensures ReadReply(ReplyBytes(reply, close) + rest) == ReadOff(AsRead(reply, close), rest)
    ensures Tells(AsRead(reply, close), reply, close)
  {
    ReadingTells(reply, close);
    HeadOfReply(reply, close, rest);
    FieldsOfReply(reply, close);
    var content := ContentOf(reply);
    assert (content + rest)[..|content|] == content && (content + rest)[|content|..] == rest;
  }

  // ----- the responses of a log

  /** The responses of a log, in order, as they should be read. */
  function Replied(log: seq<Event>): seq<Reading> {
    if log == [] then []
    else (if log[0].Answered? then [AsRead(log[0].reply, log[0].announced)] else []) + Replied(log[1..])
  }

  ghost predicate CleanLog(log: seq<Event>) {
    forall event :: event in log && event.Answered? ==> CleanReply(event.reply)
  }

  lemma FirstWrites(log: seq<Event>)
    requires log != []
    ensures WrittenBy(log) == Output(log[0]) + WrittenBy(log[1..])
  {
    assert log == [log[0]] + log[1..];
    WrittenByAppend([log[0]], log[1..]);
    LastWrites([], log[0]);
    assert [] + [log[0]] == [log[0]] && [] + Output(log[0]) == Output(log[0]);
  }

  lemma TakenOff(bytes: string, reading: Reading, rest: string)
    requires ReadReply(bytes) == ReadOff(reading, rest)
    ensures ReadReplies(bytes) == [reading] + ReadReplies(rest)
  {}

  lemma AnswerReadBack(event: Event, rest: string)
    requires event.Answered? && CleanReply(event.reply)
    ensures ReadReplies(Output(event) + rest) == [AsRead(event.reply, event.announced)] + ReadReplies(rest)
  {
    ReplyIsReadOff(event.reply, event.announced, rest);
    TakenOff(Output(event) + rest, AsRead(event.reply, event.announced), rest);
  }

  lemma OthersWriteNothing(event: Event, rest: string, more: seq<Reading>)
    requires !event.Answered?
    ensures Output(event) + rest == rest && [] + more == more
  {}

  /** The readings tell the responses of the log, one by one and in order. */
  ghost predicate ToldBy(readings: seq<Reading>, log: seq<Event>)
    decreases log
  {
    if log == [] then readings == []
    else if !log[0].Answered? then ToldBy(readings, log[1..])
    else
      && readings != [] && Tells(readings[0], log[0].reply, log[0].announced)
      && ToldBy(readings[1..], log[1..])
  }

  lemma {:induction false} RepliedTells(log: seq<Event>)
    ensures ToldBy(Replied(log), log)
  {
    if log != [] {
      RepliedTells(log[1..]);
      if log[0].Answered? {
        ReadingTells(log[0].reply, log[0].announced);
        assert Replied(log)[1..] == Replied(log[1..]);
      } else {
        assert [] + Replied(log[1..]) == Replied(log[1..]);
      }
    }
  }

  /** The reader cuts the written stream back into exactly the responses, in order. */
  lemma {:induction false} RepliesReadBack(log: seq<Event>)
    requires CleanLog(log)
    ensures ReadReplies(WrittenBy(log)) == Replied(log)
  {
    if log != [] {
      FirstWrites(log);
      RepliesReadBack(log[1..]);
      if log[0].Answered? {
        assert log[0] in log;
        AnswerReadBack(log[0], WrittenBy(log[1..]));
      } else {
        OthersWriteNothing(log[0], WrittenBy(log[1..]), Replied(log[1..]));
      }
    }
  }

  // ----- over a run

  /** Everything written since the connection began is what its log says. */
  ghost predicate WroteItsLog(c: Conn, before: string) { c.written == before + WrittenBy(c.log) }

  lemma StepWrites(stop: Option<nat -> bool>, c: Conn, next: (Conn, bool), events: seq<Event>, before: string)
    requires WroteItsLog(c, before) && Step(c, next, events) && Writes(c, next, events)
    ensures WroteItsLog(AfterNext(stop, next), before)
  {
    var d := next.0;
    WrittenByAppend(c.log, events);
    Regroup(before, WrittenBy(c.log), WrittenBy(events));
    LastWrites(d.log, AskedToStop(d.counter));
    assert WrittenBy(d.log) + [] == WrittenBy(d.log);
  }

  /** Over every run the bytes written are the responses of the answered requests, in order,
      and nothing else. */
  lemma {:induction false} RunWritesItsLog(router: Router, stop: Option<nat -> bool>, c: Conn,
                                           rounds: seq<Round>, before: string)
    requires ClosesLast(c) && WroteItsLog(c, before)
    ensures WroteItsLog(Run(router, stop, c, rounds), before)
  {
    if rounds != [] {
      var n := |rounds| - 1;
      RunWritesItsLog(router, stop, c, rounds[..n], before);
      NoRequestAfterClose(router, stop, c, rounds[..n]);
      var d := Run(router, stop, c, rounds[..n]);
      if d.running {
        var start := Before(d, rounds[n]);
        var events := NextSteps(router, start, rounds[n].cut);
        StepWrites(stop, start, ServeNext(router, start, rounds[n].cut), events, before);
      }
    }
  }

  /** So the client, with the repository's own reader, gets exactly these responses. */
  lemma RunIsReadBack(router: Router, stop: Option<nat -> bool>, c: Conn, rounds: seq<Round>)
    requires ClosesLast(c) && WroteItsLog(c, []) && CleanLog(Run(router, stop, c, rounds).log)
    ensures var d := Run(router, stop, c, rounds);
            ReadReplies(d.written) == Replied(d.log) && ToldBy(ReadReplies(d.written), d.log)
  {
    var d := Run(router, stop, c, rounds);
    RunWritesItsLog(router, stop, c, rounds, []);
    assert [] + WrittenBy(d.log) == WrittenBy(d.log);
    RepliesReadBack(d.log);
    RepliedTells(d.log);
  }

  // ----- which response answers which request

  /** Every request has its outcome right behind it, and an unanswered one is the last. */
  ghost predicate Paired(log: seq<Event>) {
    && (forall i :: 0 <= i < |log| && (log[i].Answered? || log[i].Unanswered?) ==>
          i > 0 && log[i - 1].Received? && (log[i].Unanswered? ==> i == |log| - 1))
    && (forall i :: 0 <= i < |log| && log[i].Received? ==>
          i + 1 < |log| && (log[i + 1].Answered? || log[i + 1].Unanswered?))
  }

  /** Nothing may follow an unanswered request. */
  predicate LeftOpen(log: seq<Event>) { log == [] || !log[|log| - 1].Unanswered? }

  lemma ExchangePairs(log: seq<Event>, request: Incoming, outcome: Event)
    requires Paired(log) && LeftOpen(log) && (outcome.Answered? || outcome.Unanswered?)
    ensures Paired(log + [Received(request), outcome])
  {
    var more := log + [Received(request), outcome];
    assert forall i :: 0 <= i < |log| ==> more[i] == log[i];
    assert more[|log|] == Received(request) && more[|log| + 1] == outcome;
  }

  lemma OtherPairs(log: seq<Event>, event: Event)
    requires Paired(log) && LeftOpen(log) && (event.AskedToStop? || event == Undefined)
    ensures Paired(log + [event]) && LeftOpen(log + [event])
  {
    var more := log + [event];
    assert forall i :: 0 <= i < |log| ==> more[i] == log[i];
    assert more[|log|] == event;
  }

  lemma StepPairs(stop: Option<nat -> bool>, c: Conn, next: (Conn, bool), events: seq<Event>)
    requires Paired(c.log) && LeftOpen(c.log) && Step(c, next, events)
    ensures var d := AfterNext(stop, next); Paired(d.log) && (d.running ==> LeftOpen(d.log))
  {
    var d := next.0;
    if |events| == 2 {
      assert events == [Received(events[0].request), events[1]];
      ExchangePairs(c.log, events[0].request, events[1]);
      assert d.log[|d.log| - 1] == events[1];
      if next.1 { OtherPairs(d.log, AskedToStop(d.counter)); }
    } else if events == [Undefined] {
      OtherPairs(c.log, Undefined);
    } else {
      assert c.log + [] == c.log;
    }
  }

  /** Over every run the k-th response answers the k-th request. */
  lemma {:induction false} AnswersArePaired(router: Router, stop: Option<nat -> bool>, c: Conn, rounds: seq<Round>)
    requires ClosesLast(c) && Paired(c.log)
    requires c.running ==> LeftOpen(c.log)
    ensures var d := Run(router, stop, c, rounds);
            Paired(d.log) && (d.running ==> LeftOpen(d.log))
  {
    if rounds != [] {
      var n := |rounds| - 1;
      AnswersArePaired(router, stop, c, rounds[..n]);
      NoRequestAfterClose(router, stop, c, rounds[..n]);
      var d := Run(router, stop, c, rounds[..n]);
      if d.running {
        var start := Before(d, rounds[n]);
        var events := NextSteps(router, start, rounds[n].cut);
        StepPairs(stop, start, ServeNext(router, start, rounds[n].cut), events);
      }
    }
  }

  /** A run may start there. */
  lemma BeginsPaired(stop: Option<nat -> bool>, unread: string, written: string,
                     storage: map<string, string>, issued: nat)
    ensures var c := Begin(stop, unread, written, storage, issued);
            WroteItsLog(c, written) && Paired(c.log) && LeftOpen(c.log)
  {
    var c := Begin(stop, unread, written, storage, issued);
    assert written + [] == written;
    if stop.Some? {
      LastWrites([], AskedToStop(0));
      OtherPairs([], AskedToStop(0));
      assert [] + [AskedToStop(0)] == c.log && [] + Output(AskedToStop(0)) == [];
    }
  }
}
