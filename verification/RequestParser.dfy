/** From bytes to a request: the request line, the header lines, and where the body starts. */
module RequestParser {
  import opened Text
  import opened KeyedLists
  import opened Io
  import opened Url
  import opened HeaderLine
  import opened CookieHeader
  import opened Message

  /** The words of a line, as stringfn_split_words cuts them. */
  function WordEnd(s: string): (n: nat)
    ensures n <= |s|
    ensures s != [] && !IsSpace(s[0]) ==> n > 0
  {
    if s == [] || IsSpace(s[0]) then 0 else 1 + WordEnd(s[1..])
  }

  function WordsOf(s: string): seq<string>
    decreases |s|
  {
    if s == [] then []
    else if IsSpace(s[0]) then WordsOf(s[1..])
    else [s[..WordEnd(s)]] + WordsOf(s[WordEnd(s)..])
  }

  predicate Word(s: string) {
    s != [] && forall i :: 0 <= i < |s| ==> !IsSpace(s[i])
  }

  lemma {:induction false} WordEndAt(word: string, rest: string)
    requires forall i :: 0 <= i < |word| ==> !IsSpace(word[i])
    requires rest == [] || IsSpace(rest[0])
    ensures WordEnd(word + rest) == |word|
  {
    if word == [] {
      assert word + rest == rest;
    } else {
      assert (word + rest)[1..] == word[1..] + rest;
      WordEndAt(word[1..], rest);
    }
  }

  lemma WordThen(word: string, rest: string)
    requires Word(word) && (rest == [] || IsSpace(rest[0]))
    ensures WordsOf(word + rest) == [word] + WordsOf(rest)
  {
    WordEndAt(word, rest);
    assert (word + rest)[..|word|] == word && (word + rest)[|word|..] == rest;
  }

  lemma WordAfterSpace(s: string)
    ensures WordsOf(" " + s) == WordsOf(s)
  {
    assert (" " + s)[1..] == s;
  }

  lemma OneWord(c: string)
    requires Word(c)
    ensures WordsOf(c) == [c]
  {
    assert c + [] == c;
    WordThen(c, []);
  }

  lemma TwoWords(b: string, c: string)
    requires Word(b) && Word(c)
    ensures WordsOf(b + (" " + c)) == [b, c]
  {
    WordThen(b, " " + c);
    WordAfterSpace(c);
    OneWord(c);
  }

  lemma ThreeWords(a: string, b: string, c: string)
    requires Word(a) && Word(b) && Word(c)
    ensures WordsOf(a + " " + b + " " + c) == [a, b, c]
  {
    var tail := b + (" " + c);
    Regroup(a + " ", b, " " + c);
    Regroup(a, " ", tail);
    assert a + " " + b + " " + c == a + (" " + tail);
    WordThen(a, " " + tail);
    WordAfterSpace(tail);
    TwoWords(b, c);
  }

  /** The characters of the text that are no white space. */
  function Solid(s: string): string {
    if s == [] then [] else (if IsSpace(s[0]) then [] else [s[0]]) + Solid(s[1..])
  }

  function Together(words: seq<string>): string {
    if words == [] then [] else words[0] + Together(words[1..])
  }

  lemma {:induction false} SolidAppend(a: string, b: string)
    requires forall i :: 0 <= i < |a| ==> !IsSpace(a[i])
    ensures Solid(a + b) == a + Solid(b)
  {
    if a == [] {
      assert a + b == b;
    } else {
      assert (a + b)[1..] == a[1..] + b;
      SolidAppend(a[1..], b);
    }
  }

  lemma {:induction false} WordEndStops(s: string)
    ensures forall i :: 0 <= i < WordEnd(s) ==> !IsSpace(s[i])
    ensures WordEnd(s) < |s| ==> IsSpace(s[WordEnd(s)])
  {
    if s != [] && !IsSpace(s[0]) {
      WordEndStops(s[1..]);
      assert forall i :: 0 < i < |s| ==> s[i] == s[1..][i - 1];
    }
  }

  /** Whatever the white space between them, the words are words, and together they are all
      that is not white space. */
  lemma {:induction false} WordsAreTheText(s: string)
    ensures Together(WordsOf(s)) == Solid(s) && forall w :: w in WordsOf(s) ==> Word(w)
    decreases |s|
  {
    if s != [] {
      if IsSpace(s[0]) {
        WordsAreTheText(s[1..]);
      } else {
        var n := WordEnd(s);
        WordEndStops(s);
        WordsAreTheText(s[n..]);
        SolidAppend(s[..n], s[n..]);
        assert s == s[..n] + s[n..];
        assert ([s[..n]] + WordsOf(s[n..]))[1..] == WordsOf(s[n..]);
      }
    }
  }

  /** hs_parser_parse_method. */
  function ParseMethod(s: string): HttpMethod {
    if s == "GET" then Get
    else if s == "POST" then Post
    else if s == "PUT" then Put
    else if s == "DELETE" then Delete
    else if s == "HEAD" then HeadMethod
    else if s == "CONNECT" then Connect
    else if s == "OPTIONS" then Options
    else if s == "TRACE" then Trace
    else if s == "PATCH" then Patch
    else UnknownMethod
  }

  // ----- the head, as a value

  /** What the header lines determine. */
  datatype Fields = Fields(
    headers: seq<Pair>,
    cookies: seq<Cookie>,
    contentLength: nat,
    connection: ConnectionType,
    userAgent: Option<string>,
    authorization: Option<string>)

  const NO_FIELDS := Fields([], [], 0, UnknownConnection, None, None)

  /** C's conversion from int to size_t, 64 bits wide. */
  function ToSize(n: int): nat { n % 0x1_0000_0000_0000_0000 }

  function SetField(f: Fields, key: string, value: string): Fields {
    if key == "cookie" then f.(cookies := f.cookies + CookiesIn(value))
    else if key == "content-length" then f.(contentLength := ToSize(Atoi(value)))
    else if key == "connection" then
      if value == "close" then f.(connection := CloseConnection)
      else if "keep-alive" <= value then f.(connection := KeepAlive)
      else f
    else if key == "user-agent" then f.(userAgent := Some(value))
    else if key == "authorization" then f.(authorization := Some(value))
    else f
  }

  function AddHeader(f: Fields, header: Pair): Fields {
    var g := f.(headers := f.headers + [header]);
    if header.value.Some? then SetField(g, header.key, header.value.value) else g
  }

  function ApplyLine(f: Fields, line: string): Fields {
    match HeaderOf(line)
    case None => f
    case Some(header) => AddHeader(f, header)
  }

  function ApplyLines(f: Fields, lines: seq<string>): Fields
    decreases lines
  {
    if lines == [] then f else ApplyLines(ApplyLine(f, lines[0]), lines[1..])
  }

  datatype RequestHead = RequestHead(verb: HttpMethod, target: Target, fields: Fields)

  /** What parsing makes of a byte stream. A request line that does not have three words is
      BadLine: from there on the program works on a missing request. */
  datatype Parse = NoRequest(rest: string) | BadLine(rest: string) | Parsed(head: RequestHead, rest: string)

  function ParseBytes(bytes: string): (p: Parse)
    ensures |p.rest| <= |bytes| && (p.Parsed? ==> |p.rest| < |bytes|)
  {
    var cut := CutLine(bytes);
    match cut.line
    case None => NoRequest(cut.rest)
    case Some(line) =>
      var words := WordsOf(line);
      if |words| != 3 then BadLine(cut.rest)
      else
        var h := SplitHead(cut.rest);
        Parsed(RequestHead(ParseMethod(words[0]), TargetOf(words[1], false).value,
                           ApplyLines(NO_FIELDS, h.lines)), h.rest)
  }

  /** Does the head of these bytes end with its empty line? */
  predicate HeadEnds(bytes: string) { SplitHead(CutLine(bytes).rest).ended }

  /** How many bytes behind the head the reads can pull into the work buffer: less than one read
      delivers, since the last read completed the empty line; or everything there is, when the
      stream ends inside the head. */
  predicate PossibleCut(bytes: string, cut: nat) {
    match ParseBytes(bytes)
    case Parsed(_, rest) => if HeadEnds(bytes) then cut < READ_LIMIT else cut >= |rest|
    case _ => true
  }

  lemma CookieFieldIsRead(f: Fields, text: string)
    requires text != [] && !HasPair(text, ':', ' ')
    ensures ApplyLine(f, "Cookie" + ": " + text).cookies == f.cookies + CookiesIn(text)
  {
    HeaderRoundTrip("Cookie", text);
    assert Lower("Cookie") == "cookie";
  }

  /** The cookies a client prints into its Cookie header are the ones the request has. */
  lemma CookieLineIsRead(f: Fields, cookies: seq<Cookie>)
    requires Sendable(cookies) && cookies != [] && !HasPair(PrintCookies(cookies), ':', ' ')
    ensures ApplyLine(f, "Cookie" + ": " + PrintCookies(cookies)).cookies == f.cookies + cookies
  {
    CookieRoundTrip(cookies);
    assert CookiesIn([]) == [];
    CookieFieldIsRead(f, PrintCookies(cookies));
  }

  // ----- printed requests

  /** A request as a client means it. */
  datatype Sent = Sent(verb: string, uri: string, version: string, lines: seq<string>, body: string)

  function HeadOf(m: Sent): RequestHead {
    RequestHead(ParseMethod(m.verb), TargetOf(m.uri, false).value, ApplyLines(NO_FIELDS, m.lines))
  }

  function PrintRequest(m: Sent): string {
    m.verb + " " + m.uri + " " + m.version + CRLF + (Joined(m.lines) + CRLF + m.body)
  }

  /** Three words, proper header lines, and a body of the declared length; all of it text, with
      a length that fits an int. */
  ghost predicate WellFormed(m: Sent) {
    && Word(m.verb) && Word(m.uri) && Word(m.version)
    && ProperLines(m.lines)
    && |m.body| == HeadOf(m).fields.contentLength < INT_LIMIT
    && NulFree(PrintRequest(m))
  }

  lemma LinePrinted(line: string, rest: string)
    requires line != [] && !HasPair(line, '\r', '\n')
    ensures CutLine(line + CRLF + rest) == LineRead(Some(line), rest)
  {
    var bytes := line + ['\r', '\n'] + rest;
    FirstPairAfter(line, '\r', '\n', rest);
    assert bytes[..|line|] == line && bytes[|line| + 2..] == rest;
  }

  /** The parser finds the printed request, and stops exactly where its body starts. */
  lemma ParsePrinted(m: Sent)
    requires Word(m.verb) && Word(m.uri) && Word(m.version) && ProperLines(m.lines)
    ensures ParseBytes(PrintRequest(m)) == Parsed(HeadOf(m), m.body) && HeadEnds(PrintRequest(m))
  {
    var line := m.verb + " " + m.uri + " " + m.version;
    ThreeWords(m.verb, m.uri, m.version);
    forall i: nat ensures !PairAt(line, i, '\r', '\n') {
      if i < |line| { WordsHaveNoBreak(m.verb, m.uri, m.version, i); }
    }
    LinePrinted(line, Joined(m.lines) + CRLF + m.body);
    SplitHeadJoined(m.lines, m.body);
  }

  lemma WordsHaveNoBreak(a: string, b: string, c: string, i: nat)
    requires Word(a) && Word(b) && Word(c)
    requires i < |a + " " + b + " " + c|
    ensures (a + " " + b + " " + c)[i] != '\r'
  {
    var line := a + " " + b + " " + c;
    if i < |a| { assert line[i] == a[i]; }
    else if |a| < i <= |a| + |b| { assert line[i] == b[i - |a| - 1]; }
    else if i > |a| + |b| + 1 { assert line[i] == c[i - |a| - |b| - 2]; }
  }

  // ----- the parser

  ghost function FieldsOf(request: Request): Fields
    reads request, request.headers, request.cookies
  {
    Fields(request.headers.pairs, request.cookies.cookies, request.contentLength,
           request.connection, request.userAgent, request.authorization)
  }

  ghost function HeadValue(request: Request): RequestHead
    reads request, request.headers, request.cookies
  {
    RequestHead(request.verb,
                Target(request.domain, request.port, request.ssl, request.resource, request.queryString),
                FieldsOf(request))
  }

  /** hs_parser_set_header. */
  method SetHeader(request: Request, key: string, value: string)
    modifies request, request.cookies
    ensures FieldsOf(request) == SetField(old(FieldsOf(request)), key, value)
    ensures request.userAgent == if key == "user-agent" then Some(value) else old(request.userAgent)
    ensures request.authorization == if key == "authorization" then Some(value) else old(request.authorization)
    ensures request.contentLength ==
            if key == "content-length" then ToSize(Atoi(value)) else old(request.contentLength)
    ensures request.resource == old(request.resource)
  {
    if key == "cookie" {
      var _ := ParseCookieHeader(request.cookies, value);
    } else if key == "content-length" {
      request.contentLength := ToSize(Atoi(value));
    } else if key == "connection" {
      if value == "close" {
        request.connection := CloseConnection;
      } else if "keep-alive" <= value {
        request.connection := KeepAlive;
      }
    } else if key == "user-agent" {
      request.userAgent := Some(value);
    } else if key == "authorization" {
      request.authorization := Some(value);
    }
  }

  /** One round of the header loop. */
  method AddLine(request: Request, line: string)
    modifies request, request.cookies, request.headers
    ensures FieldsOf(request) == ApplyLine(old(FieldsOf(request)), line)
    ensures request.resource == old(request.resource)
  {
    var header := ParseHeader(line);
    if header.Some? {
      var Pair(key, value) := header.value;
      request.headers.Add(key, value);
      if value.Some? {
        SetHeader(request, key, value.value);
      }
    }
  }

  /** The header loop: every line up to the empty one, and not a byte beyond it. */
  method ReadHeaders(socket: Socket, buffer: StringBuffer, request: Request)
    requires socket.isOpen && request.payload.partial == buffer && !request.payload.loaded
    requires |buffer.content| < READ_LIMIT
    modifies socket`unread, buffer, request, request.cookies, request.headers
    ensures var head := SplitHead(old(buffer.content + socket.unread));
            && FieldsOf(request) == ApplyLines(old(FieldsOf(request)), head.lines)
            && buffer.content + socket.unread == head.rest
            && (if head.ended then |buffer.content| < READ_LIMIT else socket.unread == [])
    ensures request.resource == old(request.resource)
  {
    ghost var head := SplitHead(buffer.content + socket.unread);
    ghost var fields := ApplyLines(FieldsOf(request), head.lines);
    var more := true;
    while more
      invariant socket.isOpen && request.resource == old(request.resource)
      invariant more ==>
                  var ahead := SplitHead(buffer.content + socket.unread);
                  && ApplyLines(FieldsOf(request), ahead.lines) == fields && ahead.rest == head.rest
                  && ahead.ended == head.ended && |buffer.content| < READ_LIMIT
      invariant !more ==> if head.ended then |buffer.content| < READ_LIMIT else socket.unread == []
      invariant !more ==> FieldsOf(request) == fields && buffer.content + socket.unread == head.rest
      decreases |buffer.content + socket.unread|, more
    {
      ghost var ahead := SplitHead(buffer.content + socket.unread);
      var line := ReadLine(socket, buffer);
      if line.Some? {
        assert ahead.lines[0] == line.value;
        assert ahead.lines[1..] == SplitHead(buffer.content + socket.unread).lines;
        AddLine(request, line.value);
      } else {
        more := false;
      }
    }
  }

  /** The request of a request line, filled from the header lines. */
  method ReadRequest(socket: Socket, buffer: StringBuffer, words: seq<string>) returns (request: Request)
    requires socket.isOpen && |words| == 3 && |buffer.content| < READ_LIMIT
    modifies socket`unread, buffer
    ensures fresh(request) && fresh(request.payload) && fresh(request.cookies) && fresh(request.headers)
    ensures request.payload.socket == socket && !request.payload.loaded && request.payload.partial == buffer
    ensures var head := SplitHead(old(buffer.content + socket.unread));
            && HeadValue(request) == RequestHead(ParseMethod(words[0]), TargetOf(words[1], false).value,
                                                 ApplyLines(NO_FIELDS, head.lines))
            && buffer.content + socket.unread == head.rest
            && (if head.ended then |buffer.content| < READ_LIMIT else socket.unread == [])
  {
    var target := CreateTarget(words[1], false);
    request := new Request(ParseMethod(words[0]), target.value, socket, buffer);
    assert FieldsOf(request) == NO_FIELDS;
    ReadHeaders(socket, buffer, request);
  }

  /** The outcome of hs_parser_parse_request. */
  datatype Outcome = Nothing | Malformed | Made(request: Request)

  /** hs_parser_parse_request: however the reads cut the stream, the request is the one the
      bytes determine, and work buffer and socket together hold exactly what follows its head. */
  method ParseRequest(socket: Socket) returns (outcome: Outcome)
    modifies socket`unread
    ensures !socket.isOpen ==> outcome == Nothing && socket.unread == old(socket.unread)
    ensures socket.isOpen ==>
              match ParseBytes(old(socket.unread))
              case NoRequest(rest) => outcome == Nothing && Suffix(socket.unread, rest)
              case BadLine(rest) => outcome == Malformed && Suffix(socket.unread, rest)
              case Parsed(head, rest) =>
                && outcome.Made? && fresh(outcome.request)
                && var request := outcome.request;
                && fresh(request.payload) && fresh(request.cookies) && fresh(request.headers)
                && request.payload.socket == socket && !request.payload.loaded
                && request.payload.partial != null && fresh(request.payload.partial)
                && HeadValue(request) == head
                && request.payload.partial.content + socket.unread == rest
                && PossibleCut(old(socket.unread), |request.payload.partial.content|)
  {
    if !socket.isOpen {
      return Nothing;
    }
    var buffer := new StringBuffer();
    ghost var bytes := socket.unread;
    var line := ReadFirstLine(socket, buffer);
    SuffixOf(buffer.content, socket.unread);
    if line.None? {
      return Nothing;
    }
    var words := WordsOf(line.value);
    if |words| != 3 {
      return Malformed;
    }
    var request := ReadRequest(socket, buffer, words);
    outcome := Made(request);
  }

  /** The request line, from an empty work buffer. */
  method ReadFirstLine(socket: Socket, buffer: StringBuffer) returns (line: Option<string>)
    requires socket.isOpen && buffer.content == []
    modifies socket`unread, buffer
    ensures line == CutLine(old(socket.unread)).line
    ensures buffer.content + socket.unread == CutLine(old(socket.unread)).rest
    ensures line.Some? ==> |buffer.content| < READ_LIMIT
  {
    assert [] + socket.unread == socket.unread;
    line := ReadLine(socket, buffer);
  }

  lemma SuffixOf(before: string, s: string)
    ensures Suffix(s, before + s)
  {}

  ghost predicate Suffix(s: string, of: string) {
    |s| <= |of| && s == of[|of| - |s|..]
  }
}
