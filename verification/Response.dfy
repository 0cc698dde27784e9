/** Writing a response, and what the repository's own reader makes of the bytes. */
module Response {
  import opened Text
  import opened KeyedLists
  import opened Io
  import opened HeaderLine
  import opened Message
  import opened RequestParser

  /** A file to be sent: its bytes (none if it cannot be read), and the mime type that
      hs_constants_file_extension_to_mime_type finds for its name. */
  datatype ContentFile = ContentFile(bytes: string, typeByName: string)

  /** What a response says. The mime type is the text hs_constants_mime_type_to_string gives
      for it, None for HS_MIME_TYPE_NONE. */
  datatype Reply = Reply(
    code: nat,
    headers: seq<Pair>,
    cookies: seq<Cookie>,
    mimeType: Option<string>,
    content: Option<string>,
    file: Option<ContentFile>)

  const NEW_REPLY := Reply(200, [], [], None, None, None)

  /** A file without a declared type gets the one its name suggests, unless the handler wrote
      the header itself. */
  function Typed(reply: Reply): Reply {
    if Lookup(reply.headers, "Content-Type") == None && reply.mimeType.None? && reply.file.Some?
    then reply.(mimeType := Some(reply.file.value.typeByName)) else reply
  }

  // ----- the bytes, as lines

  function StatusLine(code: nat): string {
    "HTTP/1.1 " + Decimal(code) + " " + Decimal(code)
  }

  function Attribute(name: string, value: Option<string>): string {
    match value case None => "" case Some(v) => name + v
  }

  function SameSiteText(s: SameSite): string {
    match s case SameSiteNone => "None" case SameSiteLax => "Lax" case SameSiteStrict => "Strict"
  }

  function Flag(name: string, on: bool): string { if on then name else "" }

  /** A cookie's name, value, and the attributes that say how long and where it may travel. */
  function CookieStem(c: Cookie): string {
    c.name + "=" + c.value
    + Attribute("; Expires=", c.expires)
    + Attribute("; Max-Age=", if c.maxAge >= 0 then Some(DecimalInt(c.maxAge)) else None)
    + Flag("; Secure", c.secure)
    + Flag("; HttpOnly", c.httpOnly)
  }

  function CookieText(c: Cookie): string {
    CookieStem(c)
    + Attribute("; Domain=", c.domain)
    + Attribute("; Path=", c.path)
    + ("; SameSite=" + SameSiteText(c.sameSite))
  }

  /** The headers that have a value, in order. */
  function Valued(pairs: seq<Pair>): (r: seq<Pair>)
    ensures forall p :: p in r ==> p.value.Some? && p in pairs
  {
    if pairs == [] then []
    else
      var last := pairs[|pairs| - 1];
      Valued(pairs[..|pairs| - 1]) + (if last.value.Some? then [last] else [])
  }

  function CookiePairs(cookies: seq<Cookie>): (r: seq<Pair>)
    ensures forall p :: p in r ==> exists c :: c in cookies && p == Pair("Set-Cookie", Some(CookieText(c)))
  {
    if cookies == [] then []
    else
      var last := cookies[|cookies| - 1];
      CookiePairs(cookies[..|cookies| - 1]) + [Pair("Set-Cookie", Some(CookieText(last)))]
  }

  function ConnectionPair(close: bool): Pair {
    Pair("Connection", Some(if close then "close" else "keep-alive"))
  }

  /** What hs_router_write_common_response_header prints after the status line. */
  function CommonPairs(headers: seq<Pair>, cookies: seq<Cookie>, close: bool): (r: seq<Pair>)
    ensures forall p :: p in r ==> p.value.Some?
  {
    Valued(headers) + CookiePairs(cookies) + [ConnectionPair(close)]
  }

  /** A content string goes before a content file. */
  function ContentOf(reply: Reply): string {
    if reply.content.Some? then reply.content.value
    else if reply.file.Some? then reply.file.value.bytes
    else []
  }

  /** The content as the fields have it: the string; without one, the file; else nothing. */
  ghost predicate IsContent(content: string, reply: Reply) {
    match reply.content
    case Some(text) => content == text
    case None =>
      match reply.file
      case Some(file) => content == file.bytes
      case None => content == []
  }

  /** The content type line is left to the handler's own header, if it has one. */
  function TypePairs(reply: Reply): (r: seq<Pair>)
    ensures forall p :: p in r ==> p.value.Some? && reply.mimeType == p.value
  {
    if Lookup(reply.headers, "Content-Type") == None && reply.mimeType.Some?
    then [Pair("Content-Type", reply.mimeType)] else []
  }

  function PrintedPairs(reply: Reply, close: bool): (r: seq<Pair>)
    ensures forall p :: p in r ==> p.value.Some?
  {
    CommonPairs(reply.headers, reply.cookies, close) + TypePairs(reply)
    + [Pair("Content-Length", Some(Decimal(|ContentOf(reply)|)))]
  }

  function PairLines(pairs: seq<Pair>): (lines: seq<string>)
    requires forall p :: p in pairs ==> p.value.Some?
    ensures |lines| == |pairs|
    ensures forall i :: 0 <= i < |pairs| ==> lines[i] == pairs[i].key + ": " + pairs[i].value.value
  {
    seq(|pairs|, i requires 0 <= i < |pairs| =>
      assert pairs[i] in pairs; pairs[i].key + ": " + pairs[i].value.value)
  }

  function ReplyLines(reply: Reply, close: bool): seq<string> {
    [StatusLine(reply.code)] + PairLines(PrintedPairs(reply, close))
  }

  /** Everything one response puts on the socket. */
  function ReplyBytes(reply: Reply, close: bool): string {
    Joined(ReplyLines(reply, close)) + CRLF + ContentOf(reply)
  }

  // ----- reading it back

  /** Text that survives the trip: C strings; every header, cookie and content type fits on a line and
      its value cannot be confused with the separator. */
  ghost predicate OptionalText(value: Option<string>) { value.Some? ==> ValueText(value.value) }

  ghost predicate CleanCookie(c: Cookie) {
    && ValueText(c.name) && ValueText(c.value)
    && OptionalText(c.expires) && OptionalText(c.domain) && OptionalText(c.path)
  }

  ghost predicate CleanHeader(p: Pair) {
    p.value.Some? ==>
      && p.key != [] && OneLine(p.key)
      && p.value.value != [] && ValueText(p.value.value)
  }

  ghost predicate CleanReply(reply: Reply) {
    && (forall p :: p in reply.headers ==> CleanHeader(p))
    && (forall c :: c in reply.cookies ==> CleanCookie(c))
    && OptionalText(reply.mimeType) && reply.mimeType != Some([])
    && NulFree(ContentOf(reply)) && |ContentOf(reply)| < INT_LIMIT
  }

  predicate Literal(s: string) { forall i :: 0 <= i < |s| ==> IsPlain(s[i]) && s[i] != ':' }

  lemma LiteralText(s: string)
    requires Literal(s)
    ensures ValueText(s)
  {}

  /** Appending ";..." attributes keeps a text clean. */
  lemma AttributeText(s: string, name: string, value: string)
    requires ValueText(s) && ValueText(value)
    requires Literal(name)
    requires name != [] && name[0] != ' '
    ensures ValueText(s + name) && ValueText(s + (name + value))
  {
    LiteralText(name);
    ValueTextJoin(s, name);
    ValueTextJoin(name, value);
    ValueTextJoin(s, name + value);
  }

  lemma OptionalAttribute(s: string, name: string, value: Option<string>)
    requires ValueText(s) && OptionalText(value)
    requires Literal(name)
    requires name != [] && name[0] != ' '
    ensures ValueText(s + Attribute(name, value))
  {
    if value.Some? { AttributeText(s, name, value.value); } else { assert s + "" == s; }
  }

  lemma FlagText(s: string, name: string, on: bool)
    requires ValueText(s)
    requires Literal(name)
    requires name != [] && name[0] != ' '
    ensures ValueText(s + Flag(name, on))
  {
    LiteralText([]);
    AttributeText(s, name, []);
    assert s + "" == s;
  }

  lemma CookieStemIsClean(c: Cookie)
    requires CleanCookie(c)
    ensures ValueText(CookieStem(c)) && CookieStem(c) != []
  {
    AttributeText(c.name, "=", c.value);
    var s1 := c.name + "=" + c.value;
    assert s1 == c.name + ("=" + c.value);
    OptionalAttribute(s1, "; Expires=", c.expires);
    var s2 := s1 + Attribute("; Expires=", c.expires);
    var age := if c.maxAge >= 0 then Some(DecimalInt(c.maxAge)) else None;
    if c.maxAge >= 0 { DecimalIsValueText(c.maxAge); }
    OptionalAttribute(s2, "; Max-Age=", age);
    var s3 := s2 + Attribute("; Max-Age=", age);
    FlagText(s3, "; Secure", c.secure);
    FlagText(s3 + Flag("; Secure", c.secure), "; HttpOnly", c.httpOnly);
  }

  lemma CookieTextIsClean(c: Cookie)
    requires CleanCookie(c)
    ensures ValueText(CookieText(c)) && CookieText(c) != []
  {
    CookieStemIsClean(c);
    var s := CookieStem(c);
    OptionalAttribute(s, "; Domain=", c.domain);
    var s1 := s + Attribute("; Domain=", c.domain);
    OptionalAttribute(s1, "; Path=", c.path);
    LiteralText(SameSiteText(c.sameSite));
    AttributeText(s1 + Attribute("; Path=", c.path), "; SameSite=", SameSiteText(c.sameSite));
  }

  lemma NamedHeaderIsClean(key: string, value: string)
    requires key == "Set-Cookie" || key == "Connection" || key == "Content-Type" || key == "Content-Length"
    requires ValueText(value) && value != []
    ensures CleanHeader(Pair(key, Some(value)))
  {}

  lemma HandlerPairIsClean(reply: Reply, p: Pair)
    requires CleanReply(reply) && (p in Valued(reply.headers) || p in CookiePairs(reply.cookies))
    ensures p.value.Some? && CleanHeader(p)
  {
    if p in CookiePairs(reply.cookies) {
      var c :| c in reply.cookies && p == Pair("Set-Cookie", Some(CookieText(c)));
      CookieTextIsClean(c);
      NamedHeaderIsClean("Set-Cookie", CookieText(c));
    }
  }

  lemma FramingPairIsClean(reply: Reply, close: bool)
    requires CleanReply(reply)
    ensures CleanHeader(ConnectionPair(close))
    ensures CleanHeader(Pair("Content-Length", Some(Decimal(|ContentOf(reply)|))))
    ensures forall p :: p in TypePairs(reply) ==> CleanHeader(p)
  {
    DecimalIsValueText(|ContentOf(reply)|);
    NamedHeaderIsClean("Content-Length", Decimal(|ContentOf(reply)|));
    var announcement := if close then "close" else "keep-alive";
    LiteralText(announcement);
    NamedHeaderIsClean("Connection", announcement);
    if reply.mimeType.Some? { NamedHeaderIsClean("Content-Type", reply.mimeType.value); }
  }

  lemma PrintedPairIsClean(reply: Reply, close: bool, p: Pair)
    requires CleanReply(reply) && p in PrintedPairs(reply, close)
    ensures p.value.Some? && CleanHeader(p)
  {
    FramingPairIsClean(reply, close);
    if p in Valued(reply.headers) || p in CookiePairs(reply.cookies) {
      HandlerPairIsClean(reply, p);
    }
  }

  lemma CleanLineIsProper(p: Pair)
    requires p.value.Some? && CleanHeader(p)
    ensures ProperLine(p.key + ": " + p.value.value)
  {
    OneLineHasNoBreak(p.key + ": " + p.value.value);
  }

  lemma StatusLineIsProper(code: nat)
    ensures ProperLine(StatusLine(code))
  {
    DecimalIsValueText(code);
    OneLineHasNoBreak(StatusLine(code));
  }

  function LowerKeys(pairs: seq<Pair>): (r: seq<Pair>)
    ensures |r| == |pairs|
  {
    seq(|pairs|, i requires 0 <= i < |pairs| => Pair(Lower(pairs[i].key), pairs[i].value))
  }

  lemma ReadFirst(f: Fields, pairs: seq<Pair>)
    requires pairs != [] && (forall p :: p in pairs ==> p.value.Some?) && CleanHeader(pairs[0])
    ensures forall p :: p in pairs[1..] ==> p.value.Some?
    ensures ApplyLines(f, PairLines(pairs)) ==
            ApplyLines(AddHeader(f, Pair(Lower(pairs[0].key), pairs[0].value)), PairLines(pairs[1..]))
  {
    assert pairs[0] in pairs;
    assert PairLines(pairs)[1..] == PairLines(pairs[1..]);
    HeaderRoundTrip(pairs[0].key, pairs[0].value.value);
  }

  lemma AddedLast(f: Fields, header: Pair)
    ensures AddHeader(f, header).headers == f.headers + [header]
  {}

  lemma LowerKeysFirst(pairs: seq<Pair>)
    requires pairs != []
    ensures LowerKeys(pairs) == [Pair(Lower(pairs[0].key), pairs[0].value)] + LowerKeys(pairs[1..])
  {}

  /** Reading printed headers collects them in order, whatever each of them sets. */
  lemma {:induction false} ReadPairs(f: Fields, pairs: seq<Pair>)
    requires forall p :: p in pairs ==> p.value.Some? && CleanHeader(p)
    ensures ApplyLines(f, PairLines(pairs)).headers == f.headers + LowerKeys(pairs)
    decreases pairs
  {
    if pairs != [] {
      assert pairs[0] in pairs;
      var first := Pair(Lower(pairs[0].key), pairs[0].value);
      var g := AddHeader(f, first);
      ReadFirst(f, pairs);
      AddedLast(f, first);
      ReadPairs(g, pairs[1..]);
      LowerKeysFirst(pairs);
      assert f.headers + [first] + LowerKeys(pairs[1..]) == f.headers + ([first] + LowerKeys(pairs[1..]));
    }
  }

  lemma {:induction false} ApplyLinesAppend(f: Fields, a: seq<string>, b: seq<string>)
    ensures ApplyLines(f, a + b) == ApplyLines(ApplyLines(f, a), b)
    decreases a
  {
    if a == [] {
      assert a + b == b;
    } else {
      assert (a + b)[1..] == a[1..] + b;
      ApplyLinesAppend(ApplyLine(f, a[0]), a[1..], b);
    }
  }

  /** Reading one more printed header adds it to what the earlier ones gave. */
  lemma ReadOneMore(f: Fields, pairs: seq<Pair>, p: Pair)
    requires (forall q :: q in pairs ==> q.value.Some?) && p.value.Some? && CleanHeader(p)
    ensures ApplyLines(f, PairLines(pairs + [p])) ==
            AddHeader(ApplyLines(f, PairLines(pairs)), Pair(Lower(p.key), p.value))
  {
    var line := p.key + ": " + p.value.value;
    assert PairLines(pairs + [p]) == PairLines(pairs) + [line];
    ApplyLinesAppend(f, PairLines(pairs), [line]);
    HeaderRoundTrip(p.key, p.value.value);
    assert [line][1..] == [];
  }

  lemma LowerNames()
    ensures Lower("Connection") == "connection" && Lower("Content-Type") == "content-type"
    ensures Lower("Content-Length") == "content-length"
  {}

  lemma TypeDoesNotFrame(f: Fields, common: seq<Pair>, reply: Reply)
    requires CleanReply(reply) && forall q :: q in common ==> q.value.Some?
    ensures ApplyLines(f, PairLines(common + TypePairs(reply))).connection ==
            ApplyLines(f, PairLines(common)).connection
  {
    var types := TypePairs(reply);
    FramingPairIsClean(reply, true);
    if types == [] {
      assert common + types == common;
    } else {
      assert types == [types[0]];
      LowerNames();
      ReadOneMore(f, common, types[0]);
    }
  }

  lemma ConnectionIsRead(f: Fields, user: seq<Pair>, close: bool)
    requires forall q :: q in user ==> q.value.Some?
    requires CleanHeader(ConnectionPair(close))
    ensures ApplyLines(f, PairLines(user + [ConnectionPair(close)])).connection ==
            if close then CloseConnection else KeepAlive
  {
    LowerNames();
    ReadOneMore(f, user, ConnectionPair(close));
  }

  lemma LengthIsRead(f: Fields, before: seq<Pair>, n: nat)
    requires (forall q :: q in before ==> q.value.Some?) && n < INT_LIMIT
    requires CleanHeader(Pair("Content-Length", Some(Decimal(n))))
    ensures var g := ApplyLines(f, PairLines(before + [Pair("Content-Length", Some(Decimal(n)))]));
            g.contentLength == n && g.connection == ApplyLines(f, PairLines(before)).connection
  {
    LowerNames();
    ReadOneMore(f, before, Pair("Content-Length", Some(Decimal(n))));
    AtoiDecimal(n);
  }

  /** The last lines decide how the reader frames the message: the connection announcement
      stands after every header of the handler, and the length is printed last. */
  lemma ReadFraming(reply: Reply, close: bool)
    requires CleanReply(reply)
    ensures var f := ApplyLines(NO_FIELDS, PairLines(PrintedPairs(reply, close)));
            && f.contentLength == |ContentOf(reply)|
            && f.connection == if close then CloseConnection else KeepAlive
  {
    var common := CommonPairs(reply.headers, reply.cookies, close);
    FramingPairIsClean(reply, close);
    ConnectionIsRead(NO_FIELDS, Valued(reply.headers) + CookiePairs(reply.cookies), close);
    TypeDoesNotFrame(NO_FIELDS, common, reply);
    LengthIsRead(NO_FIELDS, common + TypePairs(reply), |ContentOf(reply)|);
  }

  lemma ReplyLinesAreProper(reply: Reply, close: bool)
    requires CleanReply(reply)
    ensures ProperLines(ReplyLines(reply, close))
    ensures forall p :: p in PrintedPairs(reply, close) ==> CleanHeader(p)
  {
    var pairs := PrintedPairs(reply, close);
    var lines := ReplyLines(reply, close);
    forall p | p in pairs ensures CleanHeader(p) { PrintedPairIsClean(reply, close, p); }
    StatusLineIsProper(reply.code);
    forall i | 0 < i < |lines| ensures ProperLine(lines[i]) {
      assert pairs[i - 1] in pairs;
      CleanLineIsProper(pairs[i - 1]);
    }
  }

  lemma LoadWhole(buffered: string, unread: string)
    ensures TextLoad(Body(false, Some(buffered), unread), |buffered + unread|)
            == (Body(true, None, []), Some(buffered + unread))
  {
    var body := Body(false, Some(buffered), unread);
    TextLoadExact(body, |buffered + unread|);
    assert Pending(body)[..|buffered + unread|] == buffered + unread;
    assert Pending(body)[|buffered + unread|..] == [];
    if |buffered + unread| == 0 { assert buffered == []; }
  }

  /** The writer and the reader undo each other (sections 3 and 3.3.2 of RFC 7230): the head
      splits into the printed lines, the headers come back in order with lower-case keys, the
      framing comes back, and loading the body returns exactly the content, however the bytes
      are divided between the work buffer and the socket. */
  lemma ResponseRoundTrip(reply: Reply, close: bool, buffered: string, unread: string)
    requires CleanReply(reply)
    requires buffered + unread == SplitHead(ReplyBytes(reply, close)).rest
    ensures var head := SplitHead(ReplyBytes(reply, close));
            && head == Head(ReplyLines(reply, close), true, ContentOf(reply))
            && IsContent(ContentOf(reply), reply)
            && var f := ApplyLines(NO_FIELDS, head.lines[1..]);
            && f.headers == LowerKeys(PrintedPairs(reply, close))
            && f.contentLength == |ContentOf(reply)|
            && f.connection == (if close then CloseConnection else KeepAlive)
            && TextLoad(Body(false, Some(buffered), unread), f.contentLength)
               == (Body(true, None, []), Some(ContentOf(reply)))
  {
    var lines := ReplyLines(reply, close);
    ReplyLinesAreProper(reply, close);
    SplitHeadJoined(lines, ContentOf(reply));
    var pairs := PrintedPairs(reply, close);
    assert lines[1..] == PairLines(pairs);
    ReadPairs(NO_FIELDS, pairs);
    assert [] + LowerKeys(pairs) == LowerKeys(pairs);
    ReadFraming(reply, close);
    LoadWhole(buffered, unread);
  }

  lemma {:induction false} JoinedIsText(lines: seq<string>)
    requires forall line :: line in lines ==> NulFree(line)
    ensures NulFree(Joined(lines))
  {
    if lines != [] {
      assert lines[0] in lines;
      JoinedIsText(lines[1..]);
    }
  }

  lemma LineIsText(p: Pair)
    requires p.value.Some? && CleanHeader(p)
    ensures NulFree(p.key + ": " + p.value.value)
  {
    assert forall i :: 0 <= i < |p.key| ==> IsPlain(p.key[i]);
    assert forall i :: 0 <= i < |p.value.value| ==> IsPlain(p.value.value[i]);
  }

  lemma PairLinesAreText(pairs: seq<Pair>)
    requires forall p :: p in pairs ==> p.value.Some? && CleanHeader(p)
    ensures forall line :: line in PairLines(pairs) ==> NulFree(line)
  {
    forall i | 0 <= i < |pairs| ensures NulFree(PairLines(pairs)[i]) {
      assert pairs[i] in pairs;
      LineIsText(pairs[i]);
    }
  }

  lemma StatusLineIsText(code: nat)
    ensures NulFree(StatusLine(code))
  {
    DecimalIsValueText(code);
    assert forall i :: 0 <= i < |Decimal(code)| ==> IsPlain(Decimal(code)[i]);
  }

  /** What such a reply puts on the socket is text again: a peer that uses these readers can
      receive it. */
  lemma ReplyIsText(reply: Reply, close: bool)
    requires CleanReply(reply)
    ensures NulFree(ReplyBytes(reply, close))
  {
    ReplyLinesAreProper(reply, close);
    PairLinesAreText(PrintedPairs(reply, close));
    StatusLineIsText(reply.code);
    LinesAreText(StatusLine(reply.code), PairLines(PrintedPairs(reply, close)), ContentOf(reply));
  }

  lemma LinesAreText(status: string, lines: seq<string>, content: string)
    requires NulFree(status) && NulFree(content) && forall line :: line in lines ==> NulFree(line)
    ensures NulFree(Joined([status] + lines) + CRLF + content)
  {
    JoinedIsText([status] + lines);
  }

  // ----- the writer

  lemma {:induction false} JoinedAppend(a: seq<string>, b: seq<string>)
    ensures Joined(a + b) == Joined(a) + Joined(b)
  {
    if a == [] {
      assert a + b == b;
    } else {
      assert (a + b)[1..] == a[1..] + b;
      JoinedAppend(a[1..], b);
      assert Joined(a + b) == a[0] + CRLF + (Joined(a[1..]) + Joined(b));
    }
  }

  lemma HeaderText(start: string, before: string, key: string, value: string)
    ensures start + before + (key + ": ") + value + CRLF == start + (before + (key + ": " + value + CRLF))
  {}

  /** Appends one header line; the buffer then holds the lines of one more pair. */
  method AppendHeader(buffer: StringBuffer, key: string, value: string,
                      ghost start: string, ghost pairs: seq<Pair>)
    requires forall p :: p in pairs ==> p.value.Some?
    requires buffer.content == start + Joined(PairLines(pairs))
    modifies buffer
    ensures buffer.content == start + Joined(PairLines(pairs + [Pair(key, Some(value))]))
  {
    buffer.Append(key);
    buffer.Append(": ");
    buffer.Append(value);
    buffer.Append(CRLF);
    JoinedOneMore(pairs, key, value);
    ghost var before := Joined(PairLines(pairs));
    assert buffer.content == start + before + (key + ": ") + value + CRLF;
    HeaderText(start, before, key, value);
  }

  lemma JoinedOneMore(pairs: seq<Pair>, key: string, value: string)
    requires forall p :: p in pairs ==> p.value.Some?
    ensures Joined(PairLines(pairs + [Pair(key, Some(value))])) ==
            Joined(PairLines(pairs)) + (key + ": " + value + CRLF)
  {
    var line := key + ": " + value;
    assert PairLines(pairs + [Pair(key, Some(value))]) == PairLines(pairs) + [line];
    JoinedAppend(PairLines(pairs), [line]);
    assert Joined([line]) == line + CRLF + Joined([line][1..]);
  }

  /** Appends one optional cookie attribute after the text `sofar`. */
  method AppendAttribute(buffer: StringBuffer, name: string, value: Option<string>,
                         ghost start: string, ghost sofar: string)
    requires buffer.content == start + sofar
    modifies buffer
    ensures buffer.content == start + (sofar + Attribute(name, value))
  {
    if value.Some? {
      buffer.Append(name);
      buffer.Append(value.value);
      assert buffer.content == start + (sofar + (name + value.value));
    } else {
      assert sofar + "" == sofar;
    }
  }

  method AppendFlag(buffer: StringBuffer, name: string, on: bool, ghost start: string, ghost sofar: string)
    requires buffer.content == start + sofar
    modifies buffer
    ensures buffer.content == start + (sofar + Flag(name, on))
  {
    if on {
      buffer.Append(name);
    } else {
      assert sofar + "" == sofar;
    }
  }

  method AppendStem(buffer: StringBuffer, c: Cookie)
    modifies buffer
    ensures buffer.content == old(buffer.content) + CookieStem(c)
  {
    ghost var start, s := buffer.content, c.name + "=" + c.value;
    buffer.Append(c.name);
    buffer.Append("=");
    buffer.Append(c.value);
    assert buffer.content == start + s;
    AppendAttribute(buffer, "; Expires=", c.expires, start, s);
    s := s + Attribute("; Expires=", c.expires);
    var age := if c.maxAge >= 0 then Some(DecimalInt(c.maxAge)) else None;
    AppendAttribute(buffer, "; Max-Age=", age, start, s);
    s := s + Attribute("; Max-Age=", age);
    AppendFlag(buffer, "; Secure", c.secure, start, s);
    s := s + Flag("; Secure", c.secure);
    AppendFlag(buffer, "; HttpOnly", c.httpOnly, start, s);
  }

  /** The text of one cookie, appended attribute by attribute. */
  method AppendCookie(buffer: StringBuffer, c: Cookie)
    modifies buffer
    ensures buffer.content == old(buffer.content) + CookieText(c)
  {
    ghost var start, s := buffer.content, CookieStem(c);
    AppendStem(buffer, c);
    AppendAttribute(buffer, "; Domain=", c.domain, start, s);
    s := s + Attribute("; Domain=", c.domain);
    AppendAttribute(buffer, "; Path=", c.path, start, s);
    s := s + Attribute("; Path=", c.path);
    var site := SameSiteText(c.sameSite);
    AppendAttribute(buffer, "; SameSite=", Some(site), start, s);
  }

  /** One Set-Cookie line. */
  method AppendSetCookie(buffer: StringBuffer, c: Cookie, ghost start: string, ghost pairs: seq<Pair>)
    requires forall p :: p in pairs ==> p.value.Some?
    requires buffer.content == start + Joined(PairLines(pairs))
    modifies buffer
    ensures buffer.content ==
            start + Joined(PairLines(pairs + [Pair("Set-Cookie", Some(CookieText(c)))]))
  {
    ghost var text := CookieText(c);
    buffer.Append("Set-Cookie: ");
    AppendCookie(buffer, c);
    buffer.Append(CRLF);
    JoinedOneMore(pairs, "Set-Cookie", text);
    assert "Set-Cookie: " == "Set-Cookie" + ": ";
    HeaderText(start, Joined(PairLines(pairs)), "Set-Cookie", text);
  }

  lemma ValuedStep(pairs: seq<Pair>, index: nat)
    requires index < |pairs|
    ensures Valued(pairs[..index + 1]) ==
            if pairs[index].value.Some?
            then Valued(pairs[..index]) + [Pair(pairs[index].key, Some(pairs[index].value.value))]
            else Valued(pairs[..index])
  {
    assert pairs[..index + 1][..index] == pairs[..index];
  }

  method AppendHeaders(buffer: StringBuffer, headers: PairArray, ghost start: string)
    requires buffer.content == start
    modifies buffer
    ensures buffer.content == start + Joined(PairLines(Valued(headers.pairs)))
  {
    for index := 0 to |headers.pairs|
      invariant buffer.content == start + Joined(PairLines(Valued(headers.pairs[..index])))
    {
      var Pair(key, value) := headers.pairs[index];
      ValuedStep(headers.pairs, index);
      if value.Some? {
        AppendHeader(buffer, key, value.value, start, Valued(headers.pairs[..index]));
      }
    }
    assert headers.pairs[..|headers.pairs|] == headers.pairs;
  }

  lemma CookiePairsStep(pairs: seq<Pair>, cookies: seq<Cookie>, index: nat)
    requires index < |cookies|
    ensures pairs + CookiePairs(cookies[..index + 1]) ==
            pairs + CookiePairs(cookies[..index]) + [Pair("Set-Cookie", Some(CookieText(cookies[index])))]
  {
    assert cookies[..index + 1][..index] == cookies[..index];
  }

  method AppendCookies(buffer: StringBuffer, cookies: CookieList, ghost start: string, ghost pairs: seq<Pair>)
    requires forall p :: p in pairs ==> p.value.Some?
    requires buffer.content == start + Joined(PairLines(pairs))
    modifies buffer
    ensures buffer.content == start + Joined(PairLines(pairs + CookiePairs(cookies.cookies)))
  {
    assert pairs + CookiePairs([]) == pairs;
    for index := 0 to |cookies.cookies|
      invariant buffer.content == start + Joined(PairLines(pairs + CookiePairs(cookies.cookies[..index])))
    {
      CookiePairsStep(pairs, cookies.cookies, index);
      AppendSetCookie(buffer, cookies.cookies[index], start,
                      pairs + CookiePairs(cookies.cookies[..index]));
    }
    assert cookies.cookies[..|cookies.cookies|] == cookies.cookies;
  }

  /** hs_router_write_common_response_header. */
  method WriteCommonHeader(code: nat, headers: PairArray, cookies: CookieList, close: bool)
    returns (buffer: StringBuffer)
    ensures fresh(buffer)
    ensures buffer.content ==
            StatusLine(code) + CRLF + Joined(PairLines(CommonPairs(headers.pairs, cookies.cookies, close)))
  {
    buffer := new StringBuffer();
    buffer.Append("HTTP/1.1 ");
    buffer.Append(Decimal(code));
    buffer.Append(" ");
    buffer.Append(Decimal(code));
    buffer.Append(CRLF);
    ghost var start := StatusLine(code) + CRLF;
    AppendHeaders(buffer, headers, start);
    AppendCookies(buffer, cookies, start, Valued(headers.pairs));
    AppendHeader(buffer, "Connection", if close then "close" else "keep-alive", start,
                 Valued(headers.pairs) + CookiePairs(cookies.cookies));
  }
}
