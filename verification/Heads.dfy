/** What the head of a request means, told from its lines and not by the parser's loop. */
module Heads {
  import opened Text
  import opened KeyedLists
  import opened Io
  import opened Url
  import opened HeaderLine
  import opened CookieHeader
  import opened Message
  import opened RequestParser
  import opened Response

  // ----- methods

  function PrintMethod(verb: HttpMethod): string
    requires verb != UnknownMethod
  {
    match verb
    case Get => "GET"
    case Post => "POST"
    case Put => "PUT"
    case Delete => "DELETE"
    case HeadMethod => "HEAD"
    case Connect => "CONNECT"
    case Options => "OPTIONS"
    case Trace => "TRACE"
    case Patch => "PATCH"
  }

  /** Every method is read back from its name, and any other word is no method. */
  lemma MethodRoundTrip(word: string, verb: HttpMethod)
    requires verb != UnknownMethod
    ensures ParseMethod(word) == verb <==> word == PrintMethod(verb)
  {
    match verb
    case Get => case Post => case Put => case Delete => case HeadMethod =>
    case Connect => case Options => case Trace => case Patch =>
  }

  lemma MethodIsWord(verb: HttpMethod)
    requires verb != UnknownMethod
    ensures Word(PrintMethod(verb))
  {
    match verb
    case Get => case Post => case Put => case Delete => case HeadMethod =>
    case Connect => case Options => case Trace => case Patch =>
  }

  // ----- header lines

  /** The headers among the lines, in order. */
  function HeadersIn(lines: seq<string>): seq<Pair>
    decreases lines
  {
    if lines == [] then []
    else
      HeadersIn(lines[..|lines| - 1]) +
      (match HeaderOf(lines[|lines| - 1]) case None => [] case Some(header) => [header])
  }

  /** The value of the last header with this key that has one. */
  function LastValue(headers: seq<Pair>, key: string): Option<string>
    decreases headers
  {
    if headers == [] then None
    else
      var last := headers[|headers| - 1];
      if last.key == key && last.value.Some? then last.value else LastValue(headers[..|headers| - 1], key)
  }

  /** "close", or anything that begins with "keep-alive", in the last connection header that says
      one of the two. */
  function LastConnection(headers: seq<Pair>): ConnectionType
    decreases headers
  {
    if headers == [] then UnknownConnection
    else
      var last := headers[|headers| - 1];
      if last.key == "connection" && last.value == Some("close") then CloseConnection
      else if last.key == "connection" && last.value.Some? && "keep-alive" <= last.value.value then KeepAlive
      else LastConnection(headers[..|headers| - 1])
  }

  /** The cookies of all cookie headers, in order. */
  function CookiesOf(headers: seq<Pair>): seq<Cookie>
    decreases headers
  {
    if headers == [] then []
    else
      var last := headers[|headers| - 1];
      CookiesOf(headers[..|headers| - 1]) +
      (if last.key == "cookie" && last.value.Some? then CookiesIn(last.value.value) else [])
  }

  function LengthOf(headers: seq<Pair>): nat {
    match LastValue(headers, "content-length") case None => 0 case Some(value) => ToSize(Atoi(value))
  }

  /** The fields say what these headers say. */
  ghost predicate Reads(f: Fields, headers: seq<Pair>) {
    && f.headers == headers
    && f.cookies == CookiesOf(headers)
    && f.contentLength == LengthOf(headers)
    && f.connection == LastConnection(headers)
    && f.userAgent == LastValue(headers, "user-agent")
    && f.authorization == LastValue(headers, "authorization")
  }

  lemma OneMoreHeader(headers: seq<Pair>, header: Pair)
    ensures (headers + [header])[..|headers|] == headers
    ensures (headers + [header])[|headers|] == header
  {}

  lemma HeaderAdded(f: Fields, headers: seq<Pair>, header: Pair)
    requires Reads(f, headers)
    ensures Reads(AddHeader(f, header), headers + [header])
  {
    OneMoreHeader(headers, header);
    assert CookiesOf(headers) + [] == CookiesOf(headers);
  }

  lemma LineApplied(f: Fields, headers: seq<Pair>, line: string)
    requires Reads(f, headers)
    ensures Reads(ApplyLine(f, line), headers + (match HeaderOf(line) case None => [] case Some(header) => [header]))
  {
    match HeaderOf(line)
    case None => assert headers + [] == headers;
    case Some(header) => HeaderAdded(f, headers, header);
  }

  /** The lines of a head set each field by the last header that speaks of it, and leave it at
      its default without one; the cookies of all cookie headers are collected. */
  lemma {:induction false} FieldsAreRead(lines: seq<string>)
    ensures Reads(ApplyLines(NO_FIELDS, lines), HeadersIn(lines))
    decreases lines
  {
    if lines != [] {
      var front, last := lines[..|lines| - 1], lines[|lines| - 1];
      assert lines == front + [last] && [last][1..] == [];
      FieldsAreRead(front);
      ApplyLinesAppend(NO_FIELDS, front, [last]);
      LineApplied(ApplyLines(NO_FIELDS, front), HeadersIn(front), last);
    }
  }

  /** One more printed header, its key in whatever letter case, sets its own field and no other. */
  lemma PrintedHeaderIsRead(lines: seq<string>, key: string, value: string)
    requires key != [] && value != [] && !HasPair(value, ':', ' ')
    ensures var f := ApplyLines(NO_FIELDS, lines);
            var g := ApplyLines(NO_FIELDS, lines + [key + ": " + value]);
            && g.headers == f.headers + [Pair(Lower(key), Some(value))]
            && g.cookies == (if Lower(key) == "cookie" then f.cookies + CookiesIn(value) else f.cookies)
            && g.contentLength == (if Lower(key) == "content-length" then ToSize(Atoi(value)) else f.contentLength)
            && g.userAgent == (if Lower(key) == "user-agent" then Some(value) else f.userAgent)
            && g.authorization == (if Lower(key) == "authorization" then Some(value) else f.authorization)
            && g.connection == (if Lower(key) != "connection" then f.connection
                                else if value == "close" then CloseConnection
                                else if "keep-alive" <= value then KeepAlive else f.connection)
  {
    var line, header := key + ": " + value, Pair(Lower(key), Some(value));
    HeaderRoundTrip(key, value);
    FieldsAreRead(lines);
    FieldsAreRead(lines + [line]);
    assert (lines + [line])[..|lines|] == lines;
    OneMoreHeader(HeadersIn(lines), header);
  }

  /** C's conversion of an int to size_t keeps what is not negative, and wraps what is. */
  lemma ToSizeMeans(n: int)
    requires -0x8000_0000 <= n < 0x8000_0000
    ensures ToSize(n) == if n >= 0 then n else 0x1_0000_0000_0000_0000 + n
  {}

  /** A printed length is read as that length. */
  lemma LengthIsRead(lines: seq<string>, key: string, n: nat)
    requires Lower(key) == "content-length" && n < INT_LIMIT
    ensures ApplyLines(NO_FIELDS, lines + [key + ": " + Decimal(n)]).contentLength == n
  {
    DecimalIsValueText(n);
    assert |key| == |Lower(key)|;
    PrintedHeaderIsRead(lines, key, Decimal(n));
    AtoiDecimal(n);
    ToSizeMeans(n);
  }

  // ----- a whole request

  /** A request as a client writes it. */
  function Written(verb: HttpMethod, path: string, query: Option<string>, version: string,
                   lines: seq<string>, body: string): Sent
    requires verb != UnknownMethod
  {
    Sent(PrintMethod(verb), path + QueryText(query), version, lines, body)
  }

  /** The parser makes of it the method, path and query written, what its header lines say, and
      the position where its body starts. */
  lemma WrittenIsParsed(verb: HttpMethod, path: string, query: Option<string>, version: string,
                        lines: seq<string>, body: string)
    requires verb != UnknownMethod && path != [] && GoodPath(path) && query != Some([])
    requires Word(path + QueryText(query)) && Word(version) && ProperLines(lines)
    ensures var m := Written(verb, path, query, version, lines, body);
            && ParseBytes(PrintRequest(m)) == Parsed(HeadOf(m), body)
            && HeadOf(m).verb == verb
            && HeadOf(m).target == Target([], -1, false, Some(path), query)
            && Reads(HeadOf(m).fields, HeadersIn(lines))
  {
    var m := Written(verb, path, query, version, lines, body);
    MethodIsWord(verb);
    MethodRoundTrip(m.verb, verb);
    OriginForm(path, query);
    FieldsAreRead(lines);
    ParsePrinted(m);
  }
}
