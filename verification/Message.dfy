/** A parsed request, and its body: part of it may already sit in the parser's work buffer,
    the rest is still on the socket. */
module Message {
  import opened Text
  import opened KeyedLists
  import opened Io
  import opened Url

  datatype HttpMethod =
    | UnknownMethod | Get | Post | Put | Delete | HeadMethod | Connect | Options | Trace | Patch

  datatype ConnectionType = UnknownConnection | CloseConnection | KeepAlive

  // ----- the body, as a value

  /** The body of one request: loaded or not, the bytes in the work buffer (until a load
      consumes it), and the bytes still on the socket. */
  datatype Body = Body(loaded: bool, partial: Option<string>, unread: string)

  function Held(body: Body): string {
    match body.partial case None => [] case Some(text) => text
  }

  /** All bytes that have arrived after the head. */
  function Pending(body: Body): string { Held(body) + body.unread }

  /** What a closed socket leaves of a body: the bytes already in the work buffer. */
  function CutOff(body: Body): Body { body.(unread := []) }

  /** The outcome of loading the body into memory. */
  function TextLoad(body: Body, length: nat): (r: (Body, Option<string>)) {
    if body.loaded then (body, None)
    else
      var held := Held(body);
      if |held| >= length then
        (Body(true, None, body.unread), Some(if 0 < length then held[..length] else held))
      else
        var n := Min(length - |held|, |body.unread|);
        (Body(true, None, body.unread[n..]), Some(held + body.unread[..n]))
  }

  /** The outcome of loading the body into a file: whether it worked, and the file left behind. */
  datatype FileResult = FileResult(done: bool, file: Option<string>)

  function FileLoad(body: Body, length: nat): (r: (Body, FileResult)) {
    if body.loaded then (body, FileResult(false, None))
    else if length == 0 then (body.(loaded := true), FileResult(true, None))
    else
      var held := Held(body);
      var partial := if held == [] then body.partial else None;
      if |held| >= length then
        (Body(true, partial, body.unread), FileResult(true, Some(held[..length])))
      else
        var n := Min(length - |held|, |body.unread|);
        (Body(true, partial, body.unread[n..]),
         if |held| + n == length then FileResult(true, Some(held + body.unread[..n]))
         else FileResult(false, None))
  }

  function Max(a: nat, b: nat): nat { if a < b then b else a }

  /** Loading yields the first `length` bytes that arrived after the head (fewer if the stream
      ends first), exactly unless the length is 0 and the buffer holds something. Nothing past
      the buffer and the body is consumed, and a second load of either kind yields nothing. */
  lemma TextLoadExact(body: Body, length: nat)
    requires !body.loaded
    ensures var (after, text) := TextLoad(body, length);
            var stop := Min(length, |Pending(body)|);
            && (text == Some(Pending(body)[..stop]) <==> length > 0 || Held(body) == [])
            && after == Body(true, None, Pending(body)[Max(|Held(body)|, stop)..])
            && TextLoad(after, length) == (after, None)
            && FileLoad(after, length) == (after, FileResult(false, None))
  {
    var held, pending := Held(body), Pending(body);
    assert pending[|held|..] == body.unread;
    if |held| < length {
      var n := Min(length - |held|, |body.unread|);
      assert pending[..|held| + n] == held + body.unread[..n];
      assert pending[|held| + n..] == body.unread[n..];
    } else {
      assert pending[..length] == held[..length];
      if length == 0 && held != [] { assert |held| != |pending[..0]|; }
    }
  }

  /** A file load works exactly when the whole body arrives; it then leaves the same bytes in
      the file as a text load returns, and consumes the same bytes of the socket. */
  lemma FileLoadAgrees(body: Body, length: nat)
    requires !body.loaded && length > 0
    ensures var (afterFile, result) := FileLoad(body, length);
            var (afterText, text) := TextLoad(body, length);
            && afterFile.loaded && afterFile.unread == afterText.unread
            && (result.done <==> length <= |Pending(body)|)
            && (result.done ==> result.file == text == Some(Pending(body)[..length]))
            && (!result.done ==> result.file == None)
            && FileLoad(afterFile, length) == (afterFile, FileResult(false, None))
            && TextLoad(afterFile, length) == (afterFile, None)
  {
    TextLoadExact(body, length);
  }

  /** A file load, told by how much comes from the work buffer and how much from the socket. */
  lemma FileLoadStreams(body: Body, length: nat, k: nat, n: nat)
    requires !body.loaded && length > 0
    requires k == Min(|Held(body)|, length) && n == Min(length - k, |body.unread|)
    ensures FileLoad(body, length) ==
            (Body(true, if Held(body) == [] then body.partial else None, body.unread[n..]),
             if k + n == length then FileResult(true, Some(Held(body)[..k] + body.unread[..n]))
             else FileResult(false, None))
  {
    var held := Held(body);
    if |held| >= length {
      assert n == 0 && held[..length] + body.unread[..0] == held[..length] && body.unread[0..] == body.unread;
    } else {
      assert held[..k] == held;
    }
  }

  /** The body as a file load that goes wrong leaves it: marked loaded, with whatever the work
      buffer held gone. */
  function LoadedBadly(before: Body, unread: string): Body {
    Body(true, if Held(before) == [] then before.partial else None, unread)
  }

  /** What a file load comes to. `disk` is the room for the file, None when it cannot be opened.
      When the file cannot be opened or written, or the socket is closed, the load fails, and
      the body counts as loaded although bytes of it may still be on the socket. */
  ghost predicate FileLoaded(before: Body, length: nat, isOpen: bool, disk: Option<nat>,
                             after: Body, result: FileResult)
  {
    if before.loaded || length == 0 || (isOpen && disk.Some? && Min(length, |Pending(before)|) <= disk.value)
    then (after, result) == FileLoad(before, length)
    else
      && result == FileResult(false, None)
      && after == (if disk == None then before.(loaded := true) else LoadedBadly(before, after.unread))
      && TakenOff(after.unread, before.unread, 0, if isOpen then length - Min(|Held(before)|, length) else 0)
  }

  /** The work buffer's part first and then the stream's: that is the file load. */
  lemma CopyIsLoad(before: Body, length: nat, room: nat, k: nat, unread: string, content: string, done: bool)
    requires !before.loaded && length > 0 && k == Min(|Held(before)|, length) <= room
    requires Copied(before.unread, Held(before)[..k], room, length - k, unread, content, done)
    ensures FileLoaded(before, length, true, Some(room), LoadedBadly(before, unread),
                       FileResult(done, if done then Some(content) else None))
  {
    FileLoadStreams(before, length, k, Min(length - k, |before.unread|));
  }

  lemma ClosedIsNoLoad(before: Body, length: nat, disk: Option<nat>)
    requires !before.loaded && length > 0
    requires disk.Some?
    ensures FileLoaded(before, length, false, disk, LoadedBadly(before, before.unread), FileResult(false, None))
  {
    assert before.unread[0..] == before.unread;
  }

  lemma BadFileIsNoLoad(before: Body, length: nat, isOpen: bool, disk: Option<nat>)
    requires !before.loaded && length > 0
    requires disk.Some? ==> disk.value < Min(|Held(before)|, length)
    ensures FileLoaded(before, length, isOpen, disk,
                       if disk == None then before.(loaded := true) else LoadedBadly(before, before.unread),
                       FileResult(false, None))
  {
    assert before.unread[0..] == before.unread;
  }

  // ----- the objects

  /** struct HSHttpRequestPayload with the HSIOHttpRequestPayload it owns. */
  class Payload {
    var loaded: bool
    var partial: StringBuffer?
    const socket: Socket

    constructor (socket: Socket, partial: StringBuffer)
      ensures !loaded && this.partial == partial && this.socket == socket
    {
      this.loaded, this.partial, this.socket := false, partial, socket;
    }

    ghost function Value(): Body
      reads this, partial, socket
    {
      Body(loaded, if partial == null then None else Some(partial.content), socket.unread)
    }
  }

  /** struct HSHttpRequest. */
  class Request {
    const verb: HttpMethod
    const domain: string
    const port: int
    const ssl: bool
    const queryString: Option<string>
    const cookies: CookieList
    const headers: PairArray
    const payload: Payload
    var resource: Option<string>
    var contentLength: nat
    var connection: ConnectionType
    var userAgent: Option<string>
    var authorization: Option<string>

    /** hs_types_http_request_new, filled from the request line. */
    constructor (verb: HttpMethod, target: Target, socket: Socket, buffer: StringBuffer)
      ensures this.verb == verb && domain == target.domain && port == target.port
      ensures ssl == target.ssl && queryString == target.query && resource == target.resource
      ensures contentLength == 0 && connection == UnknownConnection
      ensures userAgent == None && authorization == None
      ensures fresh(cookies) && cookies.cookies == [] && fresh(headers) && headers.pairs == []
      ensures fresh(payload) && payload.socket == socket
      ensures !payload.loaded && payload.partial == buffer
    {
      this.verb, domain, port, ssl := verb, target.domain, target.port, target.ssl;
      queryString, resource := target.query, target.resource;
      contentLength, connection := 0, UnknownConnection;
      userAgent, authorization := None, None;
      cookies := new CookieList();
      headers := new PairArray();
      payload := new Payload(socket, buffer);
    }

    /** hs_types_http_request_payload_to_string. On a closed socket it hands over what the work
        buffer holds. */
    method PayloadToString() returns (text: Option<string>)
      modifies payload, payload.partial, payload.socket`unread
      ensures payload.socket.isOpen ==>
                (payload.Value(), text) == TextLoad(old(payload.Value()), contentLength)
      ensures !payload.socket.isOpen ==>
                var (after, held) := TextLoad(CutOff(old(payload.Value())), contentLength);
                payload.Value() == after.(unread := old(payload.socket.unread)) && text == held
      ensures payload.partial == null || payload.partial == old(payload.partial)
    {
      if payload.loaded {
        return None;
      }
      payload.loaded := true;
      var buffer := payload.partial;
      var length := contentLength;
      var trim := 0;
      if buffer == null {
        buffer := new StringBuffer();
      } else {
        var current := |buffer.content|;
        if current > length {
          trim := length;
          length := 0;
        } else if current == length {
          length := 0;
        } else {
          length := length - current;
        }
      }
      ghost var held := buffer.content;
      if length > 0 {
        var _ := ReadFully(payload.socket, buffer, length);
      }
      var content := buffer.content;
      if trim > 0 {
        content := content[..trim];
      }
      payload.partial := null;
      assert |held| == contentLength ==> held == held[..contentLength];
      assert held + [] == held;
      text := Some(content);
    }

    /** The work buffer goes into the file first. */
    method BufferToFile(fp: OutFile) returns (done: bool, left: nat)
      requires fp.content == [] && contentLength > 0
      modifies payload`partial, fp
      ensures |fp.content| <= fp.room
      ensures var held := Held(old(payload.Value()));
              var k := Min(|held|, contentLength);
              && done == (k <= fp.room) && left == contentLength - k
              && payload.partial == (if held == [] then old(payload.partial) else null)
              && (done ==> fp.content == held[..k])
    {
      done, left := true, contentLength;
      if payload.partial != null {
        var text := payload.partial.content;
        var current := |text|;
        var trim := 0;
        if current > left {
          trim := left;
          left := 0;
        } else if current == left {
          left := 0;
        } else {
          left := left - current;
        }
        if current > 0 {
          if trim > 0 {
            text := text[..trim];
          }
          payload.partial := null;
          var written := fp.Write(text);
          done := written == |text|;
          assert done ==> text[..written] == text;
        }
      }
    }

    /** The rest comes from the socket. */
    method StreamToFile(fp: OutFile, left: nat, ghost before: Body) returns (done: bool, file: Option<string>)
      requires !before.loaded && contentLength > 0 && payload.Value() == LoadedBadly(before, before.unread)
      requires var k := Min(|Held(before)|, contentLength);
               left == contentLength - k && fp.content == Held(before)[..k] && k <= fp.room
      modifies payload.socket`unread, fp
      ensures FileLoaded(before, contentLength, payload.socket.isOpen, Some(fp.room),
                         payload.Value(), FileResult(done, file))
    {
      done := ReadAndWriteToFile(payload.socket, fp, left);
      if payload.socket.isOpen {
        CopyIsLoad(before, contentLength, fp.room, contentLength - left, payload.socket.unread, fp.content, done);
      } else {
        ClosedIsNoLoad(before, contentLength, Some(fp.room));
      }
      file := if done then Some(fp.content) else None;
    }

    /** hs_types_http_request_payload_to_file. `file` is what the file holds afterwards, None
        when there is no such file. */
    method PayloadToFile(disk: Option<nat>) returns (done: bool, file: Option<string>)
      modifies payload, payload.socket`unread
      ensures payload.partial == null || payload.partial == old(payload.partial)
      ensures FileLoaded(old(payload.Value()), contentLength, payload.socket.isOpen, disk,
                         payload.Value(), FileResult(done, file))
    {
      ghost var before := payload.Value();
      if payload.loaded {
        return false, None;
      }
      payload.loaded := true;
      if contentLength == 0 {
        return true, None;
      }
      if disk.None? {
        BadFileIsNoLoad(before, contentLength, payload.socket.isOpen, None);
        return false, None;
      }
      var fp := new OutFile(disk.value);
      var left;
      done, left := BufferToFile(fp);
      if !done {
        BadFileIsNoLoad(before, contentLength, payload.socket.isOpen, disk);
        return false, None;
      }
      done, file := StreamToFile(fp, left, before);
    }
  }
}
