/** The socket, the work buffer, and the reading and writing loops over them. */
module Io {
  import opened Text

  /** The size of the fixed read buffer, and what one read may fill of it
      (the byte after the data receives a terminator). */
  const BUFFER_SIZE: nat := 256
  const READ_LIMIT: nat := 255

  function Min(a: nat, b: nat): nat { if a < b then a else b }

  /** A connected socket: the bytes the peer has sent and nobody has read yet, the bytes
      written to the peer, and whether the socket is still open. What the peer sends is text:
    the readers append every chunk as a C string, so a NUL in it would cut it short. */
  class Socket {
    var unread: CText
    var written: string
    var isOpen: bool

    constructor (arriving: CText)
      ensures unread == arriving && written == [] && isOpen
    {
      unread, written, isOpen := arriving, [], true;
    }

    /** One read delivers any non-empty piece of what is there, or nothing at the end of the
        stream. Callers are proved for every way of cutting the stream. */
    method Read(count: nat) returns (chunk: CText)
      modifies this`unread
      ensures old(unread) == chunk + unread
      ensures |chunk| <= Min(count, READ_LIMIT)
      ensures count > 0 && old(unread) != [] ==> chunk != []
    {
      if count == 0 || unread == [] {
        return [];
      }
      var size: nat :| 1 <= size <= Min(count, READ_LIMIT) && size <= |unread|;
      chunk, unread := unread[..size], unread[size..];
    }

    method Write(data: string) returns (size: nat)
      modifies this`written
      ensures written == old(written) + data && size == |data|
    {
      written := written + data;
      size := |data|;
    }

    method Close()
      modifies this`isOpen
      ensures !isOpen
    {
      isOpen := false;
    }

    /** The peer sends more bytes. */
    method Deliver(data: CText)
      modifies this`unread
      ensures unread == old(unread) + data
    {
      unread := unread + data;
    }
  }

  class StringBuffer {
    var content: string

    constructor ()
      ensures content == []
    {
      content := [];
    }

    method Append(text: string)
      modifies this
      ensures content == old(content) + text
    {
      content := content + text;
    }

    method Clear()
      modifies this
      ensures content == []
    {
      content := [];
    }
  }

  // ----- lines, defined on the whole byte string

  /** What reading one line takes off `bytes`: a line ends at the first CRLF; an empty line, or
      a stream that ends before any CRLF, is no line. */
  datatype LineRead = LineRead(line: Option<string>, rest: string)

  function CutLine(bytes: string): LineRead {
    var i := FirstPair(bytes, '\r', '\n');
    if i == |bytes| then LineRead(None, bytes)
    else if i == 0 then LineRead(None, bytes[2..])
    else LineRead(Some(bytes[..i]), bytes[i + 2..])
  }

  /** All lines up to the first empty one; `ended` tells whether that empty line was there. */
  datatype Head = Head(lines: seq<string>, ended: bool, rest: string)

  function SplitHead(bytes: string): (h: Head)
    ensures |h.rest| <= |bytes|
    decreases |bytes|
  {
    var cut := CutLine(bytes);
    match cut.line
    case None => Head([], FirstPair(bytes, '\r', '\n') < |bytes|, cut.rest)
    case Some(line) =>
      var tail := SplitHead(cut.rest);
      tail.(lines := [line] + tail.lines)
  }

  /** The printed form of lines. */
  function Joined(lines: seq<string>): string {
    if lines == [] then [] else lines[0] + CRLF + Joined(lines[1..])
  }

  ghost predicate ProperLine(line: string) {
    line != [] && !HasPair(line, '\r', '\n')
  }

  ghost predicate ProperLines(lines: seq<string>) {
    forall i :: 0 <= i < |lines| ==> ProperLine(lines[i])
  }

  lemma CutLineRebuilds(bytes: string)
    requires CutLine(bytes).line.Some?
    ensures var cut := CutLine(bytes);
            bytes == cut.line.value + CRLF + cut.rest && ProperLine(cut.line.value)
  {
    var i := FirstPair(bytes, '\r', '\n');
    assert bytes[i..i + 2] == CRLF;
    forall j: nat ensures !PairAt(bytes[..i], j, '\r', '\n') {
      assert PairAt(bytes[..i], j, '\r', '\n') ==> PairAt(bytes, j, '\r', '\n');
    }
  }

  lemma ConsLine(line: string, lines: seq<string>)
    ensures Joined([line] + lines) == line + CRLF + Joined(lines)
    ensures ProperLine(line) && ProperLines(lines) ==> ProperLines([line] + lines)
  {
    assert ([line] + lines)[1..] == lines;
  }

  /** Nothing is lost or invented: the lines, the empty line and the rest are the stream. */
  lemma {:induction false} SplitHeadRebuilds(bytes: string)
    ensures var h := SplitHead(bytes);
            && bytes == Joined(h.lines) + ((if h.ended then CRLF else []) + h.rest)
            && ProperLines(h.lines)
            && (!h.ended ==> !HasPair(h.rest, '\r', '\n'))
    decreases |bytes|
  {
    var cut := CutLine(bytes);
    if cut.line.Some? {
      CutLineRebuilds(bytes);
      SplitHeadRebuilds(cut.rest);
      ConsLine(cut.line.value, SplitHead(cut.rest).lines);
    } else if FirstPair(bytes, '\r', '\n') < |bytes| {
      assert bytes[..2] == CRLF;
    }
  }

  /** The split finds exactly the lines that were printed. */
  lemma {:induction false} SplitHeadJoined(lines: seq<string>, rest: string)
    requires ProperLines(lines)
    ensures SplitHead(Joined(lines) + CRLF + rest) == Head(lines, true, rest)
  {
    var bytes := Joined(lines) + CRLF + rest;
    if lines == [] {
      assert bytes == [] + ['\r', '\n'] + rest;
      FirstPairAfter([], '\r', '\n', rest);
      assert bytes[2..] == rest;
    } else {
      var tail := Joined(lines[1..]) + CRLF + rest;
      assert bytes == lines[0] + ['\r', '\n'] + tail;
      assert ProperLine(lines[0]);
      FirstPairAfter(lines[0], '\r', '\n', tail);
      assert bytes[..|lines[0]|] == lines[0] && bytes[|lines[0]| + 2..] == tail;
      assert ProperLines(lines[1..]);
      SplitHeadJoined(lines[1..], rest);
    }
  }

  // ----- the readers

  /** _hs_io_read_line_from_buffer: scan the whole buffer for a CRLF; take the line and keep
      what follows it. */
  method ReadLineFromBuffer(buffer: StringBuffer) returns (line: Option<string>, eof: bool)
    modifies buffer
    ensures var i := FirstPair(old(buffer.content), '\r', '\n');
            var cut := CutLine(old(buffer.content));
            && line == cut.line
            && buffer.content == cut.rest
            && eof == (i == 0 && old(buffer.content) != [])
            && (line == None && !eof ==> i == |old(buffer.content)|)
  {
    line, eof := None, false;
    var content := buffer.content;
    var length := |content|;
    if length < 2 {
      return;
    }
    var index := 0;
    while index < length - 1
      invariant 0 <= index <= length - 1
      invariant line == None && !eof && buffer.content == content
      invariant forall j: nat :: j < index ==> !PairAt(content, j, '\r', '\n')
    {
      if content[index] == '\r' && content[index + 1] == '\n' {
        FirstPairIs(content, '\r', '\n', index);
        if index > 0 {
          line := Some(content[..index]);
        } else {
          eof := true;
        }
        buffer.Clear();
        buffer.Append(content[index + 2..]);
        return;
      }
      index := index + 1;
    }
    assert FirstPair(content, '\r', '\n') == length;
  }

  /** Extending bytes that hold a complete line does not change that line. */
  lemma CutLineStable(bytes: string, more: string)
    requires FirstPair(bytes, '\r', '\n') < |bytes|
    ensures FirstPair(bytes + more, '\r', '\n') == FirstPair(bytes, '\r', '\n')
    ensures CutLine(bytes + more) == LineRead(CutLine(bytes).line, CutLine(bytes).rest + more)
  {
    var i := FirstPair(bytes, '\r', '\n');
    forall j: nat | j < i ensures !PairAt(bytes + more, j, '\r', '\n') {
      assert !PairAt(bytes, j, '\r', '\n');
    }
    assert PairAt(bytes + more, i, '\r', '\n');
    FirstPairIs(bytes + more, '\r', '\n', i);
    assert (bytes + more)[..i] == bytes[..i];
    assert (bytes + more)[i + 2..] == bytes[i + 2..] + more;
  }

  /** A line break that new bytes complete cannot start before the last old byte. */
  lemma BreakIsLate(bytes: string, more: string)
    requires FirstPair(bytes, '\r', '\n') == |bytes|
    ensures FirstPair(bytes + more, '\r', '\n') + 1 >= |bytes|
  {
    var i := FirstPair(bytes + more, '\r', '\n');
    assert i + 1 < |bytes| ==> PairAt(bytes, i, '\r', '\n');
  }

  /** Take a line from the buffer, seen from the stream that buffer and socket make up. */
  method TakeLine(socket: Socket, buffer: StringBuffer) returns (line: Option<string>, eof: bool)
    modifies buffer
    ensures var stream := old(buffer.content) + socket.unread;
            if eof || line.Some? then
              && line == CutLine(stream).line && buffer.content + socket.unread == CutLine(stream).rest
              && FirstPair(stream, '\r', '\n') < |stream|
              && |buffer.content| + FirstPair(old(buffer.content), '\r', '\n') + 2 == |old(buffer.content)|
            else
              buffer.content == old(buffer.content)
              && FirstPair(buffer.content, '\r', '\n') == |buffer.content|
  {
    ghost var before := buffer.content;
    line, eof := ReadLineFromBuffer(buffer);
    if eof || line.Some? {
      CutLineStable(before, socket.unread);
    }
  }

  /** hs_io_read_line. Whatever the buffer already holds and however the reads cut the stream,
      the outcome is the one defined on buffer and stream taken together. Reading stops with the
      chunk that completes the line, so fewer bytes than one read delivers stay in the buffer;
      without a line the whole stream ends up there. */
  method ReadLine(socket: Socket, buffer: StringBuffer) returns (line: Option<string>)
    modifies socket`unread, buffer
    ensures !socket.isOpen ==> line == None && unchanged(socket) && unchanged(buffer)
    ensures socket.isOpen ==>
              var cut := CutLine(old(buffer.content) + old(socket.unread));
              && line == cut.line
              && buffer.content + socket.unread == cut.rest
    ensures socket.isOpen ==>
              var stream := old(buffer.content) + old(socket.unread);
              if FirstPair(stream, '\r', '\n') < |stream|
              then |old(buffer.content)| < READ_LIMIT ==> |buffer.content| < READ_LIMIT
              else socket.unread == []
  {
    if !socket.isOpen {
      return None;
    }
    ghost var stream := buffer.content + socket.unread;
    var eof;
    line, eof := TakeLine(socket, buffer);
    if eof || line.Some? {
      return;
    }
    var more := true;
    while more
      invariant line == None
      invariant buffer.content + socket.unread == stream
      invariant FirstPair(buffer.content, '\r', '\n') == |buffer.content|
      invariant !more ==> socket.unread == []
      decreases |socket.unread|, more
    {
      var chunk := socket.Read(BUFFER_SIZE);
      more := chunk != [];
      if more {
        Regroup(buffer.content, chunk, socket.unread);
        BreakIsLate(buffer.content, chunk);
        buffer.Append(chunk);
        line, eof := TakeLine(socket, buffer);
        if eof || line.Some? {
          return;
        }
      }
    }
    assert buffer.content == stream;
  }

  /** hs_io_read_fully: exactly `length` bytes, or all there are. */
  method ReadFully(socket: Socket, buffer: StringBuffer, length: nat) returns (done: bool)
    modifies socket`unread, buffer
    ensures !socket.isOpen ==> !done && unchanged(socket) && unchanged(buffer)
    ensures socket.isOpen ==>
            var n := Min(length, |old(socket.unread)|);
            && buffer.content == old(buffer.content) + old(socket.unread)[..n]
            && socket.unread == old(socket.unread)[n..]
            && done == (length <= |old(socket.unread)|)
  {
    if !socket.isOpen {
      return false;
    }
    if length == 0 {
      assert old(socket.unread)[..0] == [];
      return true;
    }
    ghost var stream, start := socket.unread, buffer.content;
    ghost var taken := 0;
    assert stream[..0] == [];
    var left := length;
    var more := true;
    while more && left > 0
      invariant 0 <= left && taken + left == length && taken <= |stream|
      invariant buffer.content == start + stream[..taken]
      invariant socket.unread == stream[taken..]
      invariant !more ==> socket.unread == []
      decreases left, more
    {
      var chunk := socket.Read(if left < BUFFER_SIZE then left else BUFFER_SIZE);
      more := |chunk| > 0;
      if more {
        left := left - |chunk|;
        assert stream[..taken + |chunk|] == stream[..taken] + chunk;
        taken := taken + |chunk|;
        buffer.Append(chunk);
      }
    }
    assert !more ==> taken == |stream|;
    done := left == 0;
  }

  /** A file being written, on a disk with room for so many bytes of it: the write that no
      longer fits falls short. */
  class OutFile {
    var content: string
    const room: nat

    constructor (room: nat)
      ensures content == [] && this.room == room
    {
      content, this.room := [], room;
    }

    method Write(data: string) returns (written: nat)
      requires |content| <= room
      modifies this
      ensures written == Min(|data|, room - |old(content)|)
      ensures content == old(content) + data[..written]
    {
      written := Min(|data|, room - |content|);
      content := content + data[..written];
    }
  }

  /** `s` is what is left of `of` after some `k` bytes, `low` <= k <= `high`, were taken. */
  ghost predicate TakenOff(s: string, of: string, low: int, high: nat) {
    |s| <= |of| && low <= |of| - |s| <= high && s == of[|of| - |s|..]
  }

  /** What copying `length` bytes of a stream into a file with so much room comes to. */
  ghost predicate Copied(unread: string, content: string, room: nat, length: nat,
                         newUnread: string, newContent: string, done: bool)
    requires |content| <= room
  {
    var n, free := Min(length, |unread|), room - |content|;
    if n <= free then
      newContent == content + unread[..n] && newUnread == unread[n..] && done == (length <= |unread|)
    else
      !done && newContent == content + unread[..free] && TakenOff(newUnread, unread, free + 1, n)
  }

  lemma CopyFallsShort(unread: string, content: string, room: nat, length: nat, taken: nat, size: nat)
    requires |content| + taken <= room < |content| + taken + size && taken + size <= Min(length, |unread|)
    ensures var written := room - |content| - taken;
            Copied(unread, content, room, length, unread[taken + size..],
                   content + unread[..taken] + unread[taken..taken + size][..written], false)
  {
    var written := room - |content| - taken;
    assert unread[..taken + written] == unread[..taken] + unread[taken..taken + size][..written];
  }

  lemma CopyEnds(unread: string, content: string, room: nat, length: nat, taken: nat)
    requires |content| + taken <= room && taken == Min(length, |unread|)
    ensures Copied(unread, content, room, length, unread[taken..], content + unread[..taken], length <= |unread|)
  {}

  /** hs_io_read_and_write_to_file. With room for the bytes, the file gains exactly the next
      `length` of the stream, or all there are. Without, it is filled up and the call fails; the
      bytes of the write that fell short are gone from the socket. */
  method ReadAndWriteToFile(socket: Socket, file: OutFile, length: nat) returns (done: bool)
    requires |file.content| <= file.room
    modifies socket`unread, file
    ensures !socket.isOpen ==> !done && unchanged(socket) && unchanged(file)
    ensures socket.isOpen ==>
              Copied(old(socket.unread), old(file.content), file.room, length,
                     socket.unread, file.content, done)
  {
    if !socket.isOpen {
      return false;
    }
    if length == 0 {
      assert old(socket.unread)[..0] == [];
      return true;
    }
    ghost var stream, start := socket.unread, file.content;
    ghost var taken := 0;
    assert stream[..0] == [];
    var left := length;
    var more := true;
    while more && left > 0
      invariant 0 <= left && taken + left == length && taken <= |stream|
      invariant |start| + taken <= file.room
      invariant file.content == start + stream[..taken]
      invariant socket.unread == stream[taken..]
      invariant !more ==> socket.unread == []
      decreases left, more
    {
      var chunk := socket.Read(if left < BUFFER_SIZE then left else BUFFER_SIZE);
      more := |chunk| > 0;
      if more {
        left := left - |chunk|;
        assert stream[..taken + |chunk|] == stream[..taken] + chunk;
        assert stream[taken + |chunk|..] == socket.unread;
        assert chunk == stream[taken..taken + |chunk|];
        var written := file.Write(chunk);
        if written < |chunk| {
          CopyFallsShort(stream, start, file.room, length, taken, |chunk|);
          return false;
        }
        taken := taken + |chunk|;
      }
    }
    CopyEnds(stream, start, file.room, length, taken);
    done := left == 0;
  }

  /** hs_io_write_string_to_socket, on a socket that takes everything it is given. */
  method WriteString(socket: Socket, content: string) returns (done: bool)
    modifies socket`written
    ensures done == socket.isOpen
    ensures socket.written == old(socket.written) + (if socket.isOpen then content else [])
  {
    if !socket.isOpen {
      assert socket.written + [] == socket.written;
      return false;
    }
    if content == [] {
      return true;
    }
    var size := socket.Write(content);
    done := size == |content|;
  }

  /** hs_io_write_file_to_socket, for a file that can be read: all its bytes are written, one
      buffer at a time. The result tells whether the last read fell short of the buffer, which
      is how the program notices the end of the file. */
  method WriteFile(socket: Socket, bytes: string) returns (done: bool)
    modifies socket`written
    ensures socket.written == old(socket.written) + (if socket.isOpen then bytes else [])
    ensures done == (socket.isOpen && |bytes| % READ_LIMIT != 0)
  {
    if !socket.isOpen {
      assert socket.written + [] == socket.written;
      return false;
    }
    ghost var start := socket.written;
    var position, atEnd := 0, false;
    done := true;
    while done && !atEnd
      invariant 0 <= position <= |bytes| && done
      invariant atEnd ==> position == |bytes| && |bytes| % READ_LIMIT != 0
      invariant !atEnd ==> position % READ_LIMIT == 0
      invariant socket.written == start + bytes[..position]
      decreases |bytes| - position, !atEnd
    {
      var read := Min(READ_LIMIT, |bytes| - position);
      atEnd := read < READ_LIMIT;
      if read == 0 {
        return false;
      }
      var chunk := bytes[position..position + read];
      assert bytes[..position + read] == bytes[..position] + chunk;
      done := WriteString(socket, chunk);
      position := position + read;
    }
    assert bytes[..|bytes|] == bytes;
  }
}
