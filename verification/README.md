# A verified model of c_hs

c_hs is an embeddable HTTP/1.1 server written in C. This project models the part of it that
decides what happens on a connection, and proves that part correct with Dafny 4.11: cutting lines
and bodies out of a socket that delivers arbitrary chunks, the hand-written parsers, the router
tree with its in-place prefix stripping, the response writer, the keep-alive loop, the
max-requests and session routes, and the small containers they use.

`dafny verify dfyconfig.toml` checks everything.

## How it is built

There are two layers. The state of a request, of an exchange (`Routes.Flow`) and of a connection
(`Connection.Conn`) are values, and what the program does to them are functions; the theorems are
about these. Beside them stand the program's own objects (socket, work buffer, payload, request,
response, flow state, connection state, callback array, pair array, cookie list), updated in place
by methods with the loops and early returns of the C code; each of these methods is proved to
compute exactly its function, from the old state to the new one.

| file | what it holds | C file |
|---|---|---|
| `Text.dfy` | searching, letter case, decimal numerals | (string helpers) |
| `Io.dfy` | socket, work buffer, line reader, exact reads | `src/hs_io.c` |
| `HeaderLine.dfy`, `CookieHeader.dfy`, `QueryString.dfy`, `Url.dfy` | the character automata | `src/hs_parser.c` |
| `Message.dfy`, `RequestParser.dfy`, `Heads.dfy` | request, body, `hs_parser_parse_request`, and what the head's lines mean | `src/hs_types.c`, `src/hs_parser.c` |
| `Response.dfy`, `SetCookie.dfy` | the response writer and its round trip; the text of a cookie | `src/hs_router.c` |
| `KeyedLists.dfy`, `Callbacks.dfy` | pair array, cookie list, callback array | `src/hs_types_array.c`, `src/hs_types_cookie.c`, `src/hs_types.c` |
| `Sessions.dfy`, `Routes.dfy` | routes, routers, and dispatch as functions | `src/hs_route.c`, `src/hs_router.c`, `src/hs_routes_session.c`, `src/hs_routes_ratelimit.c` |
| `FlatRouting.dfy`, `Serving.dfy`, `Calls.dfy` | nested routing is flat routing; one response per request; what handlers get and what becomes of their answers | `src/hs_router.c` |
| `Connection.dfy`, `Limits.dfy`, `SessionHistory.dfy`, `SessionRuns.dfy` | whole runs: framing, closing, stopping, the exact rate bound, sessions | `src/hs_router.c`, `src/hs_routes_session.c` |
| `Chunking.dfy` | how the reads cut the stream cannot be observed | `src/hs_router.c`, `src/hs_types.c` |
| `Dispatcher.dfy`, `ServeLoop.dfy` | the router's and the loop's own code over objects | `src/hs_router.c` |
| `Replies.dfy` | everything a run writes, and reading it back | `src/hs_router.c` |
| `HandlerViews.dfy` | from the bytes written to what handlers see, and back | `src/hs_parser.c`, `src/hs_router.c` |
| `Pipelining.dfy` | clients that send ahead | `src/hs_router.c`, `src/hs_parser.c` |
| `WholeRun.dfy` | the loop's own code against a client: all run theorems together | `src/hs_router.c` |

The functions that say what the program does are tied to a second account of the same thing that
does not use it: dispatch to a flat scan and to the record of its calls (`Calls.TrueToRoute`), the
head to the last header of each kind (`Heads.Reads`), a response to its fields as the reader finds
them (`Replies.Tells`), a cookie's text to its pieces (`SetCookie.AttributesOf`).

Reading notes:

- An application handler is a pair of functions: from what it can see it first decides whether to
  load the body, and then, given what the load returned, it answers or passes. It may change the
  response, the request's connection type and the route data, and register callbacks; it cannot
  touch the resource, the router state or the socket. Theorems hold for all such handlers.
- Every theorem about a run is about an arbitrary sequence of rounds. A round says which bytes
  arrive before the request is read and how many bytes beyond its head the reads pulled into the
  work buffer, so every way of cutting the stream is covered.
- A mount may be written with or without its final '/'. The flat list keeps, for every route, the
  slash-trimmed mount paths joined; `FlatRouting.FlatMatchesExactly` says where a mount without
  the '/' differs from plain full paths (only when it is asked for by its bare name).
- The base path is kept as the list of mount paths joined into it; joining them to one string is
  the work of fsio_join_paths, which is not part of this model.
- `Connection.Undefined` marks the one place where the program would work on a missing request: a
  request line without three words. A run ends there.

What the model takes for granted: one read returns between 1 and 255 bytes, or 0 at the end of the
stream; a write takes everything it is given; stringfn_split_words splits at white space; size_t
has 64 bits. What arrives on a socket is text without NUL (`Text.CText`, the type of
`Io.Socket.unread`), and the round trips ask for NUL-free texts and for numbers that fit an int
where the program uses C strings and atoi.

Findings, each stated as an exact condition:

- `payload_to_string` returns exactly the declared body if and only if the declared length is
  positive or the work buffer is empty (`Message.TextLoadExact`).
- On a closed socket `payload_to_string` still returns the buffered bytes, while `payload_to_file`
  fails even when the buffer holds the whole body (`Message.Request.PayloadToFile`).
- A body whose file cannot be opened or written counts as loaded although bytes of it may still be
  on the socket (`Message.FileLoaded`).
- A client that sends ahead can lose bytes: after a request the loop resumes at the next message if
  and only if the reads pulled in nothing beyond the current body (`Connection.NextBoundary`). The
  read that completes a head can pull in at most 254 bytes behind it (`RequestParser.PossibleCut`),
  so for a request with a body the boundary is safe if and only if nothing was sent ahead, the body
  has 254 bytes or more, or the connection ends with the answer (`Pipelining.SendingAhead`, which
  also covers a stream that ends inside the head); `Pipelining.AheadIsLost` is an input on which
  bytes are lost.
- `hs_io_write_file_to_socket` writes the whole file, and reports failure if and only if its size
  is a multiple of 255 (`Io.WriteFile`); the router ignores the report.
- A mounted router gives the resource back if and only if its route has a path
  (`FlatRouting.MountRestoresResource`).
- A printed query list reads back if and only if it does not end in a bare empty key
  (`QueryString.QueryRoundTrip`).
- A header line is split at its last ": ", not its first (`HeaderLine.HeaderReconstructs`).
- A URL has no resource if and only if its location ends right after the port's colon
  (`Url.MissingResource`).
- A full callback array has room after doubling if and only if its capacity is not 0
  (`Callbacks.RoomAfterGrowing`), so `Callbacks.CallbackArray.Add` asks for that.

## Model

| member | source | states |
|---|---|---|
| FlatRouting.NestedIsFlat | src/hs_router.c:335-397 | nested dispatch through any router tree leaves the same state, makes the same handler calls with the same views in the same order, and stops at the same route as one first-match scan over full paths |
| FlatRouting.NestedRoutes | src/hs_router.c:500-537 | the same agreement inside any mount, at any depth, for any list of routes |
| FlatRouting.ScanOutside | src/hs_route.c:107-147 | no route below a mount matches a request that is not under the mount or whose method a mount holds back |
| FlatRouting.MountMatch | src/hs_router.c:300-332 | a mount matches exactly the resources under its place, and what it strips is exactly the place's prefix |
| FlatRouting.LeafMatch | src/hs_route.c:107-147 | matching is invariant under a common prefix: full path against whole resource as own path against stripped resource |
| FlatRouting.FlatMatchesExactly | src/hs_router.c:315-329 | a flat route matches iff its full path supports the resource, or a slashless mount is asked for by its bare name and its root is served |
| FlatRouting.SlashedMatchesPlainly | src/hs_route.c:107-147 | with mounts that end in '/', matching is first match on plain full paths |
| FlatRouting.NestedIsPlain | src/hs_router.c:335-397 | for every tree of mounts that end in '/', the recursive dispatch with its stripping equals one first-match scan comparing plain full paths with the whole resource |
| FlatRouting.SupportedPathMeans | src/hs_route.c:107-147 | a valid path supports a resource iff they are equal, or the path is a parent and the resource lies below it |
| FlatRouting.StrippingKeepsTheStack | src/hs_router.c:300-332 | in every handler call, the slash-trimmed mount paths on the nesting stack followed by the resource seen are the original resource, up to one added '/'; the resource seen starts with '/' |
| FlatRouting.ViewIsRestored | src/hs_router.c:519-529 | resource and base path are what they were on return from every dispatch, answered or not |
| FlatRouting.UnknownMethodIsUnanswered | src/hs_route.c:59-104 | a request with an unknown method is never answered and changes nothing |
| Serving.RoutesRespondOnce | src/hs_router.c:359-498 | dispatch over any routes sends exactly one response if it reports an answer and none otherwise; the socket is closed iff the response announced it or a declared body is unread |
| Serving.ServedExactlyOnce | src/hs_router.c:137-168 | a fresh request returns true iff exactly one response was written, false iff nothing was |
| Serving.FirstAnswerWins | src/hs_router.c:344-353 | the scan answers iff some route answers after all earlier ones passed, and then nothing later ran |
| Serving.KeepAliveIsHonoured | src/hs_router.c:400-402 | where all routers support keep-alive, a response announces the close iff the connection type is not keep-alive |
| Serving.RouterAnnounces | src/hs_router.c:399-402 | a response announces the close iff the router that sends it, at whatever depth, does not support keep-alive or the connection type is not keep-alive |
| Calls.CallbacksRunInReverse | src/hs_router.c:553-569 | every registered callback runs exactly once, last registered first |
| Calls.ServedRunsCallbacks | src/hs_router.c:163-167 | a top-level serve runs exactly the callbacks it came with and those registered by the handlers it called, at whatever depth of any router tree, each once and in reverse, whether or not a route answered |
| Calls.EveryCallbackRuns | src/hs_router.c:553-569 | no callback that a called handler registered is left out |
| Calls.CallbacksPileUp | src/hs_router.c:335-397 | for every router tree, dispatch calls leaves one after the other, each starting from what the one before it left; it adds exactly the callbacks they register, takes the body through exactly their loads, and answers exactly if the last one called did |
| Calls.HandlersDecide | src/hs_router.c:377-397 | for a whole request: every handler gets the view, exchange and load on its record, its answer is what becomes of the connection type, reply and route data, all but the last one called passed, and the request is answered iff the last one did |
| Calls.BodyIsReadOnce | src/hs_types.c:308-434 | of all handlers one request reaches, at any depth and by either kind of load, the first to load is handed exactly the whole body and every later one nothing, and that is what they answer with |
| Connection.KeepAliveFraming | src/hs_router.c:80-134 | over a whole run the k-th request received, head and body, is the k-th message sent, and the stream stands at the next message after every answer unless the socket is closed |
| Connection.WholeScriptFraming | src/hs_router.c:80-109 | the same for a client that sends its messages and falls silent: a prefix of them, heads and bodies, was received, in order, ending on a boundary |
| Connection.SentBodyIsRead | src/hs_router.c:112-134 | the first handler to load the body of a received message is handed exactly the body that was sent, for every cut and depth |
| HandlerViews.WrittenRequestIsSeen | src/hs_parser.c:205-245 | every handler a written request reaches sees its method, query, headers, cookies, length, user agent and authorization as written, the connection's counter, and a resource that completes the mounts above it to the written path; the first finds an empty response |
| HandlerViews.AnswerGoesOut | src/hs_router.c:399-479 | the one response written is printed from what the last handler called answered, with the type of a content file filled in |
| Connection.Exchanged | src/hs_router.c:112-134 | the outcome of one received request: the log, when the socket is closed, when the loop may go on, and that a whole body is read to its end |
| Connection.NextBoundary | src/hs_types.c:308-357 | with a client that sends ahead, a loop that goes on resumes at the next message iff the reads pulled in nothing beyond the body, and otherwise has lost exactly what they pulled in |
| Pipelining.SendingAhead | src/hs_router.c:112-134 | the boundary is safe from every read that can happen iff nothing was sent ahead, or the head ended and its body has 254 bytes or more, or the answer ends the connection; for an empty body iff no possible read beyond the head ends in an answer that keeps the connection |
| Pipelining.AheadIsLost | src/hs_parser.c:205-245 | a concrete router and request for which anything sent ahead loses bytes on a connection that goes on, by a read that can happen |
| Connection.NoRequestAfterClose | src/hs_router.c:90-104 | in every run a closing answer is the last event: no request received and should_stop not asked after it, and the socket is closed iff there was one |
| Connection.RateBound | src/hs_routes_ratelimit.c:46-65 | with the max-requests route in place no run answers more than max(1, limit) requests, and none is still running after that many turns |
| Connection.LimitCloses | src/hs_routes_ratelimit.c:58-62 | from the limit on, any answer, from any depth, announces the close and closes the socket |
| Limits.LimitIsReached | src/hs_routes_ratelimit.c:46-65 | the bound is exact: over a run that asks to keep the connection, with handlers that leave its type alone and answer, exactly max(1, limit) requests are answered and the loop goes on after each but the last |
| Limits.Spared | src/hs_routes_ratelimit.c:58-62 | below the limit a request to keep the connection is granted, through any tree of such handlers |
| Connection.StopIsHeeded | src/hs_router.c:90-104 | over every run, after a question to should_stop the loop goes on iff the verdict is no; without should_stop it goes on after every answer that keeps the connection |
| Connection.BeginHeedsStop | src/hs_router.c:82-94 | should_stop is asked before the first request |
| Connection.NextShrinks | src/hs_router.c:119-131 | a connection that goes on has consumed bytes |
| Connection.BeginsInOrder | src/hs_router.c:82-94 | a new connection satisfies the premises of the run theorems |
| Replies.RunWritesItsLog | src/hs_router.c:399-498 | over every run the bytes written are the responses of the answered requests, in order, and nothing else |
| Replies.RunIsReadBack | src/hs_router.c:191-297 | for clean replies the repository's reader cuts everything a run wrote back into exactly these responses, and each reading tells the status, headers, cookies, type, length and content of its reply's fields |
| Replies.RepliesReadBack | src/hs_parser.c:47-89 | a stream of printed responses is read back as the list of responses |
| Replies.ReplyIsReadOff | src/hs_router.c:399-479 | whatever follows a response on the stream, exactly the response is read off, and it tells the reply's fields: "HTTP/1.1", code and code; the valued headers, one Set-Cookie per cookie, the announcement, the type when due and the length; the content string, else the file, else nothing |
| Replies.ReadingTells | src/hs_router.c:191-297 | for every reply, clean or not, the expected reading is told by the reply's own fields |
| Replies.AnswersArePaired | src/hs_router.c:112-134 | over every run each request has its outcome right behind it, and an unanswered request is the last |
| Chunking.ChunkingIsInvisible | src/hs_router.c:80-134 | two runs over the same messages and the silence after them, cut differently by the reads, have the same log, write the same bytes, leave the same store and stop at the same point, for every router and handler |
| Chunking.FinishedRunsAlike | src/hs_router.c:80-109 | two finished runs over the same messages agree, however many turns were offered |
| Chunking.RequestsAlike | src/hs_router.c:137-168 | one request through any router tree cannot tell how its body was divided between work buffer and socket |
| Chunking.FileLoadsAlike | src/hs_types.c:360-434 | the file a handler gets does not depend on that division |
| SessionHistory.SessionsRefineMap | src/hs_routes_session.c:279-405 | over any sequence of requests the session store refines a map from id to data, and every visit is named by its response's cookie |
| SessionHistory.RequestRefinesMap | src/hs_routes_session.c:279-348 | one request through a whole router is one step of that map: a stored id sees exactly its data, an unknown id is replaced by a new one and never stored, all other entries are unchanged; and what the visit saw is what the handler behind the session route finds in the route data |
| SessionHistory.ServedSession | src/hs_routes_session.c:371-405 | only the session route's own write-back reaches the store, and it stores what the handlers left |
| SessionHistory.StoreAfterCallbacks | src/hs_router.c:560-568 | the store after the callbacks depends on the write-back only |
| SessionHistory.CookieNamesTheWriteBack | src/hs_routes_session.c:322-345 | for a whole request through any router tree with one session route and handlers that only add cookies: the visit's Set-Cookie is in the one response written, and the data left is stored under that same id |
| SessionHistory.SessionContinues | src/hs_routes_session.c:279-348 | a later request that brings the id back has the data the earlier request left in the route data its handlers get |
| SessionHistory.SessionIsSeen | src/hs_routes_session.c:306-334 | the handler called behind the session route finds the visit's session, with its id and data, in the route data |
| SessionRuns.RunRefinesMap | src/hs_router.c:80-134 | over every run of a connection, for any bytes and any cuts, each request that reaches the session route is a correct step of the map, and the store ends up holding that map |
| Io.ReadLine | src/hs_io.c:23-69 | for every content of the buffer and every chunking, the line and what remains are those of the whole byte string; fewer than 255 bytes stay in the buffer behind a line, and everything does when there is none |
| Io.ReadLineFromBuffer | src/hs_io.c:274-314 | the scan finds the first CRLF, keeps exactly what follows, and tells an empty line from no line |
| Io.SplitHeadRebuilds | src/hs_io.c:274-314 | lines, empty line and rest put together are the stream, and no line holds a CRLF |
| Io.SplitHeadJoined | src/hs_io.c:23-69 | the lines found are exactly the lines printed, whatever follows the empty line |
| Io.CutLineStable | src/hs_io.c:44-66 | bytes that arrive after a complete line do not change it |
| Io.ReadFully | src/hs_io.c:98-132 | exactly the next `length` bytes are taken, or all there are; success iff they sufficed; nothing happens on a closed socket |
| Io.ReadAndWriteToFile | src/hs_io.c:135-172 | the file gains exactly the next `length` bytes of the stream, or all there are; success iff they sufficed; when a write falls short the call fails, the file is full and that write's bytes are gone; nothing happens on a closed socket |
| Io.WriteFile | src/hs_io.c:208-252 | all bytes of the file are written; the result is false iff their number is a multiple of 255 or the socket is closed |
| Message.TextLoadExact | src/hs_types.c:308-357 | loading returns the first `length` bytes after the head iff the length is positive or the buffer empty; consumes nothing beyond buffer and body; a second load of either kind yields nothing |
| Message.FileLoadAgrees | src/hs_types.c:360-434 | a file load works iff the whole body arrives, leaves the bytes a text load returns, and consumes the same |
| Message.Request.PayloadToString | src/hs_types.c:308-357 | the in-place load refines the body function, for every chunking; on a closed socket it hands over what the work buffer holds |
| Message.Request.PayloadToFile | src/hs_types.c:360-434 | the in-place file load computes the file load of the body when the file can be opened and written; otherwise, and on a closed socket, it fails, leaves no file, and marks the body loaded with its unread bytes still on the socket |
| RequestParser.ParseRequest | src/hs_parser.c:205-245 | the request is the one the bytes determine, buffer plus socket hold exactly what follows the head, and the buffer holds fewer than 255 bytes of it unless the stream ended inside the head |
| RequestParser.ReadHeaders | src/hs_parser.c:224-239 | the header loop applies every line up to the empty one and reads not a byte of it beyond |
| RequestParser.ParsePrinted | src/hs_parser.c:205-245 | parsing a printed request returns its head and stops where its body starts, with the head ended |
| Heads.WrittenIsParsed | src/hs_parser.c:205-245 | the head of a written request is its method, its path and query, and what its header lines say |
| Heads.FieldsAreRead | src/hs_parser.c:169-203 | over any lines, each field is set by the last header that speaks of it, in any letter case, and keeps its default without one; the cookies of all cookie headers are collected in order |
| Heads.PrintedHeaderIsRead | src/hs_parser.c:169-203 | one more printed header sets its own field and no other |
| Heads.MethodRoundTrip | src/hs_parser.c:247-291 | a word is read as a method iff it is that method's name |
| Heads.LengthIsRead | src/hs_parser.c:180-183 | a printed length is read as that length |
| RequestParser.ThreeWords | src/hs_parser.c:21-44 | a request line of three words separated by single spaces splits into them |
| RequestParser.WordsAreTheText | src/hs_parser.c:21-44 | for any text the words hold no white space and are together everything that is none |
| RequestParser.SetHeader | src/hs_parser.c:169-203 | the in-place update sets length, user agent and authorization each by its own key, and refines the field function |
| RequestParser.CookieLineIsRead | src/hs_parser.c:176-179 | the cookies printed into a Cookie header line are appended, in order, to the request's cookies |
| HeaderLine.HeaderReconstructs | src/hs_parser.c:47-89 | a header is returned iff the line is the print of one, with the key lower-cased and no ": " in the value |
| HeaderLine.HeaderRoundTrip | src/hs_parser.c:61-86 | printing and parsing a header returns it |
| HeaderLine.HeaderRejects | src/hs_parser.c:56-73 | nothing is returned iff ": " occurs nowhere but at the start |
| HeaderLine.ParseHeader | src/hs_parser.c:47-89 | the scanning loop computes the header of the line |
| CookieHeader.ParseCookieHeader | src/hs_parser.c:92-166 | the automaton appends exactly the cookies of the line in order and reports whether there was any |
| CookieHeader.CookieRoundTrip | src/hs_parser.c:92-166 | parsing a printed cookie list returns it |
| CookieHeader.CookiesAreThere | src/hs_parser.c:92-166 | whatever the text, the cookies found are the ones it is made of: names up to '=', values up to a ';' with a space or the end behind it |
| QueryString.ParseQueryString | src/hs_parser.c:293-382 | the automaton computes the declarative split: at '&', without an empty last piece, each piece at its first '=' |
| QueryString.QueryRoundTrip | src/hs_parser.c:293-382 | a printed list parses back to itself iff it does not end in a bare empty key |
| QueryString.SegmentMeans | src/hs_parser.c:312-359 | a segment without '=' is a key, and an empty value counts as missing |
| QueryString.SplitJoin | src/hs_parser.c:312-359 | splitting a joined list returns the pieces |
| QueryString.JoinSplit | src/hs_parser.c:312-359 | the pieces hold no separator and join back to the text |
| Url.CreateTarget | src/hs_parser.c:416-559 | the strchr walk computes the declarative decomposition |
| Url.CutLocation | src/hs_parser.c:467-548 | a ':' separates a port only before the first '/' |
| Url.ParseProtocol | src/hs_parser.c:384-414 | http or https iff the text starts with that scheme in some letter case |
| Url.UrlRoundTrip | src/hs_parser.c:416-559 | decomposing a printed URL returns its parts, even when path or query contain ':' |
| Url.OriginForm | src/hs_parser.c:11-14 | the "/path?query" of a request line keeps its path and query, without domain or port |
| Url.MissingResource | src/hs_parser.c:488-522 | the resource is missing iff the location has no '/' and its first ':' is its last character |
| Url.SchemeDemanded | src/hs_parser.c:416-440 | a text without a known scheme is refused iff a scheme is demanded |
| Response.ResponseRoundTrip | src/hs_router.c:191-297 | the repository's reader gives back a written response: lines, headers in order, length, connection announcement, and exactly the content |
| Response.ReplyIsText | src/hs_router.c:191-297 | a clean reply prints without a NUL, so these readers can receive it |
| Response.ReadFraming | src/hs_router.c:428-462 | no header of a handler can change the length and announcement the reader ends up with |
| Response.CookieTextIsClean | src/hs_router.c:231-280 | a cookie of clean fields prints as one clean header value |
| SetCookie.AttributesAreSent | src/hs_router.c:231-280 | a client that takes a Set-Cookie text apart at ';' finds "name=value" and each attribute iff the cookie has it, with its value |
| SetCookie.CookiePieces | src/hs_router.c:231-280 | the pieces of the text are exactly these, in order |
| SetCookie.SessionCookieIsSent | src/hs_routes_session.c:261-277 | the session cookie is sent secure, http-only, strict and with a life of two years |
| Response.WriteCommonHeader | src/hs_router.c:191-297 | the writer's loops print the status line, the valued headers, the cookies and the announcement, in that order |
| Dispatcher.FindRouteAndServe | src/hs_router.c:335-356 | the loop over routes, on the objects, refines the dispatch function |
| Dispatcher.ServeOne | src/hs_router.c:359-397 | the guards and the call of a route refine the dispatch function |
| Dispatcher.SendResponse | src/hs_router.c:399-495 | the bytes written, from a content string or a content file, the type guessed for a file, and the closing of the socket are those of the response function |
| Dispatcher.ServeAsRoute | src/hs_router.c:500-537 | strip, dispatch and restore, on the objects, refine the mount function |
| Dispatcher.RemovePathPrefix | src/hs_router.c:300-332 | the in-place strip leaves the stripped resource and returns the original |
| Dispatcher.ServeSession | src/hs_routes_session.c:279-348 | cookie, route data, write-back and generator end up as the session function says; the session entered holds the data found |
| Dispatcher.ServeMaxRequests | src/hs_routes_ratelimit.c:46-65 | the connection type is overwritten exactly at the limit |
| ServeLoop.Serve | src/hs_router.c:137-168 | the whole serve of one request refines its function, including which callbacks ran |
| ServeLoop.RunAll | src/hs_router.c:553-569 | the backward loop runs the callbacks as the fold says |
| ServeLoop.RunOne | src/hs_routes_session.c:371-405 | one write-back stores the session found in the route data |
| ServeLoop.ServeNext | src/hs_router.c:112-134 | parsing and serving one request refines one step of the connection |
| ServeLoop.ServeForever | src/hs_router.c:80-109 | the loop terminates and is a finished run of the connection, with cuts that reads can bring about, for every script and every should_stop |
| WholeRun.FinishedRun | src/hs_router.c:80-134 | a finished run against a client that waits received its messages in order with their bodies, wrote exactly the responses, each paired with its request, ended on a boundary with nothing after a closing answer, kept the rate limit, and is a function of the messages alone |
| WholeRun.ServeClient | src/hs_router.c:80-109 | the same of the program's own loop over its objects; clean responses are read back exactly; and with one session route the store has followed the map of sessions |
| Callbacks.CallbackArray.Add | src/hs_types.c:193-218 | appends in order across reallocations; count stays within capacity; all copying so far is below twice the count |
| Callbacks.CallbackArray.constructor | src/hs_types.c:159-169 | an empty array of the given capacity |
| Callbacks.RoomAfterGrowing | src/hs_types.c:200-213 | doubling makes room for one more callback iff the capacity is not 0 |
| KeyedLists.PairArray.RemoveByKey | src/hs_types_array.c:221-248 | the backward in-place deletion is the stable filter |
| KeyedLists.PairArray.GetByKey | src/hs_types_array.c:200-218 | the first entry with the key |
| KeyedLists.LookupIsFirst | src/hs_types_array.c:200-218 | a lookup finds the value of the first entry with the key |
| KeyedLists.WithoutIsFilter | src/hs_types_array.c:221-248 | the removal works entry by entry and drops exactly those with the key |
| KeyedLists.RemovalIsLocal | src/hs_types_array.c:221-248 | after a removal the key reads as absent and every other key as before |
| KeyedLists.AdditionIsLocal | src/hs_types_array.c:149-163 | an added entry is seen only under its own key, and only if the key was absent |
| KeyedLists.CookieList.RemoveByName | src/hs_types_cookie.c:130-157 | the backward in-place deletion is the stable filter |
| KeyedLists.CookieList.GetByName | src/hs_types_cookie.c:109-127 | the first cookie with the name |
| KeyedLists.LookupCookieIsFirst | src/hs_types_cookie.c:109-127 | a lookup finds the first cookie with the name |
| KeyedLists.WithoutCookieIsFilter | src/hs_types_cookie.c:130-157 | the removal works cookie by cookie and drops exactly those with the name |
| KeyedLists.CookieRemovalIsLocal | src/hs_types_cookie.c:130-157 | after a removal the name is absent and every other name reads as before |
| Text.AtoiDecimal | src/hs_router.c:431-434 | reading a printed length gives the number back |
| Text.AtoiReads | src/hs_parser.c:180-183 | leading white space, a sign, digits, and whatever follows them |

## Left out

- Io.WriteString: does not model short writes or write errors, because the socket of the model takes everything it is given (the write loop in the C code does not advance its pointer).
- Io.Socket.Read: does not model read errors or a read that fills all 256 bytes of the buffer.
- Dispatcher.LoadToFile: handlers load into files that can be opened and have room; a failed load (Message.Request.PayloadToFile) is not followed through dispatch and runs, where the property asks for working files too.
- Io.WriteFile: does not model a file that cannot be read or changes while it is sent; such a file counts as empty.
- SessionHistory.SessionsRefineMap: assumes, like SessionRuns.RunRefinesMap, one session route, session data that survives to_string and from_string, a store that takes every write, and a generator whose ids are new and not guessed; the ini format, the file store and the random ids behind them are not part of this model.
- Connection.RateBound: assumes, as the property does, that no route before the limit answers and that no handler puts a closing connection back to keep-alive.
- FlatRouting.NestedIsFlat: assumes mounts as hs_router_as_route makes them, with a path set.
- Text.Atoi: numerals beyond the range of int, which C leaves undefined, keep their mathematical value.
- The mime table (a content file brings the type found for its name) and the file-system, favicon, static, redirection, error, payload-limit, security and powered-by routes: presentation or one-branch handlers, covered as arbitrary handlers.
- The wall-clock rate limit: the max-requests route plus an oracle for time.
- Sockets, TLS, accepting connections and the thread pool: system and library calls.
- malloc and free, and guards against NULL arguments: replaced by Dafny's heap and types; a NULL that carries meaning (missing value, catch-all path, mount without a path) is modelled.
- Header and cookie lists inside a reply are compared as values; sharing of one list between two owners is not modelled.
- In the source the nine method flags of a route are separate booleans; here they are the set of methods switched on.
- What a handler's own callback does: only that it runs, and when.
