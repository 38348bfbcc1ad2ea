# royalbed: router, framing, codecs and connection lifecycle

royalbed is an HTTP server library in C++. This project models the five parts of it whose behaviour
depends on long histories or on where input happens to be cut, and proves what each is for.

- **Router** (`RouterPath`, `RouterSearch`, `RouterTable`, `RouterTree`, `Router`). The tree of nodes lives
  on the heap, with parent pointers and two child maps per node. A ghost value says which node stands where;
  registration, mounting, searching, parameter extraction and routing on the heap are each proved to do what a
  plain table from patterns to entries says. The iteration order of the unordered child maps is arbitrary, but
  fixed for the parameter children of a node while they are not changed. Every order gives the same table,
  but for entries of a mounted router that land at one and the same place.
- **HTTP framing** (`LlhttpSpec`, `LlhttpBytes`, `LlhttpParser`, `LlhttpName`, `LlhttpSplit`,
  `LlhttpNumbers`, `LlhttpChunks`, `LlhttpHeaderName`, `BodyReader`). The loose copy of llhttp: chunk states, Content-Length body states,
  keyword matchers and header-name states, with span restart and flush. The goto loop is proved against a
  machine that reads one byte at a time; what the parser promises is proved about that machine. The
  Content-Length branch of the body reader stands on the parser.
- **WebSocket** (`WebSocketFrame`, `WebSocket`). The frame codec bit by bit, and the reassembly of messages.
- **URI** (`UriEscape`, `UriCodec`, `UriGrammar`). The escaping loops, the printer and the two parsers, and what
  the parser makes of any text.
- **Lifecycle** (`Lifecycle`, `LifecycleRuns`, `LifecycleObjects`). Server, connections and sessions as a machine over events
  with an invariant over every run, and as objects whose methods take that machine through its steps.

Handlers, middlewares and responses are opaque: a number tells handlers apart, and of a response only its
`Connection` header matters. I/O appears as events and parameters.

## What the code does not do

Five claims one would like to make are false of the code. Each has a lemma at a concrete input that breaks it,
and is replaced by the exact condition on the input under which it holds.

- Cutting llhttp's input does not change what its callbacks report: false inside a header name that is later
  rejected (`LlhttpSplit.SplitInvariance`, `LlhttpSplit.CutAnywhere`, on bytes alone
  `LlhttpHeaderName.CutShowsIff`; shown by `LlhttpHeaderName.RejectedNameSeen`).
- A mounted router keeps its routes under the prefix: false for routes that climb above their own root
  (`RouterPath.SpotUnder`, `RouterTable.MountIff`; shown by `RouterTable.MountEscapes`).
- A URI survives printing and parsing: exactly under `UriCodec.RelativeSafe` and `UriCodec.Safe`
  (`UriCodec.RelativeRoundTrip`, `UriCodec.AbsoluteRoundTrip`; shown by `UriCodec.EmptyPathFilled`).
- After an answer with `Connection: close` no further session starts: exactly when the budget was spent or the
  request said close (`Lifecycle.CloseIsFinal`; shown by `Lifecycle.CloseIgnored`).
- A body cut short is an error: `llhttp_finish` reports it in its return value and leaves `error` alone, so
  the body reader ends such a body like a complete one, whenever the stream is shorter than the length
  announced (`BodyReader.ReadAll`; shown by `BodyReader.CutShort`).

## Assumptions

- `nhope::AOContext`: callbacks of one context are serialized, none but the close handler runs after it is
  closed, closing a context closes its children first and is without effect while it is being closed.
- Exceptions thrown by handlers and middlewares derive from `std::exception`.
- llhttp's user callbacks return 0, except the body reader's own `on_message_complete`, which pauses.
- The router is not changed while requests are being served, and a router is not mounted into itself.

## Model

The first 74 rows are the results. The rows after them are the methods proved against a specification, and
the invariants and steps that the results rest on.

| member | source | states |
|---|---|---|
| `LlhttpParser.Parser.Execute` | lib/3rdparty/llhttp/llhttp.c:14892-14924 | one call of the parser: the goto machine with its spans, run on any input from any valid state, leaves exactly the state of the byte-by-byte machine (`CallSpec`): state, index, content length, flags, header state, error, callbacks and bytes used |
| `LlhttpSplit.SplitInvariance` | lib/3rdparty/llhttp/llhttp.c:14892-14924 | for every state and every cut, one call on a ++ b and two calls on a and b end in the same state, index, content length, flags, header state and error and consume the same bytes; the callbacks report the same events except if and only if the first call stopped inside a header name of which it had read a byte and the first byte of b that is no token character is there and is no colon, and then the two calls report besides exactly the bytes of the name before the cut |
| `LlhttpSplit.CutAnywhere` | lib/3rdparty/llhttp/llhttp.c:14892-14924 | the same for any number of cuts: same state, same bytes consumed, the same events iff no cut taken alone shows, and otherwise besides exactly the bytes of the rejected name before the last cut that shows |
| `LlhttpSplit.CutUnrejected` | lib/3rdparty/llhttp/llhttp.c:14892-14924 | input without a rejected header name may be cut anywhere without any callback seeing it |
| `LlhttpName.RejectedIff` | lib/3rdparty/llhttp/llhttp.c:9722-9998 | an open header name is rejected if and only if the first byte of the input that is no token character is there and is no colon; past the last token character the next byte alone decides |
| `LlhttpHeaderName.CutShowsIff` | lib/3rdparty/llhttp/llhttp.c:9722-10058 | at the start of a line or inside a name, a cut shows in the callbacks iff the bytes before it are token characters of a name that goes on to a byte that is neither a token character nor a colon |
| `LlhttpHeaderName.RejectedNameSeen` | lib/3rdparty/llhttp/llhttp.c:14912-14922 | the input that shows where cutting matters: "a@" in one call reports nothing, cut in two it reports "a" |
| `LlhttpHeaderName.HeaderClassified` | lib/3rdparty/llhttp/llhttp.c:9722-10058 | for every header line: accepted up to its colon iff all bytes before it are printable (the space included) and neither a double quote nor one of the delimiters `(),/:;<=>?@[\]{}`; then the header state is 1, 2, 3 or 4 exactly when the lower-cased name without trailing spaces is connection or proxy-connection, content-length, transfer-encoding or upgrade, and 0 otherwise, and the callback has got exactly the name; otherwise the parser stops at the offending byte, or at the CR or LF that ends the header |
| `LlhttpHeaderName.HeaderClassifiedCut` | lib/3rdparty/llhttp/llhttp.c:9722-10058 | the same however the line is cut into calls, for accepted, unfinished, empty and rejected lines; of a rejected name the callback has got exactly the pieces before the one with the offending byte |
| `LlhttpBytes.TokenBytes` | lib/3rdparty/llhttp/llhttp.c:9739-9760 | the lookup table of header-name bytes, by its complement: the bytes from the space to the tilde without the delimiters of section 3.2.6 of RFC 7230 |
| `LlhttpChunks.ChunkedDecode` | lib/3rdparty/llhttp/llhttp.c:8657-9024 | decoding undoes encoding (section 4.1 of RFC 7230): for any chunks, any digit case, leading zeros, extensions and any bytes in place of the LF of a size line and of the CRLF after the data, the parser consumes exactly the encoding up to the zero-size line, reports every chunk with exactly its data and waits for trailers with F_TRAILING set |
| `LlhttpChunks.ChunkedDecodeCut` | lib/3rdparty/llhttp/llhttp.c:14892-14924 | the same fed in any pieces: the body bytes reported are the concatenation of the chunks |
| `LlhttpChunks.SizeRefusedIff` | lib/3rdparty/llhttp/llhttp.c:8717-9015 | a size line, as far as it has come, is refused iff it begins with no hex digit, says 2^64 or more, or goes on after its digits with anything but CR, a space or a semicolon; the parser stops at that byte |
| `LlhttpChunks.SizeOverflow` | lib/3rdparty/llhttp/llhttp.c:8261-8285 | a chunk size of 2^64 or more is refused with HPE_INVALID_CHUNK_SIZE, wherever in its digits that shows |
| `LlhttpNumbers.AccumulateExact` | lib/3rdparty/llhttp/llhttp.c:8440-8464 | over any run of digits, in base 10 or 16, the accumulator is the true value, and overflow is reported iff the value of the whole run is at least 2^64 |
| `LlhttpNumbers.StatusExact` | lib/3rdparty/llhttp/llhttp.c:8539-8568 | a status code is refused iff its value exceeds 999, and its 16-bit tests never fire first |
| `BodyReader.ReadAll` | lib/royalbed/common/body-reader.cpp:117-136 | reading to the end with non-empty buffers of any sizes delivers exactly the first N bytes in order and leaves the rest in the pushback reader; a stream that ends early is delivered whole and ends without an error, though llhttp_finish reported it |
| `BodyReader.CutShort` | lib/royalbed/common/body-reader.cpp:117-136 | the shortest such body: two bytes announced, one there |
| `RouterSearch.SearchFindsBest` | lib/royalbed/server/router.cpp:296-343 | the backtracking search reports found iff some node matches the whole path segment by segment, and always ends at a deepest node that matches the beginning of the path, the one that comes first in child order |
| `RouterSearch.BestUnique` | lib/royalbed/server/router.cpp:318-343 | the nodes and the iteration order determine that node |
| `Router.FoundIffRegistered` | lib/royalbed/server/router.cpp:296-343 | after any registrations the search matches the whole path iff some registered resource begins with a pattern of the length of the path that matches it segment by segment |
| `Router.Router.FindsRegistered` | lib/royalbed/server/router.cpp:296-343 | the same for a router object whose table was built by registrations |
| `Router.Router.AddRoute` | lib/royalbed/server/router.cpp:545-554 | registration on the heap tree is registration in the table, and keeps the tree invariant |
| `RouterTable.NodesAreStems` | lib/royalbed/server/router.cpp:175-189 | after any registrations the nodes are the root and the prefixes of the registered resources |
| `RouterTable.LastRegistrationWins` | lib/royalbed/server/router.cpp:208-211 | a method is handled at a node iff it was registered there, by the handler registered last |
| `Router.Router.Use` | lib/royalbed/server/router.cpp:451-459 | grafting another tree, whatever the iteration order of its nodes, lands every entry at the spot its path leads to; if all stay under the prefix it is mounting the table |
| `RouterTable.MountIff` | lib/royalbed/server/router.cpp:451-459 | where nothing is registered below the prefix yet, a mount puts every entry at prefix ++ k and nothing elsewhere if and only if no entry takes back names of the prefix |
| `RouterTable.MountEscapes` | lib/royalbed/server/router.cpp:451-459 | what does not stay: the route "../b" of a router mounted at "a" ends at "b" and not under "a" |
| `RouterTable.MountOverrides` | lib/royalbed/server/router.cpp:451-459 | mounting a table puts exactly the entries of the other router at prefix ++ k, leaves every other pattern alone, and makes empty the nodes it adds on the way |
| `RouterTable.LandedOnce` | lib/royalbed/server/router.cpp:345-361 | the iteration order of the child maps shows in a mount at most where two entries land at one spot |
| `RouterPath.SpotUnder` | lib/royalbed/server/router.cpp:453-456 | prefix/path leads to the names of the prefix and then those of the path if and only if the latter take back none of the prefix and hold no dot |
| `RouterPath.DotsCancel` | tests/server/router-tests.cpp:171-178 | a dot on the way, or a name taken back at once by two dots, changes nothing, wherever it stands |
| `RouterPath.NormalizeTwice` | lib/royalbed/server/router.cpp:97-110 | normalizing twice is normalizing once |
| `RouterPath.LimitPathByDepth` | lib/royalbed/server/router.cpp:60-85 | for every normalized path and depth up to its segments plus one, the first depth - 1 segments |
| `Router.Router.Route` | lib/royalbed/server/router.cpp:485-520 | routing a path: not found iff no node matches it whole, method not allowed iff that node does not have the verb, and otherwise its handler with its middlewares and parameters; a refusal brings the handler of its kind from the deepest prefix that has one |
| `Router.RouteDecides` | lib/royalbed/server/router.cpp:485-520 | for a router built by registrations: not found iff the path is not empty and no registered resource covers it segment by segment (equal, or beginning with a colon), method not allowed iff the verb was not registered at the matched node, otherwise the handler registered there last |
| `RouterTable.ChainInOrder` | lib/royalbed/server/router.cpp:257-264 | the chain of a node is made of the lists of the nodes on the way, root first, each in its own order |
| `RouterTable.ExtractionInverts` | lib/royalbed/server/router.cpp:266-277 | putting the extracted values, in order, into the parameter places of a matching pattern gives back the path, and the names are those of the pattern from root to leaf |
| `RouterTable.NearestIsDeepest` | lib/royalbed/server/router.cpp:363-372 | the error handler comes from the deepest prefix of the node that has one |
| `Router.Router.ProcessException` | lib/royalbed/server/router.cpp:556-561 | the search repeated for an exception ends at the node that was routed to, and takes the nearest exception handler |
| `WebSocketFrame.DecodeBytes` | include/royalbed/server/detail/web-socket-frame.h:17-84 | parsing byte by byte, for every buffer: the fin and mask bits, the opcode and the three length forms as numbers of the bytes, payload byte i as data[start + i] XOR data[start - 4 + i % 4], the key as the four bytes before the payload, and which error answers a buffer that ends too early |
| `WebSocketFrame.EncodeBytes` | include/royalbed/server/detail/web-socket-frame.h:86-129 | creating byte by byte: no reserved bit, the shortest length form, the key most significant byte first, every payload byte XORed with its key byte |
| `WebSocketFrame.RoundTrip` | include/royalbed/server/detail/web-socket-frame.h:17-129 | parsing a created frame, whatever follows it, gives back every field, the key and the unmasked payload (sections 5.2 and 5.3 of RFC 6455), for every payload shorter than 2^64 - 14 bytes |
| `WebSocketFrame.PrefixRejected` | include/royalbed/server/detail/web-socket-frame.h:17-71 | no proper prefix of a created frame is accepted |
| `WebSocketFrame.Canonical` | include/royalbed/server/detail/web-socket-frame.h:17-129 | creating an accepted frame again yields a frame that is no longer than the buffer and parses to the same frame |
| `WebSocket.ReadActs` | lib/royalbed/server/web-socket.cpp:99-159 | what one read does, by the numbers in its first byte: 8 closes, 1 and 2 begin a message, 0 goes on with it, a final fragment delivers it to the request that waits, 9 is answered with a pong of the same payload, anything else changes nothing, and what is no frame fails |
| `WebSocket.PromisesKept` | lib/royalbed/server/web-socket.cpp:93-159 | after every run: the requests are answered in their order, each at most once, and only the newest can be waiting |
| `WebSocket.MessageRun` | lib/royalbed/server/web-socket.cpp:99-159 | a message in any fragments, under any masking keys, with pings and requests between, is delivered whole at its final fragment to the newest pending request, and to nobody if there is none (section 5.4 of RFC 6455) |
| `WebSocket.OneMessage` | lib/royalbed/server/web-socket.cpp:93-159 | a message asked for in time is delivered exactly once |
| `WebSocket.ConversationRun` | lib/royalbed/server/web-socket.cpp:93-159 | over any sequence of messages each asked for in time, the payloads delivered are the messages, in order |
| `WebSocket.SidesRun` | lib/royalbed/server/web-socket.cpp:132-138 | pings are answered with their own payload and disturb nothing else |
| `UriEscape.PlainText` | lib/royalbed/uri.cpp:225-281 | text of such symbols is escaped to itself and unescaped to itself |
| `UriEscape.UnescapeBytes` | lib/royalbed/uri.cpp:249-281 | "%" without two digits, and every byte that is not to stand unescaped, is refused with its error |
| `UriEscape.EscapeRoundTrip` | lib/royalbed/uri.cpp:225-281 | unescaping undoes escaping in all three modes for all byte strings |
| `UriGrammar.ParseGrammar` | lib/royalbed/uri.cpp:184-223 | any text in parts (scheme, host, port, path, query, fragment; section 3 of RFC 3986) is parsed part by part, and the first part that cannot be read gives the error |
| `UriGrammar.CutText` | lib/royalbed/uri.cpp:184-223 | every text is in parts |
| `UriGrammar.Printed` | lib/royalbed/uri.cpp:132-175 | what is printed, part by part: no empty part but the path, for which there is a slash, and no port without a host |
| `UriCodec.RelativeRoundTrip` | lib/royalbed/uri.cpp:109-182 | parseRelative(toString(u)) is u if and only if u has no scheme, host or port, has a path, and names every parameter |
| `UriCodec.AbsoluteRoundTrip` | lib/royalbed/uri.cpp:132-223 | Uri::parse(toString(u)) is u if and only if u is `Safe`: a path and named parameters, no colon in the scheme, no port without scheme or host, and either a host free of delimiters with a path that starts with a slash or no host and a path that does not start with two |
| `UriCodec.EmptyPathFilled` | lib/royalbed/uri.cpp:109-182 | what does not survive, at its smallest: the URI without a path prints as a slash and reads back with the path "/" |
| `Lifecycle.CountersExact` | lib/royalbed/server/server.cpp:66-110 | after every run of any number of connections the active counters are, modulo 2^32, the open connections and the unfinished sessions, and these two are equal |
| `Lifecycle.OneAtATime` | lib/royalbed/server/connection.cpp:104-135 | after every run: at most one unfinished session per connection, between 1 and max(1, requestsCount) sessions started, every session but the last answered and promised to keep the connection, every session but the last of an open connection has reported its end exactly once |
| `Lifecycle.ChainThenHandler` | lib/royalbed/server/session.cpp:162-208 | after every run: the middlewares a session has run are a prefix of its chain, the handler runs at most once and only after the whole chain let the request pass, it does run unless a middleware refused or something failed or was cancelled, and no session answers twice |
| `Lifecycle.ChainFromRouter` | lib/royalbed/server/session.cpp:112-208 | while a router answers the requests, after every run: the middlewares a session has run are a prefix of those of the nodes from the root to the node matched by a path, all of them before the handler, and a request that is not routed meets none |
| `Lifecycle.ChainRun` | lib/royalbed/server/session.cpp:192-208 | after the request and any number of middlewares that returned true: exactly the next one is running while any is left, and after the last the handler of a plain request has been called, once |
| `Lifecycle.RefusalRun` | lib/royalbed/server/session.cpp:199-207 | a middleware that returns false is the last to run: the answer goes out and the handler is not called |
| `Lifecycle.ShutdownEmpties` | lib/royalbed/server/server.cpp:50-53 | after a shutdown both active counters are 0 and every session has reported its end exactly once |
| `Lifecycle.CloseIsFinal` | lib/royalbed/server/session.cpp:222-251 | an answer that says Connection: close ends the connection, for every continuation, if and only if the budget was spent or the request being answered said close: a handler that sets the header itself does not end the connection |
| `Lifecycle.CloseIgnored` | lib/royalbed/server/session.cpp:233-251 | a run in which a second session starts after an answer that said Connection: close |
| `Lifecycle.TimeoutIsFinal` | lib/royalbed/server/connection.cpp:58-80 | after the keep-alive timeout no further session starts, for every continuation |
| `LifecycleRuns.IdleTimeoutCloses` | lib/royalbed/server/connection.cpp:58-80 | the timeout of a connection that waits for a request is answered, whatever else happens meanwhile, and the answer closes the connection |
| `LifecycleRuns.ServedInSpite` | lib/royalbed/server/connection.cpp:58-80 | a session whose request came before the timeout is served: until it ends no answer to a timeout closes the connection, and unless it is cancelled from outside it ends with its own answer or as a web socket |
| `LifecycleRuns.NextSessionIff` | lib/royalbed/server/connection.cpp:104-135 | another session follows iff the answer was sent, had promised to keep the connection and requests are left; a session that ends otherwise closes the connection, and no other event of a session does |
| `LifecycleRuns.UpgradeDecides` | lib/royalbed/server/session.cpp:162-190 | after the last middleware: the handler of a plain request, the handshake of a web socket, or the error of a refused upgrade without the handler |
| `LlhttpParser.Parser.constructor` | lib/3rdparty/llhttp/llhttp.c:14892-14924 | a parser at rest in a state stands for the machine at rest there |
| `LlhttpParser.Goto` | lib/3rdparty/llhttp/llhttp.c:8657-10058 | the goto loop ends (bytes left, then rank of the state) with the same continuation as it began with, and stops only at the end of the input or on an error |
| `LlhttpParser.JumpSizeDigit` | lib/3rdparty/llhttp/llhttp.c:8770-9015 | a size digit or the end of the digits, with the overflow error and the missing-digit error |
| `LlhttpParser.JumpSizeLine` | lib/3rdparty/llhttp/llhttp.c:8717-8769 | the rest of a size line: parameters, CR, LF |
| `LlhttpParser.JumpInvoke` | lib/3rdparty/llhttp/llhttp.c:8706-8716 | the labels that wait for no input: the zero-size chunk sets F_TRAILING, any other opens its data, and a new chunk starts from length 0 |
| `LlhttpParser.JumpDataEnd` | lib/3rdparty/llhttp/llhttp.c:8657-8676 | the line end after chunk data, whatever its two bytes (the loose parser does not look) |
| `LlhttpParser.JumpConsume` | lib/3rdparty/llhttp/llhttp.c:8677-8694 | consuming body bytes in one stride is consuming them one at a time, and the span ends exactly with the content length |
| `LlhttpParser.JumpSpanStart` | lib/3rdparty/llhttp/llhttp.c:8695-8705 | opening a span consumes nothing |
| `LlhttpParser.MatchSequenceToLower` | lib/3rdparty/llhttp/llhttp.c:7828-7922 | matches the longest agreeing run of the keyword from the stored index on, letter case ignored, and says whether it ended, mismatched or paused |
| `LlhttpParser.JumpMatch` | lib/3rdparty/llhttp/llhttp.c:9829-9998 | a keyword matcher as a whole: completion stores the header state, a mismatch goes on as a general name without losing the bytes matched |
| `LlhttpParser.JumpName` | lib/3rdparty/llhttp/llhttp.c:9738-9828 | bytes of a header name outside the matchers |
| `LlhttpParser.JumpNameEnd` | lib/3rdparty/llhttp/llhttp.c:9722-9737 | the colon closes the name span and hands it to the callback, anything else is HPE_INVALID_HEADER_TOKEN |
| `LlhttpParser.JumpHeaderStart` | lib/3rdparty/llhttp/llhttp.c:10028-10058 | the first byte of a header line: empty line or start of a name |
| `LlhttpParser.FlushSpan` | lib/3rdparty/llhttp/llhttp.c:14912-14922 | at the end of a call an open span is handed over up to the end of the input, even if empty |
| `LlhttpParser.MulAddContentLength` | lib/3rdparty/llhttp/llhttp.c:8261-8285 | one step of the base-16 accumulator on 64 bits |
| `LlhttpParser.ConsumeRun` | lib/3rdparty/llhttp/llhttp.c:8677-8694 | the byte machine reads k body bytes as one span of k bytes |
| `LlhttpParser.MatchRun` | lib/3rdparty/llhttp/llhttp.c:7828-7922 | the byte machine advances through k agreeing keyword bytes |
| `LlhttpSplit.RunAppend` | lib/3rdparty/llhttp/llhttp.c:14892-14924 | without the flush between calls the machine is a fold over bytes |
| `LlhttpSplit.ReactLocal` | lib/3rdparty/llhttp/llhttp.c:8657-10058 | what a byte does to the machine does not depend on the span bytes read before it |
| `LlhttpSplit.RunTidy` | lib/3rdparty/llhttp/llhttp.c:14892-14924 | span bytes are held only inside a span or after a rejected header name |
| `LlhttpSplit.EmptyCall` | lib/3rdparty/llhttp/llhttp.c:14912-14922 | a call without input hands over an open span, though it is empty, and does nothing else |
| `LlhttpNumbers.MulAddExact` | lib/3rdparty/llhttp/llhttp.c:8261-8285 | one accumulator step overflows iff the true result leaves 64 bits, and nothing wraps around before the test |
| `LlhttpNumbers.MulAddStatusCode` | lib/3rdparty/llhttp/llhttp.c:8539-8568 | one step of the status-code accumulator on 16 bits |
| `LlhttpChunks.DigitsRun` | lib/3rdparty/llhttp/llhttp.c:8770-9015 | after the digits of a size the content length is their value |
| `LlhttpChunks.SizeLineRun` | lib/3rdparty/llhttp/llhttp.c:8717-9015 | a whole size line, with or without extension |
| `LlhttpChunks.ChunkRun` | lib/3rdparty/llhttp/llhttp.c:8657-9024 | one chunk: size line, data, line end |
| `LlhttpChunks.BodyOfAll` | lib/3rdparty/llhttp/llhttp.c:8677-8705 | the body bytes among the reported events are the data of the chunks in order |
| `LlhttpBytes.LowerLetters` | lib/3rdparty/llhttp/llhttp.c:7828-7842 | letter case: the 26 capital letters have their small letters, every other byte is left alone |
| `LlhttpBytes.HexDigits` | lib/3rdparty/llhttp/llhttp.c:8770-9015 | the sixteen digits of a chunk size in either case, and no other byte |
| `LlhttpHeaderName.ClassifyByFit` | lib/3rdparty/llhttp/llhttp.c:14001-14024 | the class of a name, defined by trimming and lower-casing, is decided by which keyword it fits |
| `BodyReader.BodyReaderImpl.Read` | lib/royalbed/common/body-reader.cpp:117-136 | any read hands over the next piece of the body, puts back what it took beyond the body, and keeps delivered bytes plus content length equal to the length of the body and delivered bytes plus stream equal to the source; a read that gets nothing inside the body calls llhttp_finish, which answers HPE_INVALID_EOF_STATE, and returns no error |
| `BodyReader.BodyReaderImpl.Parse` | lib/royalbed/common/body-reader.cpp:117-128 | running the parser on what was read sets the piece size to the part that belongs to the body and the end flag exactly at the end of the body |
| `BodyReader.BodyReaderImpl.Callback` | lib/royalbed/common/body-reader.cpp:142-155 | the two callbacks |
| `LlhttpParser.Parser.Finish` | lib/3rdparty/llhttp/api.c:137-159 | the end of the input inside a message is reported in the result, or completes the message, and leaves the rest of the parser alone |
| `BodyReader.BodyCall` | lib/3rdparty/llhttp/llhttp.c:9025-9053 | one parser call inside a Content-Length body: the callbacks, the remaining length, and the pause at the end |
| `WebSocketFrame.LengthRoundTrip` | include/royalbed/server/detail/web-socket-frame.h:36-52 | the three length forms carry the length |
| `WebSocketFrame.NumberOfBigEndian` | include/royalbed/server/detail/web-socket-frame.h:47-52 | shifting bytes in undoes shifting them out |
| `WebSocketFrame.Parse` | include/royalbed/server/detail/web-socket-frame.h:17-84 | the parser with its moving position computes `Decode` |
| `WebSocketFrame.ParsePayload` | include/royalbed/server/detail/web-socket-frame.h:68-83 | the end of the parser: the 64-bit length test, the payload and its unmasking |
| `WebSocketFrame.CreateFrame` | include/royalbed/server/detail/web-socket-frame.h:86-129 | the printer that pushes bytes computes `Encode` |
| `WebSocketFrame.MaskTail` | include/royalbed/server/detail/web-socket-frame.h:121-126 | XOR of the last bytes of a buffer in place, and of no others |
| `WebSocketFrame.CreateLength` | include/royalbed/server/detail/web-socket-frame.h:95-111 | the second byte and the length bytes |
| `WebSocketFrame.ReadNumber` | include/royalbed/server/detail/web-socket-frame.h:47-52 | the accumulator loop for the length |
| `WebSocketFrame.ReadKey` | include/royalbed/server/detail/web-socket-frame.h:57-66 | the accumulator loop for the key |
| `WebSocket.EarlierSilent` | lib/royalbed/server/web-socket.cpp:99-159 | before its last event a message delivers nothing |
| `WebSocket.ClosedRun` | lib/royalbed/server/web-socket.cpp:107-147 | a controller that has closed or failed delivers and answers nothing more |
| `WebSocket.Impl.OnRead` | lib/royalbed/server/web-socket.cpp:101-147 | the read callback takes the connection from one state to the next as `Step` says, closing on a malformed frame |
| `WebSocket.Impl.ReadPayload` | lib/royalbed/server/web-socket.cpp:93-96 | a request replaces the one that was waiting |
| `WebSocket.Impl.ProcessPayload` | lib/royalbed/server/web-socket.cpp:150-159 | delivery to the waiting request, which is then gone |
| `WebSocket.Impl.DoPong` | lib/royalbed/server/web-socket.cpp:180-185 | the answer to a ping |
| `UriEscape.AllowedSymbols` | lib/royalbed/uri.cpp:20-39 | the symbols left alone are the letters, the digits, "-", "_", "." and "~" and, in a path, "/" |
| `UriEscape.OtherEscaped` | lib/royalbed/uri.cpp:225-240 | every other byte is escaped: a space in a query as "+", the rest as "%" and two small hex digits |
| `UriEscape.PercentDecoded` | lib/royalbed/uri.cpp:249-264 | "%" and two hex digits in either case are one byte |
| `UriEscape.EscapedIsPlain` | lib/royalbed/uri.cpp:225-240 | escaped text holds only allowed symbols, the percent sign and, in a query, the plus: never a delimiter |
| `UriEscape.UriEscapeTo` | lib/royalbed/uri.cpp:225-240 | the escaping loop appends `Escape` of its input |
| `UriEscape.UriUnescapeTo` | lib/royalbed/uri.cpp:249-281 | the unescaping loop appends `Unescape` of its input or fails with it |
| `UriEscape.EscapeConcat` | lib/royalbed/uri.cpp:225-240 | escaping works symbol by symbol |
| `UriGrammar.RestRead` | lib/royalbed/uri.cpp:109-119 | the same for a relative URI: path, query and fragment |
| `UriGrammar.ParamsGrammar` | lib/royalbed/uri.cpp:70-102 | the parameters of any query are unescaped one by one, in order, and nameless ones dropped; a name that an ampersand ends takes what follows for its value, as the code has it |
| `UriGrammar.CutParams` | lib/royalbed/uri.cpp:70-102 | every query is made of such parameters |
| `UriGrammar.PortRead` | lib/royalbed/uri.cpp:207-213 | a port is a number after spaces and a sign, refused outside 32 bits and cut to 16 bits, whatever follows its digits |
| `UriGrammar.PortRefused` | lib/royalbed/uri.cpp:207-213 | without a digit there is no port |
| `UriGrammar.ParamsPrinted` | lib/royalbed/uri.cpp:156-167 | the query is printed as name=value pairs joined by "&" |
| `UriGrammar.DecimalShort` | lib/royalbed/uri.cpp:146-149 | a port is printed without leading zeros |
| `UriCodec.ParamsReadBack` | lib/royalbed/uri.cpp:70-102 | the printed parameters are read back, but for those without a name |
| `UriCodec.PathReadBack` | lib/royalbed/uri.cpp:46-51 | the printed path is read back up to the delimiter |
| `UriCodec.HostReadBack` | lib/royalbed/uri.cpp:195-217 | the printed authority is read back iff the host holds no delimiter |
| `UriCodec.PortReadBack` | lib/royalbed/uri.cpp:146-149 | the printed port is read back |
| `UriCodec.ToString` | lib/royalbed/uri.cpp:132-175 | the printer computes `ToText` |
| `UriCodec.AppendRelative` | lib/royalbed/uri.cpp:152-174 | path, query and fragment as printed |
| `UriCodec.AppendQuery` | lib/royalbed/uri.cpp:158-167 | the parameters with an ampersand after each, the last taken back |
| `UriCodec.ParseQuery` | lib/royalbed/uri.cpp:92-102 | the query loop |
| `UriCodec.ParseRelativeUri` | lib/royalbed/uri.cpp:109-119 | the relative parser on a URI begun |
| `UriCodec.ParseUri` | lib/royalbed/uri.cpp:184-223 | the absolute parser |
| `RouterPath.SegmentsOfJoin` | lib/royalbed/server/router.cpp:42-49 | cutting heads off a joined path gives back its segments |
| `RouterPath.JoinLast` | lib/royalbed/server/router.cpp:51-58 | cutting the tail off a joined path gives its last segment and the path of the others |
| `RouterPath.Normalizes` | lib/royalbed/server/router.cpp:97-110 | normalizePath delivers what the walk through the tree needs: no empty segment, no slash at either end, and the segments met are the names left when dots are resolved |
| `RouterPath.CleanIff` | lib/royalbed/server/router.cpp:97-110 | names are left alone if and only if none is a dot and two dots come only at the beginning of a relative path |
| `RouterPath.AbsoluteNames` | lib/royalbed/server/router.cpp:97-110 | nothing is above the root: a path that begins with a slash keeps no dots |
| `RouterPath.NamesOfJoin` | lib/royalbed/server/router.cpp:97-110 | normalizing leaves a path alone if and only if its names are clean in this sense, or it is a dot |
| `RouterPath.SpotIs` | lib/royalbed/server/router.cpp:453-456 | where prefix/path leads depends on the prefix and the names in the path only |
| `RouterSearch.SearchVisits` | lib/royalbed/server/router.cpp:318-343 | the invariant of the search at any node and any best node so far |
| `RouterSearch.SearchParamsVisits` | lib/royalbed/server/router.cpp:336-340 | the invariant of the loop over parameter children |
| `RouterSearch.BestNode` | lib/royalbed/server/router.cpp:191-196 | the node where the search from the root ends is the best one: a deepest match, first in child order |
| `RouterTable.LandStep` | lib/royalbed/server/router.cpp:453-457 | one more visited node: its entry lands at its spot, what is on the way is created empty, everything else stays |
| `RouterTable.LandedIsMount` | lib/royalbed/server/router.cpp:451-459 | if all entries stay under the prefix, mounting is `Mount`, whatever the table held before |
| `RouterTable.NearestExceptionIsDeepest` | lib/royalbed/server/router.cpp:374-382 | the exception handler comes from the deepest prefix of the node that has one |
| `RouterTable.ParamAt` | lib/royalbed/server/router.cpp:266-277 | the parameter segments are those that begin with a colon; each is extracted under the name after its colon with the path segment in its place |
| `RouterTable.AddRouteKeeps` | lib/royalbed/server/router.cpp:208-211 | a registration changes one method of one node and nothing else that was there |
| `RouterTree.ShapeValid` | lib/royalbed/server/router.cpp:384-397 | a tree has every ancestor of its nodes and lists each parameter child once |
| `RouterTree.HungIsTree` | lib/royalbed/server/router.cpp:181-186 | hanging a new child keeps the tree invariant (parent pointer, key equal to the segment, parameters apart) and adds one empty entry to the table |
| `RouterTree.RefilledIsTree` | lib/royalbed/server/router.cpp:208-255 | changing what a node holds keeps the tree invariant and changes one entry |
| `RouterTree.Node.constructor` | lib/royalbed/server/router.cpp:160-163 | a new node is empty |
| `RouterTree.Node.CreateChild` | lib/royalbed/server/router.cpp:181-186 | creating a child on the heap |
| `RouterTree.Node.FindOrCreateChild` | lib/royalbed/server/router.cpp:181-186 | the child of a segment, found or created |
| `RouterTree.Node.FindOrCreateIfNotExist` | lib/royalbed/server/router.cpp:175-189 | returns the node at p ++ segments of the tree that results, whose table has the missing nodes on the way added empty and nothing changed |
| `RouterTree.Node.FindNode` | lib/royalbed/server/router.cpp:318-343 | the recursive search with its mutable context computes `Search`, and restores the depth |
| `RouterTree.FindCtx.Entry` | lib/royalbed/server/router.cpp:298-304 | entering a node makes it the best if it is deeper than the best so far |
| `RouterTree.Node.AllowMethods` | lib/royalbed/server/router.cpp:198-206 | lists each handled method once |
| `RouterTree.Node.Middlewares` | lib/royalbed/server/router.cpp:257-264 | the middlewares of the chain of nodes, root first, each in registration order |
| `RouterTree.Node.FindBestHttpErrHandler` | lib/royalbed/server/router.cpp:363-372 | the handler of the nearest node that has one |
| `RouterTree.Node.FindBestExceptionHandler` | lib/royalbed/server/router.cpp:374-382 | the same for exception handlers |
| `RouterTree.Node.ExtractParamsFromPath` | lib/royalbed/server/router.cpp:266-277 | walking parent pointers while cutting the path from the right appends the parameters of the pattern, root first |
| `RouterTree.Node.SetMethodHandler` | lib/royalbed/server/router.cpp:208-211 | the handler of one method at one node, and nothing else in the table |
| `RouterTree.Node.AddMiddleware` | lib/royalbed/server/router.cpp:252-255 | appends to one node |
| `RouterTree.Node.TakeHandlersAndMiddlewares` | lib/royalbed/server/router.cpp:279-286 | takes all five parts of another node and keeps its own place and children |
| `RouterTree.Node.TakeAt` | lib/royalbed/server/router.cpp:279-286 | the table after that |
| `Router.Router.constructor` | lib/royalbed/server/router.cpp:400-402 | an empty root |
| `Router.Router.AddMiddleware` | lib/royalbed/server/router.cpp:445-449 | a middleware of the root |
| `Router.Router.SetNotFoundHandler` | lib/royalbed/server/router.cpp:461-467 | an error handler of the root |
| `Router.Router.SetMethodNotAllowedHandler` | lib/royalbed/server/router.cpp:469-475 | an error handler of the root |
| `Router.Router.SetExceptionHandler` | lib/royalbed/server/router.cpp:477-483 | an exception handler of the root |
| `Router.Router.VisitAndTake` | lib/royalbed/server/router.cpp:345-361 | the visit of a node and all nodes below it brings over exactly their entries |
| `Router.Router.VisitEach` | lib/royalbed/server/router.cpp:353-358 | the loops over the children |
| `Router.Router.TakeOne` | lib/royalbed/server/router.cpp:453-457 | the visitor: one entry more |
| `Router.Router.Destination` | lib/royalbed/server/router.cpp:296-343 | the pattern where searches for a path end: a deepest match, first in child order |
| `Router.Router.FindNode` | lib/royalbed/server/router.cpp:191-196 | the search from the root returns the node at the destination of the path, its depth counted from one, and whether it matches the whole path |
| `Router.Router.AllowMethods` | lib/royalbed/server/router.cpp:522-531 | the methods handled at the node that matches the whole path, none if there is none |
| `LifecycleRuns.IdleTimeoutInRuns` | lib/royalbed/server/connection.cpp:58-80 | the same after every run of a server |
| `LifecycleRuns.AnswerSays` | lib/royalbed/server/session.cpp:222-251 | whether an answer says close and whether it keeps the connection, for each way to an answer |
| `LifecycleRuns.FailureAnswered` | lib/royalbed/server/session.cpp:112-140 | every failure before the answer and every refusal is answered without calling the handler again; a web socket gets no answer |
| `LifecycleRuns.WebSocketRun` | lib/royalbed/server/session.cpp:177-186 | the handshake opens a web socket for the handler, and the session then ends without an answer |
| `Lifecycle.RunKeeps` | lib/royalbed/server/server.cpp:26-129 | the invariant of all runs |
| `Lifecycle.ServerStepKeeps` | lib/royalbed/server/server.cpp:92-111 | one event of the server keeps it |
| `Lifecycle.ConnStepKeeps` | lib/royalbed/server/connection.cpp:58-135 | one event of a connection keeps it and moves each counter by what happened |
| `Lifecycle.SessionStepKeeps` | lib/royalbed/server/session.cpp:112-251 | one event of a session keeps its part |
| `Lifecycle.CloseConnectionKeeps` | lib/royalbed/server/connection.cpp:82-87 | closing a connection finishes its session first, which is counted, and starts none |
| `Lifecycle.EndingRun` | lib/royalbed/server/connection.cpp:104-119 | once the budget is spent or a closing answer is on its way, no run starts a session |
| `LifecycleObjects.ServerImpl.StartSession` | lib/royalbed/server/server.cpp:66-76 | counts a session |
| `LifecycleObjects.ServerImpl.SessionFinished` | lib/royalbed/server/server.cpp:78-82 | counts it off |
| `LifecycleObjects.ServerImpl.ConnectionClosed` | lib/royalbed/server/server.cpp:84-90 | counts a connection off |
| `LifecycleObjects.ServerImpl.AcceptConnection` | lib/royalbed/server/server.cpp:92-111 | counts a connection and opens it with its first session |
| `LifecycleObjects.Connection.ProcessTimeout` | lib/royalbed/server/connection.cpp:58-80 | the timeout as a step of the machine |
| `LifecycleObjects.Connection.SessionFinished` | lib/royalbed/server/connection.cpp:104-119 | the report of a session as a step, also while the connection is closing |
| `LifecycleObjects.Connection.StartSession` | lib/royalbed/server/connection.cpp:121-135 | a new session; its assert that the budget is not spent is a precondition proved at every call |
| `LifecycleObjects.Connection.Cancel` | lib/royalbed/server/connection.cpp:82-87 | closing from outside as a step |
| `LifecycleObjects.Connection.CloseContext` | lib/royalbed/server/connection.cpp:82-87 | the context closes once, its session before it |
| `LifecycleObjects.Session.Finished` | lib/royalbed/server/session.cpp:253-265 | the end of a session, reported once, also from inside its own cancellation |
| `LifecycleObjects.Session.AoContextClose` | lib/royalbed/server/session.cpp:102-110 | cancellation finishes an unfinished session, and the session is deleted once and finished |
| `LifecycleObjects.Session.SendResponse` | lib/royalbed/server/session.cpp:233-251 | the answer, or none on a web socket |
| `LifecycleObjects.Session.DoMiddlewares` | lib/royalbed/server/session.cpp:192-208 | the next middleware or what follows the last |
| `LifecycleObjects.Session.RequestReceived` | lib/royalbed/server/session.cpp:112-122 | the request as a step: routed and given to the first middleware |
| `LifecycleObjects.Session.RequestFailed` | lib/royalbed/server/session.cpp:120-127 | a request that cannot be read as a step |
| `LifecycleObjects.Session.MiddlewareDone` | lib/royalbed/server/session.cpp:199-208 | a middleware returning as a step |
| `LifecycleObjects.Session.MiddlewareThrew` | lib/royalbed/server/session.cpp:120-127 | a middleware failing as a step |
| `LifecycleObjects.Session.HandshakeDone` | lib/royalbed/server/session.cpp:177-186 | the handshake written as a step |
| `LifecycleObjects.Session.HandshakeThrew` | lib/royalbed/server/session.cpp:120-127 | the handshake failing as a step |
| `LifecycleObjects.Session.HandlerDone` | lib/royalbed/server/session.cpp:124-127 | the handler returning as a step |
| `LifecycleObjects.Session.HandlerThrew` | lib/royalbed/server/session.cpp:120-127 | the handler failing as a step |
| `LifecycleObjects.Session.ResponseSent` | lib/royalbed/server/session.cpp:128-131 | the response sent as a step |
| `LifecycleObjects.Session.ResponseLost` | lib/royalbed/server/session.cpp:132-139 | the response lost as a step |

## Left out

- The chunked branch of `BodyReaderImpl::read`: it pushes back bytes beyond what it read, so it keeps no byte count.
- URL, method, status-line and header-value states of llhttp, its strict copy, its SSE4.2 shortcuts and its callbacks returning errors: nothing in the modelled states depends on them.
- Parser state between calls is the stored state (`Parser`); inside a call the goto loop works on a copy of the fields that is stored back at its end.
- RouterPath.Normalizes: `lexically_normal` is modelled by its documented effect on a POSIX path, name by name; root names of other systems are left out.
- Router.Router.Use: what the moved-from handlers of the other router are afterwards is unspecified in the source and not stated; the model leaves them as they were. Of two entries that land at one spot the one visited last is left, and which that is the source does not say either.
- RouterTree.Node.TakeHandlersAndMiddlewares: the same for one node.
- Router.Router.Route: the wrapper that turns a handler's exception into a response appears as `ProcessException`; the default handlers appear as no handler.
- `Router::resources`, the verb shorthands and the default handlers' texts: one-line compositions of the modelled operations.
- `nhope::fromHex`, `std::stoi` and `std::to_string` are modelled by what they are documented to do; `port` is 16 bits wide as in the source.
- WebSocket.Impl.OnRead: one frame per read, as the code assumes; the ping timer, close handshake and unsolicited PONG promises are not modelled, and the read buffer's size is not a limit.
- WebSocketFrame.Parse: when position plus announced length wraps 64 bits the source reads out of bounds; the model answers `Unbounded` there and claims nothing more.
- BodyReader.BodyReaderImpl.Read: errors of the device are not modelled.
- LifecycleObjects.Connection.ProcessTimeout: sending the response 408 and waiting two seconds are one flag, cleared by closing.
- LifecycleObjects.Session.RequestReceived: the route comes with the event; `Lifecycle.ChainFromRouter` says what follows when it is a router's answer.
- Lifecycle.CountersExact: the counters are 32 bits wide and wrap as in the source; the counts they stand for do not.
- Lifecycle.TimeoutIsFinal: what the socket delivers when a 408 response and a session's response overlap is not modelled.
- JSON bodies, static files, swagger pages, MIME tables, request parsing above llhttp, logging and timers' durations.
