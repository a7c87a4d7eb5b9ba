# quick-lint-js debug-server test clients, modelled in Dafny

quick-lint-js's debug-server test (`test/test-debug-server.cpp`) drives the
server through two small client helpers built on Mongoose:

- `http_fetch` sends one GET request and collects the `http_response`:
  status, body and header fields.
- `http_websocket_client` connects to a WebSocket endpoint. It hands every
  binary frame to a test delegate. The delegates split each message into an
  8-byte little-endian thread index and a payload. They append the payload
  to a per-thread `trace_reader`, or record the index, and stop the client
  when they are done.

This project models those helpers. The modules are:

- `Wrappers`: `Option`.
- `Bytes`: a byte type.
- `Mongoose`: the library boundary. It holds the connection object with its
  `is_closing` flag and send buffer, the event and message records, and the
  constants `MG_MAX_HTTP_HEADERS` and `WEBSOCKET_OP_BINARY`.
- `HttpResponses`: `http_response`, `strings_equal_case_insensitive` and
  header lookup.
- `HttpFetch`: the bytes `mg_printf` writes on connect, the header copy loop,
  the `state` callback as a class, and how `http_fetch` picks its result.
- `RelayFraming`: the thread-index prefix and how per-thread readers
  accumulate payloads.
- `WebSocketClient`: opcode dispatch, `stop`, `callback`, and the two shapes
  of delegate.

The two vector-profile tests and the two LSP-document tests all use the same
delegate shape. It sets `current_client`, rejects messages shorter than
8 bytes, and appends the payload to `get_trace_reader(thread_index)`. That
shape is modelled once, as `ReaderMapDelegate`, which covers
`test/test-debug-server.cpp` lines 167-239, 255-357, 505-572 and 589-679.
The trace-data test's delegate (lines 400-472) is `ThreadIndexDelegate`.

The C++ calls `on_message_binary` through a virtual function. In the model,
a `Delegate` datatype names one of the two delegate classes. The client
observes the delegate through an abstract state: its current client and the
bytes per thread, or the list of recorded indexes. `DeliveredBinary` states
each delegate's contract over that state.

Notes on how the model reads the source:

- `get_last_header_value_or_empty` returns the value of the *first* matching
  field, despite its name. The model does the same, and its contract says so.
- `http_fetch` narrows `host.len` to `int` before printing, so the connect
  branch of `FetchState.Callback` requires the length to fit in 31 bits.
- The error message of `MG_EV_ERROR` is a C string. The recorded protocol
  error is therefore the text before the first NUL, and an error whose text
  is empty does not make `http_fetch` fail.
- `current_connection_` has no initialiser in the C++ class. The model starts
  it as `null`.
- Each `char` of a Dafny `string` stands for one byte of the C++
  `std::string`. The `%.*s` precision and `host.len` therefore count bytes.
- `%s` and `%.*s` are read with C `printf` semantics: output stops at a NUL.
  Mongoose's own formatter is not part of this model.

## Model

| member | source | states |
|---|---|---|
| HttpResponses.StringsEqualCaseInsensitive | test/test-debug-server.cpp:702-705 | true exactly when the strings have the same length and agree position by position after ASCII lower-casing |
| HttpResponses.CaseInsensitiveIffLoweredEqual | test/test-debug-server.cpp:702-705 | the comparison holds if and only if the lower-cased strings are equal |
| HttpResponses.CaseInsensitiveIsEquivalence | test/test-debug-server.cpp:702-705 | the comparison is reflexive, symmetric and transitive |
| HttpResponses.LowerCaseNameMatchesLoweredOnly | test/test-debug-server.cpp:702-715 | a name without upper-case letters matches exactly the strings that lower-case to it |
| HttpResponses.HttpResponse.Failed | test/test-debug-server.cpp:43-50 | a failed response has no status, no body and no fields, so it converts to false |
| HttpResponses.HttpResponse.Truthy | test/test-debug-server.cpp:48-50 | true exactly when a status is present |
| HttpResponses.HttpResponse.GetLastHeaderValueOrEmpty | test/test-debug-server.cpp:707-715 | returns "" when no field name matches case-insensitively, otherwise the value of the first matching field |
| HttpFetch.CString | test/test-debug-server.cpp:730-735 | what `%s` prints is the prefix before the first NUL |
| HttpFetch.PrecisionString | test/test-debug-server.cpp:730-735 | what `%.*s` prints is at most `precision` characters of the prefix before the first NUL |
| HttpFetch.FormatGetRequest | test/test-debug-server.cpp:730-735 | the request line for the `%s` target, a Host field of the `%.*s` host, then an empty line: it starts with "GET ", ends with two CR LF pairs, and is 25 bytes longer than target and host together |
| HttpFetch.FormattedRequestRoundTrip | test/test-debug-server.cpp:728-736 | when neither target nor host holds a CR, parsing the written request as a request line and a Host field gives back exactly the printed target and host |
| HttpFetch.FormatGetRequestInjective | test/test-debug-server.cpp:728-736 | when neither printed target nor printed host holds a CR, different targets or hosts give different requests |
| HttpFetch.NamedPrefix | test/test-debug-server.cpp:744-752 | the copied fields are the longest prefix of the parsed headers with non-empty names, in order, as (name, value) pairs |
| HttpFetch.NamedPrefixCapped | test/test-debug-server.cpp:744 | at most MG_MAX_HTTP_HEADERS fields are copied |
| HttpFetch.FinishFetch | test/test-debug-server.cpp:775-790 | the collected response is returned when a connection was opened and no protocol error was recorded; otherwise an empty response is returned |
| HttpFetch.FetchResultTruthy | test/test-debug-server.cpp:775-790 | a fetch's result is true exactly when it connected, recorded no error and received a status |
| HttpFetch.FetchState.constructor | test/test-debug-server.cpp:720-724 | a new state has an empty response, is not done and has no protocol error |
| HttpFetch.FetchState.Callback | test/test-debug-server.cpp:726-768 | on connect, the GET request is appended to the send buffer. On an HTTP message, the body and status are stored, the named header prefix is appended, and the fetch is done and the connection closing. On an error, its C-string text is recorded, and the fetch is done and the connection closing. Any other event changes nothing |
| RelayFraming.DecodeU64Le | test/test-debug-server.cpp:179-182 | the first 8 bytes read as a little-endian value below 2^64 |
| RelayFraming.LeValueOfLeBytes | test/test-debug-server.cpp:182 | decoding the little-endian encoding of a value that fits gives back the value |
| RelayFraming.LeBytesOfLeValue | test/test-debug-server.cpp:182 | encoding the decoded value of any bytes gives back those bytes |
| RelayFraming.ParseRelayMessage | test/test-debug-server.cpp:172-185 | a message is rejected exactly when it is shorter than 8 bytes; otherwise the index is below 2^64, the payload is everything after the prefix, and re-encoding gives back the message |
| RelayFraming.ParseEncodeRoundTrip | test/test-debug-server.cpp:179-185 | every thread index below 2^64 and every payload survive encoding and parsing |
| RelayFraming.ApplyRelayFrame | test/test-debug-server.cpp:184-185 | the frame's thread gains a reader if it had none and gets the payload appended; every other thread's bytes are unchanged |
| RelayFraming.ReplayCollectsPerThread | test/test-debug-server.cpp:184-185 | after any sequence of frames, each thread's reader holds its earlier bytes followed by that thread's payloads in arrival order |
| RelayFraming.ReplayCreatesReadersForSeenThreads | test/test-debug-server.cpp:231-234 | after any sequence of frames, readers exist exactly for the threads present before and the threads some frame named |
| WebSocketClient.WebSocketOpcode | test/test-debug-server.cpp:831 | the opcode is the first byte modulo 16 |
| WebSocketClient.Dispatch | test/test-debug-server.cpp:828-851 | a frame reaches the delegate, with its data unchanged, if and only if its low nibble is the binary opcode. Any other opcode is unimplemented. A protocol error stops the client, and every other event is ignored |
| WebSocketClient.DispatchIgnoresHighBits | test/test-debug-server.cpp:831-833 | the FIN and RSV bits do not change what happens to a frame |
| WebSocketClient.TraceReader.AppendBytes | test/test-debug-server.cpp:185 | the appended bytes follow the bytes already buffered |
| WebSocketClient.ReaderMapDelegate.constructor | test/test-debug-server.cpp:236-237 | a new delegate has no current client and no readers |
| WebSocketClient.ReaderMapDelegate.GetTraceReader | test/test-debug-server.cpp:231-234 | returns the existing reader for a known index; otherwise it inserts an empty reader under that index and changes no other entry |
| WebSocketClient.AppendedBuffered | test/test-debug-server.cpp:184-185 | writing the appended reader back under its index has the effect of ApplyRelayFrame on the bytes per thread |
| WebSocketClient.ReaderMapDelegate.OnMessageBinary | test/test-debug-server.cpp:169-229 | a message under 8 bytes stops the client, leaves the readers alone and leaves `current_client` set. Any other message is parsed by ParseRelayMessage; its payload is appended to the reader of its thread index, as ApplyRelayFrame states, and `current_client` is cleared |
| WebSocketClient.ThreadIndexDelegate.OnMessageBinary | test/test-debug-server.cpp:402-469 | a message under 8 bytes stops the client, and a prefix-only message changes nothing. Otherwise the thread index ParseRelayMessage reads is appended to the recorded list, and the client is stopped once two or more are recorded |
| WebSocketClient.ThreadIndexDelegate.constructor | test/test-debug-server.cpp:471 | no index is recorded |
| WebSocketClient.HttpWebSocketClient.constructor | test/test-debug-server.cpp:856-858 | a new client is not done and keeps the given delegate |
| WebSocketClient.HttpWebSocketClient.Stop | test/test-debug-server.cpp:819-822 | the client is done and the current connection is closing |
| WebSocketClient.HttpWebSocketClient.DeliverBinary | test/test-debug-server.cpp:834 | the delegate's state, the done flag and the closing flag change as DeliveredBinary states for that delegate |
| WebSocketClient.HttpWebSocketClient.Callback | test/test-debug-server.cpp:824-854 | aborts exactly on an unimplemented opcode, leaving the connection recorded and nothing else changed. A binary frame is delivered as DeliveredBinary states. An error stops the client without touching the delegate, and other events change nothing. After every call that does not abort, no connection is recorded |

## Left out

- Networking is out of scope: `mg_http_connect`, `mg_ws_connect`, the
  `mg_mgr_poll` loops and the one-second deadline of `connect_and_run`
  (test/test-debug-server.cpp:771-783, 797-817). The callbacks are modelled
  as methods that receive each event. `FinishFetch` takes "a connection was
  opened" as a parameter.
- URL parsing (`mg_url_host`, `mg_url_uri`) is library code. Their results
  are inputs of `FetchState`.
- `mg_http_status` is library code. The model passes the parsed status
  through.
- `trace_reader::pull_new_events` and the event switches of every delegate
  are out of scope, along with the checks those switches make
  (test/test-debug-server.cpp:187-226, 277-343, 429-460, 525-559,
  613-664). The decoding lives in trace-reader code that is not part of this
  model. The readers are modelled as byte accumulators.
- WebSocketClient.ReaderMapDelegate.OnMessageBinary: for a framed message the
  model never stops the client and always clears `current_client`. The
  source's switch may do either (test/test-debug-server.cpp:187-226,
  277-343, 525-559, 613-664). All four delegates call
  `current_client->stop()` from it (lines 192, 308, 529, 635). Two of them
  return from it with a plain `return;` (lines 305, 632), and a failed
  `ASSERT_EQ` also returns. Both kinds of return leave `current_client` set.
- WebSocketClient.ReaderMapDelegate.GetTraceReader: the C++ returns a
  reference into the map. The model returns the reader's value, and
  `OnMessageBinary` stores the appended reader back under the same index.
  Reference aliasing is therefore not modelled.
- The test bodies are out of scope: starting `debug_server`, the threads
  and mutexes they use, and the checks on what the server serves
  (test/test-debug-server.cpp:85-700, apart from the delegates modelled
  above). The debug server, the trace flusher, the vector instrumentation
  and the LSP document tracking they exercise are not part of this model.
- The `http_fetch(const std::string &)` overload
  (test/test-debug-server.cpp:793-795) only forwards to the `const char *`
  overload, which is modelled.
- `std::tolower` depends on the C locale. The model folds ASCII letters
  only, which is what the "C" locale does.
- `MG_MAX_HTTP_HEADERS` is defined in `mongoose.h`, which is not part of
  this model. The model uses Mongoose 7's default of 40.
- `QLJS_UNIMPLEMENTED` terminates the process. The model reports it as
  the `aborted` result of `Callback` and makes no further change.
- `ADD_FAILURE`, `EXPECT_*` and gtest reporting are not modelled. Only the
  state changes made beside them are.
- The request written on connect is checked by a reference parser for the
  request line and the Host field (`ParseGetRequest`). The server's own
  HTTP parser is not part of this model.
