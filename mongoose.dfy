/**
 * The boundary of the Mongoose networking library as the test harness sees it:
 * the connection flags it sets, the events its callbacks receive and the two
 * constants it compares against. Mongoose itself (sockets, polling, URL and
 * status-line parsing) is not part of this model; what its calls return is
 * supplied as data.
 */
module Mongoose {
  import opened Bytes

  /** `MG_MAX_HTTP_HEADERS`: the fixed size of `mg_http_message::headers` (Mongoose 7's default). */
  const MaxHttpHeaders: nat := 40

  /** `WEBSOCKET_OP_BINARY`: the binary-frame opcode, section 5.2 of RFC 6455. */
  const WebSocketOpBinary: bv8 := 2

  /** The largest value of a C `int`; `narrow_cast<int>` demands its argument fit. */
  const IntMax: nat := 0x7fff_ffff

  /**
   * An `mg_str` that points into a larger C string: `buf` holds the characters
   * from the pointer to the end of that C string, `len` the stated length.
   */
  datatype MgStr = MgStr(buf: string, len: nat)

  /** One entry of `mg_http_message::headers`; an unused entry has an empty name. */
  datatype MgHttpHeader = MgHttpHeader(name: string, value: string)

  /** The fixed-size header array Mongoose fills when it parses a response. */
  type HeaderArray = s: seq<MgHttpHeader> | |s| == MaxHttpHeaders
    witness seq(MaxHttpHeaders, _ => MgHttpHeader("", ""))

  /** `mg_http_message`: the body, the code `mg_http_status` reads from it, and the headers. */
  datatype MgHttpMessage = MgHttpMessage(body: string, status: int, headers: HeaderArray)

  /** `mg_ws_message`: the frame payload and the first frame byte (`flags`). */
  datatype MgWsMessage = MgWsMessage(data: seq<Byte>, flags: bv8)

  /** The events a Mongoose callback is invoked with, together with their `ev_data`. */
  datatype MgEvent =
    | EvConnect
    | EvHttpMsg(httpMessage: MgHttpMessage)
    | EvWsMsg(wsMessage: MgWsMessage)
    | EvError(errorMessage: string)
    | EvOther(code: int)

  /** The parts of `mg_connection` the harness touches: its close flag and its send buffer. */
  class Connection {
    var isClosing: bool
    var sendBuffer: string

    constructor ()
      ensures !isClosing && sendBuffer == []
    {
      isClosing := false;
      sendBuffer := [];
    }
  }
}
