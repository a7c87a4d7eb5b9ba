/**
 * `http_websocket_client` and the delegates the debug-server tests hand it:
 * opcode dispatch per section 5.2 of RFC 6455, `stop`, and the framing and
 * per-thread routing each delegate's `on_message_binary` performs.
 */
module WebSocketClient {
  import opened Bytes
  import opened Mongoose
  import opened RelayFraming

  /** The opcode of a frame: the low four bits of its first byte (`flags & 0xf`). */
  function WebSocketOpcode(flags: bv8): (op: bv8)
    ensures op as int == flags as int % 16
  {
    flags & 0xf
  }

  /** What the client's callback does with an event. */
  datatype Action = DeliverBinary(message: seq<Byte>) | StopClient | Unimplemented(opcode: bv8) | Ignore

  /**
   * Only a WebSocket message with the binary opcode reaches the delegate, with
   * the frame's data unchanged; any other opcode is unimplemented; a protocol
   * error stops the client; every other event is ignored.
   */
  function Dispatch(ev: MgEvent): (a: Action)
    ensures a.DeliverBinary? <==> ev.EvWsMsg? && ev.wsMessage.flags as int % 16 == WebSocketOpBinary as int
    ensures a.DeliverBinary? ==> a.message == ev.wsMessage.data
    ensures a.Unimplemented? <==> ev.EvWsMsg? && ev.wsMessage.flags as int % 16 != WebSocketOpBinary as int
    ensures a.Unimplemented? ==> a.opcode as int == ev.wsMessage.flags as int % 16
    ensures a.StopClient? <==> ev.EvError?
  {
    match ev
    case EvWsMsg(wm) =>
      var op := WebSocketOpcode(wm.flags);
      if op == WebSocketOpBinary then DeliverBinary(wm.data) else Unimplemented(op)
    case EvError(_) => StopClient
    case _ => Ignore
  }

  /** The FIN and RSV bits do not affect dispatch: only the low nibble decides. */
  lemma DispatchIgnoresHighBits(data: seq<Byte>, flags: bv8, high: bv8)
    requires high & 0xf == 0
    ensures Dispatch(EvWsMsg(MgWsMessage(data, flags | high))) == Dispatch(EvWsMsg(MgWsMessage(data, flags)))
  {
    assert (flags | high) & 0xf == flags & 0xf;
  }

  /**
   * `trace_reader`, as an accumulator of the bytes appended to it. Decoding
   * them into events (`pull_new_events`) is not part of this model.
   */
  datatype TraceReader = TraceReader(buffered: seq<Byte>)
  {
    /** `append_bytes`: the new bytes go after those already buffered. */
    function AppendBytes(data: seq<Byte>): (r: TraceReader)
      ensures |r.buffered| == |buffered| + |data|
      ensures r.buffered[..|buffered|] == buffered && r.buffered[|buffered|..] == data
    {
      TraceReader(buffered + data)
    }
  }

  /** A default-constructed `trace_reader`. */
  const EmptyReader: TraceReader := TraceReader([])

  /** The bytes each reader of `readers` has accumulated. */
  function BufferedBytes(readers: map<nat, TraceReader>): (m: map<nat, seq<Byte>>)
    ensures m.Keys == readers.Keys
    ensures forall i | i in readers :: m[i] == readers[i].buffered
  {
    map i | i in readers :: readers[i].buffered
  }

  /**
   * The delegate shape shared by the vector-profile and LSP-document tests:
   * it remembers the client it is serving and keeps one trace reader per
   * thread index in `trace_readers`.
   */
  class ReaderMapDelegate {
    var currentClient: HttpWebSocketClient?
    var traceReaders: map<nat, TraceReader>

    constructor ()
      ensures currentClient == null && traceReaders == map[]
    {
      currentClient := null;
      traceReaders := map[];
    }

    /**
     * `get_trace_reader` (`try_emplace`): the existing reader for a known
     * index, otherwise a new empty one inserted under that index; no other
     * entry changes.
     */
    method GetTraceReader(threadIndex: nat) returns (r: TraceReader)
      modifies this`traceReaders
      ensures threadIndex in old(traceReaders) ==> r == old(traceReaders)[threadIndex] && traceReaders == old(traceReaders)
      ensures threadIndex !in old(traceReaders) ==> r == EmptyReader && traceReaders == old(traceReaders)[threadIndex := EmptyReader]
      ensures threadIndex in traceReaders && traceReaders[threadIndex] == r
    {
      if threadIndex !in traceReaders {
        traceReaders := traceReaders[threadIndex := EmptyReader];
      }
      r := traceReaders[threadIndex];
    }

    /**
     * `on_message_binary`: a message too short for the 8-byte prefix stops
     * the client and touches no reader; any other message appends its
     * payload to the reader of the thread its prefix names.
     */
    method OnMessageBinary(client: HttpWebSocketClient, message: seq<Byte>)
      requires client.currentConnection != null
      modifies this, client`done, client.currentConnection`isClosing
      ensures ParseRelayMessage(message).TinyMessage? ==>
        && client.done && client.currentConnection.isClosing
        && currentClient == client && traceReaders == old(traceReaders)
      ensures ParseRelayMessage(message).Framed? ==>
        && client.done == old(client.done) && client.currentConnection.isClosing == old(client.currentConnection.isClosing)
        && currentClient == null
        && BufferedBytes(traceReaders)
          == ApplyRelayFrame(BufferedBytes(old(traceReaders)), ParseRelayMessage(message).threadIndex, ParseRelayMessage(message).payload)
    {
      currentClient := client;
      match ParseRelayMessage(message) {
        case TinyMessage =>
          client.Stop();
        case Framed(threadIndex, payload) =>
          var r := GetTraceReader(threadIndex);
          traceReaders := traceReaders[threadIndex := r.AppendBytes(payload)];
          AppendedBuffered(old(traceReaders), threadIndex, payload);
          currentClient := null;
      }
    }
  }

  /** Appending to one reader of the map grows that thread's bytes only. */
  lemma AppendedBuffered(readers: map<nat, TraceReader>, threadIndex: nat, payload: seq<Byte>)
    ensures var r := if threadIndex in readers then readers[threadIndex] else EmptyReader;
      BufferedBytes(readers[threadIndex := r.AppendBytes(payload)])
        == ApplyRelayFrame(BufferedBytes(readers), threadIndex, payload)
  {
    var r := if threadIndex in readers then readers[threadIndex] else EmptyReader;
    var after, expected := BufferedBytes(readers[threadIndex := r.AppendBytes(payload)]), ApplyRelayFrame(BufferedBytes(readers), threadIndex, payload);
    assert after.Keys == expected.Keys;
    forall i | i in after.Keys ensures after[i] == expected[i] {
      assert ReaderBytes(expected, i) == expected[i];
    }
  }

  /**
   * The delegate of the trace-data test: it records the thread index of
   * every message that carries trace bytes and stops after the second.
   */
  class ThreadIndexDelegate {
    var receivedThreadIndexes: seq<nat>

    constructor ()
      ensures receivedThreadIndexes == []
    {
      receivedThreadIndexes := [];
    }

    /**
     * `on_message_binary`: a message shorter than 8 bytes stops the client;
     * a prefix-only message is ignored; otherwise its thread index is
     * recorded and the client stopped once two indexes have been recorded.
     */
    method OnMessageBinary(client: HttpWebSocketClient, message: seq<Byte>)
      requires client.currentConnection != null
      modifies this, client`done, client.currentConnection`isClosing
      ensures ParseRelayMessage(message).TinyMessage? ==>
        client.done && client.currentConnection.isClosing && receivedThreadIndexes == old(receivedThreadIndexes)
      ensures ParseRelayMessage(message).Framed? && ParseRelayMessage(message).payload == [] ==>
        && client.done == old(client.done) && client.currentConnection.isClosing == old(client.currentConnection.isClosing)
        && receivedThreadIndexes == old(receivedThreadIndexes)
      ensures ParseRelayMessage(message).Framed? && ParseRelayMessage(message).payload != [] ==>
        && receivedThreadIndexes == old(receivedThreadIndexes) + [ParseRelayMessage(message).threadIndex]
        && (if |receivedThreadIndexes| >= 2 then client.done && client.currentConnection.isClosing
            else client.done == old(client.done) && client.currentConnection.isClosing == old(client.currentConnection.isClosing))
    {
      match ParseRelayMessage(message) {
        case TinyMessage =>
          client.Stop();
        case Framed(threadIndex, payload) =>
          // A message holding only the prefix is ignored.
          if payload != [] {
            receivedThreadIndexes := receivedThreadIndexes + [threadIndex];
            if |receivedThreadIndexes| >= 2 {
              client.Stop();
            }
          }
      }
    }
  }

  /** The abstract state of a delegate: its current client and readers, or the indexes it recorded. */
  datatype DelegateState =
    | ReaderMapState(currentClient: HttpWebSocketClient?, buffered: map<nat, seq<Byte>>)
    | ThreadIndexesState(receivedThreadIndexes: seq<nat>)

  /** The `http_websocket_client_delegate` a client was created with. */
  datatype Delegate = ReaderMap(readerMap: ReaderMapDelegate) | ThreadIndexes(threadIndexes: ThreadIndexDelegate)
  {
    /** The object that handles messages. */
    function Object(): object {
      match this
      case ReaderMap(d) => d
      case ThreadIndexes(d) => d
    }

    ghost function State(): DelegateState
      reads Object()
    {
      match this
      case ReaderMap(d) => ReaderMapState(d.currentClient, BufferedBytes(d.traceReaders))
      case ThreadIndexes(d) => ThreadIndexesState(d.receivedThreadIndexes)
    }
  }

  /** What a callback can change: the client's done flag, the connection's close flag, the delegate. */
  datatype Observation = Observation(done: bool, closing: bool, delegate: DelegateState)

  /**
   * The delegate's `on_message_binary` contract, stated over what a client
   * observes before and after handing `m` to the delegate (`client` is the
   * client that made the call).
   */
  ghost predicate DeliveredBinary(client: HttpWebSocketClient, before: Observation, after: Observation, m: seq<Byte>) {
    match (before.delegate, after.delegate, ParseRelayMessage(m))
    case (ReaderMapState(_, b0), ReaderMapState(client1, b1), TinyMessage) =>
      after.done && after.closing && client1 == client && b1 == b0
    case (ReaderMapState(_, b0), ReaderMapState(client1, b1), Framed(threadIndex, payload)) =>
      && after.done == before.done && after.closing == before.closing && client1 == null
      && b1 == ApplyRelayFrame(b0, threadIndex, payload)
    case (ThreadIndexesState(r0), ThreadIndexesState(r1), TinyMessage) =>
      after.done && after.closing && r1 == r0
    case (ThreadIndexesState(r0), ThreadIndexesState(r1), Framed(threadIndex, payload)) =>
      if payload == [] then
        after.done == before.done && after.closing == before.closing && r1 == r0
      else
        && r1 == r0 + [threadIndex]
        && (if |r1| >= 2 then after.done && after.closing
            else after.done == before.done && after.closing == before.closing)
    case _ => false
  }

  class HttpWebSocketClient {
    var done: bool
    const delegate: Delegate
    var currentConnection: Connection?

    constructor (delegate: Delegate)
      ensures this.delegate == delegate && !done && currentConnection == null
    {
      this.delegate := delegate;
      done := false;
      currentConnection := null;
    }

    /** `stop`: marks the client done and the connection being served as closing. */
    method Stop()
      requires currentConnection != null
      modifies this`done, currentConnection`isClosing
      ensures done && currentConnection.isClosing
    {
      done := true;
      currentConnection.isClosing := true;
    }

    /** What a callback serving connection `c` can observe. */
    ghost function Observe(c: Connection): Observation
      reads this, c, delegate.Object()
    {
      Observation(done, c.isClosing, delegate.State())
    }

    /** `delegate_->on_message_binary(this, data, len)`. */
    method DeliverBinary(message: seq<Byte>)
      requires currentConnection != null
      modifies this`done, currentConnection`isClosing, delegate.Object()
      ensures DeliveredBinary(this, old(Observe(currentConnection)), Observe(currentConnection), message)
    {
      match delegate {
        case ReaderMap(d) => d.OnMessageBinary(this, message);
        case ThreadIndexes(d) => d.OnMessageBinary(this, message);
      }
    }

    /**
     * `callback`: records the connection for the duration of the call, acts
     * on the event as `Dispatch` says, and clears the connection again. An
     * unimplemented opcode aborts (`QLJS_UNIMPLEMENTED`), reported as `aborted`.
     */
    method Callback(c: Connection, ev: MgEvent) returns (aborted: bool)
      modifies this, c`isClosing, delegate.Object()
      ensures aborted <==> Dispatch(ev).Unimplemented?
      ensures !aborted ==> currentConnection == null
      ensures aborted ==> currentConnection == c
      ensures Dispatch(ev).DeliverBinary? ==> DeliveredBinary(this, old(Observe(c)), Observe(c), ev.wsMessage.data)
      ensures Dispatch(ev).StopClient? ==> done && c.isClosing && delegate.State() == old(delegate.State())
      ensures Dispatch(ev).Ignore? || aborted ==> Observe(c) == old(Observe(c))
    {
      currentConnection := c;
      var action := Dispatch(ev);
      if action.Unimplemented? {
        return true;
      }
      match action {
        case DeliverBinary(message) =>
          DeliverBinary(message);
        case StopClient =>
          Stop();
        case _ =>
      }
      currentConnection := null;
      return false;
    }
  }
}
