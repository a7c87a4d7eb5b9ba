/**
 * The framing of a relay message as the viewer-side delegates take it apart:
 * an unsigned 64-bit little-endian thread index in the first 8 bytes, then
 * the trace bytes of that thread. Bytes for one thread accumulate across
 * messages, which is why the delegates keep one reader per thread index.
 */
module RelayFraming {
  import opened Bytes

  /** `256^n`. */
  function Pow256(n: nat): (p: nat)
    ensures p >= 1
  {
    if n == 0 then 1 else 256 * Pow256(n - 1)
  }

  /** One more than the largest `std::uint64_t`. */
  const U64Limit: nat := 0x1_0000_0000_0000_0000

  /** The size of the thread-index prefix. */
  const PrefixSize: nat := 8

  lemma Pow256Of8()
    ensures Pow256(PrefixSize) == U64Limit
  {
    assert Pow256(0) == 1;
    assert Pow256(4) == 256 * 256 * 256 * 256 by {
      assert Pow256(1) == 256;
      assert Pow256(2) == 256 * 256;
      assert Pow256(3) == 256 * 256 * 256;
    }
    assert Pow256(8) == 256 * 256 * 256 * 256 * Pow256(4) by {
      assert Pow256(5) == 256 * Pow256(4);
      assert Pow256(6) == 256 * Pow256(5);
      assert Pow256(7) == 256 * Pow256(6);
    }
  }

  /** The little-endian value of a byte string: the sum of `b[i] * 256^i`. */
  function LeValue(b: seq<Byte>): (v: nat)
    ensures v < Pow256(|b|)
  {
    if b == [] then 0 else b[0] as nat + 256 * LeValue(b[1..])
  }

  /** The `width` low-order bytes of `n`, least significant first. */
  function LeBytes(n: nat, width: nat): (b: seq<Byte>)
    ensures |b| == width
  {
    if width == 0 then [] else [(n % 256) as Byte] + LeBytes(n / 256, width - 1)
  }

  /** The lowest byte of a little-endian string carries the lowest digit of its value. */
  lemma {:induction false} LeValueDigits(b: seq<Byte>)
    requires b != []
    ensures LeValue(b) % 256 == b[0] as nat
    ensures LeValue(b) / 256 == LeValue(b[1..])
  {
    DigitSplit(b[0] as nat, LeValue(b[1..]));
  }

  lemma DigitSplit(d: nat, q: nat)
    requires d < 256
    ensures (d + 256 * q) % 256 == d && (d + 256 * q) / 256 == q
  {
  }

  lemma DivideBelow(n: nat, p: nat)
    requires n < 256 * p
    ensures n / 256 < p
  {
  }

  lemma {:induction false} LeValueOfLeBytes(n: nat, width: nat)
    requires n < Pow256(width)
    ensures LeValue(LeBytes(n, width)) == n
  {
    if width > 0 {
      var b := LeBytes(n, width);
      DivideBelow(n, Pow256(width - 1));
      assert b[1..] == LeBytes(n / 256, width - 1);
      LeValueOfLeBytes(n / 256, width - 1);
    }
  }

  lemma {:induction false} LeBytesOfLeValue(b: seq<Byte>)
    ensures LeBytes(LeValue(b), |b|) == b
  {
    if b != [] {
      LeValueDigits(b);
      LeBytesOfLeValue(b[1..]);
      assert (LeValue(b) % 256) as Byte == b[0];
    }
  }

  /** `checked_binary_reader::u64_le`: the thread index in the first 8 bytes of a message. */
  function DecodeU64Le(b: seq<Byte>): (v: nat)
    requires |b| >= PrefixSize
    ensures v < U64Limit
  {
    Pow256Of8();
    LeValue(b[..PrefixSize])
  }

  /** How the delegates read a message: too short for the prefix, or a thread index and payload. */
  datatype RelayMessage = TinyMessage | Framed(threadIndex: nat, payload: seq<Byte>)

  /**
   * A message shorter than 8 bytes is rejected; otherwise its first 8 bytes
   * decode to the thread index and all remaining bytes are the payload, so
   * re-encoding the result gives back the message.
   */
  function ParseRelayMessage(message: seq<Byte>): (r: RelayMessage)
    ensures r.TinyMessage? <==> |message| < PrefixSize
    ensures r.Framed? ==> r.threadIndex < U64Limit && |r.payload| == |message| - PrefixSize
    ensures r.Framed? ==> EncodeRelayMessage(r.threadIndex, r.payload) == message
  {
    if |message| < PrefixSize then TinyMessage
    else
      var index := DecodeU64Le(message);
      Pow256Of8();
      LeBytesOfLeValue(message[..PrefixSize]);
      assert message == message[..PrefixSize] + message[PrefixSize..];
      Framed(index, message[PrefixSize..])
  }

  /**
   * The message the debug server sends for `payload` of thread `threadIndex`
   * (the relay wire contract); the sending side is not part of this model and
   * this is its reference definition.
   */
  function EncodeRelayMessage(threadIndex: nat, payload: seq<Byte>): (m: seq<Byte>)
    requires threadIndex < U64Limit
    ensures |m| == PrefixSize + |payload|
  {
    LeBytes(threadIndex, PrefixSize) + payload
  }

  /** Every thread index and payload survive the trip through a relay message. */
  lemma ParseEncodeRoundTrip(threadIndex: nat, payload: seq<Byte>)
    requires threadIndex < U64Limit
    ensures ParseRelayMessage(EncodeRelayMessage(threadIndex, payload)) == Framed(threadIndex, payload)
  {
    var m := EncodeRelayMessage(threadIndex, payload);
    assert m[..PrefixSize] == LeBytes(threadIndex, PrefixSize);
    assert m[PrefixSize..] == payload;
    Pow256Of8();
    LeValueOfLeBytes(threadIndex, PrefixSize);
  }

  /** The bytes accumulated so far for thread `t`: none for an unseen thread. */
  function ReaderBytes(readers: map<nat, seq<Byte>>, t: nat): seq<Byte> {
    if t in readers then readers[t] else []
  }

  /**
   * The effect of one framed message on the per-thread readers: the reader
   * for its thread is created empty if missing and the payload appended to
   * it; every other reader is left as it was.
   */
  function ApplyRelayFrame(readers: map<nat, seq<Byte>>, threadIndex: nat, payload: seq<Byte>): (r: map<nat, seq<Byte>>)
    ensures r.Keys == readers.Keys + {threadIndex}
    ensures ReaderBytes(r, threadIndex) == ReaderBytes(readers, threadIndex) + payload
    ensures forall t | t != threadIndex :: ReaderBytes(r, t) == ReaderBytes(readers, t)
  {
    readers[threadIndex := ReaderBytes(readers, threadIndex) + payload]
  }

  /** A sequence of framed messages, in the order they are received. */
  type Frames = seq<(nat, seq<Byte>)>

  function Replay(readers: map<nat, seq<Byte>>, frames: Frames): map<nat, seq<Byte>> {
    if frames == [] then readers
    else
      var last := frames[|frames| - 1];
      ApplyRelayFrame(Replay(readers, frames[..|frames| - 1]), last.0, last.1)
  }

  /** The payloads of thread `t` among `frames`, concatenated in order. */
  function PayloadsFor(frames: Frames, t: nat): seq<Byte> {
    if frames == [] then []
    else
      var last := frames[|frames| - 1];
      PayloadsFor(frames[..|frames| - 1], t) + (if last.0 == t then last.1 else [])
  }

  /** The thread indexes that occur among `frames`. */
  function IndexesOf(frames: Frames): set<nat> {
    set k | 0 <= k < |frames| :: frames[k].0
  }

  lemma IndexesOfSnoc(frames: Frames)
    requires frames != []
    ensures IndexesOf(frames) == IndexesOf(frames[..|frames| - 1]) + {frames[|frames| - 1].0}
  {
    var init := frames[..|frames| - 1];
    forall x | x in IndexesOf(frames) ensures x in IndexesOf(init) + {frames[|frames| - 1].0} {
      var k :| 0 <= k < |frames| && frames[k].0 == x;
      if k < |frames| - 1 { assert init[k] == frames[k]; }
    }
    forall x | x in IndexesOf(init) ensures x in IndexesOf(frames) {
      var k :| 0 <= k < |init| && init[k].0 == x;
      assert frames[k] == init[k];
    }
  }

  /**
   * After any sequence of messages each thread's reader holds exactly that
   * thread's payloads in arrival order, with nothing lost, duplicated or
   * taken from another thread.
   */
  lemma {:induction false} ReplayCollectsPerThread(readers: map<nat, seq<Byte>>, frames: Frames, t: nat)
    ensures ReaderBytes(Replay(readers, frames), t) == ReaderBytes(readers, t) + PayloadsFor(frames, t)
  {
    if frames != [] {
      var init := frames[..|frames| - 1];
      var last := frames[|frames| - 1];
      ReplayCollectsPerThread(readers, init, t);
      var before := Replay(readers, init);
      var extra: seq<Byte> := if last.0 == t then last.1 else [];
      assert ReaderBytes(Replay(readers, frames), t) == ReaderBytes(before, t) + extra by {
        FrameStep(before, last.0, last.1, t);
      }
      assert ReaderBytes(before, t) + extra == ReaderBytes(readers, t) + (PayloadsFor(init, t) + extra);
    }
  }

  /** One frame adds its payload to its own thread's bytes and to no other's. */
  lemma FrameStep(readers: map<nat, seq<Byte>>, threadIndex: nat, payload: seq<Byte>, t: nat)
    ensures ReaderBytes(ApplyRelayFrame(readers, threadIndex, payload), t)
      == ReaderBytes(readers, t) + (if threadIndex == t then payload else [])
  {
    if threadIndex != t {
      assert ReaderBytes(readers, t) + [] == ReaderBytes(readers, t);
    }
  }

  /** A reader exists exactly for the threads already present and those some message named. */
  lemma {:induction false} ReplayCreatesReadersForSeenThreads(readers: map<nat, seq<Byte>>, frames: Frames)
    ensures Replay(readers, frames).Keys == readers.Keys + IndexesOf(frames)
  {
    if frames != [] {
      IndexesOfSnoc(frames);
      ReplayCreatesReadersForSeenThreads(readers, frames[..|frames| - 1]);
    } else {
      assert IndexesOf(frames) == {};
    }
  }
}
