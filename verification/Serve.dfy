/** Serving the streams of a connection: src/edge/serve.rs. */
module Serve {
  import opened Bytes
  import opened Framing
  import opened FramingTheorems

  // ---------------------------------------------------------------------------
  // The preamble of a stream, and the exact hand-over of what follows it.

  const DATA_SIGNATURE: seq<Byte> := [0x0A, 0x36, 0xCD, 0x12, 0xA1, 0x3E]
  const RPC_SIGNATURE: seq<Byte> := [0x52, 0xBB, 0x82, 0x5C, 0xDB, 0x65]
  const PROTOCOL_V1: seq<Byte> := [48, 49]

  datatype ConnectionType = Http | Websocket | Tcp

  /** Decoding of a connect request, taken as an arbitrary function. */
  type ConnectDecoder = seq<Segment> -> Option<ConnectionType>

  /** Which handler takes over, or why none does. */
  datatype Handover =
    | ToRpc
    | ToOrigin(kind: ConnectionType, request: seq<Segment>)
    | NoSignature
    | BadVersion
    | BadRequest
    | Broken(error: IoError)

  datatype Dispatch = Dispatch(handover: Handover, rest: seq<Byte>)

  function DispatchOf(decode: ConnectDecoder, input: seq<Byte>): Dispatch {
    if |input| < 6 then Dispatch(Broken(Eof), [])
    else if input[..6] == RPC_SIGNATURE then Dispatch(ToRpc, input[6..])
    else if input[..6] != DATA_SIGNATURE then Dispatch(NoSignature, input[6..])
    else if |input| < 8 then Dispatch(Broken(Eof), [])
    else if input[6..8] != PROTOCOL_V1 then Dispatch(BadVersion, input[8..])
    else
      var r := ReadFrame(input[8..]);
      Dispatch(if r.Message? then OriginFor(decode, r.segments) else Broken(r.error), input[8..][r.consumed..])
  }

  /** The handler for a connect request, by the type of connection it asks for. */
  function OriginFor(decode: ConnectDecoder, request: seq<Segment>): Handover {
    match decode(request)
    case None => BadRequest
    case Some(kind) => ToOrigin(kind, request)
  }

  method ServeStream(stream: Source, decode: ConnectDecoder) returns (h: Handover)
    modifies stream
    ensures h == Broken(Transport) ==> stream.faulty && IsRest(old(stream.input), stream.input)
    ensures stream.failed == (old(stream.failed) || h == Broken(Transport))
    ensures h != Broken(Transport) ==> Dispatch(h, stream.input) == DispatchOf(decode, old(stream.input))
  {
    var signature := new Byte[6];
    var error := ReadExact(stream, signature);
    if error.Some? {
      return Broken(error.value);
    }
    if signature[..] == RPC_SIGNATURE {
      return ToRpc;
    }
    if signature[..] != DATA_SIGNATURE {
      return NoSignature;
    }
    var version := new Byte[2];
    error := ReadExact(stream, version);
    if error.Some? {
      return Broken(error.value);
    }
    assert version[..] == old(stream.input)[6..8];
    if version[..] != PROTOCOL_V1 {
      return BadVersion;
    }
    assert stream.input == old(stream.input)[8..];
    var request := ReadMessage(stream);
    if request.Failure? {
      return Broken(request.error);
    }
    h := OriginFor(decode, request.value);
  }

  /** The bytes that open a data stream, in either direction. */
  ghost function Preamble(segments: seq<Segment>, pad: seq<Byte>): seq<Byte>
    requires ValidMessage(segments) && |pad| == PadLength(|segments|)
  {
    DATA_SIGNATURE + PROTOCOL_V1 + PrintFrame(segments, pad)
  }

  /** Writes the preamble of a response; `framed` is the serialized connect response. */
  method WriteResponsePreamble(sink: Sink, framed: seq<Byte>) returns (error: Option<IoError>)
    modifies sink
    ensures var whole := [0x0A, 0x36, 0xCD, 0x12, 0xA1, 0x3E] + [48, 49] + framed;
            && old(sink.output) <= sink.output <= old(sink.output) + whole
            && (error == None ==> sink.output == old(sink.output) + whole)
    ensures error.Some? ==> error == sink.trouble
    ensures old(sink.trouble) == None ==> error == sink.trouble
    ensures !sink.faulty ==> error == None
  {
    error := WriteAll(sink, DATA_SIGNATURE);
    if error.Some? {
      return;
    }
    error := WriteAll(sink, PROTOCOL_V1);
    if error.Some? {
      return;
    }
    error := WriteAll(sink, framed);
  }

  /**
    A stream reaches the origin handler for `kind` exactly when it starts with the preamble of a request
    that decodes to that type, and the handler then finds exactly the bytes behind it: none of the body
    is lost, none of the preamble is left.
   */
  lemma OriginGetsExactBody(decode: ConnectDecoder, input: seq<Byte>, kind: ConnectionType,
                            segments: seq<Segment>, body: seq<Byte>)
    ensures DispatchOf(decode, input) == Dispatch(ToOrigin(kind, segments), body) <==>
            decode(segments) == Some(kind) && StartsWithRequest(input, segments, body)
  {
    if DispatchOf(decode, input) == Dispatch(ToOrigin(kind, segments), body) {
      DispatchedHasPreamble(decode, input, segments, body);
    }
    if pad :| ValidMessage(segments) && |pad| == PadLength(|segments|) && input == Preamble(segments, pad) + body {
      PreambleDispatches(decode, segments, pad, body);
    }
  }

  /** A request that does not decode reaches no handler, and that is the only such case behind a preamble. */
  lemma UndecodableReachesNoOrigin(decode: ConnectDecoder, input: seq<Byte>, body: seq<Byte>)
    ensures DispatchOf(decode, input) == Dispatch(BadRequest, body) <==>
            exists segments :: decode(segments) == None && StartsWithRequest(input, segments, body)
  {
    if DispatchOf(decode, input) == Dispatch(BadRequest, body) {
      var segments := ReadFrame(input[8..]).segments;
      DispatchedHasPreamble(decode, input, segments, body);
      assert decode(segments) == None;
    }
    if segments, pad :| && decode(segments) == None && ValidMessage(segments)
                        && |pad| == PadLength(|segments|) && input == Preamble(segments, pad) + body {
      PreambleDispatches(decode, segments, pad, body);
    }
  }

  /** The preamble of a request, with some padding, and then the body. */
  ghost predicate StartsWithRequest(input: seq<Byte>, segments: seq<Segment>, body: seq<Byte>) {
    exists pad :: ValidMessage(segments) && |pad| == PadLength(|segments|) && input == Preamble(segments, pad) + body
  }

  lemma DispatchedHasPreamble(decode: ConnectDecoder, input: seq<Byte>, segments: seq<Segment>, body: seq<Byte>)
    requires DispatchOf(decode, input) == Dispatch(OriginFor(decode, segments), body)
    requires |input| >= 8 && ReadFrame(input[8..]).Message? && ReadFrame(input[8..]).segments == segments
    ensures StartsWithRequest(input, segments, body)
  {
    var pad := ReadIsFrame(input[8..]);
    PreambleIsThere(decode, input, segments, pad, body);
  }

  lemma PreambleIsThere(decode: ConnectDecoder, input: seq<Byte>, segments: seq<Segment>,
                        pad: seq<Byte>, body: seq<Byte>)
    requires DispatchOf(decode, input) == Dispatch(OriginFor(decode, segments), body)
    requires |input| >= 8 && IsFrame(input[8..], segments, ReadFrame(input[8..]).consumed, pad)
    ensures input == Preamble(segments, pad) + body
  {
    var k := ReadFrame(input[8..]).consumed;
    assert input == input[..6] + input[6..8] + input[8..];
    assert input[8..] == input[8..][..k] + input[8..][k..];
  }

  lemma PreambleDispatches(decode: ConnectDecoder, segments: seq<Segment>, pad: seq<Byte>, body: seq<Byte>)
    requires ValidMessage(segments) && |pad| == PadLength(|segments|)
    ensures DispatchOf(decode, Preamble(segments, pad) + body) == Dispatch(OriginFor(decode, segments), body)
  {
    var frame := PrintFrame(segments, pad);
    var input := DATA_SIGNATURE + PROTOCOL_V1 + frame + body;
    assert input[..6] == DATA_SIGNATURE && input[6..8] == PROTOCOL_V1;
    assert input[8..] == frame + body;
    FrameRoundTrip(segments, pad, body);
    assert (frame + body)[|frame|..] == body;
  }

  /** An RPC stream is handed over right behind its signature, whatever follows. */
  lemma RpcGetsWholeStream(decode: ConnectDecoder, input: seq<Byte>, rest: seq<Byte>)
    ensures DispatchOf(decode, input) == Dispatch(ToRpc, rest) <==>
            input == [0x52, 0xBB, 0x82, 0x5C, 0xDB, 0x65] + rest
  {
    if DispatchOf(decode, input) == Dispatch(ToRpc, rest) {
      assert input == input[..6] + input[6..];
    }
    if input == RPC_SIGNATURE + rest {
      assert input[..6] == RPC_SIGNATURE && input[6..] == rest;
    }
  }

  // ---------------------------------------------------------------------------
  // Draining an unread request body.

  const DRAIN_LIMIT := 256 * 1024
  const DRAIN_BUFFER := 8192
  const DRAIN_READS := 4096

  /** One read: some bytes, the end of the stream, an error, or no answer in time. */
  datatype Read = Data(size: nat) | End | ReadFailed | TimedOut

  /** The behaviour of the peer: the outcome of each read. */
  type Peer = nat -> Read

  ghost predicate FitsBuffer(peer: Peer) {
    forall i: nat :: peer(i).Data? ==> 1 <= peer(i).size <= 8192
  }

  datatype Drained = Drained(count: nat, bytes: nat, stopped: bool)

  function Drain(peer: Peer, k: nat, total: nat): Drained
    requires k <= DRAIN_READS
    decreases DRAIN_READS - k
  {
    match peer(k)
    case Data(n) =>
      if total + n >= DRAIN_LIMIT || k == DRAIN_READS then Drained(k + 1, total + n, true)
      else Drain(peer, k + 1, total + n)
    case End => Drained(k + 1, total, false)
    case _ => Drained(k + 1, total, true)
  }

  method DrainUnread(peer: Peer) returns (r: Drained)
    ensures r == Drain(peer, 0, 0)
  {
    var total: nat := 0;
    var read: nat := 0;
    var gaveUp := false;
    var calls: nat := 0;
    while true
      invariant read == calls <= DRAIN_READS && !gaveUp
      invariant Drain(peer, 0, 0) == Drain(peer, read, total)
      decreases DRAIN_READS - read
    {
      var result := peer(calls);
      calls := calls + 1;
      match result {
        case Data(n) =>
          total := total + n;
          if total >= DRAIN_LIMIT {
            gaveUp := true;
            break;
          }
        case End =>
          break;
        case ReadFailed =>
          gaveUp := true;
          break;
        case TimedOut =>
          gaveUp := true;
          break;
      }
      read := read + 1;
      if read > DRAIN_READS {
        gaveUp := true;
        break;
      }
    }
    r := Drained(calls, total, gaveUp);
  }

  /** The bytes of the first `k` reads. */
  function BytesSent(peer: Peer, k: nat): nat {
    if k == 0 then 0 else BytesSent(peer, k - 1) + if peer(k - 1).Data? then peer(k - 1).size else 0
  }

  /** The peer ends the stream at its `k`-th further read, with little enough sent before. */
  ghost predicate EndsAt(peer: Peer, k: nat) {
    peer(k).End? && (forall i: nat :: i < k ==> peer(i).Data?) && BytesSent(peer, k) < 256 * 1024
  }

  lemma {:induction false} BytesMonotone(peer: Peer, i: nat, k: nat)
    requires i <= k
    ensures BytesSent(peer, i) <= BytesSent(peer, k)
  {
    if i < k {
      BytesMonotone(peer, i, k - 1);
    }
  }

  lemma {:induction false} DrainBounds(peer: Peer, k: nat, total: nat)
    requires FitsBuffer(peer) && k <= DRAIN_READS && total < DRAIN_LIMIT
    ensures var r := Drain(peer, k, total);
            k < r.count <= DRAIN_READS + 1 && r.bytes < DRAIN_LIMIT + DRAIN_BUFFER
    decreases DRAIN_READS - k
  {
    var read := peer(k);
    if read.Data? && total + read.size < DRAIN_LIMIT && k < DRAIN_READS {
      DrainBounds(peer, k + 1, total + read.size);
    }
  }

  lemma {:induction false} DrainCounts(peer: Peer, k: nat, total: nat)
    requires FitsBuffer(peer) && k <= DRAIN_READS && total == BytesSent(peer, k)
    ensures Drain(peer, k, total).bytes == BytesSent(peer, Drain(peer, k, total).count)
    decreases DRAIN_READS - k
  {
    var read := peer(k);
    if read.Data? && total + read.size < DRAIN_LIMIT && k < DRAIN_READS {
      DrainCounts(peer, k + 1, total + read.size);
    }
  }

  /**
    The reads are the first `count` ones, and there was no reason to stop before the last of them and one to
    stop there: something else than data, too many bytes, or too many reads.
   */
  ghost predicate ReadsUntil(peer: Peer, count: nat) {
    && 1 <= count <= 4097
    && (forall i: nat :: i + 1 < count ==> peer(i).Data?) && BytesSent(peer, count - 1) < 256 * 1024
    && (!peer(count - 1).Data? || BytesSent(peer, count) >= 256 * 1024 || count == 4097)
  }

  lemma {:induction false} DrainReads(peer: Peer, k: nat, total: nat)
    requires k <= DRAIN_READS && total == BytesSent(peer, k) < DRAIN_LIMIT
    requires forall i: nat :: i < k ==> peer(i).Data?
    ensures ReadsUntil(peer, Drain(peer, k, total).count)
    decreases DRAIN_READS - k
  {
    var read := peer(k);
    if read.Data? && total + read.size < DRAIN_LIMIT && k < DRAIN_READS {
      DrainReads(peer, k + 1, total + read.size);
    }
  }

  /** The peer ends the stream within the bounds. */
  ghost predicate EndsInTime(peer: Peer) {
    exists e: nat :: e <= 4096 && EndsAt(peer, e)
  }

  lemma {:induction false} DrainStops(peer: Peer, k: nat, total: nat)
    requires k <= DRAIN_READS && total == BytesSent(peer, k) && total < DRAIN_LIMIT
    requires forall i: nat :: i < k ==> peer(i).Data?
    ensures !Drain(peer, k, total).stopped <==> EndsInTime(peer)
    decreases DRAIN_READS - k
  {
    var read := peer(k);
    if read.Data? {
      assert BytesSent(peer, k + 1) == total + read.size;
      if total + read.size < DRAIN_LIMIT && k < DRAIN_READS {
        DrainStops(peer, k + 1, total + read.size);
      } else {
        TooMuchSent(peer, k);
      }
    } else if read.End? {
      assert EndsAt(peer, k);
    } else {
      EndsNowhere(peer, k);
    }
  }

  lemma EndsNowhere(peer: Peer, k: nat)
    requires !peer(k).Data? && !peer(k).End? && forall i: nat :: i < k ==> peer(i).Data?
    ensures !EndsInTime(peer)
  {
    forall e: nat
      ensures !EndsAt(peer, e)
    {
      if e > k {
        assert !peer(k).Data?;
      }
    }
  }

  /** After too much data, or too many reads, the end can no longer be within the bounds. */
  lemma TooMuchSent(peer: Peer, k: nat)
    requires k <= DRAIN_READS && forall i: nat :: i <= k ==> peer(i).Data?
    requires BytesSent(peer, k + 1) >= DRAIN_LIMIT || k == DRAIN_READS
    ensures !EndsInTime(peer)
  {
    forall e: nat | e <= DRAIN_READS
      ensures !EndsAt(peer, e)
    {
      if e > k {
        BytesMonotone(peer, k + 1, e);
      }
    }
  }

  /**
    Whatever the peer does, draining ends after at most 4097 reads and at most 270335 bytes; the read
    side is stopped exactly when the stream did not end by itself within those bounds; and the last read is
    the first one that yields no data or exceeds a bound.
   */
  lemma DrainIsBounded(peer: Peer)
    requires FitsBuffer(peer)
    ensures var r := Drain(peer, 0, 0);
            && r.count <= 4097 && r.bytes <= 270335 && r.bytes == BytesSent(peer, r.count)
            && (!r.stopped <==> EndsInTime(peer))
            && ReadsUntil(peer, r.count)
  {
    DrainBounds(peer, 0, 0);
    DrainCounts(peer, 0, 0);
    DrainReads(peer, 0, 0);
    DrainStops(peer, 0, 0);
  }

  lemma {:induction false} FullChunks(peer: Peer, k: nat)
    requires forall i: nat :: i > 0 ==> peer(i) == Data(DRAIN_BUFFER)
    requires 1 <= k <= 32
    ensures Drain(peer, k, k * DRAIN_BUFFER - 1).bytes == 270335
    decreases 32 - k
  {
    if k < 32 {
      FullChunks(peer, k + 1);
    }
  }

  lemma {:induction false} SingleBytes(peer: Peer, k: nat)
    requires forall i: nat :: peer(i) == Data(1)
    requires k <= DRAIN_READS
    ensures Drain(peer, k, k) == Drained(4097, 4097, true)
    decreases DRAIN_READS - k
  {
    if k < DRAIN_READS {
      SingleBytes(peer, k + 1);
    }
  }

  /**
    Both bounds are attained: the reads by a peer that sends byte by byte, the bytes by one that sends
    full chunks after a first one short by a byte.
   */
  lemma DrainBoundsAttained()
    ensures exists peer: Peer :: FitsBuffer(peer) && Drain(peer, 0, 0).count == 4097
    ensures exists peer: Peer :: FitsBuffer(peer) && Drain(peer, 0, 0).bytes == 270335
  {
    var slow: Peer := _ => Data(1);
    SingleBytes(slow, 0);
    assert FitsBuffer(slow);
    var fast: Peer := i => Data(if i == 0 then DRAIN_BUFFER - 1 else DRAIN_BUFFER);
    FullChunks(fast, 1);
    assert FitsBuffer(fast);
  }
}
