/** Frames are read back exactly, one or many, and nothing else is accepted. */
module FramingTheorems {
  import opened Bytes
  import opened Framing

  // ---------------------------------------------------------------------------
  // Tables and bodies.

  lemma {:induction false} CountsRead(b: seq<Byte>, p: nat, ns: seq<nat>)
    requires ValidCounts(ns) && At(b, p, PrintCounts(ns))
    ensures GetCounts(b, p, |ns|) == ns
    decreases ns
  {
    if ns != [] {
      AtSplit(b, p, PutU32(ns[0]), PrintCounts(ns[1..]));
      U32Read(b, p, ns[0]);
      CountsRead(b, p + 4, ns[1..]);
    }
  }

  lemma U32Read(b: seq<Byte>, p: nat, n: nat)
    requires n < U32_LIMIT && At(b, p, PutU32(n))
    ensures GetU32(b, p) == n
  {
    assert forall i :: 0 <= i < 4 ==> b[p + i] == b[p..p + 4][i] == PutU32(n)[i];
  }

  lemma {:induction false} ReadCountsPrint(b: seq<Byte>, p: nat, n: nat)
    requires p + 4 * n <= |b|
    ensures PrintCounts(GetCounts(b, p, n)) == b[p..p + 4 * n]
    decreases n
  {
    if n > 0 {
      PutGetU32(b, p);
      ReadCountsPrint(b, p + 4, n - 1);
      assert GetCounts(b, p, n)[1..] == GetCounts(b, p + 4, n - 1);
      assert b[p..p + 4] + b[p + 4..p + 4 * n] == b[p..p + 4 * n];
    }
  }

  lemma {:induction false} FlattenSize(segments: seq<Segment>)
    requires WordAligned(segments)
    ensures |Flatten(segments)| == 8 * Sum(WordCounts(segments))
  {
    if segments != [] {
      assert WordAligned(segments[1..]);
      FlattenSize(segments[1..]);
      assert WordCounts(segments)[1..] == WordCounts(segments[1..]);
      assert |segments[0]| == 8 * (|segments[0]| / 8);
    }
  }

  /** Flattened segments are cut back into the same segments, whatever follows them. */
  lemma {:induction false} CutFlatten(segments: seq<Segment>, rest: seq<Byte>)
    requires WordAligned(segments)
    ensures 8 * Sum(WordCounts(segments)) <= |Flatten(segments) + rest|
    ensures Cut(Flatten(segments) + rest, WordCounts(segments)) == segments
  {
    FlattenSize(segments);
    if segments != [] {
      var b := Flatten(segments) + rest;
      var k := |segments[0]|;
      assert WordCounts(segments)[1..] == WordCounts(segments[1..]);
      assert k == 8 * (k / 8);
      assert b[..k] == segments[0] && b[k..] == Flatten(segments[1..]) + rest;
      CutFlatten(segments[1..], rest);
    }
  }

  /** Conversely, cut segments are aligned, have the given word counts, and flatten to the bytes cut. */
  lemma {:induction false} FlattenCut(b: seq<Byte>, ns: seq<nat>)
    requires 8 * Sum(ns) <= |b|
    ensures WordAligned(Cut(b, ns)) && WordCounts(Cut(b, ns)) == ns
    ensures Flatten(Cut(b, ns)) == b[..8 * Sum(ns)]
  {
    if ns != [] {
      var k := 8 * ns[0];
      FlattenCut(b[k..], ns[1..]);
      assert Cut(b, ns)[1..] == Cut(b[k..], ns[1..]);
      assert b[..k] + b[k..][..8 * Sum(ns[1..])] == b[..8 * Sum(ns)];
    }
  }

  // ---------------------------------------------------------------------------
  // The size checks.

  lemma {:induction false} ExcessExact(total: nat, ns: seq<nat>)
    requires total <= MAXIMUM_TOTAL_WORDS
    ensures Excess(total, ns) == None <==> total + Sum(ns) <= MAXIMUM_TOTAL_WORDS
    decreases ns
  {
    if ns != [] && total + ns[0] <= MAXIMUM_TOTAL_WORDS {
      ExcessExact(total + ns[0], ns[1..]);
    }
  }

  /** The announced number of segments. */
  function Announced(input: seq<Byte>): nat
    requires |input| >= 8
  {
    GetU32(input, 0) + 1
  }

  ghost predicate TableComplete(input: seq<Byte>) {
    |input| >= 8 && 4 + 4 * Announced(input) + PadLength(Announced(input)) <= |input|
  }

  /**
    Despite the wrapping count, the saturating totals and the early exits, a message is accepted
    exactly when it announces 1 to 512 segments, its true total is within the limit, and all of
    its bytes are there.
   */
  lemma SizeChecksExact(input: seq<Byte>)
    ensures ReadFrame(input).Message? <==>
            && TableComplete(input) && Announced(input) <= 512
            && var total := Sum(GetCounts(input, 4, Announced(input)));
               total <= 8 * 1024 * 1024 && TableSize(Announced(input)) + 8 * total <= |input|
  {
    if TableComplete(input) && Announced(input) <= MAXIMUM_SEGMENTS {
      ExcessExact(0, GetCounts(input, 4, Announced(input)));
      FirstCount(input, Announced(input));
    }
  }

  /** A first length above the limit already makes the total too large. */
  lemma FirstCount(input: seq<Byte>, n: nat)
    requires 1 <= n && 4 + 4 * n <= |input|
    ensures GetU32(input, 4) <= Sum(GetCounts(input, 4, n))
  {
  }

  // ---------------------------------------------------------------------------
  // Round trips.

  /** What the reader finds in front of a printed table. */
  lemma TableParts(ns: seq<nat>, pad: seq<Byte>, body: seq<Byte>)
    requires 1 <= |ns| <= MAXIMUM_SEGMENTS && ValidCounts(ns)
    ensures var b := PrintTable(ns, pad) + body;
            && GetU32(b, 0) == |ns| - 1 && GetCounts(b, 4, |ns|) == ns
            && b[4 + 4 * |ns| + |pad|..] == body
  {
    Slices(PutU32(|ns| - 1), PrintCounts(ns), pad, body);
    TableAt(PrintTable(ns, pad) + body, ns);
  }

  lemma TableAt(b: seq<Byte>, ns: seq<nat>)
    requires 1 <= |ns| <= MAXIMUM_SEGMENTS && ValidCounts(ns)
    requires At(b, 0, PutU32(|ns| - 1)) && At(b, 4, PrintCounts(ns))
    ensures GetU32(b, 0) == |ns| - 1 && GetCounts(b, 4, |ns|) == ns
  {
    U32Read(b, 0, |ns| - 1);
    CountsRead(b, 4, ns);
  }

  lemma Slices(a: seq<Byte>, b: seq<Byte>, c: seq<Byte>, d: seq<Byte>)
    ensures var s := a + b + c + d;
            At(s, 0, a) && At(s, |a|, b) && s[|a| + |b| + |c|..] == d
  {
  }

  lemma FrameParts(segments: seq<Segment>, pad: seq<Byte>, rest: seq<Byte>)
    requires ValidMessage(segments) && |pad| == PadLength(|segments|)
    ensures var b := PrintFrame(segments, pad) + rest;
            && |b| >= TableSize(|segments|) >= 8
            && GetU32(b, 0) == |segments| - 1
            && GetCounts(b, 4, |segments|) == WordCounts(segments)
            && b[TableSize(|segments|)..] == Flatten(segments) + rest
  {
    var ns, body := WordCounts(segments), Flatten(segments);
    CountsAreSmall(ns, MAXIMUM_TOTAL_WORDS);
    TableParts(ns, pad, body + rest);
    Assoc(PrintTable(ns, pad), body, rest);
  }

  lemma Assoc(a: seq<Byte>, b: seq<Byte>, c: seq<Byte>)
    ensures (a + b) + c == a + (b + c)
  {
  }

  /** A frame followed by any bytes is read back exactly, and only the frame is consumed. */
  lemma FrameRoundTrip(segments: seq<Segment>, pad: seq<Byte>, rest: seq<Byte>)
    requires ValidMessage(segments) && |pad| == PadLength(|segments|)
    ensures ReadFrame(PrintFrame(segments, pad) + rest)
         == Message(segments, |PrintFrame(segments, pad)|)
  {
    var b := PrintFrame(segments, pad) + rest;
    FrameParts(segments, pad, rest);
    FlattenSize(segments);
    SizeChecksExact(b);
    CutFlatten(segments, rest);
  }

  /** The table the reader has accepted, printed again. */
  lemma TablePrints(input: seq<Byte>, n: nat, pad: seq<Byte>)
    requires 1 <= n <= MAXIMUM_SEGMENTS && 4 + 4 * n + |pad| <= |input|
    requires GetU32(input, 0) == n - 1 && pad == input[4 + 4 * n..4 + 4 * n + |pad|]
    ensures PrintTable(GetCounts(input, 4, n), pad) == input[..4 + 4 * n + |pad|]
  {
    PutGetU32(input, 0);
    ReadCountsPrint(input, 4, n);
    var k := 4 + 4 * n;
    assert input[..4] + input[4..k] == input[..k];
    assert input[..k] + input[k..k + |pad|] == input[..k + |pad|];
  }

  /** Whatever is read as a message is a frame of that message, up to its padding. */
  lemma ReadIsFrame(input: seq<Byte>) returns (pad: seq<Byte>)
    requires ReadFrame(input).Message?
    ensures IsFrame(input, ReadFrame(input).segments, ReadFrame(input).consumed, pad)
  {
    var n, t, ns, words := MessageParts(input, ReadFrame(input));
    pad := FrameFound(input, n, t, ns, words);
  }

  /** What an accepted message consists of. */
  lemma MessageParts(input: seq<Byte>, r: Reading) returns (n: nat, t: nat, ns: seq<nat>, words: nat)
    requires r == ReadFrame(input) && r.Message?
    ensures 1 <= n <= MAXIMUM_SEGMENTS && t == 4 + 4 * n + PadLength(n) && t + 8 * words <= |input|
    ensures GetU32(input, 0) == n - 1 && ns == GetCounts(input, 4, n)
    ensures words == Sum(ns) <= MAXIMUM_TOTAL_WORDS
    ensures r == Message(Cut(input[t..], ns), t + 8 * words)
  {
    n := WrappingSuccessor(GetU32(input, 0));
    t := TableSize(n);
    ns := GetCounts(input, 4, n);
    words := Sum(ns);
    BodyParts(input, n, t, ns, words, r);
  }

  lemma BodyParts(input: seq<Byte>, n: nat, t: nat, ns: seq<nat>, words: nat, r: Reading)
    requires 1 <= n && t == TableSize(n) <= |input| && ns == GetCounts(input, 4, n) && words == Sum(ns)
    requires r == ReadBody(input, n) && r.Message?
    ensures t + 8 * words <= |input| && words <= MAXIMUM_TOTAL_WORDS
    ensures r == Message(Cut(input[t..], ns), t + 8 * words)
  {
    ExcessExact(0, ns);
  }

  lemma FrameFound(input: seq<Byte>, n: nat, t: nat, ns: seq<nat>, words: nat) returns (pad: seq<Byte>)
    requires 1 <= n <= MAXIMUM_SEGMENTS && t == 4 + 4 * n + PadLength(n) && t + 8 * words <= |input|
    requires GetU32(input, 0) == n - 1 && ns == GetCounts(input, 4, n)
    requires words == Sum(ns) <= MAXIMUM_TOTAL_WORDS
    ensures IsFrame(input, Cut(input[t..], ns), t + 8 * words, pad)
  {
    pad := input[4 + 4 * n..t];
    TablePrints(input, n, pad);
    var table, rest := input[..t], input[t..];
    FlattenCut(rest, ns);
    FrameOf(Cut(rest, ns), ns, pad, table, rest[..8 * words]);
    assert table + rest[..8 * words] == input[..t + 8 * words];
  }

  lemma FrameOf(segments: seq<Segment>, ns: seq<nat>, pad: seq<Byte>, table: seq<Byte>, body: seq<Byte>)
    requires ValidMessage(segments) && |pad| == PadLength(|segments|)
    requires ns == WordCounts(segments) && ValidCounts(ns) && table == PrintTable(ns, pad) && body == Flatten(segments)
    ensures PrintFrame(segments, pad) == table + body
  {
  }

  /** The first `consumed` bytes of `input` are the frame of `segments` with this padding. */
  ghost predicate IsFrame(input: seq<Byte>, segments: seq<Segment>, consumed: nat, pad: seq<Byte>) {
    && ValidMessage(segments) && |pad| == PadLength(|segments|) && consumed <= |input|
    && input[..consumed] == PrintFrame(segments, pad)
  }

  /** The reader accepts exactly the frames, in front of anything. */
  lemma AcceptsExactlyFrames(input: seq<Byte>, segments: seq<Segment>, consumed: nat)
    ensures ReadFrame(input) == Message(segments, consumed) <==>
            exists pad :: IsFrame(input, segments, consumed, pad)
  {
    if ReadFrame(input) == Message(segments, consumed) {
      var pad := ReadIsFrame(input);
    }
    forall pad | IsFrame(input, segments, consumed, pad)
      ensures ReadFrame(input) == Message(segments, consumed)
    {
      assert input == input[..consumed] + input[consumed..];
      FrameRoundTrip(segments, pad, input[consumed..]);
    }
  }

  /** A frame cut short anywhere is reported as the end of the stream. */
  lemma CutFrameIsEof(segments: seq<Segment>, pad: seq<Byte>, k: nat)
    requires ValidMessage(segments) && |pad| == PadLength(|segments|)
    requires k < |PrintFrame(segments, pad)|
    ensures ReadFrame(PrintFrame(segments, pad)[..k]) == Failed(Eof, k)
  {
    var whole := PrintFrame(segments, pad);
    var b := whole[..k];
    var n := |segments|;
    FrameParts(segments, pad, []);
    assert whole + [] == whole;
    FlattenSize(segments);
    FrameRoundTrip(segments, pad, []);
    SizeChecksExact(whole);
    if k >= 8 {
      assert GetU32(b, 0) == GetU32(whole, 0) && GetU32(b, 4) == GetU32(whole, 4);
      assert WordCounts(segments)[0] == GetU32(whole, 4);
      CountsAreSmall(WordCounts(segments), MAXIMUM_TOTAL_WORDS);
      if k >= TableSize(n) {
        CountsShift(whole, 0, k, 4, n);
        ExcessExact(0, WordCounts(segments));
      }
    }
  }

  // ---------------------------------------------------------------------------
  // Streams of messages.

  /** A message with the padding its frame carries. */
  datatype Framed = Framed(segments: seq<Segment>, pad: seq<Byte>)

  ghost predicate ValidFramed(f: Framed) {
    ValidMessage(f.segments) && |f.pad| == PadLength(|f.segments|)
  }

  ghost predicate AllFramed(fs: seq<Framed>) {
    fs != [] ==> ValidFramed(fs[0]) && AllFramed(fs[1..])
  }

  ghost function PrintFrames(fs: seq<Framed>): seq<Byte>
    requires AllFramed(fs)
  {
    if fs == [] then [] else PrintFrame(fs[0].segments, fs[0].pad) + PrintFrames(fs[1..])
  }

  ghost function MessagesOf(fs: seq<Framed>): seq<seq<Segment>> {
    if fs == [] then [] else [fs[0].segments] + MessagesOf(fs[1..])
  }

  datatype Stream = Stream(messages: seq<seq<Segment>>, end: IoError)

  /** All messages read until the first error. */
  function ReadAll(input: seq<Byte>): Stream
    decreases |input|
  {
    var r := ReadFrame(input);
    if r.Failed? then Stream([], r.error)
    else
      var s := ReadAll(input[r.consumed..]);
      Stream([r.segments] + s.messages, s.end)
  }

  /** The reading loop of both ends of an RPC stream. An error of the transport only cuts it short. */
  method ReadStream(source: Source) returns (messages: seq<seq<Segment>>, end: IoError)
    modifies source
    ensures source.failed == (old(source.failed) || end == Transport)
    ensures end == Transport ==> source.faulty && messages <= ReadAll(old(source.input)).messages
    ensures end != Transport ==> Stream(messages, end) == ReadAll(old(source.input))
  {
    messages := [];
    ghost var all := ReadAll(source.input);
    ghost var ahead := all;
    while true
      invariant source.failed == old(source.failed)
      invariant ahead == ReadAll(source.input) && all == Stream(messages + ahead.messages, ahead.end)
      decreases |source.input|
    {
      Absorb(messages, ahead);
      var r;
      r, ahead := ReadNext(source, ahead);
      if r.Failure? {
        return messages, r.error;
      }
      messages := messages + [r.value];
    }
  }

  /** One turn of the loop: the next message moves from what lies ahead to what was read. */
  method ReadNext(source: Source, ghost all: Stream) returns (r: Result<seq<Segment>, IoError>, ghost ahead: Stream)
    requires all == ReadAll(source.input)
    modifies source
    ensures ahead == ReadAll(source.input)
    ensures r == Failure(Transport) ==> source.faulty
    ensures source.failed == (old(source.failed) || r == Failure(Transport))
    ensures r.Failure? && r != Failure(Transport) ==> all == Stream([], r.error)
    ensures r.Success? ==> all == Stream([r.value] + ahead.messages, ahead.end) && |source.input| < |old(source.input)|
  {
    ReadAllNext(source.input, ReadFrame(source.input), all);
    r := ReadMessage(source);
    ahead := ReadAll(source.input);
  }

  lemma Absorb(messages: seq<seq<Segment>>, ahead: Stream)
    ensures messages + [] == messages
    ensures ahead.messages != [] ==>
              messages + ahead.messages == (messages + [ahead.messages[0]]) + ahead.messages[1..]
  {
  }

  lemma ReadAllNext(input: seq<Byte>, reading: Reading, all: Stream)
    requires reading == ReadFrame(input) && all == ReadAll(input)
    ensures reading.Failed? ==> all == Stream([], reading.error)
    ensures reading.Message? ==>
              var ahead := ReadAll(input[reading.consumed..]);
              all == Stream([reading.segments] + ahead.messages, ahead.end)
  {
  }

  /** A concatenation of frames reads back as the same list of messages, in front of any tail. */
  lemma {:induction false} FramesRoundTrip(fs: seq<Framed>, tail: seq<Byte>)
    requires AllFramed(fs)
    ensures ReadAll(PrintFrames(fs) + tail)
         == Stream(MessagesOf(fs) + ReadAll(tail).messages, ReadAll(tail).end)
  {
    if fs == [] {
      assert PrintFrames(fs) + tail == tail;
      assert [] + ReadAll(tail).messages == ReadAll(tail).messages;
    } else {
      FramesRoundTrip(fs[1..], tail);
      ReadAllStep(fs[0], PrintFrame(fs[0].segments, fs[0].pad), PrintFrames(fs[1..]) + tail);
      FramesStep(fs[0], MessagesOf(fs[1..]), ReadAll(tail).messages,
                 PrintFrame(fs[0].segments, fs[0].pad), PrintFrames(fs[1..]), tail);
    }
  }

  lemma FramesStep(f: Framed, ms: seq<seq<Segment>>, ns: seq<seq<Segment>>,
                   head: seq<Byte>, more: seq<Byte>, tail: seq<Byte>)
    ensures (head + more) + tail == head + (more + tail)
    ensures [f.segments] + (ms + ns) == ([f.segments] + ms) + ns
  {
  }

  lemma ReadAllStep(f: Framed, head: seq<Byte>, rest: seq<Byte>)
    requires ValidFramed(f) && head == PrintFrame(f.segments, f.pad)
    ensures ReadAll(head + rest) == Stream([f.segments] + ReadAll(rest).messages, ReadAll(rest).end)
  {
    FrameRoundTrip(f.segments, f.pad, rest);
    assert (head + rest)[|head|..] == rest;
  }

  /** A stream that is cut inside a frame yields the complete messages before it and then ends. */
  lemma CutStreamKeepsMessages(fs: seq<Framed>, last: Framed, k: nat)
    requires AllFramed(fs)
    requires ValidFramed(last) && k < |PrintFrame(last.segments, last.pad)|
    ensures ReadAll(PrintFrames(fs) + PrintFrame(last.segments, last.pad)[..k]) == Stream(MessagesOf(fs), Eof)
  {
    var tail := PrintFrame(last.segments, last.pad)[..k];
    CutFrameIsEof(last.segments, last.pad, k);
    FramesRoundTrip(fs, tail);
    assert MessagesOf(fs) + [] == MessagesOf(fs);
  }
}
