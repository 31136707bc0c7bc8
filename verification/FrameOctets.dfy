/** Frames and stream preambles in literal octets. */
module FrameOctets {
  import opened Bytes
  import opened Framing
  import opened FramingTheorems
  import opened Serve

  /** The octets of a number below 2^32, low octet first. */
  function Octets(n: nat): seq<Byte>
    requires n < 4294967296
  {
    assert n / 256 / 256 / 256 < 256;
    [n % 256, n / 256 % 256, n / 256 / 256 % 256, n / 256 / 256 / 256]
  }

  lemma OctetsWeigh(a: Byte, b: Byte, c: Byte, d: Byte)
    ensures PutU32(a + 256 * b + 65536 * c + 16777216 * d) == [a, b, c, d]
  {
    var s: seq<Byte> := [a, b, c, d];
    assert GetU32(s, 0) == a + 256 * b + 65536 * c + 16777216 * d;
    GetU32Injective(PutU32(a + 256 * b + 65536 * c + 16777216 * d), s);
  }

  /** The integers of Cap'n Proto have their low octet first. */
  lemma PutU32Octets(n: nat)
    requires n < 4294967296
    ensures PutU32(n) == Octets(n)
  {
    var m := n / 256;
    var k := m / 256;
    assert n == n % 256 + 256 * m && m == m % 256 + 256 * k && k == k % 256 + 256 * (k / 256);
    OctetsWeigh(n % 256, m % 256, k % 256, k / 256);
  }

  /** A table is the count minus one, the word counts and the padding. */
  lemma TableOctets(ns: seq<nat>, pad: seq<Byte>)
    requires 1 <= |ns| <= 512 && ValidCounts(ns)
    ensures PrintTable(ns, pad) == Octets(|ns| - 1) + PrintCounts(ns) + pad
  {
    PutU32Octets(|ns| - 1);
  }

  lemma CountsOctets(n: nat, ns: seq<nat>)
    requires n < 4294967296 && ValidCounts(ns)
    ensures ValidCounts([n] + ns) && PrintCounts([n] + ns) == Octets(n) + PrintCounts(ns)
    ensures PrintCounts([]) == []
  {
    PutU32Octets(n);
    assert ([n] + ns)[1..] == ns;
  }

  const WORD: seq<Byte> := [1, 2, 3, 4, 5, 6, 7, 8]
  const WORDS: seq<Byte> := [11, 12, 13, 14, 15, 16, 17, 18, 21, 22, 23, 24, 25, 26, 27, 28]

  /** One segment of one word. */
  lemma OneSegment(rest: seq<Byte>)
    ensures ReadFrame([0, 0, 0, 0, 1, 0, 0, 0] + WORD + rest) == Message([WORD], 16)
  {
    assert WordCounts([WORD]) == [1] + WordCounts([WORD][1..]) == [1];
    assert [1] + [] == [1];
    CountsOctets(1, []);
    TableOctets([1], []);
    assert Octets(0) == [0, 0, 0, 0] && Octets(1) == [1, 0, 0, 0];
    FrameInOctets([WORD], [1], [], [0, 0, 0, 0, 1, 0, 0, 0], WORD, rest);
  }

  /** Two segments of one word and of two, and a table padded to a whole number of words, with anything. */
  lemma TwoSegments(pad: seq<Byte>, rest: seq<Byte>)
    requires |pad| == 4
    ensures ReadFrame([1, 0, 0, 0, 1, 0, 0, 0, 2, 0, 0, 0] + pad + (WORD + WORDS) + rest)
         == Message([WORD, WORDS], 40)
  {
    assert [WORD, WORDS][1..] == [WORDS] && [WORDS][1..] == [];
    assert WordCounts([WORDS]) == [2] && WordCounts([WORD, WORDS]) == [1] + [2] == [1, 2];
    assert [2] + [] == [2];
    CountsOctets(2, []);
    CountsOctets(1, [2]);
    TableOctets([1, 2], pad);
    assert Octets(1) == [1, 0, 0, 0] && Octets(2) == [2, 0, 0, 0];
    assert PrintTable([1, 2], pad) == [1, 0, 0, 0, 1, 0, 0, 0, 2, 0, 0, 0] + pad;
    assert Flatten([WORDS]) == WORDS + Flatten([]) == WORDS;
    FrameInOctets([WORD, WORDS], [1, 2], pad, [1, 0, 0, 0, 1, 0, 0, 0, 2, 0, 0, 0] + pad, WORD + WORDS, rest);
  }

  lemma FrameInOctets(segments: seq<Segment>, ns: seq<nat>, pad: seq<Byte>, table: seq<Byte>, body: seq<Byte>,
                      rest: seq<Byte>)
    requires 1 <= |segments| <= 512 && WordAligned(segments) && |pad| == PadLength(|segments|)
    requires ns == WordCounts(segments) && ValidCounts(ns) && Sum(ns) <= 8 * 1024 * 1024
    requires table == PrintTable(ns, pad) && body == Flatten(segments)
    ensures ReadFrame(table + body + rest) == Message(segments, |table| + |body|)
  {
    FrameOf(segments, ns, pad, table, body);
    FrameRoundTrip(segments, pad, rest);
  }

  /** The errors of the header, and how far the reader has read by then; the count is looked at first. */
  lemma HeaderErrors(rest: seq<Byte>)
    ensures ReadFrame([0, 0, 0, 0, 1, 0, 0]) == Failed(Eof, 7)
    ensures ReadFrame([255, 255, 255, 255, 1, 0, 0, 0] + rest) == Failed(InvalidCount(0), 8)
    ensures ReadFrame([0, 2, 0, 0, 0, 0, 0, 255] + rest) == Failed(InvalidCount(513), 8)
    ensures ReadFrame([1, 0, 0, 0, 1, 0, 128, 0] + rest) == Failed(TooLarge(8388609), 8)
  {
  }

  /** A total above the limit is found behind the table, and reported as the first such total. */
  lemma TotalTooLarge(rest: seq<Byte>)
    ensures ReadFrame([1, 0, 0, 0, 0, 0, 128, 0] + ([1, 0, 0, 0, 0, 0, 0, 0] + rest)) == Failed(TooLarge(8388609), 16)
  {
    var b := [1, 0, 0, 0, 0, 0, 128, 0] + ([1, 0, 0, 0, 0, 0, 0, 0] + rest);
    assert GetU32(b, 0) == 1 && GetU32(b, 4) == 8388608 && GetU32(b, 8) == 1;
    assert GetCounts(b, 8, 1) == [1] + GetCounts(b, 12, 0);
    assert GetCounts(b, 4, 2) == [8388608] + GetCounts(b, 8, 1) == [8388608, 1];
    ExcessOfTwo(8388608, 1);
  }

  lemma ExcessOfTwo(m: nat, n: nat)
    requires m <= 8388608 < m + n
    ensures Excess(0, [m, n]) == Some(m + n)
  {
    assert [m, n][1..] == [n];
  }

  /** A body that stops short is the end of the stream. */
  lemma ShortBody(word: seq<Byte>)
    requires |word| == 8
    ensures ReadFrame([0, 0, 0, 0, 2, 0, 0, 0] + word) == Failed(Eof, 16)
  {
    var b := [0, 0, 0, 0, 2, 0, 0, 0] + word;
    assert GetU32(b, 0) == 0 && GetU32(b, 4) == 2;
    OneCount(b);
    assert [2][1..] == [];
  }

  // ---------------------------------------------------------------------------
  // Streams.

  /** The preamble of a data stream. */
  lemma PreambleOctets(segments: seq<Segment>, pad: seq<Byte>)
    requires ValidMessage(segments) && |pad| == PadLength(|segments|)
    ensures Preamble(segments, pad)
         == [0x0A, 0x36, 0xCD, 0x12, 0xA1, 0x3E] + [48, 49] + PrintFrame(segments, pad)
  {
  }

  /** A data stream with a request of one word. */
  lemma RequestOctets(decode: ConnectDecoder, rest: seq<Byte>)
    ensures DispatchOf(decode, [0x0A, 0x36, 0xCD, 0x12, 0xA1, 0x3E, 48, 49] + ([0, 0, 0, 0, 1, 0, 0, 0] + WORD + rest))
         == Dispatch(if decode([WORD]).Some? then ToOrigin(decode([WORD]).value, [WORD]) else BadRequest, rest)
  {
    OneSegment(rest);
    BehindPreamble(decode, [0x0A, 0x36, 0xCD, 0x12, 0xA1, 0x3E, 48, 49], [0, 0, 0, 0, 1, 0, 0, 0] + WORD + rest);
    assert ([0, 0, 0, 0, 1, 0, 0, 0] + WORD + rest)[16..] == rest;
  }

  /** What keeps a stream from every handler: another version, another signature, a bad frame, an early end. */
  lemma RefusedOctets(decode: ConnectDecoder, rest: seq<Byte>)
    ensures DispatchOf(decode, [0x0A, 0x36, 0xCD, 0x12, 0xA1, 0x3E, 48, 50] + rest) == Dispatch(BadVersion, rest)
    ensures DispatchOf(decode, [0x0A, 0x36, 0xCD, 0x12, 0xA1, 0x3F] + rest) == Dispatch(NoSignature, rest)
    ensures DispatchOf(decode, [0x0A, 0x36, 0xCD, 0x12, 0xA1, 0x3E, 48, 49] + ([255, 255, 255, 255, 1, 0, 0, 0] + rest))
         == Dispatch(Broken(InvalidCount(0)), rest)
  {
    HeaderErrors(rest);
    BehindPreamble(decode, [0x0A, 0x36, 0xCD, 0x12, 0xA1, 0x3E, 48, 50], rest);
    BehindPreamble(decode, [0x0A, 0x36, 0xCD, 0x12, 0xA1, 0x3E, 48, 49], [255, 255, 255, 255, 1, 0, 0, 0] + rest);
    assert ([255, 255, 255, 255, 1, 0, 0, 0] + rest)[8..] == rest;
    var other: seq<Byte> := [0x0A, 0x36, 0xCD, 0x12, 0xA1, 0x3F];
    assert (other + rest)[..6] == other && (other + rest)[6..] == rest && other[5] == 0x3F;
  }

  lemma EarlyEnds(decode: ConnectDecoder)
    ensures DispatchOf(decode, [0x0A, 0x36, 0xCD, 0x12, 0xA1]) == Dispatch(Broken(Eof), [])
    ensures DispatchOf(decode, [0x0A, 0x36, 0xCD, 0x12, 0xA1, 0x3E, 48]) == Dispatch(Broken(Eof), [])
    ensures DispatchOf(decode, [0x52, 0xBB, 0x82, 0x5C, 0xDB, 0x65]) == Dispatch(ToRpc, [])
  {
    var data: seq<Byte> := [0x0A, 0x36, 0xCD, 0x12, 0xA1, 0x3E, 48];
    assert data[..6] == DATA_SIGNATURE && DATA_SIGNATURE[0] == 0x0A;
    RpcGetsWholeStream(decode, [0x52, 0xBB, 0x82, 0x5C, 0xDB, 0x65], []);
  }

  lemma BehindPreamble(decode: ConnectDecoder, preamble: seq<Byte>, input: seq<Byte>)
    requires |preamble| == 8 && preamble[..6] == [0x0A, 0x36, 0xCD, 0x12, 0xA1, 0x3E]
    ensures preamble[6..] != [48, 49] ==> DispatchOf(decode, preamble + input) == Dispatch(BadVersion, input)
    ensures preamble[6..] == [48, 49] ==>
              var r := ReadFrame(input);
              DispatchOf(decode, preamble + input)
              == Dispatch(if r.Message? then OriginFor(decode, r.segments) else Broken(r.error), input[r.consumed..])
  {
    var b := preamble + input;
    assert b[..6] == preamble[..6] && b[6..8] == preamble[6..] && b[8..] == input;
    assert preamble[..6] != RPC_SIGNATURE by { assert preamble[..6][0] == 0x0A; }
  }
}
