/**
  Cap'n Proto stream framing ("Serialization Over a Stream" in the Cap'n Proto encoding
  specification), as rpc/src/io.rs reads and writes it. Segment contents are opaque.
 */
module Framing {
  import opened Bytes

  const MAXIMUM_TOTAL_WORDS := 8 * 1024 * 1024
  const MAXIMUM_SEGMENTS := 512
  const USIZE_MAX := 0xffff_ffff_ffff_ffff

  type Segment = seq<Byte>

  datatype IoError =
    | Eof
    | Transport
    | InvalidCount(count: nat)
    | TooLarge(words: nat)
    | ZeroWrite

  // ---------------------------------------------------------------------------
  // The grammar of frames.

  function Sum(ns: seq<nat>): nat {
    if ns == [] then 0 else ns[0] + Sum(ns[1..])
  }

  function WordCounts(segments: seq<Segment>): (ns: seq<nat>)
    ensures |ns| == |segments|
  {
    if segments == [] then [] else [|segments[0]| / 8] + WordCounts(segments[1..])
  }

  function Flatten(segments: seq<Segment>): seq<Byte> {
    if segments == [] then [] else segments[0] + Flatten(segments[1..])
  }

  ghost predicate WordAligned(segments: seq<Segment>) {
    forall i :: 0 <= i < |segments| ==> |segments[i]| % 8 == 0
  }

  /** What fits in one message. */
  ghost predicate ValidMessage(segments: seq<Segment>) {
    && 1 <= |segments| <= MAXIMUM_SEGMENTS
    && WordAligned(segments)
    && Sum(WordCounts(segments)) <= MAXIMUM_TOTAL_WORDS
  }

  ghost predicate ValidCounts(ns: seq<nat>) {
    forall i :: 0 <= i < |ns| ==> ns[i] < U32_LIMIT
  }

  ghost function PrintCounts(ns: seq<nat>): (s: seq<Byte>)
    requires ValidCounts(ns)
    ensures |s| == 4 * |ns|
  {
    if ns == [] then [] else PutU32(ns[0]) + PrintCounts(ns[1..])
  }

  /** The padding that aligns a table of `n` segments to a word. */
  function PadLength(n: nat): nat {
    if n % 2 == 0 then 4 else 0
  }

  lemma {:induction false} CountsAreSmall(ns: seq<nat>, limit: nat)
    requires Sum(ns) <= limit
    ensures forall i :: 0 <= i < |ns| ==> ns[i] <= limit
  {
    if ns != [] {
      CountsAreSmall(ns[1..], limit - ns[0]);
      assert forall i {:trigger ns[i]} :: 0 < i < |ns| ==> ns[i] == ns[1..][i - 1];
    }
  }

  /** The segment table: count minus one, word counts, padding. */
  ghost function PrintTable(ns: seq<nat>, pad: seq<Byte>): (s: seq<Byte>)
    requires 1 <= |ns| <= MAXIMUM_SEGMENTS && ValidCounts(ns)
    ensures |s| == 4 + 4 * |ns| + |pad|
  {
    PutU32(|ns| - 1) + PrintCounts(ns) + pad
  }

  /** A frame. The writer pads with zeros; the reader does not look at the padding. */
  ghost function PrintFrame(segments: seq<Segment>, pad: seq<Byte>): (s: seq<Byte>)
    requires ValidMessage(segments) && |pad| == PadLength(|segments|)
  {
    CountsAreSmall(WordCounts(segments), MAXIMUM_TOTAL_WORDS);
    PrintTable(WordCounts(segments), pad) + Flatten(segments)
  }

  // ---------------------------------------------------------------------------
  // Reading, as a function of all the bytes the transport will ever deliver.

  /** The number of bytes of the table of `n` segments, rounded up to a word. */
  function TableSize(n: nat): (size: nat)
    ensures size == 4 + 4 * n + PadLength(n)
  {
    (4 + 4 * n + 7) / 8 * 8
  }

  /** `wrapping_add(1)` on 32 bits. */
  function WrappingSuccessor(x: nat): nat
    requires x < U32_LIMIT
  {
    if x + 1 == U32_LIMIT then 0 else x + 1
  }

  function GetCounts(b: seq<Byte>, p: nat, n: nat): (ns: seq<nat>)
    requires p + 4 * n <= |b|
    ensures |ns| == n && ValidCounts(ns)
    decreases n
  {
    if n == 0 then [] else [GetU32(b, p)] + GetCounts(b, p + 4, n - 1)
  }

  function Cut(b: seq<Byte>, ns: seq<nat>): (segments: seq<Segment>)
    requires 8 * Sum(ns) <= |b|
  {
    if ns == [] then [] else [b[..8 * ns[0]]] + Cut(b[8 * ns[0]..], ns[1..])
  }

  /** The first running total above the limit. */
  function Excess(total: nat, ns: seq<nat>): Option<nat>
    decreases ns
  {
    if ns == [] then None
    else if total + ns[0] > MAXIMUM_TOTAL_WORDS then Some(total + ns[0])
    else Excess(total + ns[0], ns[1..])
  }

  datatype Reading =
    | Message(segments: seq<Segment>, consumed: nat)
    | Failed(error: IoError, consumed: nat)

  function ReadFrame(input: seq<Byte>): (r: Reading)
    ensures r.consumed <= |input|
    ensures r.Message? ==> r.consumed >= 8
  {
    if |input| < 8 then Failed(Eof, |input|)
    else
      var n := WrappingSuccessor(GetU32(input, 0));
      if n == 0 || n > MAXIMUM_SEGMENTS then Failed(InvalidCount(n), 8)
      else if GetU32(input, 4) > MAXIMUM_TOTAL_WORDS then Failed(TooLarge(GetU32(input, 4)), 8)
      else ReadTail(input, n)
  }

  function ReadTail(input: seq<Byte>, n: nat): (r: Reading)
    requires 1 <= n && 8 <= |input|
    ensures r.consumed <= |input|
    ensures r.Message? ==> r.consumed >= 8
  {
    if |input| < TableSize(n) then Failed(Eof, |input|) else ReadBody(input, n)
  }

  function ReadBody(input: seq<Byte>, n: nat): (r: Reading)
    requires 1 <= n && TableSize(n) <= |input|
    ensures r.consumed <= |input|
    ensures r.Message? ==> r.consumed >= 8
  {
    var ns := GetCounts(input, 4, n);
    if Excess(0, ns).Some? then Failed(TooLarge(Excess(0, ns).value), TableSize(n))
    else if |input| < TableSize(n) + 8 * Sum(ns) then Failed(Eof, |input|)
    else Message(Cut(input[TableSize(n)..], ns), TableSize(n) + 8 * Sum(ns))
  }

  /** `after` is what is left of `before`. */
  predicate IsRest(before: seq<Byte>, after: seq<Byte>) {
    |after| <= |before| && after == before[|before| - |after|..]
  }

  /** At most `limit` bytes were taken from `before`, and `after` is left. */
  predicate TakesAtMost(before: seq<Byte>, after: seq<Byte>, limit: nat) {
    IsRest(before, after) && |before| - |after| <= limit
  }

  lemma TakesInTwo(before: seq<Byte>, k: nat, after: seq<Byte>, limit: nat)
    requires k <= |before| && TakesAtMost(before[k..], after, limit)
    ensures TakesAtMost(before, after, k + limit)
  {
  }

  // ---------------------------------------------------------------------------
  // The transport: hands out its input in chunks of any non-zero size. Only a
  // faulty transport reports an error of its own, and then has `failed`.

  class Source {
    var input: seq<Byte>
    var failed: bool
    const faulty: bool

    constructor (input: seq<Byte>, faulty: bool)
      ensures this.input == input && !failed && this.faulty == faulty
    {
      this.input := input;
      failed := false;
      this.faulty := faulty;
    }

    /** Fills part of `buffer[offset..]`; zero bytes mean the end of the stream. */
    method Poll(buffer: array<Byte>, offset: nat) returns (r: Option<nat>)
      requires offset < buffer.Length
      modifies this, buffer
      ensures failed == (old(failed) || r.None?)
      ensures r.None? ==> faulty && input == old(input) && buffer[..] == old(buffer[..])
      ensures r.Some? ==>
                && r.value <= |old(input)| && offset + r.value <= buffer.Length
                && (r.value == 0 <==> old(input) == [])
                && buffer[..] == old(buffer[..offset]) + old(input)[..r.value] + old(buffer[offset + r.value..])
                && input == old(input)[r.value..]
    {
      if faulty {
        var fails: bool :| true;
        if fails {
          failed := true;
          return None;
        }
      }
      if input == [] {
        return Some(0);
      }
      var n: nat :| 1 <= n <= |input| && offset + n <= buffer.Length;
      forall i | 0 <= i < n {
        buffer[offset + i] := input[i];
      }
      input := input[n..];
      return Some(n);
    }
  }

  method ReadExact(source: Source, buffer: array<Byte>) returns (error: Option<IoError>)
    modifies source, buffer
    ensures error == None || error == Some(Eof) || (error == Some(Transport) && source.faulty)
    ensures source.failed == (old(source.failed) || error == Some(Transport))
    ensures error == None ==>
              && buffer.Length <= |old(source.input)|
              && buffer[..] == old(source.input)[..buffer.Length]
              && source.input == old(source.input)[buffer.Length..]
    ensures error == Some(Eof) ==> |old(source.input)| < buffer.Length && source.input == []
    ensures error == Some(Transport) ==>
              && TakesAtMost(old(source.input), source.input, buffer.Length)
              && |old(source.input)| - |source.input| < buffer.Length
              && var k := |old(source.input)| - |source.input|; buffer[..k] == old(source.input)[..k]
  {
    var offset: nat := 0;
    while offset < buffer.Length
      invariant offset <= buffer.Length && offset <= |old(source.input)|
      invariant buffer[..offset] == old(source.input)[..offset]
      invariant source.input == old(source.input)[offset..]
      invariant source.failed == old(source.failed)
    {
      var n := source.Poll(buffer, offset);
      if n.None? {
        return Some(Transport);
      }
      if n.value == 0 {
        return Some(Eof);
      }
      offset := offset + n.value;
    }
    return None;
  }

  function SaturatingAdd(x: nat, y: nat): nat {
    if x + y > USIZE_MAX then USIZE_MAX else x + y
  }

  /**
    `r` is what a reading yields that follows `s`, and `after` is what it leaves. An error of the transport
    itself comes before the reading is complete, with no byte taken that it would not take.
   */
  predicate Follows(r: Result<seq<Segment>, IoError>, s: Reading, before: seq<Byte>, after: seq<Byte>)
    requires s.consumed <= |before|
  {
    if r == Failure(Transport) then TakesAtMost(before, after, s.consumed)
    else r == (if s.Message? then Success(s.segments) else Failure(s.error)) && after == before[s.consumed..]
  }

  /** Reads one message; on success the source stands at the first byte after its frame. */
  method ReadMessage(source: Source) returns (r: Result<seq<Segment>, IoError>)
    modifies source
    ensures r == Failure(Transport) ==> source.faulty
    ensures source.failed == (old(source.failed) || r == Failure(Transport))
    ensures Follows(r, ReadFrame(old(source.input)), old(source.input), source.input)
  {
    ghost var input := source.input;
    var header := ReadHeader(source);
    if header.Failure? {
      return Failure(header.error);
    }
    r := ReadRest(source, header.value.0, header.value.1, input);
  }

  /** The first word: the number of segments and the first length, both checked. */
  method ReadHeader(source: Source) returns (r: Result<(nat, nat), IoError>)
    modifies source
    ensures r == Failure(Transport) ==> source.faulty
    ensures source.failed == (old(source.failed) || r == Failure(Transport))
    ensures r.Failure? ==>
              Follows(Failure(r.error), ReadFrame(old(source.input)), old(source.input), source.input)
    ensures r.Success? ==>
              && |old(source.input)| >= 8 && source.input == old(source.input)[8..]
              && 1 <= r.value.0 && r.value.1 == GetU32(old(source.input), 4) <= MAXIMUM_TOTAL_WORDS
              && ReadFrame(old(source.input)) == ReadTail(old(source.input), r.value.0)
  {
    ghost var input := source.input;
    var header := new Byte[8];
    var error := ReadExact(source, header);
    if error.Some? {
      return Failure(error.value);
    }
    var segmentCount := WrappingSuccessor(GetU32(header[..], 0));
    assert GetU32(header[..], 0) == GetU32(input, 0) && GetU32(header[..], 4) == GetU32(input, 4);
    if segmentCount == 0 || segmentCount > MAXIMUM_SEGMENTS {
      return Failure(InvalidCount(segmentCount));
    }
    var first := GetU32(header[..], 4);
    var totalWords: nat := SaturatingAdd(0, first);
    if totalWords > MAXIMUM_TOTAL_WORDS {
      return Failure(TooLarge(totalWords));
    }
    return Success((segmentCount, first));
  }

  /** `r` is what reading a table of `n` lengths yields at the start of `input`, and `after` is what it leaves. */
  predicate ReadsLengths(r: Result<seq<nat>, IoError>, input: seq<Byte>, n: nat, after: seq<Byte>) {
    if r == Failure(Transport) then TakesAtMost(input, after, TableSize(n))
    else if |input| < TableSize(n) then r == Failure(Eof) && after == []
    else
      && after == input[TableSize(n)..]
      && var counts := GetCounts(input, 4, n);
         r == if Excess(0, counts) == None then Success(counts) else Failure(TooLarge(Excess(0, counts).value))
  }

  /** The same for the segments of these lengths. */
  predicate ReadsSegments(r: Result<seq<Segment>, IoError>, input: seq<Byte>, lengths: seq<nat>, after: seq<Byte>) {
    var size := 8 * Sum(lengths);
    if r == Failure(Transport) then TakesAtMost(input, after, size)
    else if |input| < size then r == Failure(Eof) && after == []
    else r == Success(Cut(input, lengths)) && after == input[size..]
  }

  /** Lengths and then segments are the rest of the frame. */
  lemma RestIsRead(input: seq<Byte>, n: nat, lengths: Result<seq<nat>, IoError>, middle: seq<Byte>,
                   r: Result<seq<Segment>, IoError>, after: seq<Byte>)
    requires n >= 1 && |input| >= 8 && ReadsLengths(lengths, input, n, middle)
    requires lengths.Failure? ==> r == Failure(lengths.error) && after == middle
    requires lengths.Success? ==> ReadsSegments(r, middle, lengths.value, after)
    ensures Follows(r, ReadTail(input, n), input, after)
  {
    if lengths.Success? && r == Failure(Transport) {
      TakesInTwo(input, TableSize(n), after, 8 * Sum(lengths.value));
    }
  }

  /** The rest of the table and the segments. */
  method ReadRest(source: Source, segmentCount: nat, first: nat, ghost input: seq<Byte>)
    returns (r: Result<seq<Segment>, IoError>)
    requires segmentCount >= 1 && |input| >= 8 && source.input == input[8..]
    requires first == GetU32(input, 4) <= MAXIMUM_TOTAL_WORDS
    modifies source
    ensures r == Failure(Transport) ==> source.faulty
    ensures source.failed == (old(source.failed) || r == Failure(Transport))
    ensures Follows(r, ReadTail(input, segmentCount), input, source.input)
  {
    var lengths := ReadLengths(source, segmentCount, first, input);
    ghost var middle := source.input;
    if lengths.Failure? {
      r := Failure(lengths.error);
    } else {
      r := ReadSegments(source, lengths.value);
    }
    RestIsRead(input, segmentCount, lengths, middle, r, source.input);
  }

  /** All lengths; a table of one segment is complete with the header. */
  method ReadLengths(source: Source, segmentCount: nat, first: nat, ghost input: seq<Byte>)
    returns (r: Result<seq<nat>, IoError>)
    requires segmentCount >= 1 && |input| >= 8 && source.input == input[8..]
    requires first == GetU32(input, 4) <= MAXIMUM_TOTAL_WORDS
    modifies source
    ensures r == Failure(Transport) ==> source.faulty
    ensures source.failed == (old(source.failed) || r == Failure(Transport))
    ensures ReadsLengths(r, input, segmentCount, source.input)
  {
    if segmentCount > 1 {
      r := ReadTable(source, segmentCount, first, input);
    } else {
      OneCount(input);
      r := Success([first]);
    }
  }

  lemma OneCount(b: seq<Byte>)
    requires |b| >= 8
    ensures GetCounts(b, 4, 1) == [GetU32(b, 4)]
    ensures GetU32(b, 4) <= MAXIMUM_TOTAL_WORDS ==> Excess(0, GetCounts(b, 4, 1)) == None
  {
    assert GetCounts(b, 4, 1) == [GetU32(b, 4)] + GetCounts(b, 8, 0);
  }

  /** The segments themselves, once their lengths are known. */
  method ReadSegments(source: Source, lengths: seq<nat>) returns (r: Result<seq<Segment>, IoError>)
    modifies source
    ensures r == Failure(Transport) ==> source.faulty
    ensures source.failed == (old(source.failed) || r == Failure(Transport))
    ensures ReadsSegments(r, old(source.input), lengths, source.input)
  {
    var segments := new Byte[8 * Sum(lengths)];
    var error := ReadExact(source, segments);
    if error.Some? {
      return Failure(error.value);
    }
    CutPrefix(old(source.input), 8 * Sum(lengths), lengths);
    return Success(Cut(segments[..], lengths));
  }

  /** The rest of the segment table, after the count and the first length. */
  method ReadTable(source: Source, segmentCount: nat, first: nat, ghost input: seq<Byte>)
    returns (r: Result<seq<nat>, IoError>)
    requires segmentCount > 1 && |input| >= 8 && source.input == input[8..]
    requires first == GetU32(input, 4) <= MAXIMUM_TOTAL_WORDS
    modifies source
    ensures r == Failure(Transport) ==> source.faulty
    ensures source.failed == (old(source.failed) || r == Failure(Transport))
    ensures ReadsLengths(r, input, segmentCount, source.input)
  {
    var tableSize := TableSize(segmentCount);
    var sizes := new Byte[tableSize - 8];
    var error := ReadExact(source, sizes);
    if error.Some? {
      return Failure(error.value);
    }
    CountsShift(input, 8, tableSize, 0, segmentCount - 1);
    assert sizes[..] == input[8..tableSize];
    assert [first] + GetCounts(input, 8, segmentCount - 1) == GetCounts(input, 4, segmentCount);
    r := AddLengths(sizes[..], segmentCount, first);
  }

  /** Collects the lengths of a table as long as their total is within the limit. */
  method AddLengths(sizes: seq<Byte>, segmentCount: nat, first: nat) returns (r: Result<seq<nat>, IoError>)
    requires segmentCount > 1 && 4 * (segmentCount - 1) <= |sizes| && first <= MAXIMUM_TOTAL_WORDS
    ensures var counts := [first] + GetCounts(sizes, 0, segmentCount - 1);
            && (Excess(0, counts) == None ==> r == Success(counts))
            && (Excess(0, counts) != None ==> r == Failure(TooLarge(Excess(0, counts).value)))
  {
    ghost var counts := [first] + GetCounts(sizes, 0, segmentCount - 1);
    var lengths := [first];
    var totalWords: nat := first;
    for i := 1 to segmentCount
      invariant lengths == counts[..i]
      invariant totalWords <= MAXIMUM_TOTAL_WORDS
      invariant Excess(0, counts) == Excess(totalWords, counts[i..])
    {
      var length := GetU32(sizes, (i - 1) * 4);
      CountAt(sizes, 0, segmentCount - 1, i - 1);
      ExcessStep(totalWords, counts, i);
      totalWords := SaturatingAdd(totalWords, length);
      if totalWords > MAXIMUM_TOTAL_WORDS {
        return Failure(TooLarge(totalWords));
      }
      lengths := lengths + [length];
    }
    assert counts[..segmentCount] == counts;
    return Success(lengths);
  }

  lemma ExcessStep(total: nat, counts: seq<nat>, i: nat)
    requires i < |counts|
    ensures Excess(total, counts[i..]) ==
            if total + counts[i] > MAXIMUM_TOTAL_WORDS then Some(total + counts[i])
            else Excess(total + counts[i], counts[i + 1..])
  {
    assert counts[i..][0] == counts[i] && counts[i..][1..] == counts[i + 1..];
  }

  /** Counts read inside a slice are the counts read at its place. */
  lemma {:induction false} CountsShift(b: seq<Byte>, lo: nat, hi: nat, p: nat, n: nat)
    requires lo <= hi <= |b| && p + 4 * n <= hi - lo
    ensures GetCounts(b[lo..hi], p, n) == GetCounts(b, lo + p, n)
    decreases n
  {
    if n > 0 {
      CountsShift(b, lo, hi, p + 4, n - 1);
      assert GetU32(b[lo..hi], p) == GetU32(b, lo + p);
    }
  }

  lemma {:induction false} CountAt(b: seq<Byte>, p: nat, n: nat, i: nat)
    requires p + 4 * n <= |b| && i < n
    ensures GetCounts(b, p, n)[i] == GetU32(b, p + 4 * i)
    decreases n
  {
    if i > 0 {
      CountAt(b, p + 4, n - 1, i - 1);
    }
  }

  /** Cutting looks only at the bytes it hands out. */
  lemma {:induction false} CutPrefix(b: seq<Byte>, k: nat, ns: seq<nat>)
    requires 8 * Sum(ns) <= k <= |b|
    ensures Cut(b[..k], ns) == Cut(b, ns)
  {
    if ns != [] {
      var m := 8 * ns[0];
      assert b[..k][..m] == b[..m] && b[..k][m..] == b[m..][..k - m];
      CutPrefix(b[m..], k - m, ns[1..]);
    }
  }

  // ---------------------------------------------------------------------------
  // Writing.

  /** Takes the bytes written to it; `trouble` is the last thing that went wrong. */
  class Sink {
    var output: seq<Byte>
    var trouble: Option<IoError>
    const faulty: bool

    constructor (faulty: bool)
      ensures output == [] && trouble == None && this.faulty == faulty
    {
      output := [];
      trouble := None;
      this.faulty := faulty;
    }

    /** Takes a prefix of `buffer`; only a faulty sink takes nothing or fails. */
    method Poll(buffer: seq<Byte>) returns (r: Option<nat>)
      requires buffer != []
      modifies this
      ensures r.None? ==> faulty && output == old(output) && trouble == Some(Transport)
      ensures r.Some? ==> r.value <= |buffer| && output == old(output) + buffer[..r.value]
      ensures r == Some(0) ==> faulty && trouble == Some(ZeroWrite)
      ensures r.Some? && r.value > 0 ==> trouble == old(trouble)
    {
      var n: nat :| n <= |buffer|;
      if n == 0 {
        if faulty {
          var fails: bool :| true;
          trouble := Some(if fails then Transport else ZeroWrite);
          return if fails then None else Some(0);
        }
        n := 1;
      }
      output := output + buffer[..n];
      return Some(n);
    }
  }

  method WriteAll(sink: Sink, bytes: seq<Byte>) returns (error: Option<IoError>)
    modifies sink
    ensures old(sink.output) <= sink.output <= old(sink.output) + bytes
    ensures error == None ==> sink.output == old(sink.output) + bytes && sink.trouble == old(sink.trouble)
    ensures error.Some? ==> error == sink.trouble
    ensures old(sink.trouble) == None ==> error == sink.trouble
    ensures !sink.faulty ==> error == None
  {
    var done: nat := 0;
    while done < |bytes|
      invariant done <= |bytes|
      invariant sink.output == old(sink.output) + bytes[..done]
      invariant sink.trouble == old(sink.trouble)
    {
      var n := sink.Poll(bytes[done..]);
      if n.None? {
        return Some(Transport);
      }
      if n.value == 0 {
        return Some(ZeroWrite);
      }
      assert bytes[..done] + bytes[done..][..n.value] == bytes[..done + n.value];
      done := done + n.value;
    }
    return None;
  }
}
