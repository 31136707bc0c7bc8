/** The DNS formats in literal octets, as they are sent and received, and the errors of the parser. */
module SrvOctets {
  import opened Bytes
  import opened DnsName
  import opened DnsNameTheorems
  import opened SrvResponse
  import opened SrvTheorems

  /** The integers of DNS have their high octet first. */
  lemma PutU16Octets(n: nat)
    requires n < 65536
    ensures PutU16(n) == [n / 256, n % 256]
  {
    PutU16Unique(n, [n / 256, n % 256]);
  }

  // ---------------------------------------------------------------------------
  // A response.

  /**
    A question for "x", and four answers: an SRV record with owner and target compressed, an address
    record, an SRV record of another class, and an SRV record with a plain target.
   */
  const HEADER: seq<Byte> := [0, 7, 0x81, 0x80, 0, 1, 0, 4, 0, 0, 0, 0] + [1, 120, 0, 0, 33, 0, 1]
  const COMPRESSED: seq<Byte> :=
    [192, 12, 0, 33, 0, 1, 0, 0, 0, 60, 0, 10] + [0, 1, 0, 2, 0x1e, 0xa4, 1, 97, 192, 12]
  const ADDRESS: seq<Byte> := [0, 0, 1, 0, 1, 0, 0, 0, 60, 0, 4, 10, 0, 0, 1]
  const CHAOS: seq<Byte> := [0, 0, 33, 0, 3, 0, 0, 0, 60, 0, 9, 0, 0, 0, 0, 0, 1, 1, 99, 0]
  const PLAIN: seq<Byte> := [0, 0, 33, 0, 1, 0, 0, 0, 60, 0, 11, 0, 0, 0, 0, 1, 187, 1, 97, 1, 98, 0]
  const RESPONSE: seq<Byte> := HEADER + COMPRESSED + ADDRESS + CHAOS + PLAIN

  lemma PartsOfResponse(b: seq<Byte>)
    requires b == RESPONSE
    ensures |b| == 98 && At(b, 0, HEADER) && At(b, 19, COMPRESSED) && At(b, 41, ADDRESS)
            && At(b, 56, CHAOS) && At(b, 76, PLAIN)
  {
  }

  /** An octet of a part is an octet of the whole. */
  lemma OctetAt(b: seq<Byte>, p: nat, s: seq<Byte>)
    requires At(b, p, s)
    ensures forall i {:trigger s[i]} :: 0 <= i < |s| ==> b[p + i] == s[i]
  {
    forall i | 0 <= i < |s|
      ensures b[p + i] == s[i]
    {
      assert b[p + i] == b[p..p + |s|][i];
    }
  }

  lemma QuestionStands(b: seq<Byte>)
    requires At(b, 0, HEADER) && |b| == 98
    ensures RunAt(b, 12, [[120]], Root) && Skip(b, 12) == Success(15)
    ensures GetU16(b, 0) == 7 && GetU16(b, 6) == 4
  {
    OctetAt(b, 0, HEADER);
    assert HEADER[0] == 0 && HEADER[1] == 7 && HEADER[6] == 0 && HEADER[7] == 4;
    assert HEADER[12] == 1 && HEADER[13] == 120 && HEADER[14] == 0;
    assert b[13..14] == [120] && [[120]][1..] == [];
    assert RunAt(b, 14, [], Root);
    RunAtSkips(b, 12, [[120]], Root);
  }

  lemma CompressedScans(b: seq<Byte>)
    requires At(b, 19, COMPRESSED) && |b| == 98 && RunAt(b, 12, [[120]], Root)
    ensures Scan(b, 19) == Turn([Record([97, 46, 120], 7844)], 41)
  {
    OctetAt(b, 19, COMPRESSED);
    assert COMPRESSED[0] == 192 && COMPRESSED[1] == 12;
    assert Skip(b, 19) == Success(21);
    assert COMPRESSED[2] == 0 && COMPRESSED[3] == 33 && COMPRESSED[4] == 0 && COMPRESSED[5] == 1;
    assert COMPRESSED[10] == 0 && COMPRESSED[11] == 10 && COMPRESSED[16] == 0x1e && COMPRESSED[17] == 0xa4;
    assert GetU16(b, 21) == 33 && GetU16(b, 23) == 1 && GetU16(b, 29) == 10 && GetU16(b, 35) == 7844;
    assert COMPRESSED[18] == 1 && COMPRESSED[19] == 97 && COMPRESSED[20] == 192 && COMPRESSED[21] == 12;
    var name := Link([[97]], 12, Last([[120]]));
    assert b[38..39] == [97] && [[97]][1..] == [];
    assert RunAt(b, 39, [], Pointer(12));
    assert LaidOut(b, 12, Last([[120]]));
    assert LaidOut(b, 37, name);
    ChainDecodes(b, 37, name);
    TwoLabels(97, 120);
  }

  lemma TwoLabels(x: Byte, y: Byte)
    ensures Dotted([[x], [y]]) == [x, 46, y] && [[x]] + [[y]] == [[x], [y]]
  {
    assert [[x], [y]][1..] == [[y]];
    assert Dotted([[y]]) == [y];
    assert Dotted([[x], [y]]) == [x] + [46] + [y];
  }

  lemma OthersScan(b: seq<Byte>)
    requires At(b, 41, ADDRESS) && At(b, 56, CHAOS) && |b| == 98
    ensures Scan(b, 41) == Turn([], 56) && Scan(b, 56) == Turn([], 76)
  {
    OctetAt(b, 41, ADDRESS);
    assert ADDRESS[0] == 0 && ADDRESS[1] == 0 && ADDRESS[2] == 1 && ADDRESS[9] == 0 && ADDRESS[10] == 4;
    assert GetU16(b, 42) == 1 && GetU16(b, 50) == 4;
    OctetAt(b, 56, CHAOS);
    assert CHAOS[0] == 0 && CHAOS[3] == 0 && CHAOS[4] == 3 && CHAOS[9] == 0 && CHAOS[10] == 9;
    assert GetU16(b, 59) == 3 && GetU16(b, 65) == 9;
  }

  lemma PlainScans(b: seq<Byte>)
    requires At(b, 76, PLAIN) && |b| == 98
    ensures Scan(b, 76) == Turn([Record([97, 46, 98], 443)], 98)
  {
    OctetAt(b, 76, PLAIN);
    assert PLAIN[0] == 0 && PLAIN[1] == 0 && PLAIN[2] == 33 && PLAIN[3] == 0 && PLAIN[4] == 1;
    assert PLAIN[9] == 0 && PLAIN[10] == 11 && PLAIN[15] == 1 && PLAIN[16] == 187;
    assert GetU16(b, 77) == 33 && GetU16(b, 79) == 1 && GetU16(b, 85) == 11 && GetU16(b, 91) == 443;
    assert PLAIN[17] == 1 && PLAIN[18] == 97 && PLAIN[19] == 1 && PLAIN[20] == 98 && PLAIN[21] == 0;
    assert b[94..95] == [97] && b[96..97] == [98] && [[97], [98]][1..] == [[98]] && [[98]][1..] == [];
    assert RunAt(b, 97, [], Root);
    assert RunAt(b, 95, [[98]], Root);
    assert LaidOut(b, 93, Last([[97], [98]]));
    ChainDecodes(b, 93, Last([[97], [98]]));
    TwoLabels(97, 98);
  }

  /** Its two SRV records of class IN are "a.x" at port 7844 and "a.b" at port 443. */
  lemma ResponseParses()
    ensures Parse(RESPONSE, 7)
         == Records([Record([97, 46, 120], 7844), Record([97, 46, 98], 443)])
  {
    var b := RESPONSE;
    PartsOfResponse(b);
    QuestionStands(b);
    CompressedScans(b);
    OthersScan(b);
    PlainScans(b);
    FourTurns(Scanner(b), Record([97, 46, 120], 7844), Record([97, 46, 98], 443));
  }

  lemma FourTurns(scan: nat -> Turn, r: Record, s: Record)
    requires scan(19) == Turn([r], 41) && scan(41) == Turn([], 56)
    requires scan(56) == Turn([], 76) && scan(76) == Turn([s], 98)
    ensures Collect(scan, 19, 4) == Records([r, s])
  {
    assert Collect(scan, 76, 1) == Prepend([s], Collect(scan, 98, 0)) == Records([s]);
    assert Collect(scan, 56, 2) == Prepend([], Records([s])) == Records([s]);
    assert Collect(scan, 41, 3) == Records([s]);
  }

  // ---------------------------------------------------------------------------
  // A query.

  /** The header of every query: recursion desired, one question, nothing else. */
  function QueryHeader(id: nat): seq<Byte>
    requires id < 65536
  {
    [id / 256, id % 256, 1, 0, 0, 1, 0, 0, 0, 0, 0, 0]
  }

  /** The octets around the name in every query. */
  lemma QueryOctets(id: nat, labels: seq<Label>, printed: seq<Byte>)
    requires id < 65536 && ValidLabels(labels) && printed == PrintLabels(labels)
    ensures Print(QueryFor(id, labels)) == QueryHeader(id) + printed + [0] + [0, 33, 0, 1]
  {
    var m := QueryFor(id, labels);
    PutU16Octets(id);
    PutU16Octets(0);
    assert PrintHeader(m) == QueryHeader(id);
    QueryParts(m, printed, QueryHeader(id));
  }

  lemma QueryParts(m: Response, printed: seq<Byte>, header: seq<Byte>)
    requires ValidResponse(m) && m.answers == [] && m.rest == [] && m.questionTail == [0, 33, 0, 1]
    requires m.question.tail == Root && PrintLabels(m.question.labels) == printed && PrintHeader(m) == header
    ensures Print(m) == header + printed + [0] + [0, 33, 0, 1]
  {
    assert m.questionTail + ([] + m.rest) == [0, 33, 0, 1];
    assert header + ((printed + [0]) + [0, 33, 0, 1]) == header + printed + [0] + [0, 33, 0, 1];
  }

  /** Labels are printed as length and octets. */
  lemma LabelsOctets(l: Label, ls: seq<Label>)
    requires ValidLabel(l) && ValidLabels(ls)
    ensures ValidLabels([l] + ls) && PrintLabels([l] + ls) == [|l|] + l + PrintLabels(ls)
    ensures PrintLabels([]) == []
  {
    assert ([l] + ls)[1..] == ls;
  }

  /** The labels of "x", "tcp" and "a.b". */
  lemma LabelsOfThreeNames() returns (labels: seq<Label>)
    ensures labels == AllLabels([[120], [116, 99, 112], [97, 46, 98]])
    ensures labels == [[120]] + ([[116, 99, 112]] + ([[97]] + ([[98]] + [])))
  {
    labels := AllLabels([[120], [116, 99, 112], [97, 46, 98]]);
    OnePiece([120]);
    OnePiece([116, 99, 112]);
    assert [[97], [98]][1..] == [[98]] && Joined(46, [[98]]) == [98];
    assert Joined(46, [[97], [98]]) == [97] + [46] + [98] == [97, 46, 98];
    PiecesAreUnique([[97], [98]]);
    AllLabelsOfThree([120], [116, 99, 112], [97, 46, 98]);
  }

  lemma LabelsOfThreeOctets(labels: seq<Label>)
    requires labels == [[120]] + ([[116, 99, 112]] + ([[97]] + ([[98]] + [])))
    ensures ValidLabels(labels) && PrintLabels(labels) == [1, 120, 3, 116, 99, 112, 1, 97, 1, 98]
  {
    LabelsOctets([98], []);
    LabelsOctets([97], [[98]] + []);
    LabelsOctets([116, 99, 112], [[97]] + ([[98]] + []));
    LabelsOctets([120], [[116, 99, 112]] + ([[97]] + ([[98]] + [])));
  }

  /** The query for these names. */
  lemma QueryOfThreeNames()
    ensures var labels := AllLabels([[120], [116, 99, 112], [97, 46, 98]]);
            && ValidLabels(labels)
            && Print(QueryFor(7, labels))
               == [0, 7, 1, 0, 0, 1, 0, 0, 0, 0, 0, 0] + [1, 120, 3, 116, 99, 112, 1, 97, 1, 98] + [0] + [0, 33, 0, 1]
  {
    var labels := LabelsOfThreeNames();
    LabelsOfThreeOctets(labels);
    HeaderSeven();
    QuerySeven(labels, [1, 120, 3, 116, 99, 112, 1, 97, 1, 98], [0, 7, 1, 0, 0, 1, 0, 0, 0, 0, 0, 0]);
  }

  lemma HeaderSeven()
    ensures QueryHeader(7) == [0, 7, 1, 0, 0, 1, 0, 0, 0, 0, 0, 0]
  {
  }

  lemma QuerySeven(labels: seq<Label>, printed: seq<Byte>, header: seq<Byte>)
    requires ValidLabels(labels) && printed == PrintLabels(labels) && header == QueryHeader(7)
    ensures Print(QueryFor(7, labels)) == header + printed + [0] + [0, 33, 0, 1]
  {
    QueryOctets(7, labels, printed);
  }

  lemma OnePiece(piece: seq<Byte>)
    requires 46 !in piece
    ensures SplitDots(piece) == [piece]
  {
    PiecesAreUnique([piece]);
  }

  // ---------------------------------------------------------------------------
  // Errors.

  /** How the decoder fails: behind the message, at a cut pointer, at the reserved label types, at a cut label. */
  lemma NameErrors(b: seq<Byte>, p: nat)
    requires Halts(b, p)
    ensures p >= |b| ==> Walk(b, p).error == Some(NameOverflow)
    ensures p + 1 == |b| && b[p] >= 0xc0 ==> Walk(b, p).error == Some(BadPointer)
    ensures p < |b| && 0x40 <= b[p] < 0xc0 ==> Walk(b, p).error == Some(BadLabel)
    ensures p < |b| && 1 <= b[p] < 0x40 && p + 1 + b[p] > |b| ==> Walk(b, p).error == Some(LabelOverflow)
  {
  }

  /** How skipping fails: it does not look behind a pointer, and finds a cut label only behind the message. */
  lemma SkipErrors(b: seq<Byte>, p: nat)
    ensures p >= |b| ==> Skip(b, p) == Failure(NameOverflow)
    ensures p < |b| && 0x40 <= b[p] < 0xc0 ==> Skip(b, p) == Failure(BadLabel)
    ensures p < |b| && 1 <= b[p] < 0x40 && p + 1 + b[p] > |b| ==> Skip(b, p) == Failure(NameOverflow)
  {
  }

  const START: seq<Byte> := [0, 7, 0x81, 0x80, 0, 1, 0, 1, 0, 0, 0, 0, 0, 0, 33, 0, 1]

  /** A message shorter than a header is refused, and one with another identifier. */
  lemma HeaderErrors(b: seq<Byte>, id: nat)
    ensures |b| < 12 ==> Parse(b, id) == Rejected(ShortHeader)
    ensures |b| >= 12 && b[0] as int * 256 + b[1] != id ==> Parse(b, id) == Rejected(IdentifierMismatch)
  {
  }

  /** How the parser fails, for one answer announced and a message cut ever later. */
  lemma ResponseErrors()
    ensures Parse(START[..12], 7) == Rejected(BadName(NameOverflow))
    ensures Parse(START, 7) == Rejected(TruncatedAnswer)
    ensures Parse(START + [64], 7) == Rejected(BadName(BadLabel))
    ensures Parse(START + [0, 0, 33, 0, 1, 0, 0, 0, 60, 0], 7) == Rejected(TruncatedRr)
    ensures Parse(START + [0, 0, 33, 0, 1, 0, 0, 0, 60, 0, 7, 0, 0, 0, 0, 1, 187], 7) == Rejected(TruncatedRdata)
    ensures Parse(START + [0, 0, 33, 0, 1, 0, 0, 0, 60, 0, 6, 0, 0, 0, 0, 1, 187], 7)
         == Rejected(BadName(NameOverflow))
  {
    Cut(START[..12]);
    Cut(START);
    OneAnswer([64]);
    OneAnswer([0, 0, 33, 0, 1, 0, 0, 0, 60, 0]);
    OneAnswer([0, 0, 33, 0, 1, 0, 0, 0, 60, 0, 7, 0, 0, 0, 0, 1, 187]);
    OneAnswer([0, 0, 33, 0, 1, 0, 0, 0, 60, 0, 6, 0, 0, 0, 0, 1, 187]);
    var cut := START + [0, 0, 33, 0, 1, 0, 0, 0, 60, 0, 6, 0, 0, 0, 0, 1, 187];
    assert HaltsIn(cut, 34, 1);
  }

  lemma Cut(b: seq<Byte>)
    requires |b| >= 12 && b[6] == 0 && b[7] == 1 && b[0] == 0 && b[1] == 7
    ensures GetU16(b, 0) == 7 && GetU16(b, 6) == 1
    ensures Collect(Scanner(b), 17, 1) == match Scan(b, 17)
                                          case Bad(e) => Rejected(e)
                                          case Hangs => Diverges
                                          case Turn(rs, _) => Records(rs)
  {
    CollectStep(Scanner(b), 17, 1, Scan(b, 17));
  }

  /** One answer behind the question. */
  lemma OneAnswer(answer: seq<Byte>)
    ensures var b := START + answer;
            && Skip(b, 12) == Success(13) && GetU16(b, 0) == 7 && GetU16(b, 6) == 1
            && forall i {:trigger answer[i]} :: 0 <= i < |answer| ==> b[17 + i] == answer[i]
    ensures Parse(START + answer, 7) == match Scan(START + answer, 17)
                                        case Bad(e) => Rejected(e)
                                        case Hangs => Diverges
                                        case Turn(rs, _) => Records(rs)
  {
    Cut(START + answer);
  }
}
