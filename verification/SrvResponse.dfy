/**
  SRV queries and responses: section 4.1 of RFC 1035 and "The format of the SRV RR" of RFC 2782,
  as src/edge/discovery.rs builds and parses them.
 */
module SrvResponse {
  import opened Bytes
  import opened DnsName
  import opened DnsNameTheorems

  const TYPE_SRV := 33
  const CLASS_IN := 1
  const HEADER_SIZE := 12

  /** One target host and its port. */
  datatype Record = Record(target: seq<Byte>, port: nat)

  datatype SrvError =
    | ShortHeader
    | IdentifierMismatch
    | TruncatedAnswer
    | TruncatedRr
    | TruncatedRdata
    | BadName(error: NameError)

  /** `Diverges` stands for a run that never returns: a pointer cycle in a target name. */
  datatype Outcome = Records(records: seq<Record>) | Rejected(error: SrvError) | Diverges

  // ---------------------------------------------------------------------------
  // The grammar of responses.

  /**
    A resource record. `rdata` is its data as counted by the data length; `target` is the name
    that starts at offset 6 of the data and matters for SRV records of class IN only.
   */
  datatype Rr = Rr(owner: Run, rtype: nat, rclass: nat, ttl: seq<Byte>, rdata: seq<Byte>, target: Chain)

  predicate IsSrv(rr: Rr) {
    rr.rclass == CLASS_IN && rr.rtype == TYPE_SRV && |rr.rdata| >= 6
  }

  ghost predicate ValidRr(rr: Rr) {
    && ValidRun(rr.owner)
    && rr.rtype < U16_LIMIT && rr.rclass < U16_LIMIT
    && |rr.ttl| == 4 && |rr.rdata| < U16_LIMIT
  }

  ghost function PrintFixed(rr: Rr): (s: seq<Byte>)
    requires ValidRr(rr)
    ensures |s| == 10
  {
    PutU16(rr.rtype) + PutU16(rr.rclass) + rr.ttl + PutU16(|rr.rdata|)
  }

  function RrSize(rr: Rr): nat {
    RunSize(rr.owner) + 10 + |rr.rdata|
  }

  ghost function PrintRr(rr: Rr): (s: seq<Byte>)
    requires ValidRr(rr)
    ensures |s| == RrSize(rr)
  {
    PrintRun(rr.owner) + (PrintFixed(rr) + rr.rdata)
  }

  ghost predicate ValidRrs(rrs: seq<Rr>) {
    forall i :: 0 <= i < |rrs| ==> ValidRr(rrs[i])
  }

  function RrsSize(rrs: seq<Rr>): nat {
    if rrs == [] then 0 else RrSize(rrs[0]) + RrsSize(rrs[1..])
  }

  ghost function PrintRrs(rrs: seq<Rr>): (s: seq<Byte>)
    requires ValidRrs(rrs)
    ensures |s| == RrsSize(rrs)
  {
    if rrs == [] then [] else PrintRr(rrs[0]) + PrintRrs(rrs[1..])
  }

  /** In a message with `rrs` printed at `p`, the targets of the SRV records are laid-out names. */
  ghost predicate TargetsLaidOut(b: seq<Byte>, p: nat, rrs: seq<Rr>)
    decreases rrs
  {
    rrs != [] ==>
      && (IsSrv(rrs[0]) ==> LaidOut(b, p + RunSize(rrs[0].owner) + 16, rrs[0].target))
      && TargetsLaidOut(b, p + RrSize(rrs[0]), rrs[1..])
  }

  /**
    A response with one question. `flags` covers the flag word and the question count,
    `counts` the authority and additional counts, `rest` the sections after the answers.
   */
  datatype Response = Response(id: nat, flags: seq<Byte>, counts: seq<Byte>, question: Run,
                               questionTail: seq<Byte>, answers: seq<Rr>, rest: seq<Byte>)

  ghost predicate ValidResponse(m: Response) {
    && m.id < U16_LIMIT && |m.flags| == 4 && |m.counts| == 4 && |m.questionTail| == 4
    && ValidRun(m.question) && |m.answers| < U16_LIMIT && ValidRrs(m.answers)
  }

  ghost function PrintHeader(m: Response): (s: seq<Byte>)
    requires ValidResponse(m)
    ensures |s| == HEADER_SIZE
  {
    PutU16(m.id) + m.flags + PutU16(|m.answers|) + m.counts
  }

  ghost function Print(m: Response): (s: seq<Byte>)
    requires ValidResponse(m)
    ensures |s| == AnswersStart(m) + RrsSize(m.answers) + |m.rest|
  {
    PrintHeader(m) + (PrintRun(m.question) + (m.questionTail + (PrintRrs(m.answers) + m.rest)))
  }

  function AnswersStart(m: Response): nat {
    HEADER_SIZE + RunSize(m.question) + 4
  }

  /** Every SRV target of class IN is a name in the message, wherever its pointers lead. */
  ghost predicate WellFormed(m: Response) {
    ValidResponse(m) && TargetsLaidOut(Print(m), AnswersStart(m), m.answers)
  }

  /** The (target, port) pair of an SRV record of class IN; nothing for any other record. */
  function RecordsOf(rr: Rr): seq<Record> {
    if IsSrv(rr) then [Record(Joined(46, Meaning(rr.target)), GetU16(rr.rdata, 4))] else []
  }

  /** The pairs of all SRV records of class IN, in order. */
  function Expected(rrs: seq<Rr>): seq<Record> {
    if rrs == [] then [] else RecordsOf(rrs[0]) + Expected(rrs[1..])
  }

  // ---------------------------------------------------------------------------
  // The parser.

  /** What one turn of the parser's loop yields: an error, no return at all, or records and a new position. */
  datatype Turn = Bad(error: SrvError) | Hangs | Turn(records: seq<Record>, end: nat)

  /** A record from the end of its owner name on. */
  ghost function ScanFields(b: seq<Byte>, q: nat): Turn {
    if q + 10 > |b| then Bad(TruncatedRr)
    else
      var end := q + 10 + GetU16(b, q + 8);
      if end > |b| then Bad(TruncatedRdata)
      else if GetU16(b, q + 2) == CLASS_IN && GetU16(b, q) == TYPE_SRV && GetU16(b, q + 8) >= 6 then
        if !Halts(b, q + 16) then Hangs
        else if Walk(b, q + 16).error.Some? then Bad(BadName(Walk(b, q + 16).error.value))
        else Turn([Record(Dotted(Walk(b, q + 16).labels), GetU16(b, q + 14))], end)
      else Turn([], end)
  }

  ghost function Scan(b: seq<Byte>, p: nat): Turn {
    if p >= |b| then Bad(TruncatedAnswer)
    else if Skip(b, p).Failure? then Bad(BadName(Skip(b, p).error))
    else ScanFields(b, Skip(b, p).value)
  }

  ghost function Scanner(b: seq<Byte>): nat -> Turn {
    (p: nat) => Scan(b, p)
  }

  function Prepend(rs: seq<Record>, o: Outcome): Outcome {
    if o.Records? then Records(rs + o.records) else o
  }

  /** `count` turns of the loop, from position `p` on. */
  ghost function Collect(scan: nat -> Turn, p: nat, count: nat): Outcome
    decreases count
  {
    if count == 0 then Records([])
    else
      match scan(p)
      case Bad(e) => Rejected(e)
      case Hangs => Diverges
      case Turn(rs, end) => Prepend(rs, Collect(scan, end, count - 1))
  }

  ghost function Parse(b: seq<Byte>, id: nat): Outcome {
    if |b| < HEADER_SIZE then Rejected(ShortHeader)
    else if GetU16(b, 0) != id then Rejected(IdentifierMismatch)
    else if Skip(b, HEADER_SIZE).Failure? then Rejected(BadName(Skip(b, HEADER_SIZE).error))
    else Collect(Scanner(b), Skip(b, HEADER_SIZE).value + 4, GetU16(b, 6))
  }

  method ParseSrvResponse(b: seq<Byte>, id: nat) returns (r: Result<seq<Record>, SrvError>)
    requires Parse(b, id) != Diverges
    ensures Parse(b, id) == if r.Success? then Records(r.value) else Rejected(r.error)
  {
    if |b| < HEADER_SIZE {
      return Failure(ShortHeader);
    }
    if GetU16(b, 0) != id {
      return Failure(IdentifierMismatch);
    }
    var answerCount := GetU16(b, 6);
    var skipped := SkipName(b, HEADER_SIZE);
    if skipped.Failure? {
      return Failure(BadName(skipped.error));
    }
    r := ReadAnswers(b, skipped.value + 4, answerCount);
  }

  /** The loop over the answer section. */
  method ReadAnswers(b: seq<Byte>, start: nat, answerCount: nat) returns (r: Result<seq<Record>, SrvError>)
    requires Collect(Scanner(b), start, answerCount) != Diverges
    ensures Collect(Scanner(b), start, answerCount) == if r.Success? then Records(r.value) else Rejected(r.error)
  {
    var position := start;
    var records: seq<Record> := [];
    ghost var scan := Scanner(b);
    ghost var all := Collect(scan, start, answerCount);
    PrependNothing(all);
    for i := 0 to answerCount
      invariant all == Prepend(records, Collect(scan, position, answerCount - i))
    {
      ghost var turn := scan(position);
      Absorb(all, records, scan, position, answerCount - i, turn);
      var answer := ReadAnswer(b, position, turn);
      if answer.Failure? {
        return Failure(answer.error);
      }
      records := records + answer.value.0;
      position := answer.value.1;
    }
    return Success(records);
  }

  /** A turn moves records from what is still to be collected to what has been collected. */
  lemma Absorb(all: Outcome, records: seq<Record>, scan: nat -> Turn, p: nat, count: nat, turn: Turn)
    requires count > 0 && turn == scan(p) && all == Prepend(records, Collect(scan, p, count))
    ensures turn.Turn? ==> all == Prepend(records + turn.records, Collect(scan, turn.end, count - 1))
    ensures turn.Bad? ==> all == Rejected(turn.error)
    ensures turn.Hangs? ==> all == Diverges
  {
    if turn.Turn? {
      PrependTwice(records, turn.records, Collect(scan, turn.end, count - 1));
    }
  }

  lemma TurnOf(b: seq<Byte>, p: nat)
    ensures Scanner(b)(p) == Scan(b, p)
  {
  }

  lemma CollectStep(scan: nat -> Turn, p: nat, count: nat, turn: Turn)
    requires count > 0 && turn == scan(p)
    ensures Collect(scan, p, count) == match turn
                                       case Bad(e) => Rejected(e)
                                       case Hangs => Diverges
                                       case Turn(rs, end) => Prepend(rs, Collect(scan, end, count - 1))
  {
  }

  lemma PrependNothing(o: Outcome)
    ensures Prepend([], o) == o
  {
    if o.Records? {
      assert [] + o.records == o.records;
    }
  }

  /** One turn of the loop: the record found, if any, and the position after it. */
  method ReadAnswer(b: seq<Byte>, start: nat, ghost turn: Turn) returns (r: Result<(seq<Record>, nat), SrvError>)
    requires turn == Scanner(b)(start) && turn != Hangs
    ensures turn == if r.Success? then Turn(r.value.0, r.value.1) else Bad(r.error)
  {
    TurnOf(b, start);
    var position: nat := start;
    if position >= |b| {
      return Failure(TruncatedAnswer);
    }
    var skipped := SkipName(b, position);
    if skipped.Failure? {
      return Failure(BadName(skipped.error));
    }
    position := skipped.value;
    if position + 10 > |b| {
      return Failure(TruncatedRr);
    }
    var rtype := GetU16(b, position);
    var rclass := GetU16(b, position + 2);
    var rdlen := GetU16(b, position + 8);
    position := position + 10;
    if position + rdlen > |b| {
      return Failure(TruncatedRdata);
    }
    position := position + rdlen;
    if rclass != CLASS_IN {
      return Success(([], position));
    }
    if rtype == TYPE_SRV && rdlen >= 6 {
      var port := GetU16(b, position - rdlen + 4);
      var namePosition := position - rdlen + 6;
      var error, _, target := DecodeName(b, namePosition, []);
      if error.Some? {
        return Failure(BadName(error.value));
      }
      DottedIsJoined(Walk(b, namePosition).labels);
      return Success(([Record(target, port)], position));
    }
    return Success(([], position));
  }

  lemma PrependTwice(rs: seq<Record>, ss: seq<Record>, o: Outcome)
    ensures Prepend(rs, Prepend(ss, o)) == Prepend(rs + ss, o)
  {
    if o.Records? {
      assert rs + (ss + o.records) == (rs + ss) + o.records;
    }
  }
}
