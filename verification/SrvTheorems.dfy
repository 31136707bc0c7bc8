/** The SRV parser accepts exactly the printed responses and returns exactly their SRV records. */
module SrvTheorems {
  import opened Bytes
  import opened DnsName
  import opened DnsNameTheorems
  import opened SrvResponse

  // ---------------------------------------------------------------------------
  // Printed records, field by field.

  lemma U16At(b: seq<Byte>, p: nat, n: nat)
    requires n < U16_LIMIT
    ensures At(b, p, PutU16(n)) <==> p + 2 <= |b| && GetU16(b, p) == n
  {
    if p + 2 <= |b| {
      var s := b[p..p + 2];
      assert GetU16(s, 0) == GetU16(b, p);
      if GetU16(b, p) == n {
        PutU16Unique(n, s);
      }
    }
  }

  /** The record `rr` stands at `p`. */
  ghost predicate RecordAt(b: seq<Byte>, p: nat, rr: Rr) {
    RunAt(b, p, rr.owner.labels, rr.owner.tail) && FieldsAt(b, p + RunSize(rr.owner), rr)
  }

  predicate FieldsAt(b: seq<Byte>, q: nat, rr: Rr) {
    && q + 10 + |rr.rdata| <= |b|
    && GetU16(b, q) == rr.rtype && GetU16(b, q + 2) == rr.rclass && At(b, q + 4, rr.ttl)
    && GetU16(b, q + 8) == |rr.rdata| && At(b, q + 10, rr.rdata)
  }

  lemma PrintedFieldsAt(b: seq<Byte>, q: nat, rr: Rr)
    requires ValidRr(rr)
    ensures At(b, q, PrintFixed(rr) + rr.rdata) <==> FieldsAt(b, q, rr)
  {
    var t, c, n := PutU16(rr.rtype), PutU16(rr.rclass), PutU16(|rr.rdata|);
    AtSplit(b, q, t + c + rr.ttl + n, rr.rdata);
    AtSplit(b, q, t + c + rr.ttl, n);
    AtSplit(b, q, t + c, rr.ttl);
    AtSplit(b, q, t, c);
    U16At(b, q, rr.rtype);
    U16At(b, q + 2, rr.rclass);
    U16At(b, q + 8, |rr.rdata|);
  }

  lemma PrintedRecordAt(b: seq<Byte>, p: nat, rr: Rr)
    requires ValidRr(rr)
    ensures At(b, p, PrintRr(rr)) <==> RecordAt(b, p, rr)
  {
    AtSplit(b, p, PrintRun(rr.owner), PrintFixed(rr) + rr.rdata);
    PrintedFieldsAt(b, p + RunSize(rr.owner), rr);
    PrintedRunAt(b, p, rr.owner);
  }

  /** The records `rrs` stand one after the other from `p` on. */
  ghost predicate RecordsAt(b: seq<Byte>, p: nat, rrs: seq<Rr>)
    decreases rrs
  {
    if rrs == [] then p <= |b|
    else RecordAt(b, p, rrs[0]) && RecordsAt(b, p + RrSize(rrs[0]), rrs[1..])
  }

  lemma {:induction false} PrintedRecordsAt(b: seq<Byte>, p: nat, rrs: seq<Rr>)
    requires ValidRrs(rrs)
    ensures At(b, p, PrintRrs(rrs)) <==> RecordsAt(b, p, rrs)
    decreases rrs
  {
    if rrs != [] {
      AtSplit(b, p, PrintRr(rrs[0]), PrintRrs(rrs[1..]));
      PrintedRecordAt(b, p, rrs[0]);
      PrintedRecordsAt(b, p + RrSize(rrs[0]), rrs[1..]);
    }
  }

  // ---------------------------------------------------------------------------
  // Printed responses are parsed.

  lemma PortAt(b: seq<Byte>, q: nat, rr: Rr)
    requires FieldsAt(b, q, rr) && |rr.rdata| >= 6
    ensures GetU16(b, q + 14) == GetU16(rr.rdata, 4)
  {
    var d := b[q + 10..q + 10 + |rr.rdata|];
    assert d[4] == b[q + 14] && d[5] == b[q + 15];
  }

  /** The name at `p` is decoded to the meaning of `c`. */
  ghost predicate Decodes(b: seq<Byte>, p: nat, c: Chain) {
    Halts(b, p) && Walk(b, p) == NameWalk(Meaning(c), None)
  }

  lemma FieldsScan(b: seq<Byte>, q: nat, rr: Rr)
    requires FieldsAt(b, q, rr) && (IsSrv(rr) ==> Decodes(b, q + 16, rr.target))
    ensures ScanFields(b, q) == Turn(RecordsOf(rr), q + 10 + |rr.rdata|)
  {
    if IsSrv(rr) {
      PortAt(b, q, rr);
      DottedIsJoined(Meaning(rr.target));
    }
  }

  /** A record that stands at `p` is scanned to itself. */
  lemma RecordScans(b: seq<Byte>, p: nat, rr: Rr)
    requires RecordAt(b, p, rr)
    requires IsSrv(rr) ==> LaidOut(b, p + RunSize(rr.owner) + 16, rr.target)
    ensures Scan(b, p) == Turn(RecordsOf(rr), p + RrSize(rr))
  {
    var q := p + RunSize(rr.owner);
    RunAtSkips(b, p, rr.owner.labels, rr.owner.tail);
    if IsSrv(rr) {
      ChainDecodes(b, q + 16, rr.target);
    }
    FieldsScan(b, q, rr);
  }

  /** The turns of the loop, one per record. */
  ghost predicate Scanned(scan: nat -> Turn, p: nat, rrs: seq<Rr>)
    decreases rrs
  {
    rrs != [] ==>
      scan(p) == Turn(RecordsOf(rrs[0]), p + RrSize(rrs[0])) && Scanned(scan, p + RrSize(rrs[0]), rrs[1..])
  }

  /** A record stands at `p`, and so does its target if it is an SRV record. */
  ghost predicate TargetedAt(b: seq<Byte>, p: nat, rr: Rr) {
    RecordAt(b, p, rr) && (IsSrv(rr) ==> LaidOut(b, p + RunSize(rr.owner) + 16, rr.target))
  }

  /** Every record is scanned to itself. */
  ghost predicate ScansRecords(b: seq<Byte>, scan: nat -> Turn) {
    forall p: nat, rr :: TargetedAt(b, p, rr) ==> scan(p) == Turn(RecordsOf(rr), p + RrSize(rr))
  }

  lemma ScannerScansRecords(b: seq<Byte>)
    ensures ScansRecords(b, Scanner(b))
  {
    forall p: nat, rr | TargetedAt(b, p, rr)
      ensures Scanner(b)(p) == Turn(RecordsOf(rr), p + RrSize(rr))
    {
      RecordScans(b, p, rr);
    }
  }

  lemma {:induction false} RecordsScan(b: seq<Byte>, scan: nat -> Turn, p: nat, rrs: seq<Rr>)
    requires ScansRecords(b, scan) && RecordsAt(b, p, rrs) && TargetsLaidOut(b, p, rrs)
    ensures Scanned(scan, p, rrs)
    decreases rrs
  {
    if rrs != [] {
      assert TargetedAt(b, p, rrs[0]);
      RecordsScan(b, scan, p + RrSize(rrs[0]), rrs[1..]);
    }
  }

  /** Records that stand one after the other are collected to exactly their SRV records. */
  lemma RecordsCollect(b: seq<Byte>, scan: nat -> Turn, p: nat, rrs: seq<Rr>)
    requires scan == Scanner(b) && RecordsAt(b, p, rrs) && TargetsLaidOut(b, p, rrs)
    ensures Collect(scan, p, |rrs|) == Records(Expected(rrs))
  {
    ScannerScansRecords(b);
    RecordsScan(b, scan, p, rrs);
    CollectScanned(scan, p, rrs);
  }

  lemma {:induction false} CollectScanned(scan: nat -> Turn, p: nat, rrs: seq<Rr>)
    requires Scanned(scan, p, rrs)
    ensures Collect(scan, p, |rrs|) == Records(Expected(rrs))
    decreases rrs
  {
    if rrs != [] {
      CollectScanned(scan, p + RrSize(rrs[0]), rrs[1..]);
    }
  }

  // A message and its parts.

  lemma PartsAt(b: seq<Byte>, h: seq<Byte>, x: seq<Byte>, t: seq<Byte>, r: seq<Byte>, z: seq<Byte>)
    ensures At(b, 0, h + (x + (t + (r + z)))) <==>
            && At(b, 0, h) && At(b, |h|, x) && At(b, |h| + |x|, t)
            && At(b, |h| + |x| + |t|, r) && At(b, |h| + |x| + |t| + |r|, z)
  {
    AtSplit(b, 0, h, x + (t + (r + z)));
    AtSplit(b, |h|, x, t + (r + z));
    AtSplit(b, |h| + |x|, t, r + z);
    AtSplit(b, |h| + |x| + |t|, r, z);
  }

  ghost predicate HeaderAt(b: seq<Byte>, m: Response) {
    && |b| >= HEADER_SIZE && GetU16(b, 0) == m.id && At(b, 2, m.flags)
    && GetU16(b, 6) == |m.answers| && At(b, 8, m.counts)
  }

  lemma PrintedHeaderAt(b: seq<Byte>, m: Response)
    requires ValidResponse(m)
    ensures At(b, 0, PrintHeader(m)) <==> HeaderAt(b, m)
  {
    var i, n := PutU16(m.id), PutU16(|m.answers|);
    AtSplit(b, 0, i + m.flags + n, m.counts);
    AtSplit(b, 0, i + m.flags, n);
    AtSplit(b, 0, i, m.flags);
    U16At(b, 0, m.id);
    U16At(b, 6, |m.answers|);
  }

  /** The parts of the response `m` stand in `b` one after the other. */
  ghost predicate ResponseAt(b: seq<Byte>, m: Response) {
    && HeaderAt(b, m)
    && RunAt(b, HEADER_SIZE, m.question.labels, m.question.tail)
    && At(b, HEADER_SIZE + RunSize(m.question), m.questionTail)
    && RecordsAt(b, AnswersStart(m), m.answers)
    && At(b, AnswersStart(m) + RrsSize(m.answers), m.rest)
  }

  lemma PrintedResponseAt(b: seq<Byte>, m: Response)
    requires ValidResponse(m)
    ensures At(b, 0, Print(m)) <==> ResponseAt(b, m)
  {
    PrintedHeaderAt(b, m);
    PrintedRunAt(b, HEADER_SIZE, m.question);
    PrintedRecordsAt(b, AnswersStart(m), m.answers);
    PartsOf(b, m, PrintHeader(m), PrintRun(m.question), PrintRrs(m.answers));
  }

  lemma PartsOf(b: seq<Byte>, m: Response, h: seq<Byte>, x: seq<Byte>, r: seq<Byte>)
    requires |m.questionTail| == 4
    requires |h| == HEADER_SIZE && (At(b, 0, h) <==> HeaderAt(b, m))
    requires |x| == RunSize(m.question)
    requires At(b, HEADER_SIZE, x) <==> RunAt(b, HEADER_SIZE, m.question.labels, m.question.tail)
    requires |r| == RrsSize(m.answers) && (At(b, AnswersStart(m), r) <==> RecordsAt(b, AnswersStart(m), m.answers))
    ensures At(b, 0, h + (x + (m.questionTail + (r + m.rest)))) <==> ResponseAt(b, m)
  {
    PartsAt(b, h, x, m.questionTail, r, m.rest);
  }

  lemma PrintedParts(m: Response)
    requires ValidResponse(m)
    ensures ResponseAt(Print(m), m)
  {
    assert Print(m)[0..|Print(m)|] == Print(m);
    PrintedResponseAt(Print(m), m);
  }

  /**
    For every response with one question, any answers of any type and class, and plain or
    compressed names, the parser returns exactly the SRV records of class IN, in order.
   */
  lemma WellFormedResponseParses(m: Response)
    requires WellFormed(m)
    ensures Parse(Print(m), m.id) == Records(Expected(m.answers))
    ensures forall id :: id != m.id ==> Parse(Print(m), id) == Rejected(IdentifierMismatch)
  {
    PrintedParts(m);
    ResponseParses(Print(m), m);
  }

  /** The same for a response whose parts stand in the message. */
  lemma ResponseParses(b: seq<Byte>, m: Response)
    requires ResponseAt(b, m) && TargetsLaidOut(b, AnswersStart(m), m.answers)
    ensures Parse(b, m.id) == Records(Expected(m.answers))
    ensures forall id :: id != m.id ==> Parse(b, id) == Rejected(IdentifierMismatch)
  {
    RunAtSkips(b, HEADER_SIZE, m.question.labels, m.question.tail);
    RecordsCollect(b, Scanner(b), AnswersStart(m), m.answers);
  }

  // ---------------------------------------------------------------------------
  // Parsed messages are printed responses.

  /** The record whose owner is `owner` and whose fixed part is at `q`. */
  function RrFrom(b: seq<Byte>, q: nat, owner: Run, target: Chain): Rr
    requires q + 10 <= |b| && q + 10 + GetU16(b, q + 8) <= |b|
  {
    Rr(owner, GetU16(b, q), GetU16(b, q + 2), b[q + 4..q + 8], b[q + 10..q + 10 + GetU16(b, q + 8)], target)
  }

  lemma RecordIsThere(b: seq<Byte>, p: nat, q: nat, target: Chain) returns (rr: Rr)
    requires Skip(b, p) == Success(q) && q + 10 <= |b| && q + 10 + GetU16(b, q + 8) <= |b|
    ensures rr.rtype == GetU16(b, q) && rr.rclass == GetU16(b, q + 2) && |rr.rdata| == GetU16(b, q + 8)
    ensures rr.target == target && RunSize(rr.owner) == q - p && p + RrSize(rr) == q + 10 + GetU16(b, q + 8)
    ensures ValidRr(rr) && RecordAt(b, p, rr)
  {
    var owner := SkippedIsRun(b, p);
    rr := RrFrom(b, q, owner, target);
  }

  /** What a turn without error has found: a record that stands there, its target laid out. */
  lemma ScannedIsThere(b: seq<Byte>, p: nat, turn: Turn) returns (rr: Rr)
    requires turn == Scan(b, p) && turn.Turn?
    ensures ValidRr(rr) && RecordAt(b, p, rr) && p + RrSize(rr) == turn.end <= |b|
    ensures IsSrv(rr) ==> LaidOut(b, p + RunSize(rr.owner) + 16, rr.target)
  {
    var q, srv := TurnParts(b, p, turn);
    rr := PartsAreThere(b, p, q, srv);
  }

  lemma PartsAreThere(b: seq<Byte>, p: nat, q: nat, srv: bool) returns (rr: Rr)
    requires Skip(b, p) == Success(q) && q + 10 <= |b| && q + 10 + GetU16(b, q + 8) <= |b|
    requires srv <==> GetU16(b, q + 2) == CLASS_IN && GetU16(b, q) == TYPE_SRV && GetU16(b, q + 8) >= 6
    requires srv ==> Halts(b, q + 16) && Walk(b, q + 16).error.None?
    ensures ValidRr(rr) && RecordAt(b, p, rr) && p + RrSize(rr) == q + 10 + GetU16(b, q + 8)
    ensures IsSrv(rr) ==> LaidOut(b, p + RunSize(rr.owner) + 16, rr.target)
  {
    var target := Last([]);
    if srv {
      target := DecodedIsChain(b, q + 16);
    }
    rr := RecordIsThere(b, p, q, target);
    assert p + RunSize(rr.owner) + 16 == q + 16;
  }

  /** What a turn without error has checked; `q` is the end of the owner name. */
  lemma TurnParts(b: seq<Byte>, p: nat, turn: Turn) returns (q: nat, srv: bool)
    requires turn == Scan(b, p) && turn.Turn?
    ensures Skip(b, p) == Success(q) && q + 10 <= |b| && q + 10 + GetU16(b, q + 8) == turn.end <= |b|
    ensures srv <==> GetU16(b, q + 2) == CLASS_IN && GetU16(b, q) == TYPE_SRV && GetU16(b, q + 8) >= 6
    ensures srv ==> Halts(b, q + 16) && Walk(b, q + 16).error.None?
  {
    q := Skip(b, p).value;
    srv := GetU16(b, q + 2) == CLASS_IN && GetU16(b, q) == TYPE_SRV && GetU16(b, q + 8) >= 6;
  }

  /** A valid record with a laid-out target stands between `p` and `end`. */
  ghost predicate Stands(b: seq<Byte>, p: nat, rr: Rr, end: nat) {
    ValidRr(rr) && TargetedAt(b, p, rr) && p + RrSize(rr) == end <= |b|
  }

  /** `count` valid records with laid-out targets stand one after the other from `p` on. */
  ghost predicate RecordsStand(b: seq<Byte>, p: nat, count: nat, rrs: seq<Rr>) {
    |rrs| == count && ValidRrs(rrs) && RecordsAt(b, p, rrs) && TargetsLaidOut(b, p, rrs)
  }

  ghost predicate Findable(b: seq<Byte>, p: nat, count: nat) {
    exists rrs :: RecordsStand(b, p, count, rrs)
  }

  lemma NoRecordsStand(b: seq<Byte>, p: nat)
    requires p <= |b|
    ensures Findable(b, p, 0)
  {
    assert RecordsStand(b, p, 0, []);
  }

  /** The first of the records collected, in front of whatever is found behind it. */
  lemma FirstIsThere(b: seq<Byte>, p: nat, turn: Turn, count: nat)
    requires turn == Scan(b, p) && turn.Turn?
    ensures turn.end <= |b| && (Findable(b, turn.end, count) ==> Findable(b, p, count + 1))
  {
    var rr := ScannedIsThere(b, p, turn);
    StandsBefore(b, p, rr, turn.end, count);
  }

  lemma StandsBefore(b: seq<Byte>, p: nat, rr: Rr, end: nat, count: nat)
    requires Stands(b, p, rr, end)
    ensures Findable(b, end, count) ==> Findable(b, p, count + 1)
  {
    if Findable(b, end, count) {
      var rest :| RecordsStand(b, end, count, rest);
      RecordBeforeRecords(b, p, end, rr, rest, [rr] + rest);
      assert RecordsStand(b, p, count + 1, [rr] + rest);
    }
  }

  /** A turn without error finds a record in front of whatever is found behind it. */
  ghost predicate FindsRecords(b: seq<Byte>, scan: nat -> Turn) {
    && (forall p: nat :: scan(p).Turn? ==> scan(p).end <= |b|)
    && forall p: nat, count: nat :: scan(p).Turn? && count > 0 ==>
         (Findable(b, scan(p).end, count - 1) ==> Findable(b, p, count))
  }

  lemma ScannerFindsRecords(b: seq<Byte>)
    ensures FindsRecords(b, Scanner(b))
  {
    forall p: nat | Scanner(b)(p).Turn?
      ensures Scanner(b)(p).end <= |b|
    {
      FirstIsThere(b, p, Scanner(b)(p), 0);
    }
    forall p: nat, count: nat | Scanner(b)(p).Turn? && count > 0
      ensures Findable(b, Scanner(b)(p).end, count - 1) ==> Findable(b, p, count)
    {
      FirstIsThere(b, p, Scanner(b)(p), count - 1);
    }
  }

  lemma {:induction false} CollectedAreThere(b: seq<Byte>, scan: nat -> Turn, p: nat, count: nat)
    requires FindsRecords(b, scan) && Collect(scan, p, count).Records? && (count > 0 || p <= |b|)
    ensures Findable(b, p, count)
    decreases count
  {
    if count == 0 {
      NoRecordsStand(b, p);
    } else {
      CollectStep(scan, p, count, scan(p));
      CollectedAreThere(b, scan, scan(p).end, count - 1);
    }
  }

  lemma RecordBeforeRecords(b: seq<Byte>, p: nat, end: nat, rr: Rr, rest: seq<Rr>, rrs: seq<Rr>)
    requires ValidRr(rr) && ValidRrs(rest) && end == p + RrSize(rr)
    requires RecordAt(b, p, rr) && RecordsAt(b, end, rest)
    requires IsSrv(rr) ==> LaidOut(b, p + RunSize(rr.owner) + 16, rr.target)
    requires TargetsLaidOut(b, end, rest) && rrs == [rr] + rest
    ensures ValidRrs(rrs) && RecordsAt(b, p, rrs) && TargetsLaidOut(b, p, rrs)
  {
    assert rrs[0] == rr && rrs[1..] == rest;
  }

  /** The question ends inside the message. Checked by the parser only when there are answers. */
  predicate QuestionComplete(b: seq<Byte>) {
    |b| >= HEADER_SIZE && Skip(b, HEADER_SIZE).Success? && Skip(b, HEADER_SIZE).value + 4 <= |b|
  }

  /** Some well-formed response with this identifier and these records prints to `b`. */
  ghost predicate IsResponse(b: seq<Byte>, id: nat, rs: seq<Record>) {
    exists m :: WellFormed(m) && m.id == id && Print(m) == b && Expected(m.answers) == rs
  }

  lemma ParsedIsPrinted(b: seq<Byte>, id: nat) returns (m: Response)
    requires Parse(b, id).Records? && QuestionComplete(b)
    ensures WellFormed(m) && m.id == id && Print(m) == b && Expected(m.answers) == Parse(b, id).records
  {
    var q := Skip(b, HEADER_SIZE).value;
    var question := SkippedIsRun(b, HEADER_SIZE);
    var rrs := AnswersAreThere(b, Scanner(b), q + 4, GetU16(b, 6));
    m := ResponseFrom(b, q, question, rrs);
  }

  lemma AnswersAreThere(b: seq<Byte>, scan: nat -> Turn, p: nat, count: nat) returns (rrs: seq<Rr>)
    requires scan == Scanner(b) && p <= |b| && Collect(scan, p, count).Records?
    ensures |rrs| == count && ValidRrs(rrs) && RecordsAt(b, p, rrs) && TargetsLaidOut(b, p, rrs)
    ensures Collect(scan, p, count) == Records(Expected(rrs))
  {
    ScannerFindsRecords(b);
    CollectedAreThere(b, scan, p, count);
    rrs :| RecordsStand(b, p, count, rrs);
    RecordsCollect(b, scan, p, rrs);
  }

  /** The response with this question and these answers and all its other octets from `b`. */
  lemma ResponseFrom(b: seq<Byte>, q: nat, question: Run, rrs: seq<Rr>) returns (m: Response)
    requires ValidRun(question) && RunAt(b, HEADER_SIZE, question.labels, question.tail)
    requires q == HEADER_SIZE + RunSize(question) && q + 4 <= |b|
    requires ValidRrs(rrs) && RecordsAt(b, q + 4, rrs) && |rrs| == GetU16(b, 6)
    ensures ValidResponse(m) && Print(m) == b && AnswersStart(m) == q + 4
    ensures m.id == GetU16(b, 0) && m.answers == rrs
  {
    RecordsEnd(b, q + 4, rrs);
    var end := q + 4 + RrsSize(rrs);
    m := Response(GetU16(b, 0), b[2..6], b[8..12], question, b[q..q + 4], rrs, b[end..]);
    PartsStand(b, m, q, end);
    PrintedResponseAt(b, m);
    WholeAt(b, Print(m));
  }

  lemma PartsStand(b: seq<Byte>, m: Response, q: nat, end: nat)
    requires |b| >= HEADER_SIZE && q == HEADER_SIZE + RunSize(m.question) && q + 4 <= end <= |b|
    requires m.id == GetU16(b, 0) && m.flags == b[2..6] && |m.answers| == GetU16(b, 6) && m.counts == b[8..12]
    requires RunAt(b, HEADER_SIZE, m.question.labels, m.question.tail) && m.questionTail == b[q..q + 4]
    requires RecordsAt(b, q + 4, m.answers) && end == q + 4 + RrsSize(m.answers) && m.rest == b[end..]
    ensures ResponseAt(b, m)
  {
    assert AnswersStart(m) == q + 4 && AnswersStart(m) + RrsSize(m.answers) == end;
    HeaderStands(b, m);
    SliceAt(b, q, q + 4, m.questionTail);
    SliceAt(b, end, |b|, m.rest);
  }

  lemma HeaderStands(b: seq<Byte>, m: Response)
    requires |b| >= HEADER_SIZE
    requires m.id == GetU16(b, 0) && m.flags == b[2..6] && |m.answers| == GetU16(b, 6) && m.counts == b[8..12]
    ensures HeaderAt(b, m)
  {
    SliceAt(b, 2, 6, m.flags);
    SliceAt(b, 8, 12, m.counts);
  }

  lemma SliceAt(b: seq<Byte>, i: nat, j: nat, s: seq<Byte>)
    requires i <= j <= |b| && s == b[i..j]
    ensures At(b, i, s)
  {
  }

  lemma WholeAt(b: seq<Byte>, s: seq<Byte>)
    requires At(b, 0, s) && |s| == |b|
    ensures s == b
  {
    assert b[0..|b|] == b;
  }

  lemma {:induction false} RecordsEnd(b: seq<Byte>, p: nat, rrs: seq<Rr>)
    requires RecordsAt(b, p, rrs)
    ensures p + RrsSize(rrs) <= |b|
    decreases rrs
  {
    if rrs != [] {
      RecordsEnd(b, p + RrSize(rrs[0]), rrs[1..]);
    }
  }

  /**
    For every byte string: the parser accepts it with records `rs`, its question being complete,
    if and only if it is a well-formed response whose SRV records of class IN are `rs`.
   */
  lemma AcceptsExactlyResponses(b: seq<Byte>, id: nat, rs: seq<Record>)
    ensures Parse(b, id) == Records(rs) && QuestionComplete(b) <==> IsResponse(b, id, rs)
  {
    if IsResponse(b, id, rs) {
      var m :| WellFormed(m) && m.id == id && Print(m) == b && Expected(m.answers) == rs;
      WellFormedResponseParses(m);
      PrintedParts(m);
      RunAtSkips(b, HEADER_SIZE, m.question.labels, m.question.tail);
    }
    if Parse(b, id) == Records(rs) && QuestionComplete(b) {
      var m := ParsedIsPrinted(b, id);
    }
  }

  /** With at least one announced answer, the parser itself insists on a complete question. */
  lemma AnswersNeedQuestion(b: seq<Byte>, id: nat)
    requires Parse(b, id).Records? && GetU16(b, 6) > 0
    ensures QuestionComplete(b)
  {
  }

  // ---------------------------------------------------------------------------
  // Where acceptance is more generous than the standard.

  /** A header announcing no answers is accepted although its question stops after one octet. */
  lemma TruncatedQuestionAccepted()
    ensures var b: seq<Byte> := [0, 7, 0x81, 0x80, 0, 1, 0, 0, 0, 0, 0, 0, 192];
            Parse(b, 7) == Records([]) && !IsResponse(b, 7, [])
  {
    var b: seq<Byte> := [0, 7, 0x81, 0x80, 0, 1, 0, 0, 0, 0, 0, 0, 192];
    AcceptsExactlyResponses(b, 7, []);
  }

  /** The target of an SRV record lies inside the data of the record. */
  ghost predicate TargetInside(rr: Rr) {
    IsSrv(rr) ==> ValidRun(FirstRun(rr.target)) && At(rr.rdata, 6, PrintRun(FirstRun(rr.target)))
  }

  /** A response with one SRV record of six data octets, and the target "a" in the octets after it. */
  ghost function Overrun(): Response {
    var rr := Rr(Run([], Root), TYPE_SRV, CLASS_IN, [0, 0, 0, 60], [0, 0, 0, 0, 0x1e, 0xa4], Last([[97]]));
    Response(7, [0x81, 0x80, 0, 1], [0, 0, 0, 0], Run([], Root), [0, 33, 0, 1], [rr], [1, 97, 0])
  }

  lemma OverrunIsWellFormed()
    ensures WellFormed(Overrun())
  {
    PrintedParts(Overrun());
    OverrunTarget(Print(Overrun()), Overrun());
  }

  lemma OverrunTarget(b: seq<Byte>, m: Response)
    requires m == Overrun() && ResponseAt(b, m)
    ensures TargetsLaidOut(b, AnswersStart(m), m.answers)
  {
    var rr := m.answers[0];
    assert m.answers[1..] == [];
    assert RrSize(rr) == 17 && RrsSize(m.answers) == RrSize(rr) + RrsSize(m.answers[1..]);
    SingleLabelAt(b, 34, 97);
  }

  lemma SingleLabelAt(b: seq<Byte>, p: nat, x: Byte)
    requires At(b, p, [1, x, 0])
    ensures RunAt(b, p, [[x]], Root)
  {
    var s := b[p..p + 3];
    assert b[p] == s[0] && b[p + 1] == s[1] && b[p + 2] == s[2];
    assert [[x]][1..] == [];
    assert RunAt(b, p + 2, [], Root);
  }

  /**
    The data length does not bound the target: the record is accepted, and its target is read from
    the octets behind the record.
   */
  lemma TargetMayOverrunItsRecord()
    ensures WellFormed(Overrun()) && !TargetInside(Overrun().answers[0])
    ensures Parse(Print(Overrun()), 7) == Records([Record([97], 7844)])
  {
    var m := Overrun();
    OverrunIsWellFormed();
    WellFormedResponseParses(m);
    assert m.answers[1..] == [];
    assert Expected(m.answers) == RecordsOf(m.answers[0]);
    assert Joined(46, [[97]]) == [97];
  }

  /**
    Exactly when the target of a record lies inside its data: when skipping the target ends there.
   */
  lemma TargetInsideExactly(b: seq<Byte>, p: nat, rr: Rr)
    requires TargetedAt(b, p, rr) && IsSrv(rr)
    ensures var q := p + RunSize(rr.owner);
            Skip(b, q + 16).Success? && (TargetInside(rr) <==> Skip(b, q + 16).value <= p + RrSize(rr))
  {
    var q, run := p + RunSize(rr.owner), FirstRun(rr.target);
    RunAtSkips(b, q + 16, run.labels, run.tail);
    RunIsValid(b, q + 16, run.labels, run.tail);
    PrintedRunAt(b, q + 16, run);
    RunInside(b, q + 10, rr.rdata, PrintRun(run));
  }

  /** What stands at offset 6 of some data is in the data as far as it fits. */
  lemma RunInside(b: seq<Byte>, q: nat, data: seq<Byte>, s: seq<Byte>)
    requires At(b, q, data) && At(b, q + 6, s)
    ensures At(data, 6, s) <==> 6 + |s| <= |data|
  {
    if 6 + |s| <= |data| {
      assert forall i :: 0 <= i < |s| ==> data[6 + i] == b[q..q + |data|][6 + i] == b[q + 6..q + 6 + |s|][i] == s[i];
    }
  }

  /** The targets of all SRV records lie inside their data. */
  ghost predicate TargetsInside(rrs: seq<Rr>)
    decreases rrs
  {
    rrs != [] ==> TargetInside(rrs[0]) && TargetsInside(rrs[1..])
  }

  /** From `p` on `count` records follow, and the target of each SRV record is skipped within its own data. */
  predicate Confined(b: seq<Byte>, p: nat, count: nat)
    decreases count
  {
    count > 0 ==>
      && Skip(b, p).Success?
      && var q := Skip(b, p).value;
         && q + 10 <= |b|
         && (GetU16(b, q + 2) == CLASS_IN && GetU16(b, q) == TYPE_SRV && GetU16(b, q + 8) >= 6 ==>
             Skip(b, q + 16).Success? && Skip(b, q + 16).value <= q + 10 + GetU16(b, q + 8))
         && Confined(b, q + 10 + GetU16(b, q + 8), count - 1)
  }

  lemma ConfinedFirst(b: seq<Byte>, p: nat, rr: Rr, count: nat)
    requires TargetedAt(b, p, rr) && count > 0
    ensures Confined(b, p, count) <==> TargetInside(rr) && Confined(b, p + RrSize(rr), count - 1)
  {
    var q, inside := FirstFields(b, p, rr);
    ConfinedFields(b, p, q, rr, inside, q + 10 + |rr.rdata|, count);
  }

  lemma FirstFields(b: seq<Byte>, p: nat, rr: Rr) returns (q: nat, inside: bool)
    requires TargetedAt(b, p, rr)
    ensures Skip(b, p) == Success(q) && FieldsAt(b, q, rr) && p + RrSize(rr) == q + 10 + |rr.rdata|
    ensures if IsSrv(rr) then inside <==> Skip(b, q + 16).Success? && Skip(b, q + 16).value <= p + RrSize(rr)
            else inside
    ensures inside <==> TargetInside(rr)
  {
    q := p + RunSize(rr.owner);
    inside := TargetInside(rr);
    RunAtSkips(b, p, rr.owner.labels, rr.owner.tail);
    if IsSrv(rr) {
      TargetInsideExactly(b, p, rr);
    }
  }

  lemma ConfinedFields(b: seq<Byte>, p: nat, q: nat, rr: Rr, inside: bool, end: nat, count: nat)
    requires Skip(b, p) == Success(q) && FieldsAt(b, q, rr) && end == q + 10 + |rr.rdata| && count > 0
    requires if IsSrv(rr) then inside <==> Skip(b, q + 16).Success? && Skip(b, q + 16).value <= end else inside
    ensures Confined(b, p, count) <==> inside && Confined(b, end, count - 1)
  {
  }

  /** `confined` takes the records one by one and looks at the target of each. */
  ghost predicate ChecksTargets(b: seq<Byte>, confined: (nat, nat) -> bool) {
    && (forall p: nat :: confined(p, 0))
    && forall p: nat, rr, n: nat :: n > 0 && TargetedAt(b, p, rr) ==>
         (confined(p, n) <==> TargetInside(rr) && confined(p + RrSize(rr), n - 1))
  }

  function Confinement(b: seq<Byte>): (nat, nat) -> bool {
    (p: nat, n: nat) => Confined(b, p, n)
  }

  lemma ConfinedChecksTargets(b: seq<Byte>)
    ensures ChecksTargets(b, Confinement(b))
  {
    forall p: nat, rr, n: nat | n > 0 && TargetedAt(b, p, rr)
      ensures Confinement(b)(p, n) <==> TargetInside(rr) && Confinement(b)(p + RrSize(rr), n - 1)
    {
      ConfinedFirst(b, p, rr, n);
    }
  }

  lemma {:induction false} ConfinedRecords(b: seq<Byte>, confined: (nat, nat) -> bool, p: nat, rrs: seq<Rr>)
    requires ChecksTargets(b, confined) && RecordsAt(b, p, rrs) && TargetsLaidOut(b, p, rrs)
    ensures confined(p, |rrs|) <==> TargetsInside(rrs)
    decreases rrs
  {
    if rrs != [] {
      assert TargetedAt(b, p, rrs[0]);
      ConfinedRecords(b, confined, p + RrSize(rrs[0]), rrs[1..]);
    }
  }

  lemma RecordsConfined(b: seq<Byte>, p: nat, rrs: seq<Rr>)
    requires RecordsAt(b, p, rrs) && TargetsLaidOut(b, p, rrs)
    ensures Confined(b, p, |rrs|) <==> TargetsInside(rrs)
  {
    ConfinedChecksTargets(b);
    ConfinedRecords(b, Confinement(b), p, rrs);
  }

  /** A well-formed response keeps all its targets inside their records exactly when its octets are confined. */
  lemma TargetsInsideExactly(m: Response)
    requires WellFormed(m)
    ensures TargetsInside(m.answers) <==> Confined(Print(m), AnswersStart(m), |m.answers|)
  {
    PrintedParts(m);
    RecordsConfined(Print(m), AnswersStart(m), m.answers);
  }

  /** A response as before, all targets inside their records. */
  ghost predicate IsStrictResponse(b: seq<Byte>, id: nat, rs: seq<Record>) {
    exists m :: WellFormed(m) && m.id == id && Print(m) == b && Expected(m.answers) == rs && TargetsInside(m.answers)
  }

  /** What a parser would have to check in addition, to accept only such responses. */
  predicate AnswersConfined(b: seq<Byte>)
    requires QuestionComplete(b)
  {
    Confined(b, Skip(b, HEADER_SIZE).value + 4, GetU16(b, 6))
  }

  /**
    For every byte string: it is a well-formed response with all targets inside their records if and
    only if the parser accepts it, its question is complete and its answers are confined.
   */
  lemma AcceptsStrictlyWhenConfined(b: seq<Byte>, id: nat, rs: seq<Record>)
    ensures IsStrictResponse(b, id, rs) <==>
            Parse(b, id) == Records(rs) && QuestionComplete(b) && AnswersConfined(b)
  {
    AcceptsExactlyResponses(b, id, rs);
    if IsStrictResponse(b, id, rs) {
      var m :| WellFormed(m) && m.id == id && Print(m) == b && Expected(m.answers) == rs && TargetsInside(m.answers);
      StrictExactly(b, m);
    }
    if IsResponse(b, id, rs) && QuestionComplete(b) && AnswersConfined(b) {
      var m :| WellFormed(m) && m.id == id && Print(m) == b && Expected(m.answers) == rs;
      StrictExactly(b, m);
    }
  }

  lemma StrictExactly(b: seq<Byte>, m: Response)
    requires WellFormed(m) && Print(m) == b
    ensures QuestionComplete(b) && (TargetsInside(m.answers) <==> AnswersConfined(b))
  {
    AnswersStandThere(m);
    TargetsInsideExactly(m);
  }

  /** Where the answers of a printed response start, and how many there are. */
  lemma AnswersStandThere(m: Response)
    requires ValidResponse(m)
    ensures QuestionComplete(Print(m))
    ensures Skip(Print(m), HEADER_SIZE).value + 4 == AnswersStart(m) && GetU16(Print(m), 6) == |m.answers|
  {
    PrintedParts(m);
    RunAtSkips(Print(m), HEADER_SIZE, m.question.labels, m.question.tail);
  }

  // ---------------------------------------------------------------------------
  // Resource bounds, for arbitrary input.

  /** A turn moves on by at least 11 octets, or 17 when it finds a record. */
  lemma TurnNeedsOctets(b: seq<Byte>, p: nat)
    requires Scan(b, p).Turn?
    ensures |Scan(b, p).records| <= 1 && p + 11 <= Scan(b, p).end <= |b|
    ensures Scan(b, p).records != [] ==> p + 17 <= Scan(b, p).end
  {
  }

  lemma {:induction false} RecordsNeedOctets(b: seq<Byte>, p: nat, count: nat)
    requires Collect(Scanner(b), p, count).Records? && Collect(Scanner(b), p, count).records != []
    ensures |b| >= p + 17 * |Collect(Scanner(b), p, count).records|
    decreases count
  {
    CollectStep(Scanner(b), p, count, Scan(b, p));
    TurnNeedsOctets(b, p);
    var end := Scan(b, p).end;
    if Collect(Scanner(b), end, count - 1).records != [] {
      RecordsNeedOctets(b, end, count - 1);
    }
  }

  /** Each returned record costs at least 17 octets; a 4096-octet datagram yields at most 239. */
  lemma RecordCountBound(b: seq<Byte>, id: nat)
    requires Parse(b, id).Records? && Parse(b, id).records != []
    ensures |b| >= 17 + 17 * |Parse(b, id).records|
    ensures |b| <= 4096 ==> |Parse(b, id).records| <= 239
  {
    RecordsNeedOctets(b, Skip(b, HEADER_SIZE).value + 4, GetU16(b, 6));
  }

  // ---------------------------------------------------------------------------
  // Termination of the parser.

  /** The last move of a walk of at most `n` moves; `None` when it is still going on. */
  function LastMove(b: seq<Byte>, p: nat, n: nat): Option<Move>
    decreases n
  {
    if n == 0 then None
    else if Moves(b, p) then LastMove(b, Next(b, p), n - 1)
    else Some(MoveAt(b, p))
  }

  lemma {:induction false} LastMoveOfWalk(b: seq<Byte>, p: nat, n: nat)
    ensures LastMove(b, p, n).Some? <==> Halts(b, p) && Cost(b, p) <= n
    ensures LastMove(b, p, n).Some? ==> (LastMove(b, p, n) == Some(End) <==> Walk(b, p).error.None?)
    decreases n
  {
    if n > 0 && Moves(b, p) {
      LastMoveOfWalk(b, Next(b, p), n - 1);
      NextHalts(b, p);
    } else if !Moves(b, p) {
      assert HaltsIn(b, p, 1);
    }
  }

  /** With one move per octet and one more, every walk that ends has ended. */
  lemma LastMoveDecides(b: seq<Byte>, p: nat)
    ensures LastMove(b, p, |b| + 1).Some? <==> Halts(b, p)
    ensures LastMove(b, p, |b| + 1) == Some(End) <==> Halts(b, p) && Walk(b, p).error.None?
  {
    LastMoveOfWalk(b, p, |b| + 1);
    HaltsExactly(b, p);
  }

  /** What an answer does to the parser's loop. */
  datatype Progress = Stuck | Ends | Goes(end: nat)

  /** Decided by a bounded number of moves. */
  function ProgressAt(b: seq<Byte>, p: nat): Progress {
    if p >= |b| || Skip(b, p).Failure? then Ends
    else
      var q := Skip(b, p).value;
      if q + 10 > |b| || q + 10 + GetU16(b, q + 8) > |b| then Ends
      else if GetU16(b, q + 2) == CLASS_IN && GetU16(b, q) == TYPE_SRV && GetU16(b, q + 8) >= 6 then
        match LastMove(b, q + 16, |b| + 1)
        case None => Stuck
        case Some(End) => Goes(q + 10 + GetU16(b, q + 8))
        case Some(_) => Ends
      else Goes(q + 10 + GetU16(b, q + 8))
  }

  function ProgressOf(turn: Turn): Progress {
    match turn
    case Bad(_) => Ends
    case Hangs => Stuck
    case Turn(_, end) => Goes(end)
  }

  /**
    A turn fails to return exactly at a complete SRV record of class IN whose target is still being
    decoded after `|b| + 1` moves; and it goes on to the same position, or ends, as decided.
   */
  lemma TurnHangs(b: seq<Byte>, p: nat)
    ensures ProgressAt(b, p) == ProgressOf(Scan(b, p))
  {
    if p < |b| && Skip(b, p).Success? {
      LastMoveDecides(b, Skip(b, p).value + 16);
    }
  }

  /** Within `count` answers from `p` on the loop gets stuck. */
  predicate GetsStuck(b: seq<Byte>, p: nat, count: nat)
    decreases count
  {
    count > 0 &&
    match ProgressAt(b, p)
    case Stuck => true
    case Ends => false
    case Goes(end) => GetsStuck(b, end, count - 1)
  }

  lemma {:induction false} CollectDiverges(b: seq<Byte>, p: nat, count: nat)
    ensures Collect(Scanner(b), p, count) == Diverges <==> GetsStuck(b, p, count)
    decreases count
  {
    if count > 0 {
      CollectStep(Scanner(b), p, count, Scan(b, p));
      TurnHangs(b, p);
      if ProgressAt(b, p).Goes? {
        CollectDiverges(b, ProgressAt(b, p).end, count - 1);
      }
    }
  }

  /**
    For every byte string: the parser fails to return if and only if, within the announced number of
    answers and behind answers without error, it comes to an SRV record whose target name runs in a
    circle. The right side is computable, with at most `|b| + 1` moves for each name.
   */
  lemma DivergesExactly(b: seq<Byte>, id: nat)
    ensures Parse(b, id) == Diverges <==>
            && |b| >= HEADER_SIZE && GetU16(b, 0) == id && Skip(b, HEADER_SIZE).Success?
            && GetsStuck(b, Skip(b, HEADER_SIZE).value + 4, GetU16(b, 6))
  {
    if |b| >= HEADER_SIZE && GetU16(b, 0) == id && Skip(b, HEADER_SIZE).Success? {
      CollectDiverges(b, Skip(b, HEADER_SIZE).value + 4, GetU16(b, 6));
    }
  }

  /** A response with one SRV record whose target, at octet 34, is a pointer to itself. */
  const LOOP: seq<Byte> :=
    [0, 7, 0x81, 0x80, 0, 1, 0, 1, 0, 0, 0, 0]
    + [0, 0, 33, 0, 1]
    + [0, 0, 33, 0, 1, 0, 0, 0, 60, 0, 8, 0, 0, 0, 0, 0x1e, 0xa4, 192, 34]

  /** A datagram of 36 octets that the parser never returns from. */
  lemma LoopingResponse()
    ensures Parse(LOOP, 7) == Diverges
  {
    assert MoveAt(LOOP, 34) == Jump(34);
    assert Visit(LOOP, 34, 1) == Visit(LOOP, 34, 0) == Some(34);
    HaltsExactly(LOOP, 34);
    LastMoveDecides(LOOP, 34);
    assert ProgressAt(LOOP, 17) == Stuck;
    assert GetsStuck(LOOP, 17, 1);
    DivergesExactly(LOOP, 7);
  }

  // ---------------------------------------------------------------------------
  // The query.

  /** Builds the query datagram; fails where a piece of a name is empty or too long. */
  method BuildQuery(id: nat, service: seq<Byte>, proto: seq<Byte>, name: seq<Byte>)
    returns (ok: bool, query: seq<Byte>)
    requires id < U16_LIMIT
    ensures ok <==> ValidLabels(AllLabels([service, proto, name]))
    ensures ok ==> query == Print(QueryFor(id, AllLabels([service, proto, name])))
  {
    var qname: seq<Byte>;
    ok, qname := EncodeQuestion(service, proto, name);
    query := [];
    if ok {
      query := FrameQuery(id, qname, AllLabels([service, proto, name]));
    }
  }

  /** The three names one after the other, closed by the root octet. */
  method EncodeQuestion(service: seq<Byte>, proto: seq<Byte>, name: seq<Byte>)
    returns (ok: bool, qname: seq<Byte>)
    ensures ok <==> ValidLabels(AllLabels([service, proto, name]))
    ensures ok ==> qname == PrintLabels(AllLabels([service, proto, name])) + [0]
  {
    ghost var x, y, z := SplitDots(service), SplitDots(proto), SplitDots(name);
    AllLabelsOfThree(service, proto, name);
    LabelsOfTwo(y, z);
    LabelsOfTwo(x, y + z);
    ok, qname := EncodeName([], service);
    if !ok { return; }
    ok, qname := EncodeName(qname, proto);
    if !ok { return; }
    ok, qname := EncodeName(qname, name);
    if !ok { return; }
    Rebracket(PrintLabels(x), PrintLabels(y), PrintLabels(z));
    qname := qname + [0];
  }

  lemma LabelsOfTwo(ls: seq<Label>, ms: seq<Label>)
    ensures ValidLabels(ls + ms) <==> ValidLabels(ls) && ValidLabels(ms)
    ensures ValidLabels(ls + ms) ==> PrintLabels(ls + ms) == PrintLabels(ls) + PrintLabels(ms)
  {
    assert ls == (ls + ms)[..|ls|] && ms == (ls + ms)[|ls|..];
    if ValidLabels(ls + ms) {
      PrintLabelsAppend(ls, ms);
    }
  }

  lemma Rebracket(x: seq<Byte>, y: seq<Byte>, z: seq<Byte>)
    ensures [] + x + y + z == x + (y + z)
  {
  }

  /** The header, the question name and the question type and class. */
  method FrameQuery(id: nat, qname: seq<Byte>, ghost labels: seq<Label>) returns (query: seq<Byte>)
    requires id < U16_LIMIT && ValidLabels(labels) && qname == PrintLabels(labels) + [0]
    ensures query == Print(QueryFor(id, labels))
  {
    query := [id / 256, id % 256];
    PutU16Unique(id, query);
    PutU16Unique(0, [0, 0]);
    query := query + [0x01, 0x00];
    query := query + [0, 1];
    query := query + [0, 0];
    query := query + [0, 0];
    query := query + [0, 0];
    ghost var m := QueryFor(id, labels);
    assert query == PrintHeader(m);
    query := query + qname;
    query := query + [0, 33];
    query := query + [0, 1];
    assert m.questionTail + ([] + m.rest) == m.questionTail;
    assert query == PrintHeader(m) + (PrintRun(m.question) + m.questionTail);
  }

  /** The query as a message of the grammar: one question, no answers. */
  ghost function QueryFor(id: nat, labels: seq<Label>): Response {
    Response(id, [0x01, 0x00, 0, 1], [0, 0, 0, 0], Run(labels, Root), [0, 33, 0, 1], [], [])
  }

  lemma AllLabelsOfThree(x: seq<Byte>, y: seq<Byte>, z: seq<Byte>)
    ensures AllLabels([x, y, z]) == SplitDots(x) + (SplitDots(y) + SplitDots(z))
  {
    assert [x, y, z][1..] == [y, z];
    assert [y, z][1..] == [z];
    assert AllLabels([z]) == SplitDots(z) + AllLabels([z][1..]) == SplitDots(z);
    assert AllLabels([y, z]) == SplitDots(y) + AllLabels([z]);
  }

  /** The query puts the dotted name on the wire: a resolver decoding the question reads it back. */
  lemma QueryCarriesName(id: nat, names: seq<seq<Byte>>)
    requires id < U16_LIMIT && names != [] && ValidLabels(AllLabels(names))
    ensures var b := Print(QueryFor(id, AllLabels(names)));
            && Halts(b, HEADER_SIZE) && Walk(b, HEADER_SIZE).error.None?
            && Extended([], Walk(b, HEADER_SIZE).labels) == Joined(46, names)
            && Stored(b, HEADER_SIZE, HEADER_SIZE) + 4 == |b|
            && Parse(b, id) == Records([])
  {
    var m := QueryFor(id, AllLabels(names));
    PrintedParts(m);
    WellFormedResponseParses(m);
    PrintedRunAt(Print(m), HEADER_SIZE, m.question);
    EncodedNamesDecode(Print(m), HEADER_SIZE, names);
  }
}
