/**
  Domain names on the wire: sections 3.1 and 4.1.4 of RFC 1035, as src/edge/discovery.rs
  encodes, skips and decodes them.

  A host name is held as the UTF-8 octets of its string.
 */
module DnsName {
  import opened Bytes

  type Label = seq<Byte>

  datatype NameError = NameOverflow | BadPointer | BadLabel | LabelOverflow

  const DOT: Byte := 46
  const MAXIMUM_LABEL := 63
  const POINTER_LIMIT := 0x4000

  predicate ValidLabel(l: Label) {
    1 <= |l| <= MAXIMUM_LABEL
  }

  ghost predicate ValidLabels(ls: seq<Label>) {
    forall i :: 0 <= i < |ls| ==> ValidLabel(ls[i])
  }

  // ---------------------------------------------------------------------------
  // The grammar: what a name looks like on the wire, independently of any parser.

  datatype Tail = Root | Pointer(target: nat)

  /** A run of labels closed by the root octet or by a compression pointer. */
  datatype Run = Run(labels: seq<Label>, tail: Tail)

  function LabelsSize(ls: seq<Label>): nat {
    if ls == [] then 0 else 1 + |ls[0]| + LabelsSize(ls[1..])
  }

  function RunSize(r: Run): nat {
    LabelsSize(r.labels) + if r.tail.Root? then 1 else 2
  }

  ghost function PrintLabels(ls: seq<Label>): (s: seq<Byte>)
    requires ValidLabels(ls)
    ensures |s| == LabelsSize(ls)
  {
    if ls == [] then [] else [|ls[0]|] + ls[0] + PrintLabels(ls[1..])
  }

  ghost predicate ValidRun(r: Run) {
    ValidLabels(r.labels) && (r.tail.Pointer? ==> r.tail.target < POINTER_LIMIT)
  }

  /** The root octet, or two octets with both top bits set and the target in the other fourteen. */
  ghost function PrintTail(t: Tail): (s: seq<Byte>)
    requires t.Pointer? ==> t.target < POINTER_LIMIT
    ensures |s| == if t.Root? then 1 else 2
  {
    match t
    case Root => [0]
    case Pointer(target) => PutU16(0xc000 + target)
  }

  ghost function PrintRun(r: Run): (s: seq<Byte>)
    requires ValidRun(r)
    ensures |s| == RunSize(r)
  {
    PrintLabels(r.labels) + PrintTail(r.tail)
  }

  /** A name spread over a message: runs joined by pointers, ending at the root. */
  datatype Chain = Last(labels: seq<Label>) | Link(labels: seq<Label>, target: nat, next: Chain)

  function FirstRun(c: Chain): Run {
    match c
    case Last(ls) => Run(ls, Root)
    case Link(ls, target, _) => Run(ls, Pointer(target))
  }

  /** The labels that a chain stands for. */
  function Meaning(c: Chain): seq<Label> {
    match c
    case Last(ls) => ls
    case Link(ls, _, next) => ls + Meaning(next)
  }

  /** A run stands at `p`: label by label, then its tail. */
  ghost predicate RunAt(b: seq<Byte>, p: nat, labels: seq<Label>, tail: Tail)
    decreases labels
  {
    if labels == [] then TailAt(b, p, tail)
    else
      var q := p + 1 + |labels[0]|;
      && ValidLabel(labels[0])
      && q <= |b| && b[p] == |labels[0]| && b[p + 1..q] == labels[0] && RunAt(b, q, labels[1..], tail)
  }

  predicate TailAt(b: seq<Byte>, p: nat, tail: Tail) {
    match tail
    case Root => p < |b| && b[p] == 0
    case Pointer(target) => target < POINTER_LIMIT && p + 2 <= |b| && GetU16(b, p) == 0xc000 + target
  }

  /** The first run of `c` stands at `p`, and every later run where its pointer says. */
  ghost predicate LaidOut(b: seq<Byte>, p: nat, c: Chain)
    decreases c
  {
    && RunAt(b, p, c.labels, FirstRun(c).tail)
    && (c.Link? ==> LaidOut(b, c.target, c.next))
  }

  // ---------------------------------------------------------------------------
  // Moves of the decoder. The two top bits of the octet at `p` select the case:
  // 11 is a pointer, 00 a label, anything else is rejected.

  datatype Move = End | Take(next: nat) | Jump(target: nat) | Reject(error: NameError)

  function MoveAt(b: seq<Byte>, p: nat): (m: Move)
    ensures m.Take? ==> p < m.next <= |b|
    ensures !m.Reject? ==> p < |b|
  {
    if p >= |b| then Reject(NameOverflow)
    else if b[p] == 0 then End
    else if b[p] >= 192 then
      if p + 1 >= |b| then Reject(BadPointer) else Jump((b[p] - 192) as int * 256 + b[p + 1])
    else if b[p] >= 64 then Reject(BadLabel)
    else if p + 1 + b[p] > |b| then Reject(LabelOverflow)
    else Take(p + 1 + b[p])
  }

  /** The bit masks of the source select exactly the ranges used by `MoveAt`. */
  lemma MasksAreRanges(length: bv8)
    ensures length & 0xc0 == 0xc0 <==> length >= 192
    ensures length & 0xc0 != 0 <==> length >= 64
    ensures length >= 192 ==> length & 0x3f == length - 192
  {
  }

  predicate Moves(b: seq<Byte>, p: nat) {
    MoveAt(b, p).Take? || MoveAt(b, p).Jump?
  }

  function Next(b: seq<Byte>, p: nat): nat
    requires Moves(b, p)
  {
    if MoveAt(b, p).Take? then MoveAt(b, p).next else MoveAt(b, p).target
  }

  /** The walk from `p` stops at its `n`-th move. */
  predicate HaltsIn(b: seq<Byte>, p: nat, n: nat)
    decreases n
  {
    if Moves(b, p) then n > 1 && HaltsIn(b, Next(b, p), n - 1) else n == 1
  }

  /** The loop of `decode_name` ends when it is started at `p`. */
  ghost predicate Halts(b: seq<Byte>, p: nat) {
    exists n: nat :: HaltsIn(b, p, n)
  }

  lemma {:induction false} HaltsInUnique(b: seq<Byte>, p: nat, n: nat, m: nat)
    requires HaltsIn(b, p, n) && HaltsIn(b, p, m)
    ensures n == m
    decreases n
  {
    if Moves(b, p) {
      HaltsInUnique(b, Next(b, p), n - 1, m - 1);
    }
  }

  ghost function Cost(b: seq<Byte>, p: nat): (n: nat)
    requires Halts(b, p)
    ensures HaltsIn(b, p, n)
  {
    var n: nat :| HaltsIn(b, p, n);
    n
  }

  lemma NextHalts(b: seq<Byte>, p: nat)
    requires Moves(b, p)
    ensures Halts(b, p) <==> Halts(b, Next(b, p))
    ensures Halts(b, p) ==> Cost(b, p) == Cost(b, Next(b, p)) + 1
  {
    if Halts(b, Next(b, p)) {
      assert HaltsIn(b, p, Cost(b, Next(b, p)) + 1);
    }
    if Halts(b, p) {
      assert HaltsIn(b, Next(b, p), Cost(b, p) - 1);
      HaltsInUnique(b, Next(b, p), Cost(b, p) - 1, Cost(b, Next(b, p)));
    }
  }

  // ---------------------------------------------------------------------------
  // What the decoder collects.

  /** The labels seen by a finished walk, and the error that stopped it, if any. */
  datatype NameWalk = NameWalk(labels: seq<Label>, error: Option<NameError>)

  ghost function Walk(b: seq<Byte>, p: nat): (w: NameWalk)
    requires Halts(b, p)
    ensures ValidLabels(w.labels)
    decreases Cost(b, p)
  {
    match MoveAt(b, p)
    case End => NameWalk([], None)
    case Reject(e) => NameWalk([], Some(e))
    case Take(next) =>
      NextHalts(b, p);
      var w := Walk(b, next);
      NameWalk([b[p + 1..next]] + w.labels, w.error)
    case Jump(target) =>
      NextHalts(b, p);
      Walk(b, target)
  }

  /** One label pushed onto a dotted string, as the decoder does. */
  function AppendLabel(text: seq<Byte>, l: Label): seq<Byte> {
    (if text != [] then text + [DOT] else text) + l
  }

  function AppendLabels(text: seq<Byte>, ls: seq<Label>): seq<Byte>
    decreases ls
  {
    if ls == [] then text else AppendLabels(AppendLabel(text, ls[0]), ls[1..])
  }

  /** Labels joined by dots. */
  function Dotted(ls: seq<Label>): seq<Byte> {
    if ls == [] then [] else if |ls| == 1 then ls[0] else ls[0] + [DOT] + Dotted(ls[1..])
  }

  /** Pieces with an octet between each two of them. */
  function Joined(separator: Byte, pieces: seq<seq<Byte>>): seq<Byte> {
    if pieces == [] then []
    else if |pieces| == 1 then pieces[0]
    else pieces[0] + [separator] + Joined(separator, pieces[1..])
  }

  /** The dot is octet 46. */
  lemma {:induction false} DottedIsJoined(ls: seq<Label>)
    ensures Dotted(ls) == Joined(46, ls)
  {
    if |ls| > 1 {
      DottedIsJoined(ls[1..]);
    }
  }

  lemma {:induction false} AppendLabelsToText(text: seq<Byte>, ls: seq<Label>)
    requires ValidLabels(ls) && ls != []
    ensures AppendLabels(text, ls) == (if text == [] then [] else text + [DOT]) + Dotted(ls)
    decreases ls
  {
    var next := AppendLabel(text, ls[0]);
    assert ValidLabel(ls[0]);
    if |ls| > 1 {
      AppendLabelsToText(next, ls[1..]);
      var start := if text == [] then [] else text + [DOT];
      assert next + [DOT] + Dotted(ls[1..]) == start + (ls[0] + [DOT] + Dotted(ls[1..]));
    } else {
      assert AppendLabels(next, ls[1..]) == next;
    }
  }

  /** Pushing labels one by one onto an empty string joins them with dots. */
  lemma AppendLabelsIsDotted(ls: seq<Label>)
    requires ValidLabels(ls)
    ensures AppendLabels([], ls) == Dotted(ls)
  {
    if ls != [] {
      AppendLabelsToText([], ls);
    }
  }

  /** The labels pushed onto a text, in octets: a dot between any two pieces. */
  function Extended(text: seq<Byte>, ls: seq<Label>): seq<Byte> {
    if ls == [] then text
    else if text == [] then Joined(46, ls)
    else text + [46] + Joined(46, ls)
  }

  lemma AppendLabelsExtends(text: seq<Byte>, ls: seq<Label>)
    requires ValidLabels(ls)
    ensures AppendLabels(text, ls) == Extended(text, ls)
  {
    if ls != [] {
      AppendLabelsToText(text, ls);
      DottedIsJoined(ls);
    }
  }

  /** The value that `decode_name` leaves in its position argument. */
  function Stored(b: seq<Byte>, start: nat, p: nat): nat
    decreases |b| - p
  {
    match MoveAt(b, p)
    case End => p + 1
    case Jump(_) => p + 2
    case Take(next) => Stored(b, start, next)
    case Reject(_) => start
  }

  /** What the decoder returns and what it makes of the text it is given. */
  ghost function Yield(b: seq<Byte>, p: nat, text: seq<Byte>): (Option<NameError>, seq<Byte>)
    requires Halts(b, p)
    decreases Cost(b, p)
  {
    match MoveAt(b, p)
    case End => (None, text)
    case Reject(e) => (Some(e), text)
    case Take(next) =>
      NextHalts(b, p);
      Yield(b, next, AppendLabel(text, b[p + 1..next]))
    case Jump(target) =>
      NextHalts(b, p);
      Yield(b, target, text)
  }

  /** The decoder reports the error of the walk and pushes the labels of the walk, in order. */
  lemma {:induction false} YieldIsWalk(b: seq<Byte>, p: nat, text: seq<Byte>)
    requires Halts(b, p)
    ensures Yield(b, p, text) == (Walk(b, p).error, AppendLabels(text, Walk(b, p).labels))
    decreases Cost(b, p)
  {
    match MoveAt(b, p)
    case Take(next) =>
      NextHalts(b, p);
      YieldIsWalk(b, next, AppendLabel(text, b[p + 1..next]));
      assert Walk(b, p).labels[1..] == Walk(b, next).labels;
    case Jump(target) =>
      NextHalts(b, p);
      YieldIsWalk(b, target, text);
    case _ =>
  }

  method DecodeName(b: seq<Byte>, position: nat, out: seq<Byte>)
    returns (r: Option<NameError>, position': nat, out': seq<Byte>)
    requires Halts(b, position)
    ensures r == Walk(b, position).error
    ensures out' == Extended(out, Walk(b, position).labels)
    ensures position' == Stored(b, position, position)
  {
    YieldIsWalk(b, position, out);
    AppendLabelsExtends(out, Walk(b, position).labels);
    r, position', out' := FollowName(b, position, out);
  }

  /** The loop of the decoder. */
  method FollowName(b: seq<Byte>, position: nat, out: seq<Byte>)
    returns (r: Option<NameError>, position': nat, out': seq<Byte>)
    requires Halts(b, position)
    ensures (r, out') == Yield(b, position, out)
    ensures position' == Stored(b, position, position)
  {
    var p: nat := position;
    var jumped := false;
    position' := position;
    out' := out;
    r := None;
    ghost var all, stored := Yield(b, position, out), Stored(b, position, position);
    while true
      invariant Halts(b, p)
      invariant Yield(b, p, out') == all
      invariant position' == if jumped then stored else position
      invariant !jumped ==> Stored(b, position, p) == stored
      decreases Cost(b, p)
    {
      if Moves(b, p) {
        NextHalts(b, p);
      }
      if p >= |b| {
        r := Some(NameOverflow);
        return;
      }
      var length := b[p];
      if length == 0 {
        if !jumped {
          position' := p + 1;
        }
        break;
      }
      if length >= 192 {
        if p + 1 >= |b| {
          r := Some(BadPointer);
          return;
        }
        var target := (length - 192) as int * 256 + b[p + 1];
        if !jumped {
          position' := p + 2;
        }
        p := target;
        jumped := true;
        continue;
      }
      if length >= 64 {
        r := Some(BadLabel);
        return;
      }
      if p + 1 + length > |b| {
        r := Some(LabelOverflow);
        return;
      }
      var word := b[p + 1..p + 1 + length];
      ghost var text := AppendLabel(out', word);
      if out' != [] {
        out' := out' + [DOT];
      }
      out' := out' + word;
      assert out' == text;
      p := p + 1 + length;
    }
  }

  // ---------------------------------------------------------------------------
  // Skipping.

  function Skip(b: seq<Byte>, p: nat): (r: Result<nat, NameError>)
    ensures r.Success? ==> p < r.value <= |b| + 1
    decreases |b| - p
  {
    if p >= |b| then Failure(NameOverflow)
    else if b[p] == 0 then Success(p + 1)
    else if b[p] >= 192 then Success(p + 2)
    else if b[p] >= 64 then Failure(BadLabel)
    else Skip(b, p + 1 + b[p])
  }

  method SkipName(b: seq<Byte>, start: nat) returns (r: Result<nat, NameError>)
    ensures r == Skip(b, start)
  {
    var position := start;
    while true
      invariant Skip(b, position) == Skip(b, start)
      decreases |b| - position
    {
      if position >= |b| {
        return Failure(NameOverflow);
      }
      var length := b[position];
      if length == 0 {
        return Success(position + 1);
      }
      if length >= 192 {
        return Success(position + 2);
      }
      if length >= 64 {
        return Failure(BadLabel);
      }
      position := position + 1 + length;
    }
  }
}
