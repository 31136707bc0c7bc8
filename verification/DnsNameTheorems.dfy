/** When name decoding ends, what it yields, and how it agrees with skipping and encoding. */
module DnsNameTheorems {
  import opened Bytes
  import opened DnsName
  import opened Sets

  // ---------------------------------------------------------------------------
  // Termination. `decode_name` has no jump counter: it ends exactly when the walk
  // never returns to a position, and then after at most one move per octet plus one.

  /** The position after `i` moves, or `None` once the walk has stopped. */
  function Visit(b: seq<Byte>, p: nat, i: nat): Option<nat>
    decreases i
  {
    if i == 0 then Some(p)
    else if Moves(b, p) then Visit(b, Next(b, p), i - 1)
    else None
  }

  ghost predicate NeverRevisits(b: seq<Byte>, p: nat) {
    forall i: nat, j: nat :: i < j && Visit(b, p, j).Some? ==> Visit(b, p, i) != Visit(b, p, j)
  }

  /** A halting walk has no positions left after its last move; earlier ones cost less and less. */
  lemma {:induction false} VisitCost(b: seq<Byte>, p: nat, n: nat, i: nat)
    requires HaltsIn(b, p, n)
    ensures Visit(b, p, i).Some? <==> i < n
    ensures i < n ==> HaltsIn(b, Visit(b, p, i).value, n - i)
    decreases i
  {
    if i > 0 && Moves(b, p) {
      VisitCost(b, Next(b, p), n - 1, i - 1);
    }
  }

  /** A walk that does not halt can be followed for any number of moves, always inside the message. */
  lemma {:induction false} VisitForever(b: seq<Byte>, p: nat, i: nat)
    requires !Halts(b, p)
    ensures Visit(b, p, i).Some? && Visit(b, p, i).value < |b|
    ensures !Halts(b, Visit(b, p, i).value)
    decreases i
  {
    if !Moves(b, p) {
      assert HaltsIn(b, p, 1);
    } else if i > 0 {
      NextHalts(b, p);
      VisitForever(b, Next(b, p), i - 1);
    }
  }

  /** The first `n` positions of a message. */
  ghost function Positions(n: nat): (s: set<nat>)
    ensures |s| == n && forall i: nat :: i in s <==> i < n
  {
    if n == 0 then {} else Positions(n - 1) + {n - 1}
  }

  /** The positions visited in the first `k` moves. */
  ghost function Trail(b: seq<Byte>, p: nat, k: nat): set<nat> {
    set i: nat | i < k && Visit(b, p, i).Some? :: Visit(b, p, i).value
  }

  lemma {:induction false} TrailSize(b: seq<Byte>, p: nat, k: nat)
    requires NeverRevisits(b, p)
    requires forall i: nat :: i < k ==> Visit(b, p, i).Some?
    ensures |Trail(b, p, k)| == k
    decreases k
  {
    if k > 0 {
      TrailSize(b, p, k - 1);
      var last := Visit(b, p, k - 1);
      assert Trail(b, p, k) == Trail(b, p, k - 1) + {last.value};
      assert last.value !in Trail(b, p, k - 1);
    }
  }

  /** Distinct positions inside the message are at most as many as its octets. */
  lemma TrailBound(b: seq<Byte>, p: nat, k: nat)
    requires NeverRevisits(b, p)
    requires forall i: nat :: i < k ==> Visit(b, p, i).Some? && Visit(b, p, i).value < |b|
    ensures k <= |b|
  {
    TrailSize(b, p, k);
    assert Trail(b, p, k) <= Positions(|b|);
    SubsetSize(Trail(b, p, k), Positions(|b|));
  }

  /** The decoder loop ends if and only if it never comes back to a position it has been at. */
  lemma HaltsExactly(b: seq<Byte>, p: nat)
    ensures Halts(b, p) <==> NeverRevisits(b, p)
    ensures Halts(b, p) ==> Cost(b, p) <= |b| + 1
  {
    if Halts(b, p) {
      var n := Cost(b, p);
      forall i: nat, j: nat | i < j && Visit(b, p, j).Some?
        ensures Visit(b, p, i) != Visit(b, p, j)
      {
        VisitCost(b, p, n, i);
        VisitCost(b, p, n, j);
        if Visit(b, p, i) == Visit(b, p, j) {
          HaltsInUnique(b, Visit(b, p, i).value, n - i, n - j);
        }
      }
      forall i: nat | i < n - 1
        ensures Visit(b, p, i).Some? && Visit(b, p, i).value < |b|
      {
        VisitCost(b, p, n, i);
      }
      TrailBound(b, p, n - 1);
    } else if NeverRevisits(b, p) {
      forall i: nat | i < |b| + 1
        ensures Visit(b, p, i).Some? && Visit(b, p, i).value < |b|
      {
        VisitForever(b, p, i);
      }
      TrailBound(b, p, |b| + 1);
    }
  }

  /** A check with a bound: the decoder loop ends exactly when no position is left after `|b| + 1` moves. */
  lemma HaltsWithinBound(b: seq<Byte>, p: nat)
    ensures Halts(b, p) <==> Visit(b, p, |b| + 1).None?
  {
    if Halts(b, p) {
      HaltsExactly(b, p);
      VisitCost(b, p, Cost(b, p), |b| + 1);
    } else {
      VisitForever(b, p, |b| + 1);
    }
  }

  /** Two octets are enough to keep the decoder busy for ever: a pointer to itself. */
  lemma SelfPointerNeverHalts()
    ensures !Halts([192, 0], 0)
  {
    var b: seq<Byte> := [192, 0];
    assert Visit(b, 0, 1) == Visit(b, 0, 0) == Some(0);
    HaltsExactly(b, 0);
  }

  /** Every pointer met from `p` on targets a position before the start of its own run. */
  predicate PointsBackwards(b: seq<Byte>, start: nat, p: nat)
    requires start <= p
    decreases start, |b| - p
  {
    match MoveAt(b, p)
    case Take(next) => PointsBackwards(b, start, next)
    case Jump(target) => target < start && PointsBackwards(b, target, target)
    case _ => true
  }

  /** Section 4.1.4 of RFC 1035: pointers to prior occurrences only, hence the decoder ends. */
  lemma {:induction false} BackwardPointersHalt(b: seq<Byte>, start: nat, p: nat)
    requires start <= p && PointsBackwards(b, start, p)
    ensures Halts(b, p)
    decreases start, |b| - p
  {
    match MoveAt(b, p)
    case Take(next) =>
      BackwardPointersHalt(b, start, next);
      NextHalts(b, p);
    case Jump(target) =>
      BackwardPointersHalt(b, target, target);
      NextHalts(b, p);
    case _ =>
      assert HaltsIn(b, p, 1);
  }

  // ---------------------------------------------------------------------------
  // Meaning.

  /** Taking apart an occurrence of a length octet, a label and more. */
  lemma AtLabel(b: seq<Byte>, p: nat, n: Byte, l: Label, x: seq<Byte>, y: seq<Byte>)
    ensures At(b, p, ([n] + l + x) + y) <==>
            && p + 1 + |l| <= |b| && b[p] == n && b[p + 1..p + 1 + |l|] == l
            && At(b, p + 1 + |l|, x + y)
  {
    assert ([n] + l + x) + y == [n] + (l + (x + y));
    AtSplit(b, p, [n], l + (x + y));
    AtSplit(b, p + 1, l, x + y);
    assert p < |b| ==> b[p..p + 1] == [b[p]];
  }

  lemma PrintedTailAt(b: seq<Byte>, p: nat, t: Tail)
    requires t.Pointer? ==> t.target < POINTER_LIMIT
    ensures At(b, p, PrintTail(t)) <==> TailAt(b, p, t)
  {
    if t.Pointer? && p + 2 <= |b| {
      var s := b[p..p + 2];
      assert GetU16(s, 0) == GetU16(b, p);
      if GetU16(b, p) == 0xc000 + t.target {
        PutU16Unique(0xc000 + t.target, s);
      }
    } else if t.Root? && p < |b| {
      assert b[p..p + 1] == [b[p]];
    }
  }

  lemma {:induction false} RunIsValid(b: seq<Byte>, p: nat, labels: seq<Label>, tail: Tail)
    requires RunAt(b, p, labels, tail)
    ensures ValidRun(Run(labels, tail)) && p + RunSize(Run(labels, tail)) <= |b|
    decreases labels
  {
    if labels != [] {
      RunIsValid(b, p + 1 + |labels[0]|, labels[1..], tail);
      assert labels == [labels[0]] + labels[1..];
    }
  }

  /** A run stands at `p` exactly when its printed form occurs there. */
  lemma {:induction false} PrintedRunAt(b: seq<Byte>, p: nat, r: Run)
    requires ValidRun(r)
    ensures At(b, p, PrintRun(r)) <==> RunAt(b, p, r.labels, r.tail)
    decreases |r.labels|
  {
    if r.labels == [] {
      assert PrintRun(r) == PrintTail(r.tail);
      PrintedTailAt(b, p, r.tail);
    } else {
      var l, rest := r.labels[0], Run(r.labels[1..], r.tail);
      AtLabel(b, p, |l|, l, PrintLabels(rest.labels), PrintTail(r.tail));
      PrintedRunAt(b, p + 1 + |l|, rest);
    }
  }

  /** What the tail of a run yields. */
  ghost function TailWalk(b: seq<Byte>, tail: Tail): NameWalk
    requires tail.Pointer? ==> Halts(b, tail.target)
  {
    if tail.Root? then NameWalk([], None) else Walk(b, tail.target)
  }

  lemma TailDecodes(b: seq<Byte>, p: nat, t: Tail)
    requires TailAt(b, p, t) && (t.Pointer? ==> Halts(b, t.target))
    ensures Halts(b, p) && Walk(b, p) == TailWalk(b, t)
  {
    if t.Root? {
      assert HaltsIn(b, p, 1);
    } else {
      assert MoveAt(b, p) == Jump(t.target);
      NextHalts(b, p);
    }
  }

  lemma LabelDecodes(b: seq<Byte>, p: nat, l: Label)
    requires ValidLabel(l) && p + 1 + |l| <= |b| && b[p] == |l| && b[p + 1..p + 1 + |l|] == l
    requires Halts(b, p + 1 + |l|)
    ensures Halts(b, p)
    ensures Walk(b, p) == NameWalk([l] + Walk(b, p + 1 + |l|).labels, Walk(b, p + 1 + |l|).error)
  {
    assert MoveAt(b, p) == Take(p + 1 + |l|);
    NextHalts(b, p);
  }

  lemma {:induction false} RunAtDecodes(b: seq<Byte>, p: nat, labels: seq<Label>, tail: Tail, end: NameWalk)
    requires RunAt(b, p, labels, tail) && (tail.Pointer? ==> Halts(b, tail.target))
    requires end == TailWalk(b, tail)
    ensures Halts(b, p)
    ensures Walk(b, p) == NameWalk(labels + end.labels, end.error)
    decreases labels
  {
    if labels == [] {
      TailDecodes(b, p, tail);
      assert labels + end.labels == end.labels;
    } else {
      RunAtDecodes(b, p + 1 + |labels[0]|, labels[1..], tail, end);
      LabelDecodes(b, p, labels[0]);
      PrependLabel(labels, end.labels);
    }
  }

  lemma PrependLabel(ls: seq<Label>, ms: seq<Label>)
    requires ls != []
    ensures [ls[0]] + (ls[1..] + ms) == ls + ms
  {
  }

  /**
    Compression preserves meaning, one run at a time: a printed run yields its own labels
    followed by whatever the target of its pointer yields, errors included.
   */
  lemma RunDecodes(b: seq<Byte>, p: nat, r: Run)
    requires ValidRun(r) && At(b, p, PrintRun(r))
    requires r.tail.Pointer? ==> Halts(b, r.tail.target)
    ensures Halts(b, p)
    ensures Walk(b, p) == match r.tail
                          case Root => NameWalk(r.labels, None)
                          case Pointer(t) => NameWalk(r.labels + Walk(b, t).labels, Walk(b, t).error)
  {
    PrintedRunAt(b, p, r);
    RunAtDecodes(b, p, r.labels, r.tail, TailWalk(b, r.tail));
    assert r.labels + [] == r.labels;
  }

  /** Skipping a run lands right after it, wherever its pointer leads. */
  lemma {:induction false} RunAtSkips(b: seq<Byte>, p: nat, labels: seq<Label>, tail: Tail)
    requires RunAt(b, p, labels, tail)
    ensures Skip(b, p) == Success(p + RunSize(Run(labels, tail))) && p < |b|
    decreases labels
  {
    if labels != [] {
      RunAtSkips(b, p + 1 + |labels[0]|, labels[1..], tail);
    }
  }

  lemma RunSkips(b: seq<Byte>, p: nat, r: Run)
    requires ValidRun(r) && At(b, p, PrintRun(r))
    ensures Skip(b, p) == Success(p + RunSize(r))
  {
    PrintedRunAt(b, p, r);
    RunAtSkips(b, p, r.labels, r.tail);
  }

  /** A label in front of a run makes a longer run. */
  lemma RunGrows(b: seq<Byte>, p: nat, q: nat, labels: seq<Label>, tail: Tail)
    requires MoveAt(b, p) == Take(q) && RunAt(b, q, labels, tail)
    ensures RunAt(b, p, [b[p + 1..q]] + labels, tail)
    ensures p + RunSize(Run([b[p + 1..q]] + labels, tail)) == q + RunSize(Run(labels, tail))
  {
    assert ([b[p + 1..q]] + labels)[1..] == labels;
  }

  /** Conversely, whatever is skipped inside the message is a run. */
  lemma {:induction false} SkippedIsRun(b: seq<Byte>, p: nat) returns (r: Run)
    requires Skip(b, p).Success? && Skip(b, p).value <= |b|
    ensures ValidRun(r) && RunAt(b, p, r.labels, r.tail) && p + RunSize(r) == Skip(b, p).value
    decreases |b| - p
  {
    if b[p] == 0 {
      r := Run([], Root);
    } else if b[p] >= 192 {
      r := Run([], Pointer(MoveAt(b, p).target));
    } else {
      var q := p + 1 + b[p];
      var s := SkippedIsRun(b, q);
      r := Run([b[p + 1..q]] + s.labels, s.tail);
      RunGrows(b, p, q, s.labels, s.tail);
      RunIsValid(b, p, r.labels, r.tail);
    }
  }

  /** A name laid out over any chain of pointers is decoded to exactly its labels. */
  lemma {:induction false} ChainDecodes(b: seq<Byte>, p: nat, c: Chain)
    requires LaidOut(b, p, c)
    ensures Halts(b, p) && Walk(b, p) == NameWalk(Meaning(c), None)
    decreases c
  {
    if c.Link? {
      ChainDecodes(b, c.target, c.next);
      RunAtDecodes(b, p, c.labels, Pointer(c.target), NameWalk(Meaning(c.next), None));
    } else {
      RunAtDecodes(b, p, c.labels, Root, NameWalk([], None));
      assert c.labels + [] == c.labels;
    }
  }

  /** A label in front of a laid-out name makes a longer laid-out name. */
  lemma ChainGrows(b: seq<Byte>, p: nat, q: nat, d: Chain) returns (c: Chain)
    requires MoveAt(b, p) == Take(q) && LaidOut(b, q, d)
    ensures LaidOut(b, p, c) && Meaning(c) == [b[p + 1..q]] + Meaning(d)
  {
    var l := [b[p + 1..q]];
    c := d.(labels := l + d.labels);
    RunGrows(b, p, q, d.labels, FirstRun(d).tail);
    if d.Link? {
      assert l + (d.labels + Meaning(d.next)) == (l + d.labels) + Meaning(d.next);
    }
  }

  /** So does a pointer to one. */
  lemma ChainLinks(b: seq<Byte>, p: nat, t: nat, d: Chain) returns (c: Chain)
    requires MoveAt(b, p) == Jump(t) && LaidOut(b, t, d)
    ensures LaidOut(b, p, c) && Meaning(c) == Meaning(d)
  {
    c := Link([], t, d);
    assert TailAt(b, p, Pointer(t));
    assert [] + Meaning(d) == Meaning(d);
  }

  /** Conversely, whatever is decoded without error is a laid-out name with that meaning. */
  lemma {:induction false} DecodedIsChain(b: seq<Byte>, p: nat) returns (c: Chain)
    requires Halts(b, p) && Walk(b, p).error.None?
    ensures LaidOut(b, p, c) && Meaning(c) == Walk(b, p).labels
    decreases Cost(b, p)
  {
    if MoveAt(b, p).End? {
      c := Last([]);
    } else {
      NextHalts(b, p);
      var d := DecodedIsChain(b, Next(b, p));
      if MoveAt(b, p).Take? {
        c := ChainGrows(b, p, Next(b, p), d);
      } else {
        c := ChainLinks(b, p, Next(b, p), d);
      }
    }
  }

  /**
    The stored position without reference to the decoder: it moves past the first run where that stands
    completely inside the message, whatever becomes of the rest of the name, and stays otherwise.
   */
  lemma {:induction false} StoredIsSkipped(b: seq<Byte>, start: nat, p: nat)
    ensures Stored(b, start, p) ==
            if Skip(b, p).Success? && Skip(b, p).value <= |b| then Skip(b, p).value else start
    decreases |b| - p
  {
    if MoveAt(b, p).Take? {
      StoredIsSkipped(b, start, MoveAt(b, p).next);
    }
  }

  /** Where decoding succeeds, skipping succeeds and returns the position that decoding stores. */
  lemma {:induction false} SkipAgreesWithDecode(b: seq<Byte>, start: nat, p: nat)
    requires Halts(b, p) && Walk(b, p).error.None?
    ensures Skip(b, p) == Success(Stored(b, start, p))
    decreases |b| - p
  {
    if MoveAt(b, p).Take? {
      NextHalts(b, p);
      SkipAgreesWithDecode(b, start, MoveAt(b, p).next);
    }
  }

  // ---------------------------------------------------------------------------
  // Text.

  lemma {:induction false} DottedAppend(ls: seq<Label>, ms: seq<Label>)
    requires ls != [] && ms != []
    ensures Dotted(ls + ms) == Dotted(ls) + [DOT] + Dotted(ms)
  {
    assert (ls + ms)[1..] == ls[1..] + ms;
    if |ls| > 1 {
      DottedAppend(ls[1..], ms);
    }
  }

  /** The pieces of a string between dots: one more than it has dots. */
  function SplitDots(s: seq<Byte>): (ls: seq<Label>)
    ensures ls != []
  {
    if s == [] then [[]]
    else
      var rest := SplitDots(s[1..]);
      if s[0] == DOT then [[]] + rest else [[s[0]] + rest[0]] + rest[1..]
  }

  /** Splitting on dots and rejoining is lossless. */
  lemma {:induction false} SplitJoin(s: seq<Byte>)
    ensures Dotted(SplitDots(s)) == s
  {
    if s != [] {
      SplitJoin(s[1..]);
      var rest := SplitDots(s[1..]);
      assert s == [s[0]] + s[1..];
      if s[0] == DOT {
        assert SplitDots(s)[1..] == rest;
      } else {
        assert SplitDots(s)[1..] == rest[1..];
      }
    }
  }

  /** Splitting also undoes joining, for labels without dots. */
  lemma {:induction false} JoinSplit(ls: seq<Label>)
    requires ls != [] && forall i :: 0 <= i < |ls| ==> DOT !in ls[i]
    ensures SplitDots(Dotted(ls)) == ls
    decreases |ls|, |ls[0]|
  {
    if ls[0] == [] {
      if |ls| > 1 {
        JoinSplit(ls[1..]);
        assert Dotted(ls)[1..] == Dotted(ls[1..]);
      }
    } else {
      var ms := [ls[0][1..]] + ls[1..];
      assert ms[1..] == ls[1..];
      JoinSplit(ms);
      assert Dotted(ls)[1..] == Dotted(ms);
      assert [ls[0][0]] + ls[0][1..] == ls[0];
    }
  }

  /** A name is cut exactly at its octets 46: its pieces have none, and joined with it they are the name. */
  lemma {:induction false} SplitsAtDots(name: seq<Byte>)
    ensures Joined(46, SplitDots(name)) == name
    ensures forall i :: 0 <= i < |SplitDots(name)| ==> 46 !in SplitDots(name)[i]
  {
    SplitJoin(name);
    DottedIsJoined(SplitDots(name));
    PiecesHaveNoDot(name);
  }

  lemma {:induction false} PiecesHaveNoDot(name: seq<Byte>)
    ensures forall i :: 0 <= i < |SplitDots(name)| ==> 46 !in SplitDots(name)[i]
  {
    if name != [] {
      PiecesHaveNoDot(name[1..]);
    }
  }

  /** No other pieces do that. */
  lemma PiecesAreUnique(pieces: seq<seq<Byte>>)
    requires pieces != [] && forall i :: 0 <= i < |pieces| ==> 46 !in pieces[i]
    ensures SplitDots(Joined(46, pieces)) == pieces
  {
    DottedIsJoined(pieces);
    JoinSplit(pieces);
  }

  // ---------------------------------------------------------------------------
  // Encoding.

  /** How many leading pieces `encode_name` accepts before it gives up. */
  function AcceptedLabels(ls: seq<Label>): (n: nat)
    ensures n <= |ls| && (n < |ls| ==> !ValidLabel(ls[n]))
    ensures ValidLabels(ls[..n])
  {
    if ls == [] || !ValidLabel(ls[0]) then 0
    else
      var n := AcceptedLabels(ls[1..]);
      assert ls[..n + 1] == [ls[0]] + ls[1..][..n];
      n + 1
  }

  lemma LabelAssoc(n: seq<Byte>, l: seq<Byte>, x: seq<Byte>, y: seq<Byte>)
    ensures n + l + (x + y) == (n + l + x) + y
  {
  }

  lemma {:induction false} PrintLabelsAppend(ls: seq<Label>, ms: seq<Label>)
    requires ValidLabels(ls) && ValidLabels(ms)
    ensures ValidLabels(ls + ms)
    ensures PrintLabels(ls + ms) == PrintLabels(ls) + PrintLabels(ms)
  {
    if ls == [] {
      assert ls + ms == ms;
    } else {
      assert (ls + ms)[0] == ls[0] && (ls + ms)[1..] == ls[1..] + ms;
      PrintLabelsAppend(ls[1..], ms);
      LabelAssoc([|ls[0]|], ls[0], PrintLabels(ls[1..]), PrintLabels(ms));
    }
  }

  lemma {:induction false} AcceptedAt(ls: seq<Label>, i: nat)
    requires i <= |ls| && ValidLabels(ls[..i]) && (i < |ls| ==> !ValidLabel(ls[i]))
    ensures AcceptedLabels(ls) == i
  {
    if i > 0 {
      assert ls[..i][0] == ls[0] && ls[..i][1..] == ls[1..][..i - 1];
      AcceptedAt(ls[1..], i - 1);
    }
  }

  lemma PrintSnoc(ls: seq<Label>, i: nat)
    requires i < |ls| && ValidLabels(ls[..i]) && ValidLabel(ls[i])
    ensures ValidLabels(ls[..i + 1])
    ensures PrintLabels(ls[..i + 1]) == PrintLabels(ls[..i]) + [|ls[i]|] + ls[i]
  {
    assert ls[..i + 1] == ls[..i] + [ls[i]];
    PrintLabelsAppend(ls[..i], [ls[i]]);
    assert PrintLabels([ls[i]][1..]) == [];
    assert PrintLabels([ls[i]]) == [|ls[i]|] + ls[i];
  }

  /** Appends the pieces of `name`; stops at the first piece that is empty or too long. */
  method EncodeName(out: seq<Byte>, name: seq<Byte>) returns (ok: bool, out': seq<Byte>)
    ensures ok <==> ValidLabels(SplitDots(name))
    ensures ok ==> out' == out + PrintLabels(SplitDots(name))
    ensures out' == out + PrintLabels(SplitDots(name)[..AcceptedLabels(SplitDots(name))])
    ensures Joined(46, SplitDots(name)) == name
    ensures forall i :: 0 <= i < |SplitDots(name)| ==> 46 !in SplitDots(name)[i]
  {
    SplitsAtDots(name);
    ok, out' := EncodeLabels(out, SplitDots(name));
  }

  /** The loop over the pieces. */
  method EncodeLabels(out: seq<Byte>, labels: seq<Label>) returns (ok: bool, out': seq<Byte>)
    ensures ok <==> ValidLabels(labels)
    ensures ok ==> out' == out + PrintLabels(labels)
    ensures out' == out + PrintLabels(labels[..AcceptedLabels(labels)])
  {
    out' := out;
    for i := 0 to |labels|
      invariant ValidLabels(labels[..i])
      invariant out' == out + PrintLabels(labels[..i])
    {
      if labels[i] == [] || |labels[i]| > MAXIMUM_LABEL {
        AcceptedAt(labels, i);
        return false, out';
      }
      PrintSnoc(labels, i);
      out' := out' + [|labels[i]|];
      out' := out' + labels[i];
    }
    AcceptedAt(labels, |labels|);
    assert labels[..|labels|] == labels;
    return true, out';
  }

  /** The pieces of several names, in order. */
  function AllLabels(names: seq<seq<Byte>>): seq<Label> {
    if names == [] then [] else SplitDots(names[0]) + AllLabels(names[1..])
  }

  lemma {:induction false} AllLabelsJoin(names: seq<seq<Byte>>)
    requires names != []
    ensures AllLabels(names) != [] && Dotted(AllLabels(names)) == Dotted(names)
  {
    SplitJoin(names[0]);
    if |names| == 1 {
      assert AllLabels(names) == SplitDots(names[0]);
    } else {
      AllLabelsJoin(names[1..]);
      DottedAppend(SplitDots(names[0]), AllLabels(names[1..]));
    }
  }

  /**
    Names encoded one after the other and closed by a zero octet, at any offset of any
    message, decode to the names joined by dots, and leave the position just past the zero.
   */
  lemma EncodedNamesDecode(b: seq<Byte>, p: nat, names: seq<seq<Byte>>)
    requires names != [] && ValidLabels(AllLabels(names))
    requires At(b, p, PrintLabels(AllLabels(names)) + [0])
    ensures Halts(b, p) && Walk(b, p).error.None?
    ensures Extended([], Walk(b, p).labels) == Joined(46, names)
    ensures Stored(b, p, p) == p + LabelsSize(AllLabels(names)) + 1
  {
    DottedIsJoined(names);
    var r := Run(AllLabels(names), Root);
    RunDecodes(b, p, r);
    RunSkips(b, p, r);
    SkipAgreesWithDecode(b, p, p);
    DottedIsJoined(AllLabels(names));
    AllLabelsJoin(names);
  }
}
