/** Safety of everything the RPC client writes, against an arbitrary peer and an unreliable stream. */
module RpcTrace {
  import opened Bytes
  import opened RpcClient

  // ---------------------------------------------------------------------------
  // The protocol, as a monitor that looks only at the trace.

  function Last(tr: seq<Event>): Event
    requires tr != []
  {
    tr[|tr| - 1]
  }

  function Front(tr: seq<Event>): seq<Event>
    requires tr != []
  {
    tr[..|tr| - 1]
  }

  /** The return hands over a capability the client can call. */
  predicate Grants(body: ReturnBody) {
    body.Results? && body.caps != [] && (body.caps[0].SenderHosted? || body.caps[0].SenderPromise?)
  }

  /** A written question and its own return. */
  predicate Answered(e: Event, f: Event) {
    && e.Sent? && e.ok && IsQuestion(e.message)
    && f.Received? && f.reply.Return? && f.reply.answer == e.message.question
  }

  /** The peer has answered a bootstrap question with a capability. */
  predicate Accepted(tr: seq<Event>) {
    |tr| >= 2 &&
    (|| Accepted(Front(tr))
     || (Answered(Last(Front(tr)), Last(tr)) && Last(Front(tr)).message.Bootstrap? && Grants(Last(tr).reply.body)))
  }

  predicate Released(tr: seq<Event>) {
    tr != [] && (Released(Front(tr)) || (Last(tr).Sent? && Last(tr).message.Release?))
  }

  /** What may follow a trace. */
  predicate Allowed(tr: seq<Event>, e: Event) {
    && !Released(tr)
    && match e
       case Sent(Bootstrap(_), _) => !Accepted(tr)
       case Sent(Call(_, _, _, _, _), _) => Accepted(tr)
       case Sent(Finish(question, releases), _) =>
         && |tr| >= 2 && Answered(Last(Front(tr)), Last(tr)) && Last(tr).reply.answer == question
         && var body := Last(tr).reply.body;
            releases <==> !(if Last(Front(tr)).message.Bootstrap? then Grants(body) else body.Results?)
       case Sent(Release(id, count), _) => Accepted(tr) && id == 0 && count == 1
       case Sent(_, _) => false
       case _ => tr != [] && Last(tr).Sent? && Last(tr).ok && IsQuestion(Last(tr).message)
  }

  predicate SafeTrace(tr: seq<Event>) {
    tr != [] ==> SafeTrace(Front(tr)) && Allowed(Front(tr), Last(tr))
  }

  /** The ids of the questions put on the wire, in order. */
  function QuestionIds(tr: seq<Event>): seq<nat> {
    if tr == [] then []
    else QuestionIds(Front(tr)) +
         if Last(tr).Sent? && IsQuestion(Last(tr).message) then [Last(tr).message.question] else []
  }

  /** The ids of the finishes put on the wire, in order. */
  function FinishIds(tr: seq<Event>): seq<nat> {
    if tr == [] then []
    else FinishIds(Front(tr)) +
         if Last(tr).Sent? && Last(tr).message.Finish? then [Last(tr).message.question] else []
  }

  predicate Increasing(ns: seq<nat>) {
    forall i, j :: 0 <= i < j < |ns| ==> ns[i] < ns[j]
  }

  predicate AllBelow(ns: seq<nat>, limit: nat) {
    forall i :: 0 <= i < |ns| ==> ns[i] < limit
  }

  // ---------------------------------------------------------------------------
  // Runs of the client: any operations in any order, then possibly a close.

  datatype Op =
    | AskBootstrap(w: World)
    | AskCall(request: Request, decode: Content -> Option<Content>, w: World)

  function Perform(c: Client, op: Op): (Client, seq<Event>) {
    match op
    case AskBootstrap(w) => var o := DoBootstrap(c, w); (o.client, o.events)
    case AskCall(r, decode, w) => var o := DoCall(c, r, decode, w); (o.client, o.events)
  }

  function PerformAll(ops: seq<Op>): (Client, seq<Event>) {
    if ops == [] then (FRESH, [])
    else
      var (c, tr) := PerformAll(ops[..|ops| - 1]);
      var (d, ev) := Perform(c, ops[|ops| - 1]);
      (d, tr + ev)
  }

  function WithClose(run: (Client, seq<Event>), ok: bool): seq<Event> {
    run.1 + DoClose(run.0, ok).0
  }

  lemma Snoc(tr: seq<Event>, e: Event)
    ensures tr + [e] != [] && Front(tr + [e]) == tr && Last(tr + [e]) == e
  {
  }

  /** Client state and trace agree. */
  ghost predicate Agree(c: Client, tr: seq<Event>) {
    SafeTrace(tr) && !Released(tr) && (c.bootstrapped <==> Accepted(tr))
  }

  /** A question and what follows it within its exchange are allowed, one event after the other. */
  lemma ExchangeIsSafe<T>(tr: seq<Event>, ask: Message, q: nat,
                          verdict: Message -> Result<Verdict<T>, RpcError>, w: World)
    requires SafeTrace(tr) && IsQuestion(ask) && ask.question == q && Allowed(tr, Sent(ask, w.sendOk))
    requires forall m: Message :: verdict(m).Success? ==>
               && m.Return? && m.answer == q
               && (verdict(m).value.Value? <==> if ask.Bootstrap? then Grants(m.body) else m.body.Results?)
    requires ask.Bootstrap? ==>
               forall m: Message :: m.Return? && m.answer == q && Grants(m.body) ==> verdict(m).Success?
    ensures var tr' := tr + Exchange(ask, q, verdict, w).0;
            && SafeTrace(tr') && !Released(tr')
            && QuestionIds(tr') == QuestionIds(tr) + [q]
            && (Accepted(tr') <==>
                || Accepted(tr)
                || (ask.Bootstrap? && w.sendOk && w.reply.Success?
                    && verdict(w.reply.value).Success? && verdict(w.reply.value).value.Value?))
  {
    var e0 := Sent(ask, w.sendOk);
    var t0 := tr + [e0];
    Snoc(tr, e0);
    assert SafeTrace(t0) && !Released(t0) && (Accepted(t0) <==> Accepted(tr));
    assert QuestionIds(t0) == QuestionIds(tr) + [q];
    if w.sendOk {
      var e1 := if w.reply.Success? then Received(w.reply.value) else ReceiveFailed(w.reply.error);
      var t1 := t0 + [e1];
      Snoc(t0, e1);
      assert SafeTrace(t1) && !Released(t1) && QuestionIds(t1) == QuestionIds(tr) + [q];
      assert t1 == tr + [e0, e1];
      if w.reply.Success? && verdict(w.reply.value).Success? {
        var e2 := Sent(Finish(q, verdict(w.reply.value).value.Refused?), w.finishOk);
        var t2 := t1 + [e2];
        Snoc(t1, e2);
        assert Allowed(t1, e2);
        assert SafeTrace(t2) && !Released(t2) && QuestionIds(t2) == QuestionIds(tr) + [q];
        assert Exchange(ask, q, verdict, w).0 == [e0, e1, e2];
        assert t2 == tr + [e0, e1, e2];
      }
    }
  }

  lemma BootstrapVerdicts(q: nat)
    ensures forall m: Message :: DecodeBootstrap(m, q).Success? ==>
              m.Return? && m.answer == q && (DecodeBootstrap(m, q).value.Value? <==> Grants(m.body))
    ensures forall m: Message :: m.Return? && m.answer == q && Grants(m.body) ==> DecodeBootstrap(m, q).Success?
  {
  }

  lemma BootstrapIsSafe(c: Client, tr: seq<Event>, w: World)
    requires Agree(c, tr)
    ensures var o := DoBootstrap(c, w);
            Agree(o.client, tr + o.events) && AsksAtMost(c, o.client, tr, o.events)
  {
    assert tr + [] == tr;
    if !c.bootstrapped {
      BootstrapVerdicts(c.next);
      ExchangeIsSafe(tr, Bootstrap(c.next), c.next, m => DecodeBootstrap(m, c.next), w);
    }
  }

  lemma CallIsSafe<T>(c: Client, tr: seq<Event>, r: Request, decode: Content -> Option<T>, w: World)
    requires Agree(c, tr)
    ensures var o := DoCall(c, r, decode, w);
            Agree(o.client, tr + o.events) && AsksAtMost(c, o.client, tr, o.events)
  {
    assert tr + [] == tr;
    if c.bootstrapped && r.params.Some? {
      var ask := Call(c.next, r.target, r.interfaceId, r.methodId, r.params.value);
      ExchangeIsSafe(tr, ask, c.next, m => DecodeCall(m, c.next, decode), w);
    }
  }

  /** An operation asks at most one question, with the next id, and then uses that id up. */
  ghost predicate AsksAtMost(c: Client, d: Client, tr: seq<Event>, ev: seq<Event>) {
    || (QuestionIds(tr + ev) == QuestionIds(tr) && (d.next == c.next || d.next == Succ(c.next)))
    || (QuestionIds(tr + ev) == QuestionIds(tr) + [c.next] && d.next == Succ(c.next))
  }

  lemma PerformIsSafe(c: Client, tr: seq<Event>, op: Op)
    requires Agree(c, tr)
    ensures var (d, ev) := Perform(c, op);
            Agree(d, tr + ev) && AsksAtMost(c, d, tr, ev)
  {
    match op
    case AskBootstrap(w) => BootstrapIsSafe(c, tr, w);
    case AskCall(r, decode, w) => CallIsSafe(c, tr, r, decode, w);
  }

  /** Against any peer, every run of the client leaves a safe trace. */
  lemma {:induction false} RunIsSafe(ops: seq<Op>)
    ensures Agree(PerformAll(ops).0, PerformAll(ops).1)
  {
    if ops != [] {
      var (c, tr) := PerformAll(ops[..|ops| - 1]);
      RunIsSafe(ops[..|ops| - 1]);
      PerformIsSafe(c, tr, ops[|ops| - 1]);
    }
  }

  /** So does a run that ends with a close, which releases exactly when a bootstrap was accepted. */
  lemma ClosedRunIsSafe(ops: seq<Op>, ok: bool)
    ensures SafeTrace(WithClose(PerformAll(ops), ok))
    ensures Released(WithClose(PerformAll(ops), ok)) <==> Accepted(PerformAll(ops).1)
  {
    var (c, tr) := PerformAll(ops);
    RunIsSafe(ops);
    assert tr + [] == tr;
    if c.bootstrapped {
      Snoc(tr, Sent(Release(0, 1), ok));
    }
  }

  // ---------------------------------------------------------------------------
  // Question ids.

  lemma IncreasingSnoc(ns: seq<nat>, n: nat)
    requires Increasing(ns) && AllBelow(ns, n)
    ensures Increasing(ns + [n]) && AllBelow(ns + [n], n + 1)
  {
  }

  /** The number of ids used so far: an operation that is refused at once uses none. */
  function IdsUsed(ops: seq<Op>): (n: nat)
    ensures n <= |ops|
  {
    if ops == [] then 0
    else
      var front := ops[..|ops| - 1];
      var c := PerformAll(front).0;
      IdsUsed(front) + if ops[|ops| - 1].AskBootstrap? == c.bootstrapped then 0 else 1
  }

  /** The counter itself, wrapped or not: the number of ids used so far, modulo 2^32. */
  lemma {:induction false} CounterIsIdsUsed(ops: seq<Op>)
    ensures PerformAll(ops).0.next == IdsUsed(ops) % U32_LIMIT
  {
    if ops != [] {
      var front, op := ops[..|ops| - 1], ops[|ops| - 1];
      CounterIsIdsUsed(front);
      NextAfter(PerformAll(front).0, op);
      ModuloSucc(IdsUsed(front));
    }
  }

  /**
    Ids are strictly increasing as long as the 32-bit counter has not wrapped: in every run that uses
    at most 2^32 ids.
   */
  lemma {:induction false} IdsIncrease(ops: seq<Op>)
    requires IdsUsed(ops) <= U32_LIMIT
    ensures Increasing(QuestionIds(PerformAll(ops).1)) && AllBelow(QuestionIds(PerformAll(ops).1), IdsUsed(ops))
  {
    if ops != [] {
      var front, op := ops[..|ops| - 1], ops[|ops| - 1];
      var (c, tr) := PerformAll(front);
      IdsIncrease(front);
      RunIsSafe(front);
      PerformIsSafe(c, tr, op);
      NextAfter(c, op);
      CounterIsIdsUsed(front);
      if op.AskBootstrap? == c.bootstrapped {
        assert tr + [] == tr;
      } else {
        Unwrapped(IdsUsed(front));
        IncreasingSnoc(QuestionIds(tr), c.next);
      }
    }
  }

  lemma Unwrapped(n: nat)
    requires n < U32_LIMIT
    ensures n % U32_LIMIT == n
  {
  }

  lemma ModuloSucc(n: nat)
    ensures (n + 1) % U32_LIMIT == Succ(n % U32_LIMIT)
  {
    var q, r := n / U32_LIMIT, n % U32_LIMIT;
    if r + 1 < U32_LIMIT {
      assert n + 1 == q * U32_LIMIT + (r + 1);
    } else {
      assert n + 1 == (q + 1) * U32_LIMIT;
    }
  }

  lemma NextAfter(c: Client, op: Op)
    ensures Perform(c, op).0.next == if op.AskBootstrap? == c.bootstrapped then c.next else Succ(c.next)
    ensures op.AskBootstrap? == c.bootstrapped ==> Perform(c, op).1 == []
  {
  }

  // ---------------------------------------------------------------------------
  // What the monitor means, read by index.

  lemma {:induction false} SafePrefix(tr: seq<Event>, k: nat)
    requires SafeTrace(tr) && k <= |tr|
    ensures SafeTrace(tr[..k])
  {
    if k < |tr| {
      SafePrefix(Front(tr), k);
      assert Front(tr)[..k] == tr[..k];
    } else {
      assert tr[..k] == tr;
    }
  }

  /** The monitor at any position of a safe trace: what is there was allowed after what came before. */
  lemma AllowedAt(tr: seq<Event>, i: nat)
    requires SafeTrace(tr) && i < |tr|
    ensures Allowed(tr[..i], tr[i])
  {
    SafePrefix(tr, i + 1);
    assert Front(tr[..i + 1]) == tr[..i];
  }

  lemma {:induction false} ReleasedMeans(tr: seq<Event>)
    ensures Released(tr) <==> exists i :: 0 <= i < |tr| && tr[i].Sent? && tr[i].message.Release?
  {
    if tr != [] {
      ReleasedMeans(Front(tr));
      if Released(Front(tr)) {
        var i :| 0 <= i < |Front(tr)| && Front(tr)[i].Sent? && Front(tr)[i].message.Release?;
        assert tr[i] == Front(tr)[i];
      } else {
        assert forall i :: 0 <= i < |Front(tr)| ==> tr[i] == Front(tr)[i];
      }
    }
  }

  lemma {:induction false} AcceptedMeans(tr: seq<Event>)
    ensures Accepted(tr) <==>
            exists i {:trigger tr[i]} ::
              && 1 <= i < |tr| && Answered(tr[i - 1], tr[i])
              && tr[i - 1].message.Bootstrap? && Grants(tr[i].reply.body)
  {
    if |tr| >= 2 {
      var f := Front(tr);
      AcceptedMeans(f);
      assert forall i :: 0 <= i < |f| ==> f[i] == tr[i];
      if Accepted(f) {
        var i :| 1 <= i < |f| && Answered(f[i - 1], f[i]) && f[i - 1].message.Bootstrap? && Grants(f[i].reply.body);
        assert tr[i] == f[i];
      }
    }
  }

  /**
    Every call comes after an accepted bootstrap; every finish sits two places behind its question
    and right behind that question's return; a release is the last thing written, comes after an
    accepted bootstrap, and happens at most once.
   */
  lemma SafeTraceByIndex(tr: seq<Event>, i: nat)
    requires SafeTrace(tr) && i < |tr| && tr[i].Sent?
    ensures tr[i].message.Call? || tr[i].message.Release? ==>
              exists j {:trigger tr[j]} ::
                && 1 <= j < i && Answered(tr[j - 1], tr[j])
                && tr[j - 1].message.Bootstrap? && Grants(tr[j].reply.body)
    ensures tr[i].message.Finish? ==>
              i >= 2 && Answered(tr[i - 2], tr[i - 1]) && tr[i - 1].reply.answer == tr[i].message.question
    ensures tr[i].message.Release? ==> i == |tr| - 1
    ensures tr[i].message.Bootstrap? || tr[i].message.Call? || tr[i].message.Finish? || tr[i].message.Release?
  {
    AllowedAt(tr, i);
    AcceptedMeans(tr[..i]);
    if tr[i].message.Release? && i < |tr| - 1 {
      AllowedAt(tr, |tr| - 1);
      ReleasedMeans(tr[..|tr| - 1]);
    }
    if tr[i].message.Call? || tr[i].message.Release? {
      var before := tr[..i];
      var j :| 1 <= j < i && Answered(before[j - 1], before[j])
            && before[j - 1].message.Bootstrap? && Grants(before[j].reply.body);
      assert tr[j] == tr[..i][j];
    }
  }

  /** One more than the latest question id, or zero. */
  function QuestionBound(tr: seq<Event>): nat {
    var ids := QuestionIds(tr);
    if ids == [] then 0 else ids[|ids| - 1] + 1
  }

  /** Distinct ids make finishes unique: the finish ids are strictly increasing as well. */
  lemma {:induction false} FinishIdsIncrease(tr: seq<Event>)
    requires SafeTrace(tr) && Increasing(QuestionIds(tr))
    ensures Increasing(FinishIds(tr)) && AllBelow(FinishIds(tr), QuestionBound(tr))
    decreases |tr|
  {
    if tr != [] {
      if Last(tr).Sent? && Last(tr).message.Finish? {
        FinishClosesItsQuestion(tr);
        FinishIdsIncrease(Front(Front(Front(tr))));
        FinishStep(tr, Front(Front(Front(tr))), Last(tr).message.question);
      } else {
        IdsPrefix(tr);
        FinishIdsIncrease(Front(tr));
        assert FinishIds(tr) == FinishIds(Front(tr));
      }
    }
  }

  /** In a run that uses at most 2^32 ids every question is finished at most once, in order. */
  lemma FinishesAreUnique(ops: seq<Op>)
    requires IdsUsed(ops) <= U32_LIMIT
    ensures Increasing(FinishIds(PerformAll(ops).1))
  {
    RunIsSafe(ops);
    IdsIncrease(ops);
    FinishIdsIncrease(PerformAll(ops).1);
  }

  lemma FinishStep(tr: seq<Event>, before: seq<Event>, q: nat)
    requires Increasing(QuestionIds(before)) && Increasing(QuestionIds(before) + [q])
    requires FinishIds(tr) == FinishIds(before) + [q] && QuestionIds(tr) == QuestionIds(before) + [q]
    requires Increasing(FinishIds(before)) && AllBelow(FinishIds(before), QuestionBound(before))
    ensures Increasing(FinishIds(tr)) && AllBelow(FinishIds(tr), QuestionBound(tr))
  {
    BoundSnoc(QuestionIds(before), q);
    IncreasingSnoc(FinishIds(before), q);
  }

  lemma BoundSnoc(ids: seq<nat>, q: nat)
    requires Increasing(ids + [q])
    ensures ids != [] ==> ids[|ids| - 1] < q
  {
    if ids != [] {
      assert (ids + [q])[|ids| - 1] == ids[|ids| - 1] && (ids + [q])[|ids|] == q;
    }
  }

  /** The question, its return and its finish are the last three events. */
  lemma FinishClosesItsQuestion(tr: seq<Event>)
    requires SafeTrace(tr) && tr != [] && Last(tr).Sent? && Last(tr).message.Finish?
    requires Increasing(QuestionIds(tr))
    ensures |tr| >= 3
    ensures var before, q := Front(Front(Front(tr))), Last(tr).message.question;
            && SafeTrace(before) && Increasing(QuestionIds(before))
            && FinishIds(tr) == FinishIds(before) + [q]
            && QuestionIds(tr) == QuestionIds(before) + [q]
  {
    var f := Front(tr);
    var g := Front(f);
    IdsStand(tr);
    IdsStand(f);
    IdsStand(g);
    IdsPrefix(g);
  }

  /** What the last event adds to the ids. */
  lemma IdsStand(tr: seq<Event>)
    requires SafeTrace(tr) && tr != []
    ensures SafeTrace(Front(tr))
    ensures Last(tr).Sent? && IsQuestion(Last(tr).message) ==>
              && QuestionIds(tr) == QuestionIds(Front(tr)) + [Last(tr).message.question]
              && FinishIds(tr) == FinishIds(Front(tr))
    ensures Last(tr).Sent? && Last(tr).message.Finish? ==>
              && QuestionIds(tr) == QuestionIds(Front(tr))
              && FinishIds(tr) == FinishIds(Front(tr)) + [Last(tr).message.question]
              && |tr| >= 3 && Answered(Last(Front(Front(tr))), Last(Front(tr)))
              && Last(Front(tr)).reply.answer == Last(tr).message.question
    ensures !Last(tr).Sent? ==> QuestionIds(tr) == QuestionIds(Front(tr)) && FinishIds(tr) == FinishIds(Front(tr))
  {
  }

  lemma IdsPrefix(tr: seq<Event>)
    requires tr != [] && Increasing(QuestionIds(tr))
    ensures Increasing(QuestionIds(Front(tr))) && QuestionBound(Front(tr)) <= QuestionBound(tr)
  {
    var ids := QuestionIds(Front(tr));
    if QuestionIds(tr) != ids {
      BoundSnoc(ids, Last(tr).message.question);
    }
    assert forall i :: 0 <= i < |ids| ==> QuestionIds(tr)[i] == ids[i];
  }
}
