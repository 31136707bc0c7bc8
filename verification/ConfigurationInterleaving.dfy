/**
  Concurrent configuration pushes. The handler is shared by all RPC streams of a connection, and
  a push is not atomic: a parseable push stores the version and later runs the callback, an
  unparseable one loads the version (src/edge/configuration.rs:51-70). Every interleaving of
  these steps is considered.
 */
module ConfigurationInterleaving {
  import opened Bytes
  import opened Configuration

  /** Where the task of one push stands. */
  datatype Task = Parsing | Stored | Replied(response: UpdateResponse)

  /**
    `announced` lists the pushes in the order of their callbacks. `order` is history only: the
    pushes in the order of their store or load.
   */
  datatype State = State(tasks: seq<Task>, applied: int, announced: seq<nat>, order: seq<nat>)

  ghost predicate Init(pushes: seq<Push>, s: State) {
    && |s.tasks| == |pushes| && (forall i :: 0 <= i < |pushes| ==> s.tasks[i] == Parsing)
    && s.applied == NOTHING_APPLIED && s.announced == [] && s.order == []
  }

  /** The task of push `i` takes its next atomic step. */
  function Step(json: Json, pushes: seq<Push>, s: State, i: nat): State
    requires i < |pushes| == |s.tasks| && !s.tasks[i].Replied?
  {
    match s.tasks[i]
    case Parsing =>
      if Parseable(json, pushes[i]) then
        s.(tasks := s.tasks[i := Stored], applied := pushes[i].version, order := s.order + [i])
      else
        s.(tasks := s.tasks[i := Replied(UpdateResponse(s.applied, ErrorText(json, pushes[i])))],
           order := s.order + [i])
    case Stored =>
      s.(tasks := s.tasks[i := Replied(UpdateResponse(pushes[i].version, ""))], announced := s.announced + [i])
  }

  /** A run: any sequence of task choices that are possible. */
  ghost predicate Run(json: Json, pushes: seq<Push>, s: State, schedule: seq<nat>, t: State)
    requires |s.tasks| == |pushes|
    decreases schedule
  {
    if schedule == [] then s == t
    else
      && schedule[0] < |pushes| && !s.tasks[schedule[0]].Replied?
      && Run(json, pushes, Step(json, pushes, s, schedule[0]), schedule[1..], t)
  }

  /** The pushes taken in a given order. */
  function Taken(pushes: seq<Push>, order: seq<nat>): (ps: seq<Push>)
    requires InBounds(pushes, order)
    ensures |ps| == |order|
  {
    seq(|order|, k requires 0 <= k < |order| => pushes[order[k]])
  }

  ghost predicate NoDuplicates(ns: seq<nat>) {
    forall k, l :: 0 <= k < l < |ns| ==> ns[k] != ns[l]
  }

  /** The reply the atomic handler gives to the `k`-th push of the order. */
  function AtomicReply(json: Json, pushes: seq<Push>, order: seq<nat>, k: nat): UpdateResponse
    requires InBounds(pushes, order)
    requires k < |order|
  {
    Answer(json, ApplyAll(json, NOTHING, Taken(pushes, order[..k])), pushes[order[k]])
  }

  ghost predicate InBounds(pushes: seq<Push>, ns: seq<nat>) {
    forall k :: 0 <= k < |ns| ==> ns[k] < |pushes|
  }

  /** Which tasks have which place in the two orders. */
  ghost predicate Bookkeeping(json: Json, pushes: seq<Push>, s: State) {
    && |s.tasks| == |pushes| && InBounds(pushes, s.order)
    && NoDuplicates(s.order) && NoDuplicates(s.announced)
    && (forall i: nat :: i < |pushes| ==> (i in s.order <==> s.tasks[i] != Parsing))
    && (forall i: nat :: i in s.announced <==> i < |pushes| && s.tasks[i].Replied? && Parseable(json, pushes[i]))
    && (forall i: nat :: i < |pushes| && s.tasks[i].Stored? ==> Parseable(json, pushes[i]))
  }

  /** The applied version and every reply are those of the atomic handler. */
  ghost predicate Atomic(json: Json, pushes: seq<Push>, s: State)
    requires |s.tasks| == |pushes| && InBounds(pushes, s.order)
  {
    && s.applied == ApplyAll(json, NOTHING, Taken(pushes, s.order)).version
    && (forall k: nat :: k < |s.order| ==> AtomicAt(json, pushes, s, k))
  }

  ghost predicate AtomicAt(json: Json, pushes: seq<Push>, s: State, k: nat)
    requires |s.tasks| == |pushes| && InBounds(pushes, s.order) && k < |s.order|
  {
    var task := s.tasks[s.order[k]];
    task.Replied? ==> task.response == AtomicReply(json, pushes, s.order, k)
  }

  ghost predicate Inv(json: Json, pushes: seq<Push>, s: State) {
    Bookkeeping(json, pushes, s) && Atomic(json, pushes, s)
  }

  lemma TakenGrows(json: Json, pushes: seq<Push>, order: seq<nat>, i: nat)
    requires InBounds(pushes, order)
    requires i < |pushes|
    ensures ApplyAll(json, NOTHING, Taken(pushes, order + [i]))
         == Apply(json, ApplyAll(json, NOTHING, Taken(pushes, order)), pushes[i])
    ensures AtomicReply(json, pushes, order + [i], |order|)
         == Answer(json, ApplyAll(json, NOTHING, Taken(pushes, order)), pushes[i])
    ensures forall k: nat :: k < |order| ==>
              AtomicReply(json, pushes, order + [i], k) == AtomicReply(json, pushes, order, k)
  {
    assert Taken(pushes, order + [i])[..|order|] == Taken(pushes, order);
    assert (order + [i])[..|order|] == order;
    assert forall k: nat :: k < |order| ==> (order + [i])[..k] == order[..k];
  }

  lemma StepKeepsBookkeeping(json: Json, pushes: seq<Push>, s: State, i: nat)
    requires Bookkeeping(json, pushes, s) && i < |pushes| && !s.tasks[i].Replied?
    ensures Bookkeeping(json, pushes, Step(json, pushes, s, i))
  {
  }

  lemma StepKeepsInv(json: Json, pushes: seq<Push>, s: State, i: nat)
    requires Inv(json, pushes, s) && i < |pushes| && !s.tasks[i].Replied?
    ensures Inv(json, pushes, Step(json, pushes, s, i))
  {
    var t := Step(json, pushes, s, i);
    StepKeepsBookkeeping(json, pushes, s, i);
    if s.tasks[i].Parsing? {
      TakenGrows(json, pushes, s.order, i);
    }
    forall k: nat | k < |t.order|
      ensures AtomicAt(json, pushes, t, k)
    {
      if k < |s.order| {
        assert AtomicAt(json, pushes, s, k);
        ParseableReply(json, pushes, s.order, k);
      }
    }
  }

  lemma ParseableReply(json: Json, pushes: seq<Push>, order: seq<nat>, k: nat)
    requires InBounds(pushes, order) && k < |order|
    ensures Parseable(json, pushes[order[k]]) ==>
              AtomicReply(json, pushes, order, k) == UpdateResponse(pushes[order[k]].version, "")
  {
  }

  lemma {:induction false} RunKeepsInv(json: Json, pushes: seq<Push>, s: State, schedule: seq<nat>, t: State)
    requires Inv(json, pushes, s) && Run(json, pushes, s, schedule, t)
    ensures Inv(json, pushes, t)
    decreases schedule
  {
    if schedule != [] {
      StepKeepsInv(json, pushes, s, schedule[0]);
      RunKeepsInv(json, pushes, Step(json, pushes, s, schedule[0]), schedule[1..], t);
    }
  }

  /**
    Linearizability: under every interleaving, every reply given so far is the one the atomic
    handler would give if the pushes were handled whole, in the order of their store or load.
    Its version is therefore that of the latest parseable push up to that point.
   */
  lemma RepliesLinearize(json: Json, pushes: seq<Push>, s: State, schedule: seq<nat>, t: State, k: nat)
    requires Init(pushes, s) && Run(json, pushes, s, schedule, t)
    requires k < |t.order|
    ensures |t.tasks| == |pushes| && InBounds(pushes, t.order)
    ensures t.tasks[t.order[k]].Replied? ==>
              var r := t.tasks[t.order[k]].response;
              && r == AtomicReply(json, pushes, t.order, k)
              && IsLatest(json, Taken(pushes, t.order[..k + 1]), r.latestAppliedVersion)
              && (r.error == "" <==> Parseable(json, pushes[t.order[k]]))
  {
    RunKeepsInv(json, pushes, s, schedule, t);
    assert AtomicAt(json, pushes, t, k);
    var ps := Taken(pushes, t.order[..k + 1]);
    assert t.order[..k + 1][..k] == t.order[..k];
    assert ps[..k] == Taken(pushes, t.order[..k]);
    ReplyReportsLatest(json, ps);
  }

  /** Once every task has replied, each push has exactly one place, and each parseable one exactly one callback. */
  lemma FinishedRunIsComplete(json: Json, pushes: seq<Push>, s: State, schedule: seq<nat>, t: State)
    requires Init(pushes, s) && Run(json, pushes, s, schedule, t)
    requires forall i :: 0 <= i < |t.tasks| ==> t.tasks[i].Replied?
    ensures InBounds(pushes, t.order) && NoDuplicates(t.order)
    ensures forall i: nat :: i in t.order <==> i < |pushes|
    ensures NoDuplicates(t.announced)
    ensures forall i: nat :: i in t.announced <==> i < |pushes| && Parseable(json, pushes[i])
    ensures t.applied == ApplyAll(json, NOTHING, Taken(pushes, t.order)).version
  {
    RunKeepsInv(json, pushes, s, schedule, t);
    assert |t.tasks| == |pushes|;
    forall i: nat | i in t.order
      ensures i < |pushes|
    {
      var k :| 0 <= k < |t.order| && t.order[k] == i;
    }
  }

  // ---------------------------------------------------------------------------
  // The order of the callbacks.

  /**
    The callback order is not the order of the stores: two overlapping pushes can be announced the
    other way round, so the last announced version (1) is not the applied one (2).
   */
  lemma CallbacksMayOvertake(json: Json, config: seq<Byte>)
    requires json(config).Success?
    ensures var pushes := [Push(1, config), Push(2, config)];
            exists s, t, schedule ::
              && Init(pushes, s) && Run(json, pushes, s, schedule, t)
              && t.applied == 2 && t.order == [0, 1] && t.announced == [1, 0]
  {
    var pushes := [Push(1, config), Push(2, config)];
    var s := State([Parsing, Parsing], NOTHING_APPLIED, [], []);
    var s1 := Step(json, pushes, s, 0);
    var s2 := Step(json, pushes, s1, 1);
    var s3 := Step(json, pushes, s2, 1);
    var t := Step(json, pushes, s3, 0);
    assert Run(json, pushes, t, [], t);
    assert [0][1..] == [];
    assert Run(json, pushes, s3, [0], t);
    assert [1, 0][1..] == [0];
    assert Run(json, pushes, s2, [1, 0], t);
    assert [1, 1, 0][1..] == [1, 0];
    assert Run(json, pushes, s1, [1, 1, 0], t);
    assert [0, 1, 1, 0][1..] == [1, 1, 0];
    assert Run(json, pushes, s, [0, 1, 1, 0], t);
  }

  /** The parseable pushes of an order. */
  function ParseableOf(json: Json, pushes: seq<Push>, order: seq<nat>): seq<nat>
    requires InBounds(pushes, order)
  {
    if order == [] then []
    else
      var front, last := ParseableOf(json, pushes, order[..|order| - 1]), order[|order| - 1];
      if Parseable(json, pushes[last]) then front + [last] else front
  }

  /** The pushes of an order that are between their store and their callback. */
  function Due(tasks: seq<Task>, order: seq<nat>): seq<nat> {
    if order == [] then []
    else (if order[0] < |tasks| && tasks[order[0]].Stored? then [order[0]] else []) + Due(tasks, order[1..])
  }

  /** A callback is taken only for the oldest push that is between its store and its callback. */
  predicate InTurn(s: State, i: nat)
    requires i < |s.tasks|
  {
    s.tasks[i].Stored? ==> Due(s.tasks, s.order) != [] && Due(s.tasks, s.order)[0] == i
  }

  /** Every step of the schedule is in turn. */
  predicate AllInTurn(json: Json, pushes: seq<Push>, s: State, schedule: seq<nat>)
    requires |s.tasks| == |pushes|
    decreases schedule
  {
    schedule != [] && schedule[0] < |pushes| && !s.tasks[schedule[0]].Replied? ==>
      InTurn(s, schedule[0]) && AllInTurn(json, pushes, Step(json, pushes, s, schedule[0]), schedule[1..])
  }

  lemma {:induction false} DueAppend(tasks: seq<Task>, order: seq<nat>, i: nat)
    ensures Due(tasks, order + [i]) == Due(tasks, order) + Due(tasks, [i])
    decreases order
  {
    if order == [] {
      assert order + [i] == [i];
    } else {
      assert (order + [i])[1..] == order[1..] + [i];
      DueAppend(tasks, order[1..], i);
    }
  }

  /** Tasks outside the order do not matter. */
  lemma {:induction false} DueFrame(tasks: seq<Task>, order: seq<nat>, i: nat, task: Task)
    requires i < |tasks| && i !in order
    ensures Due(tasks[i := task], order) == Due(tasks, order)
    decreases order
  {
    if order != [] {
      DueFrame(tasks, order[1..], i, task);
    }
  }

  /** When the oldest push that is due is announced, the others stay due, in their order. */
  lemma {:induction false} DueAnnounced(tasks: seq<Task>, order: seq<nat>, i: nat, task: Task)
    requires NoDuplicates(order) && i < |tasks| && !task.Stored?
    requires Due(tasks, order) != [] && Due(tasks, order)[0] == i
    ensures Due(tasks[i := task], order) == Due(tasks, order)[1..]
    decreases order
  {
    if order[0] == i {
      assert i !in order[1..];
      DueFrame(tasks, order[1..], i, task);
      assert Due(tasks, order)[1..] == Due(tasks, order[1..]) by {
        DueStored(tasks, order[1..]);
      }
    } else {
      assert !(order[0] < |tasks| && tasks[order[0]].Stored?);
      DueAnnounced(tasks, order[1..], i, task);
    }
  }

  lemma {:induction false} DueStored(tasks: seq<Task>, order: seq<nat>)
    ensures forall k :: 0 <= k < |Due(tasks, order)| ==>
              && Due(tasks, order)[k] in order
              && Due(tasks, order)[k] < |tasks| && tasks[Due(tasks, order)[k]].Stored?
    decreases order
  {
    if order != [] {
      DueStored(tasks, order[1..]);
    }
  }

  lemma {:induction false} StoredIsDue(tasks: seq<Task>, order: seq<nat>, i: nat)
    requires i in order && i < |tasks| && tasks[i].Stored?
    ensures i in Due(tasks, order)
    decreases order
  {
    if order[0] != i {
      StoredIsDue(tasks, order[1..], i);
    }
  }

  /** The parseable pushes of the order are the announced ones followed by those that are due. */
  ghost predicate InOrder(json: Json, pushes: seq<Push>, s: State)
    requires InBounds(pushes, s.order)
  {
    ParseableOf(json, pushes, s.order) == s.announced + Due(s.tasks, s.order)
  }

  /** A store appends to the pushes that are due; a load changes nothing. */
  lemma StoreKeepsOrder(json: Json, pushes: seq<Push>, s: State, i: nat)
    requires Bookkeeping(json, pushes, s) && i < |pushes| && s.tasks[i].Parsing? && InOrder(json, pushes, s)
    ensures InBounds(pushes, Step(json, pushes, s, i).order) && InOrder(json, pushes, Step(json, pushes, s, i))
  {
    OrderGrows(json, pushes, s.tasks, s.order, s.announced, i, Step(json, pushes, s, i).tasks[i]);
  }

  lemma OrderGrows(json: Json, pushes: seq<Push>, tasks: seq<Task>, order: seq<nat>, announced: seq<nat>,
                   i: nat, task: Task)
    requires InBounds(pushes, order) && i < |tasks| == |pushes| && i !in order
    requires task.Stored? <==> Parseable(json, pushes[i])
    requires ParseableOf(json, pushes, order) == announced + Due(tasks, order)
    ensures InBounds(pushes, order + [i])
    ensures ParseableOf(json, pushes, order + [i]) == announced + Due(tasks[i := task], order + [i])
  {
    ParseableAppend(json, pushes, order, i);
    DueFrame(tasks, order, i, task);
    DueAppend(tasks[i := task], order, i);
    DueOne(tasks[i := task], i);
    Regroup(announced, Due(tasks, order), Due(tasks[i := task], [i]));
  }

  lemma ParseableAppend(json: Json, pushes: seq<Push>, order: seq<nat>, i: nat)
    requires InBounds(pushes, order) && i < |pushes|
    ensures InBounds(pushes, order + [i])
    ensures ParseableOf(json, pushes, order + [i])
         == ParseableOf(json, pushes, order) + if Parseable(json, pushes[i]) then [i] else []
  {
    assert (order + [i])[..|order|] == order;
  }

  lemma DueOne(tasks: seq<Task>, i: nat)
    requires i < |tasks|
    ensures Due(tasks, [i]) == if tasks[i].Stored? then [i] else []
  {
    assert [i][1..] == [];
  }

  lemma Regroup(a: seq<nat>, b: seq<nat>, c: seq<nat>)
    ensures (a + b) + c == a + (b + c)
    ensures b + [] == b
  {
  }

  /** The oldest due push moves from the due ones to the announced ones. */
  lemma CallbackKeepsOrder(json: Json, pushes: seq<Push>, s: State, i: nat)
    requires Bookkeeping(json, pushes, s) && i < |pushes| && s.tasks[i].Stored? && InOrder(json, pushes, s)
    requires InTurn(s, i)
    ensures InBounds(pushes, Step(json, pushes, s, i).order) && InOrder(json, pushes, Step(json, pushes, s, i))
  {
    var due := Due(s.tasks, s.order);
    DueAnnounced(s.tasks, s.order, i, Step(json, pushes, s, i).tasks[i]);
    Regroup(s.announced, [i], due[1..]);
    assert [i] + due[1..] == due;
  }

  /** Any other callback is at the place of the oldest due push. */
  lemma CallbackBreaksOrder(json: Json, pushes: seq<Push>, s: State, i: nat)
    requires Bookkeeping(json, pushes, s) && i < |pushes| && s.tasks[i].Stored? && InOrder(json, pushes, s)
    requires !InTurn(s, i)
    ensures InBounds(pushes, Step(json, pushes, s, i).order)
    ensures !(Step(json, pushes, s, i).announced <= ParseableOf(json, pushes, Step(json, pushes, s, i).order))
  {
    var due := Due(s.tasks, s.order);
    StoredIsDue(s.tasks, s.order, i);
    assert (s.announced + [i])[|s.announced|] == i && (s.announced + due)[|s.announced|] == due[0];
  }

  /** A step in turn keeps the order, and a callback out of turn breaks it. */
  lemma StepInTurn(json: Json, pushes: seq<Push>, s: State, i: nat)
    requires Bookkeeping(json, pushes, s) && i < |pushes| && !s.tasks[i].Replied? && InOrder(json, pushes, s)
    ensures InBounds(pushes, Step(json, pushes, s, i).order)
    ensures if InTurn(s, i) then InOrder(json, pushes, Step(json, pushes, s, i))
            else !(Step(json, pushes, s, i).announced <= ParseableOf(json, pushes, Step(json, pushes, s, i).order))
  {
    if s.tasks[i].Parsing? {
      StoreKeepsOrder(json, pushes, s, i);
    } else if InTurn(s, i) {
      CallbackKeepsOrder(json, pushes, s, i);
    } else {
      CallbackBreaksOrder(json, pushes, s, i);
    }
  }

  /** Callbacks that have left the order never come back to it. */
  lemma StepStaysOut(json: Json, pushes: seq<Push>, s: State, i: nat)
    requires Bookkeeping(json, pushes, s) && i < |pushes| && !s.tasks[i].Replied?
    requires !(s.announced <= ParseableOf(json, pushes, s.order))
    ensures InBounds(pushes, Step(json, pushes, s, i).order)
    ensures !(Step(json, pushes, s, i).announced <= ParseableOf(json, pushes, Step(json, pushes, s, i).order))
  {
    if s.tasks[i].Parsing? {
      ParseableAppend(json, pushes, s.order, i);
    }
    StaysOut(s.announced, ParseableOf(json, pushes, s.order), i);
  }

  lemma StaysOut(announced: seq<nat>, ps: seq<nat>, i: nat)
    requires !(announced <= ps)
    ensures i !in announced ==> !(announced <= ps + [i])
    ensures !(announced <= ps + []) && !(announced + [i] <= ps)
  {
    assert ps + [] == ps;
    if |announced| <= |ps| {
      assert announced != ps[..|announced|];
      var j :| 0 <= j < |announced| && announced[j] != ps[j];
      assert (ps + [i])[j] == ps[j] && (announced + [i])[j] == announced[j];
    } else {
      assert |announced| == |ps| + 1 ==> (ps + [i])[|ps|] == i && announced[|ps|] in announced;
    }
  }

  lemma {:induction false} RunStaysOut(json: Json, pushes: seq<Push>, s: State, schedule: seq<nat>, t: State)
    requires Bookkeeping(json, pushes, s) && Run(json, pushes, s, schedule, t)
    requires !(s.announced <= ParseableOf(json, pushes, s.order))
    ensures InBounds(pushes, t.order) && !(t.announced <= ParseableOf(json, pushes, t.order))
    decreases schedule
  {
    if schedule != [] {
      StepKeepsBookkeeping(json, pushes, s, schedule[0]);
      StepStaysOut(json, pushes, s, schedule[0]);
      RunStaysOut(json, pushes, Step(json, pushes, s, schedule[0]), schedule[1..], t);
    }
  }

  lemma {:induction false} RunInTurn(json: Json, pushes: seq<Push>, s: State, schedule: seq<nat>, t: State)
    requires Bookkeeping(json, pushes, s) && InOrder(json, pushes, s) && Run(json, pushes, s, schedule, t)
    ensures InBounds(pushes, t.order)
    ensures if AllInTurn(json, pushes, s, schedule) then InOrder(json, pushes, t)
            else !(t.announced <= ParseableOf(json, pushes, t.order))
    decreases schedule
  {
    if schedule != [] {
      var s' := Step(json, pushes, s, schedule[0]);
      StepKeepsBookkeeping(json, pushes, s, schedule[0]);
      StepInTurn(json, pushes, s, schedule[0]);
      if InTurn(s, schedule[0]) {
        RunInTurn(json, pushes, s', schedule[1..], t);
      } else {
        RunStaysOut(json, pushes, s', schedule[1..], t);
      }
    }
  }

  /**
    For every interleaving: the callbacks so far follow the order of the stores if and only if each one
    was taken for the oldest push between store and callback. Then only pushes that are still due are missing.
   */
  lemma CallbacksFollowStoresExactly(json: Json, pushes: seq<Push>, s: State, schedule: seq<nat>, t: State)
    requires Init(pushes, s) && Run(json, pushes, s, schedule, t)
    ensures InBounds(pushes, t.order)
    ensures t.announced <= ParseableOf(json, pushes, t.order) <==> AllInTurn(json, pushes, s, schedule)
    ensures AllInTurn(json, pushes, s, schedule) ==>
              ParseableOf(json, pushes, t.order) == t.announced + Due(t.tasks, t.order)
  {
    RunInTurn(json, pushes, s, schedule, t);
  }

  /** No two pushes are between their store and their callback at the same time. */
  ghost predicate NoOverlap(s: State) {
    forall i, j :: 0 <= i < j < |s.tasks| ==> !(s.tasks[i].Stored? && s.tasks[j].Stored?)
  }

  ghost predicate NeverOverlaps(json: Json, pushes: seq<Push>, s: State, schedule: seq<nat>)
    requires |s.tasks| == |pushes|
    decreases schedule
  {
    && NoOverlap(s)
    && (schedule != [] && schedule[0] < |pushes| && !s.tasks[schedule[0]].Replied? ==>
        NeverOverlaps(json, pushes, Step(json, pushes, s, schedule[0]), schedule[1..]))
  }

  lemma {:induction false} NoOverlapIsInTurn(json: Json, pushes: seq<Push>, s: State, schedule: seq<nat>)
    requires Bookkeeping(json, pushes, s) && NeverOverlaps(json, pushes, s, schedule)
    ensures AllInTurn(json, pushes, s, schedule)
    decreases schedule
  {
    if schedule != [] && schedule[0] < |pushes| && !s.tasks[schedule[0]].Replied? {
      var i := schedule[0];
      if s.tasks[i].Stored? {
        StoredIsDue(s.tasks, s.order, i);
        DueStored(s.tasks, s.order);
      }
      StepKeepsBookkeeping(json, pushes, s, i);
      NoOverlapIsInTurn(json, pushes, Step(json, pushes, s, i), schedule[1..]);
    }
  }

  /** In particular they do when each push is handled whole: when no two of them overlap. */
  lemma CallbacksInOrder(json: Json, pushes: seq<Push>, s: State, schedule: seq<nat>, t: State)
    requires Init(pushes, s) && Run(json, pushes, s, schedule, t) && NeverOverlaps(json, pushes, s, schedule)
    ensures InBounds(pushes, t.order) && t.announced <= ParseableOf(json, pushes, t.order)
  {
    NoOverlapIsInTurn(json, pushes, s, schedule);
    CallbacksFollowStoresExactly(json, pushes, s, schedule, t);
  }

  /** Overlap does no harm by itself: the same two pushes, announced in turn. */
  lemma OverlapMayStayInOrder(json: Json, config: seq<Byte>)
    requires json(config).Success?
    ensures var pushes := [Push(1, config), Push(2, config)];
            var s := State([Parsing, Parsing], NOTHING_APPLIED, [], []);
            !NeverOverlaps(json, pushes, s, [0, 1, 0, 1]) && AllInTurn(json, pushes, s, [0, 1, 0, 1])
  {
    var pushes := [Push(1, config), Push(2, config)];
    var s := State([Parsing, Parsing], NOTHING_APPLIED, [], []);
    var s1 := Step(json, pushes, s, 0);
    var s2 := Step(json, pushes, s1, 1);
    var s3 := Step(json, pushes, s2, 0);
    assert [0, 1, 0, 1][1..] == [1, 0, 1] && [1, 0, 1][1..] == [0, 1] && [0, 1][1..] == [1];
    assert s2.tasks[0].Stored? && s2.tasks[1].Stored?;
    assert !NeverOverlaps(json, pushes, s2, [0, 1]);
    assert !NeverOverlaps(json, pushes, s1, [1, 0, 1]);
    assert AllInTurn(json, pushes, s3, [1]);
    assert AllInTurn(json, pushes, s2, [0, 1]);
    assert AllInTurn(json, pushes, s1, [1, 0, 1]);
  }
}
