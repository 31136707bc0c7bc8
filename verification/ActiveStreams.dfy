/**
  The set of active streams of a connection while requests are served (src/edge/serve.rs:30-75) and
  its two operations in the quiche backend (src/edge/quic/quiche/mod.rs:135-164). The set starts with
  the control stream, which no task serves.
 */
module ActiveStreams {
  import opened Sets

  datatype Status = Running | Ended | Panicked

  datatype Task = Task(stream: nat, status: Status)

  /**
    `active` is the accepted set of the connection, `tasks` the join set by task number. `spawned`,
    `released`, `freed` and `leaked` are history: the number of tasks so far, the tasks that released
    their stream, those streams in the same order, and the streams whose task panicked.
   */
  datatype State = State(active: set<nat>, tasks: map<nat, Task>, spawned: nat, released: seq<nat>,
                         freed: seq<nat>, leaked: set<nat>)

  const CONTROL := 0

  const FRESH := State({CONTROL}, map[], 0, [], [], {})

  datatype Event = Accept(stream: nat) | End(task: nat) | Panic(task: nat) | Join(task: nat)

  /** A stream is accepted only when it is not in the set already; only a stopped task can be joined. */
  predicate Enabled(s: State, e: Event) {
    match e
    case Accept(stream) => stream !in s.active
    case End(t) => t in s.tasks && s.tasks[t].status.Running?
    case Panic(t) => t in s.tasks && s.tasks[t].status.Running?
    case Join(t) => t in s.tasks && !s.tasks[t].status.Running?
  }

  function Step(s: State, e: Event): State
    requires Enabled(s, e)
  {
    match e
    case Accept(stream) =>
      s.(active := s.active + {stream}, tasks := s.tasks[s.spawned := Task(stream, Running)], spawned := s.spawned + 1)
    case End(t) =>
      s.(active := s.active - {s.tasks[t].stream}, tasks := s.tasks[t := s.tasks[t].(status := Ended)],
         released := s.released + [t], freed := s.freed + [s.tasks[t].stream])
    case Panic(t) =>
      s.(tasks := s.tasks[t := s.tasks[t].(status := Panicked)], leaked := s.leaked + {s.tasks[t].stream})
    case Join(t) => s.(tasks := s.tasks - {t})
  }

  ghost predicate Run(s: State, events: seq<Event>, t: State)
    decreases events
  {
    if events == [] then s == t
    else Enabled(s, events[0]) && Run(Step(s, events[0]), events[1..], t)
  }

  predicate IsRunning(s: State, t: nat) {
    t in s.tasks && s.tasks[t].status.Running?
  }

  /** The streams that some running task serves. */
  ghost function ServedBy(tasks: map<nat, Task>): set<nat> {
    set t | t in tasks && tasks[t].status.Running? :: tasks[t].stream
  }

  ghost predicate Inv(s: State) {
    && (forall t :: t in s.tasks ==> t < s.spawned && s.tasks[t].stream != CONTROL)
    && s.active == {CONTROL} + ServedBy(s.tasks) + s.leaked
    && ServedBy(s.tasks) !! s.leaked && CONTROL !in s.leaked
    && (forall t, u | IsRunning(s, t) && IsRunning(s, u) && t != u :: s.tasks[t].stream != s.tasks[u].stream)
    && ReleasedInv(s)
  }

  ghost predicate ReleasedInv(s: State) {
    && (forall i, j :: 0 <= i < j < |s.released| ==> s.released[i] != s.released[j])
    && (forall t :: t in s.released ==> t < s.spawned && (t in s.tasks ==> s.tasks[t].status.Ended?))
    && (forall t :: t in s.tasks && s.tasks[t].status.Ended? ==> t in s.released)
  }

  lemma AcceptKeepsInv(s: State, stream: nat)
    requires Inv(s) && Enabled(s, Accept(stream))
    ensures Inv(Step(s, Accept(stream)))
  {
    var t := Step(s, Accept(stream));
    assert s.spawned !in s.tasks;
    assert forall u :: u in s.tasks ==> t.tasks[u] == s.tasks[u];
    assert ServedBy(t.tasks) == ServedBy(s.tasks) + {stream} by {
      assert t.tasks[s.spawned].stream in ServedBy(t.tasks);
    }
    forall u, v | IsRunning(t, u) && IsRunning(t, v) && u != v
      ensures t.tasks[u].stream != t.tasks[v].stream
    {
      assert u != s.spawned ==> IsRunning(s, u) && s.tasks[u].stream in ServedBy(s.tasks);
      assert v != s.spawned ==> IsRunning(s, v) && s.tasks[v].stream in ServedBy(s.tasks);
    }
  }

  lemma TaskServing(tasks: map<nat, Task>, stream: nat) returns (t: nat)
    requires stream in ServedBy(tasks)
    ensures t in tasks && tasks[t] == Task(stream, Running)
  {
    t :| t in tasks && tasks[t].status.Running? && tasks[t].stream == stream;
  }

  lemma StopServes(s: State, e: Event)
    requires Inv(s) && Enabled(s, e) && (e.End? || e.Panic?)
    ensures ServedBy(Step(s, e).tasks) == ServedBy(s.tasks) - {s.tasks[e.task].stream}
    ensures s.tasks[e.task].stream in ServedBy(s.tasks)
  {
    var after := Step(s, e).tasks;
    assert IsRunning(s, e.task);
    forall stream: nat | stream in ServedBy(s.tasks) && stream != s.tasks[e.task].stream
      ensures stream in ServedBy(after)
    {
      var u := TaskServing(s.tasks, stream);
      assert after[u] == s.tasks[u];
    }
    forall stream: nat | stream in ServedBy(after)
      ensures stream in ServedBy(s.tasks) && stream != s.tasks[e.task].stream
    {
      var u := TaskServing(after, stream);
      assert u != e.task;
      assert s.tasks[u] == after[u];
      assert IsRunning(s, u);
    }
  }

  lemma StopKeepsInv(s: State, e: Event)
    requires Inv(s) && Enabled(s, e) && (e.End? || e.Panic?)
    ensures Inv(Step(s, e))
  {
    var t := Step(s, e);
    StopServes(s, e);
    assert e.task !in s.released;
    forall u, v | IsRunning(t, u) && IsRunning(t, v) && u != v
      ensures t.tasks[u].stream != t.tasks[v].stream
    {
      assert IsRunning(s, u) && IsRunning(s, v);
    }
  }

  lemma JoinKeepsInv(s: State, task: nat)
    requires Inv(s) && Enabled(s, Join(task))
    ensures Inv(Step(s, Join(task)))
  {
    var t := Step(s, Join(task));
    assert forall u :: u in t.tasks ==> t.tasks[u] == s.tasks[u];
    assert ServedBy(t.tasks) == ServedBy(s.tasks);
    forall u, v | IsRunning(t, u) && IsRunning(t, v) && u != v
      ensures t.tasks[u].stream != t.tasks[v].stream
    {
      assert IsRunning(s, u) && IsRunning(s, v);
    }
  }

  lemma StepKeepsInv(s: State, e: Event)
    requires Inv(s) && Enabled(s, e)
    ensures Inv(Step(s, e))
  {
    match e
    case Accept(stream) => AcceptKeepsInv(s, stream);
    case Join(task) => JoinKeepsInv(s, task);
    case _ => StopKeepsInv(s, e);
  }

  lemma {:induction false} RunKeepsInv(s: State, events: seq<Event>, t: State)
    requires Inv(s) && Run(s, events, t)
    ensures Inv(t)
    decreases events
  {
    if events != [] {
      StepKeepsInv(s, events[0]);
      RunKeepsInv(Step(s, events[0]), events[1..], t);
    }
  }

  predicate NoPanic(events: seq<Event>) {
    forall i :: 0 <= i < |events| ==> !events[i].Panic?
  }

  lemma {:induction false} LeaksNeedPanics(s: State, events: seq<Event>, t: State)
    requires Run(s, events, t)
    ensures s.leaked <= t.leaked
    ensures NoPanic(events) ==> t.leaked == s.leaked
    ensures !NoPanic(events) ==> t.leaked != {}
    decreases events
  {
    if events != [] {
      var s' := Step(s, events[0]);
      LeaksNeedPanics(s', events[1..], t);
      assert NoPanic(events) <==> !events[0].Panic? && NoPanic(events[1..]) by {
        assert forall i {:trigger events[i]} :: 1 <= i < |events| ==> events[i] == events[1..][i - 1];
      }
      if events[0].Panic? {
        assert s.tasks[events[0].task].stream in s'.leaked;
      }
    }
  }

  lemma {:induction false} ServedIsSmall(tasks: map<nat, Task>)
    ensures |ServedBy(tasks)| <= |tasks|
    decreases |tasks|
  {
    if tasks == map[] {
      assert ServedBy(tasks) == {};
    } else {
      var k :| k in tasks;
      var rest := tasks - {k};
      assert rest.Keys == tasks.Keys - {k};
      assert |rest.Keys| == |tasks.Keys| - 1;
      ServedIsSmall(rest);
      assert ServedBy(tasks) <= ServedBy(rest) + {tasks[k].stream} by {
        assert forall t :: t in tasks && t != k ==> t in rest && rest[t] == tasks[t];
      }
      SubsetSize(ServedBy(tasks), ServedBy(rest) + {tasks[k].stream});
    }
  }

  /** No run accepts the control stream or releases it: it stays in the set, and no task serves it. */
  lemma {:induction false} ControlStreamStays(s: State, events: seq<Event>, t: State)
    requires Inv(s) && Run(s, events, t)
    ensures 0 in t.active && forall k :: k in t.tasks ==> t.tasks[k].stream != 0
    ensures forall i :: 0 <= i < |events| ==> events[i] != Accept(0)
    decreases events
  {
    RunKeepsInv(s, events, t);
    if events != [] {
      StepKeepsInv(s, events[0]);
      ControlStreamStays(Step(s, events[0]), events[1..], t);
      assert forall i {:trigger events[i]} :: 1 <= i < |events| ==> events[i] == events[1..][i - 1];
    }
  }

  /** What the accepted set holds: the control stream, the streams of running tasks and those of panicked ones. */
  lemma ActiveSetIsPartitioned(events: seq<Event>, t: State)
    requires Run(FRESH, events, t)
    ensures t.active == {0} + ServedBy(t.tasks) + t.leaked
    ensures 0 !in ServedBy(t.tasks) + t.leaked && ServedBy(t.tasks) !! t.leaked
    ensures t.leaked == {} <==> NoPanic(events)
    ensures forall i :: 0 <= i < |events| ==> events[i] != Accept(0)
  {
    FreshInv();
    RunKeepsInv(FRESH, events, t);
    LeaksNeedPanics(FRESH, events, t);
    ControlStreamStays(FRESH, events, t);
  }

  lemma FreshInv()
    ensures Inv(FRESH)
  {
    assert ServedBy(FRESH.tasks) == {};
  }

  /**
    In every run: a task releases its stream at most once, and exactly when it ends; apart from the
    control stream, the active streams are those of tasks still in the join set, hence at most one more
    than there are such tasks, if and only if no task panicked.
   */
  lemma ActiveSetIsBounded(events: seq<Event>, t: State)
    requires Run(FRESH, events, t)
    ensures forall i, j :: 0 <= i < j < |t.released| ==> t.released[i] != t.released[j]
    ensures forall k :: k in t.tasks ==> (k in t.released <==> t.tasks[k].status.Ended?)
    ensures t.active - {0} <= ServedBy(t.tasks) <==> NoPanic(events)
    ensures NoPanic(events) ==> |t.active| <= |t.tasks| + 1
  {
    FreshInv();
    RunKeepsInv(FRESH, events, t);
    ActiveSetIsPartitioned(events, t);
    ServedIsSmall(t.tasks);
    PartsBound(t.active, ServedBy(t.tasks), t.leaked);
  }

  lemma PartsBound(active: set<nat>, served: set<nat>, leaked: set<nat>)
    requires active == {CONTROL} + served + leaked
    requires CONTROL !in served + leaked && served !! leaked
    ensures active - {CONTROL} <= served <==> leaked == {}
    ensures leaked == {} ==> |active| == |served| + 1
  {
    if leaked == {} {
      assert active == served + {CONTROL};
    } else {
      var stream :| stream in leaked;
      assert stream in active - {CONTROL};
    }
  }

  // ---------------------------------------------------------------------------
  // Stream ids. A task is released at most once, but a stream id can come back: once released it is free
  // to be accepted again, for instance while the rest of its body is still readable.

  predicate NoDuplicates(ids: seq<nat>) {
    forall i, j :: 0 <= i < j < |ids| ==> ids[i] != ids[j]
  }

  /** The stream that an event accepts, if any. */
  function AcceptOf(e: Event): seq<nat> {
    if e.Accept? then [e.stream] else []
  }

  /** The stream ids accepted, in order. */
  function AcceptsOf(events: seq<Event>): seq<nat> {
    if events == [] then [] else AcceptOf(events[0]) + AcceptsOf(events[1..])
  }

  /** No stream is accepted that an ended task has released. */
  predicate NeverReaccepts(s: State, events: seq<Event>)
    decreases events
  {
    events != [] && Enabled(s, events[0]) ==>
      && (events[0].Accept? ==> events[0].stream !in s.freed)
      && NeverReaccepts(Step(s, events[0]), events[1..])
  }

  /** The streams seen so far are those released, those being served and those leaked. */
  ghost predicate Seen(s: State, seen: seq<nat>) {
    forall x: nat :: x in seen <==> x in s.freed || x in ServedBy(s.tasks) || x in s.leaked
  }

  /** No released stream is active, and none was released twice. */
  ghost predicate FreedOnce(s: State) {
    NoDuplicates(s.freed) && forall x :: x in s.freed ==> x !in ServedBy(s.tasks) && x !in s.leaked
  }

  lemma AcceptServes(s: State, stream: nat)
    requires Inv(s) && Enabled(s, Accept(stream))
    ensures ServedBy(Step(s, Accept(stream)).tasks) == ServedBy(s.tasks) + {stream}
  {
    var after := Step(s, Accept(stream)).tasks;
    assert s.spawned !in s.tasks;
    assert after[s.spawned].stream in ServedBy(after);
    assert forall u :: u in s.tasks ==> after[u] == s.tasks[u];
  }

  lemma JoinServes(s: State, task: nat)
    requires Enabled(s, Join(task))
    ensures ServedBy(Step(s, Join(task)).tasks) == ServedBy(s.tasks)
  {
    var after := Step(s, Join(task)).tasks;
    assert forall u :: u in after ==> after[u] == s.tasks[u];
  }

  lemma StepSees(s: State, e: Event, seen: seq<nat>)
    requires Inv(s) && Enabled(s, e) && Seen(s, seen)
    ensures Seen(Step(s, e), seen + AcceptOf(e))
    ensures FreedOnce(s) && (e.Accept? ==> e.stream !in s.freed) ==> FreedOnce(Step(s, e))
  {
    match e
    case Accept(stream) => AcceptServes(s, stream);
    case Join(task) => JoinServes(s, task);
    case _ => StopServes(s, e);
  }

  /** Everything that a run needs to know of a state. */
  ghost predicate Traced(s: State, seen: seq<nat>) {
    Inv(s) && Seen(s, seen) && NoDuplicates(seen)
  }

  lemma StepTraces(s: State, e: Event, seen: seq<nat>)
    requires Traced(s, seen) && Enabled(s, e) && (e.Accept? ==> e.stream !in s.freed)
    ensures Traced(Step(s, e), seen + AcceptOf(e))
    ensures FreedOnce(s) ==> FreedOnce(Step(s, e))
  {
    StepKeepsInv(s, e);
    StepSees(s, e, seen);
    FirstSeen(s, e, seen);
  }

  lemma {:induction false} RunSees(s: State, events: seq<Event>, t: State, seen: seq<nat>)
    requires Traced(s, seen) && Run(s, events, t)
    ensures NoDuplicates(seen + AcceptsOf(events)) <==> NeverReaccepts(s, events)
    ensures FreedOnce(s) && NeverReaccepts(s, events) ==> FreedOnce(t)
    decreases events
  {
    if events == [] {
      assert seen + [] == seen;
    } else {
      var e, rest := events[0], events[1..];
      Regroup(seen, AcceptOf(e), AcceptsOf(rest));
      if e.Accept? && e.stream in s.freed {
        SeenAgain(seen, e.stream, AcceptsOf(rest));
      } else {
        StepTraces(s, e, seen);
        RunSees(Step(s, e), rest, t, seen + AcceptOf(e));
      }
    }
  }

  lemma Regroup(a: seq<nat>, b: seq<nat>, c: seq<nat>)
    ensures a + (b + c) == a + b + c
  {
  }

  lemma SeenAgain(seen: seq<nat>, x: nat, more: seq<nat>)
    requires x in seen
    ensures !NoDuplicates(seen + [x] + more)
  {
    var i :| 0 <= i < |seen| && seen[i] == x;
    var all := seen + [x] + more;
    assert all[i] == all[|seen|];
  }

  /** A stream that is accepted and was not released has not been seen at all. */
  lemma FirstSeen(s: State, e: Event, seen: seq<nat>)
    requires Inv(s) && Enabled(s, e) && Seen(s, seen) && NoDuplicates(seen)
    requires e.Accept? ==> e.stream !in s.freed
    ensures NoDuplicates(seen + AcceptOf(e))
  {
    if e.Accept? {
      assert e.stream !in seen;
    }
  }

  /**
    In every run: no stream is served twice if and only if no `Accept` takes a stream that an ended task
    has released; and then no stream is released twice either.
   */
  lemma StreamsServedOnceExactly(events: seq<Event>, t: State)
    requires Run(FRESH, events, t)
    ensures NoDuplicates(AcceptsOf(events)) <==> NeverReaccepts(FRESH, events)
    ensures NoDuplicates(AcceptsOf(events)) ==> NoDuplicates(t.freed)
  {
    FreshInv();
    assert ServedBy(FRESH.tasks) == {};
    RunSees(FRESH, events, t, []);
    assert [] + AcceptsOf(events) == AcceptsOf(events);
  }

  /** Nothing but the events themselves keeps a stream from being served and released twice. */
  lemma StreamMayBeServedTwice()
    ensures var events := [Accept(4), End(0), Join(0), Accept(4), End(1)];
            NoPanic(events) && exists t :: Run(FRESH, events, t) && t.freed == [4, 4]
  {
    var events := [Accept(4), End(0), Join(0), Accept(4), End(1)];
    var s1 := Step(FRESH, Accept(4));
    var s2 := Step(s1, End(0));
    var s3 := Step(s2, Join(0));
    var s4 := Step(s3, Accept(4));
    var t := Step(s4, End(1));
    assert Run(t, [], t);
    assert Run(s4, [End(1)], t) by { assert [End(1)][1..] == []; }
    var e3 := [Accept(4), End(1)];
    assert e3[1..] == [End(1)] && Run(s3, e3, t);
    var e2 := [Join(0), Accept(4), End(1)];
    assert e2[1..] == e3 && Run(s2, e2, t);
    var e1 := [End(0), Join(0), Accept(4), End(1)];
    assert e1[1..] == e2 && Run(s1, e1, t);
    assert events[1..] == e1 && Run(FRESH, events, t);
  }

  /** After a panic a stream stays in the set that no task serves. */
  lemma PanicLeaksStream()
    ensures exists t :: Run(FRESH, [Accept(4), Panic(0)], t) && 4 in t.active && ServedBy(t.tasks) == {}
  {
    var events := [Accept(4), Panic(0)];
    var s := Step(FRESH, Accept(4));
    var t := Step(s, Panic(0));
    assert Run(t, [], t);
    assert events[1..] == [Panic(0)] && [Panic(0)][1..] == [];
    assert Run(s, [Panic(0)], t) && Run(FRESH, events, t);
  }
}
