/**
  The RPC client against the connector's server loop, over two FIFO channels, under every
  interleaving of their steps. The loop stops at a message whose parameters do not decode; from then
  on the client finds the end of the stream, and what it writes may fail.
 */
module RpcLockstep {
  import opened Bytes
  import opened Configuration
  import opened RpcClient
  import opened RpcServer

  /** One thing the client is asked to do. `decodes` tells whether the caller's decoder accepts the payload. */
  datatype Task = BootstrapTask | CallTask(request: Request, decodes: bool)

  type Reported = Result<Content, RpcError>

  const END := Stream(true)

  /** The question of a task, if it gets as far as asking. */
  predicate Asks(c: Client, t: Task) {
    if t.BootstrapTask? then !c.bootstrapped else c.bootstrapped && t.request.params.Some?
  }

  function Ask(t: Task, q: nat): Message
    requires t.CallTask? ==> t.request.params.Some?
  {
    match t
    case BootstrapTask => Bootstrap(q)
    case CallTask(r, _) => Call(q, r.target, r.interfaceId, r.methodId, r.params.value)
  }

  /** A call whose parameters the addressed method cannot read: the server stops at it. */
  predicate Breaks(t: Task) {
    t.CallTask? && t.request.params.Some? && !Readable(Ask(t, 0))
  }

  /** What the client makes of a message that arrives for a task. */
  function Judge(t: Task, m: Message, q: nat): Result<Verdict<Content>, RpcError> {
    match t
    case BootstrapTask =>
      (match DecodeBootstrap(m, q)
       case Failure(e) => Failure(e)
       case Success(Value(_)) => Success(Value(Capability))
       case Success(Refused(e)) => Success(Refused(e)))
    case CallTask(_, decodes) => DecodeCall(m, q, content => if decodes then Some(content) else None)
  }

  function Report(v: Result<Verdict<Content>, RpcError>): Reported {
    match v
    case Failure(e) => Failure(e)
    case Success(Value(content)) => Success(content)
    case Success(Refused(e)) => Failure(e)
  }

  /** The client after a task that was not asked, and its local result. */
  function Local(c: Client, t: Task): (Client, Reported) {
    match t
    case BootstrapTask => (c, Failure(BootstrapTwice))
    case CallTask(_, _) =>
      if !c.bootstrapped then (c, Failure(CallBeforeBootstrap))
      else (c.(next := Succ(c.next)), Failure(Undecodable))
  }

  /** The client with one more id used up. */
  function Asked(c: Client): Client {
    c.(next := Succ(c.next))
  }

  function Learn(c: Client, t: Task, v: Result<Verdict<Content>, RpcError>): Client {
    if t.BootstrapTask? && v.Success? && v.value.Value? then c.(bootstrapped := true) else c
  }

  // ---------------------------------------------------------------------------
  // The reference: every task is a direct function call on the server's handler, until a call that
  // the server cannot read; every question from that one on finds the end of the stream.

  datatype Direct = Direct(results: seq<Reported>, client: Client, handler: Applied)

  /** The server's answer to a question. */
  function AnswerTo(json: Json, h: Applied, ask: Message): (m: Message)
    requires IsQuestion(ask) && Readable(ask)
    ensures m.Return? && m.answer == ask.question
  {
    Respond(json, h, ask).message
  }

  function RunDirectly(json: Json, tasks: seq<Task>, c: Client, h: Applied, stopped: bool): Direct
    decreases tasks
  {
    if tasks == [] then Direct([], c, h)
    else
      var t := tasks[0];
      if !Asks(c, t) then
        var rest := RunDirectly(json, tasks[1..], Local(c, t).0, h, stopped);
        rest.(results := [Local(c, t).1] + rest.results)
      else if stopped || Breaks(t) then
        var rest := RunDirectly(json, tasks[1..], Asked(c), h, true);
        rest.(results := [Failure(END)] + rest.results)
      else
        var ask := Ask(t, c.next);
        var v := Judge(t, AnswerTo(json, h, ask), c.next);
        var rest := RunDirectly(json, tasks[1..], Learn(Asked(c), t, v), After(json, h, ask), false);
        rest.(results := [Report(v)] + rest.results)
  }

  // ---------------------------------------------------------------------------
  // The system.

  datatype Pc = Idle | Waiting(task: Task, question: nat) | Finishing(finish: Message, result: Reported) | Closed

  datatype System = System(todo: seq<Task>, pc: Pc, client: Client, toServer: seq<Message>,
                           toClient: seq<Message>, handler: Applied, stopped: bool, results: seq<Reported>)

  function Start(tasks: seq<Task>, h: Applied): System {
    System(tasks, Idle, FRESH, [], [], h, false, [])
  }

  /** A waiting client goes on when a message is there, or the end of the stream. */
  predicate ClientCanMove(s: System) {
    match s.pc
    case Idle => true
    case Waiting(_, _) => s.toClient != [] || s.stopped
    case Finishing(_, _) => true
    case Closed => false
  }

  /** One step of the client; `ok` tells whether what it writes goes through. */
  function ClientMove(s: System, ok: bool): System
    requires ClientCanMove(s)
  {
    match s.pc
    case Idle =>
      if s.todo == [] then
        s.(pc := Closed, toServer := s.toServer + if s.client.bootstrapped && ok then [Release(0, 1)] else [])
      else if !Asks(s.client, s.todo[0]) then
        var (c, r) := Local(s.client, s.todo[0]);
        s.(todo := s.todo[1..], client := c, results := s.results + [r])
      else if ok then
        s.(todo := s.todo[1..], pc := Waiting(s.todo[0], s.client.next), client := Asked(s.client),
           toServer := s.toServer + [Ask(s.todo[0], s.client.next)])
      else
        s.(todo := s.todo[1..], client := Asked(s.client), results := s.results + [Failure(BROKEN)])
    case Waiting(task, q) =>
      if s.toClient == [] then s.(pc := Idle, results := s.results + [Failure(END)])
      else
        var v := Judge(task, s.toClient[0], q);
        var s' := s.(client := Learn(s.client, task, v), toClient := s.toClient[1..]);
        if v.Failure? then s'.(pc := Idle, results := s.results + [Report(v)])
        else s'.(pc := Finishing(Finish(q, v.value.Refused?), Report(v)))
    case Finishing(finish, r) =>
      if ok then s.(pc := Idle, toServer := s.toServer + [finish], results := s.results + [r])
      else s.(pc := Idle, results := s.results + [Failure(BROKEN)])
  }

  predicate ServerCanMove(s: System) {
    s.toServer != [] && !s.stopped
  }

  function ServerMove(json: Json, s: System): System
    requires ServerCanMove(s)
  {
    var m := s.toServer[0];
    var s' := s.(toServer := s.toServer[1..]);
    match Respond(json, s.handler, m)
    case Reply(r) => s'.(toClient := s.toClient + [r], handler := After(json, s.handler, m))
    case Silent => s'
    case Stop(_) => s'.(stopped := true)
  }

  /** A write fails only when the server has stopped. */
  datatype Turn = ClientTurn(ok: bool) | ServerTurn

  predicate CanMove(s: System, turn: Turn) {
    match turn
    case ClientTurn(ok) => ClientCanMove(s) && (ok || s.stopped)
    case ServerTurn => ServerCanMove(s)
  }

  function Move(json: Json, s: System, turn: Turn): System
    requires CanMove(s, turn)
  {
    match turn
    case ClientTurn(ok) => ClientMove(s, ok)
    case ServerTurn => ServerMove(json, s)
  }

  /** A schedule names the side that moves, step by step. */
  ghost predicate Run(json: Json, s: System, schedule: seq<Turn>, t: System)
    decreases schedule
  {
    if schedule == [] then s == t
    else CanMove(s, schedule[0]) && Run(json, Move(json, s, schedule[0]), schedule[1..], t)
  }

  predicate Final(s: System) {
    s.pc.Closed? && (s.toServer == [] || s.stopped)
  }

  // ---------------------------------------------------------------------------
  // The invariant: one question in flight at most, behind finishes only, or its own answer on the way back.

  predicate Quiet(ms: seq<Message>) {
    forall i :: 0 <= i < |ms| ==> ms[i].Finish? || ms[i].Release?
  }

  ghost predicate Inv(s: System) {
    && (s.stopped ==> s.toClient == [] && !s.pc.Finishing?)
    && match s.pc
       case Waiting(task, q) => s.stopped || WaitingInv(s, task, q)
       case Finishing(finish, _) => s.toClient == [] && Quiet(s.toServer) && finish.Finish?
       case Idle => s.toClient == [] && (s.stopped || Quiet(s.toServer))
       case Closed => s.toClient == [] && (s.stopped || Quiet(s.toServer)) && s.todo == []
  }

  ghost predicate WaitingInv(s: System, task: Task, q: nat) {
    && (task.CallTask? ==> task.request.params.Some?)
    && if s.toClient == [] then
         s.toServer != [] && s.toServer[|s.toServer| - 1] == Ask(task, q) && Quiet(s.toServer[..|s.toServer| - 1])
       else
         |s.toClient| == 1 && s.toClient[0].Return? && s.toClient[0].answer == q && s.toServer == []
  }

  /** How a broken stream shows, on writing or on reading, is a matter of timing. */
  function Blur(r: Reported): Reported {
    if r == Failure(BROKEN) then Failure(END) else r
  }

  function BlurAll(rs: seq<Reported>): (blurred: seq<Reported>)
    ensures |blurred| == |rs| && forall i :: 0 <= i < |rs| ==> blurred[i] == Blur(rs[i])
  {
    seq(|rs|, i requires 0 <= i < |rs| => Blur(rs[i]))
  }

  lemma BlurSnoc(rs: seq<Reported>, r: Reported, more: seq<Reported>)
    ensures BlurAll(rs + [r]) + more == BlurAll(rs) + [Blur(r)] + more
    ensures BlurAll(rs) + ([Blur(r)] + more) == BlurAll(rs) + [Blur(r)] + more
  {
  }

  /** The results of what is left to do, and the handler that it leaves behind. */
  ghost function Ahead(json: Json, s: System): (seq<Reported>, Applied)
    requires Inv(s)
  {
    match s.pc
    case Waiting(task, q) =>
      if s.stopped || (s.toClient == [] && Breaks(task)) then
        var d := RunDirectly(json, s.todo, s.client, s.handler, true);
        ([Failure(END)] + d.results, d.handler)
      else
        var asked := s.toClient == [];
        var m := if asked then AnswerTo(json, s.handler, Ask(task, q)) else s.toClient[0];
        var h := if asked then After(json, s.handler, Ask(task, q)) else s.handler;
        var v := Judge(task, m, q);
        var d := RunDirectly(json, s.todo, Learn(s.client, task, v), h, false);
        ([Blur(Report(v))] + d.results, d.handler)
    case Finishing(_, r) =>
      var d := RunDirectly(json, s.todo, s.client, s.handler, s.stopped);
      ([Blur(r)] + d.results, d.handler)
    case _ =>
      var d := RunDirectly(json, s.todo, s.client, s.handler, s.stopped);
      (d.results, d.handler)
  }

  /** The results and the handler that the system is bound for, read off its current state. */
  ghost function Bound(json: Json, s: System): (seq<Reported>, Applied)
    requires Inv(s)
  {
    (BlurAll(s.results) + Ahead(json, s).0, Ahead(json, s).1)
  }

  function Weight(pc: Pc): nat {
    match pc
    case Idle => 4
    case Waiting(_, _) => 7
    case Finishing(_, _) => 8
    case Closed => 0
  }

  /** Every move makes this smaller. */
  function Remaining(s: System): nat {
    10 * |s.todo| + Weight(s.pc) + 3 * |s.toServer| + 2 * |s.toClient|
  }

  /** A direct answer is never the failure of the stream. */
  lemma AnswersAreWhole(json: Json, h: Applied, t: Task, q: nat)
    requires (t.CallTask? ==> t.request.params.Some?) && !Breaks(t)
    ensures Readable(Ask(t, q))
    ensures var r := Report(Judge(t, AnswerTo(json, h, Ask(t, q)), q));
            Blur(r) == r && !(r.Failure? && r.error.Stream?)
  {
  }

  /** A step that reports `r` when `r` is what lies ahead leaves the bound as it was. */
  lemma ReportKeepsBound(json: Json, s: System, t: System, r: Reported)
    requires Inv(s) && Inv(t) && t.results == s.results + [r]
    requires Ahead(json, s) == ([Blur(r)] + Ahead(json, t).0, Ahead(json, t).1)
    ensures Bound(json, t) == Bound(json, s)
  {
    BlurSnoc(s.results, r, Ahead(json, t).0);
  }

  lemma IdleMoveKeeps(json: Json, s: System, ok: bool)
    requires Inv(s) && s.pc.Idle? && (ok || s.stopped)
    ensures Inv(ClientMove(s, ok)) && Bound(json, ClientMove(s, ok)) == Bound(json, s)
    ensures Remaining(ClientMove(s, ok)) < Remaining(s)
  {
    var t := ClientMove(s, ok);
    if s.todo != [] {
      var task, q := s.todo[0], s.client.next;
      if !Asks(s.client, task) {
        ReportKeepsBound(json, s, t, Local(s.client, task).1);
      } else if !ok {
        ReportKeepsBound(json, s, t, Failure(BROKEN));
      } else {
        assert t.toServer[..|s.toServer|] == s.toServer;
        if !Breaks(task) {
          AnswersAreWhole(json, s.handler, task, q);
        }
      }
    }
  }

  lemma WaitingMoveKeeps(json: Json, s: System, ok: bool)
    requires Inv(s) && s.pc.Waiting? && ClientCanMove(s)
    ensures Inv(ClientMove(s, ok)) && Bound(json, ClientMove(s, ok)) == Bound(json, s)
    ensures Remaining(ClientMove(s, ok)) < Remaining(s)
  {
    var t := ClientMove(s, ok);
    if s.toClient == [] {
      ReportKeepsBound(json, s, t, Failure(END));
    } else if t.pc.Idle? {
      ReportKeepsBound(json, s, t, Report(Judge(s.pc.task, s.toClient[0], s.pc.question)));
    }
  }

  lemma ClientMoveKeeps(json: Json, s: System, ok: bool)
    requires Inv(s) && ClientCanMove(s) && (ok || s.stopped)
    ensures Inv(ClientMove(s, ok)) && Bound(json, ClientMove(s, ok)) == Bound(json, s)
    ensures Remaining(ClientMove(s, ok)) < Remaining(s)
  {
    match s.pc
    case Idle => IdleMoveKeeps(json, s, ok);
    case Waiting(_, _) => WaitingMoveKeeps(json, s, ok);
    case Finishing(_, r) => ReportKeepsBound(json, s, ClientMove(s, ok), r);
  }

  lemma ServerMoveKeeps(json: Json, s: System)
    requires Inv(s) && ServerCanMove(s)
    ensures Inv(ServerMove(json, s)) && Bound(json, ServerMove(json, s)) == Bound(json, s)
    ensures Remaining(ServerMove(json, s)) < Remaining(s)
  {
    var t := ServerMove(json, s);
    if s.pc.Waiting? && |s.toServer| > 1 {
      assert s.toServer[..|s.toServer| - 1][0] == s.toServer[0];
      assert t.toServer[..|t.toServer| - 1] == s.toServer[..|s.toServer| - 1][1..];
    }
  }

  /** No deadlock: a system that has not finished can always move. */
  lemma NeverStuck(s: System)
    requires Inv(s) && !Final(s)
    ensures ClientCanMove(s) || ServerCanMove(s)
  {
  }

  lemma {:induction false} RunKeeps(json: Json, s: System, schedule: seq<Turn>, t: System)
    requires Inv(s) && Run(json, s, schedule, t)
    ensures Inv(t) && Bound(json, t) == Bound(json, s)
    ensures |schedule| + Remaining(t) <= Remaining(s)
    decreases schedule
  {
    if schedule != [] {
      match schedule[0] {
        case ClientTurn(ok) => ClientMoveKeeps(json, s, ok);
        case ServerTurn => ServerMoveKeeps(json, s);
      }
      RunKeeps(json, Move(json, s, schedule[0]), schedule[1..], t);
    }
  }

  /**
    Whatever the tasks and the schedule: the system makes at most 10 moves per task and 4 more, it is
    never stuck before it has finished, and when it has finished every task has the result, and the
    handler the state, of running the tasks as direct calls.
   */
  lemma EveryScheduleAgrees(json: Json, tasks: seq<Task>, h: Applied, schedule: seq<Turn>, t: System)
    requires Run(json, Start(tasks, h), schedule, t)
    ensures |schedule| <= 10 * |tasks| + 4
    ensures !Final(t) ==> ClientCanMove(t) || ServerCanMove(t)
    ensures Final(t) ==>
              var d := RunDirectly(json, tasks, FRESH, h, false);
              BlurAll(t.results) == d.results && t.handler == d.handler && t.toClient == []
    ensures BlurAll(t.results) <= RunDirectly(json, tasks, FRESH, h, false).results
  {
    var s := Start(tasks, h);
    assert Inv(s);
    RunKeeps(json, s, schedule, t);
    StartIsBound(json, tasks, h);
    ResultsAreBound(json, t);
    if !Final(t) {
      NeverStuck(t);
    }
  }

  lemma StartIsBound(json: Json, tasks: seq<Task>, h: Applied)
    ensures var d := RunDirectly(json, tasks, FRESH, h, false);
            Inv(Start(tasks, h)) && Bound(json, Start(tasks, h)) == (d.results, d.handler)
  {
    var d := RunDirectly(json, tasks, FRESH, h, false);
    assert BlurAll([]) + d.results == d.results;
  }

  lemma ResultsAreBound(json: Json, t: System)
    requires Inv(t)
    ensures BlurAll(t.results) <= Bound(json, t).0
    ensures Final(t) ==> Bound(json, t) == (BlurAll(t.results), t.handler)
  {
    if Final(t) {
      assert BlurAll(t.results) + [] == BlurAll(t.results);
    }
  }

  // ---------------------------------------------------------------------------
  // What direct calls yield.

  predicate Crossed(r: Reported) {
    r.Failure? && (r.error.AnswerMismatch? || r.error.ExpectedReturn?)
  }

  lemma {:induction false} DirectNeverCrossed(json: Json, tasks: seq<Task>, c: Client, h: Applied, stopped: bool)
    ensures var rs := RunDirectly(json, tasks, c, h, stopped).results;
            |rs| == |tasks| && forall i :: 0 <= i < |rs| ==> !Crossed(rs[i])
    decreases tasks
  {
    if tasks != [] {
      var t := tasks[0];
      if !Asks(c, t) {
        DirectNeverCrossed(json, tasks[1..], Local(c, t).0, h, stopped);
      } else if stopped || Breaks(t) {
        DirectNeverCrossed(json, tasks[1..], Asked(c), h, true);
      } else {
        var ask := Ask(t, c.next);
        var v := Judge(t, AnswerTo(json, h, ask), c.next);
        DirectNeverCrossed(json, tasks[1..], Learn(Asked(c), t, v), After(json, h, ask), false);
      }
    }
  }

  /** No run ever reports a wrong answer id or a message that is not a return. */
  lemma NeverCrossed(json: Json, tasks: seq<Task>, h: Applied, schedule: seq<Turn>, t: System)
    requires Run(json, Start(tasks, h), schedule, t)
    ensures forall i :: 0 <= i < |t.results| ==> !Crossed(t.results[i])
  {
    EveryScheduleAgrees(json, tasks, h, schedule, t);
    DirectNeverCrossed(json, tasks, FRESH, h, false);
    forall i | 0 <= i < |t.results|
      ensures !Crossed(t.results[i])
    {
      assert !Crossed(BlurAll(t.results)[i]);
    }
  }

  /** What the addressed method yields for a call, when `h` is the handler's state. */
  function ReplyTo(json: Json, h: Applied, t: Task): Reported
    requires t.CallTask? && t.request.params.Some? && !Breaks(t)
  {
    var r := t.request;
    match Classify(r.interfaceId, r.methodId)
    case Unknown => Failure(RemoteCall(UNIMPLEMENTED))
    case UpdateConfiguration => Decoded(t, ConfigurationResult(Answer(json, h, r.params.value.push)))
    case RegisterUdpSession => Decoded(t, SessionResult(NO_UDP, []))
    case UnregisterUdpSession => Decoded(t, EmptyResult)
  }

  function Decoded(t: Task, content: Content): Reported
    requires t.CallTask?
  {
    if t.decodes then Success(content) else Failure(Undecodable)
  }

  /** The configuration push that a call makes, if any. */
  function PushesIn(t: Task): seq<Push> {
    if t.CallTask? && t.request.params.Some? then PushOf(Ask(t, 0)) else []
  }

  /** The configuration pushes among the calls, in order. */
  function PushesOf(tasks: seq<Task>): seq<Push> {
    if tasks == [] then [] else PushesIn(tasks[0]) + PushesOf(tasks[1..])
  }

  /** The server has come to a call it cannot read. */
  predicate Broken(tasks: seq<Task>) {
    exists i :: 0 <= i < |tasks| && Breaks(tasks[i])
  }

  /** The result of a task behind the bootstrap, when `before` are the tasks between. */
  function ResultOf(json: Json, h: Applied, before: seq<Task>, t: Task): Reported {
    if t.BootstrapTask? then Failure(BootstrapTwice)
    else if t.request.params.None? then Failure(Undecodable)
    else if Broken(before + [t]) then Failure(END)
    else
      assert !Breaks((before + [t])[|before|]);
      ReplyTo(json, ApplyAll(json, h, PushesOf(before)), t)
  }

  /** One direct call on a bootstrapped client. */
  lemma DirectCall(json: Json, t: Task, c: Client, h: Applied)
    requires c.bootstrapped && t.CallTask? && t.request.params.Some? && !Breaks(t)
    ensures Report(Judge(t, AnswerTo(json, h, Ask(t, c.next)), c.next)) == ReplyTo(json, h, t)
    ensures After(json, h, Ask(t, c.next)) == ApplyAll(json, h, PushesIn(t))
  {
    var ps := PushesIn(t);
    if ps != [] {
      ApplyAllFromFront(json, h, ps[0], []);
      assert [ps[0]] + [] == ps;
    }
  }

  /** Direct calls behind a stop: whatever is asked finds the end of the stream. */
  lemma {:induction false} StoppedResults(json: Json, tasks: seq<Task>, c: Client, h: Applied, k: nat)
    requires c.bootstrapped && k < |tasks|
    ensures var rs := RunDirectly(json, tasks, c, h, true).results;
            |rs| == |tasks| && rs[k] == if tasks[k].BootstrapTask? then Failure(BootstrapTwice)
                                        else if tasks[k].request.params.None? then Failure(Undecodable)
                                        else Failure(END)
    decreases tasks
  {
    DirectNeverCrossed(json, tasks, c, h, true);
    if k > 0 {
      StoppedResults(json, tasks[1..], if Asks(c, tasks[0]) then Asked(c) else Local(c, tasks[0]).0, h, k - 1);
    }
  }

  /** Direct calls: each one is answered in the handler state left by the pushes before it. */
  lemma {:induction false} DirectAnswers(json: Json, tasks: seq<Task>, c: Client, h: Applied, k: nat)
    requires c.bootstrapped && k < |tasks|
    ensures |RunDirectly(json, tasks, c, h, false).results| == |tasks|
    ensures RunDirectly(json, tasks, c, h, false).results[k] == ResultOf(json, h, tasks[..k], tasks[k])
    decreases tasks
  {
    DirectNeverCrossed(json, tasks, c, h, false);
    if k == 0 {
      FirstResult(json, tasks, c, h, RunDirectly(json, tasks, c, h, false));
    } else {
      var rest := tasks[1..];
      var c', h', stopped := DirectNext(json, tasks, c, h);
      if stopped {
        StoppedResults(json, rest, c', h', k - 1);
      } else {
        DirectAnswers(json, rest, c', h', k - 1);
      }
      assert tasks[..k] == [tasks[0]] + rest[..k - 1];
      LaterResult(json, tasks[0], rest[..k - 1], tasks[k], h);
    }
  }

  /** The client, the handler and the server behind the first of several direct calls. */
  lemma DirectNext(json: Json, tasks: seq<Task>, c: Client, h: Applied)
    returns (c': Client, h': Applied, stopped: bool)
    requires c.bootstrapped && tasks != []
    ensures c'.bootstrapped && (stopped <==> Breaks(tasks[0]))
    ensures !stopped ==> h' == ApplyAll(json, h, PushesIn(tasks[0]))
    ensures RunDirectly(json, tasks, c, h, false).results[1..] == RunDirectly(json, tasks[1..], c', h', stopped).results
  {
    var t := tasks[0];
    if !Asks(c, t) {
      c', h', stopped := Local(c, t).0, h, false;
    } else if Breaks(t) {
      c', h', stopped := Asked(c), h, true;
    } else {
      DirectCall(json, t, c, h);
      c', h', stopped := Asked(c), After(json, h, Ask(t, c.next)), false;
    }
  }

  lemma FirstResult(json: Json, tasks: seq<Task>, c: Client, h: Applied, d: Direct)
    requires c.bootstrapped && tasks != [] && d == RunDirectly(json, tasks, c, h, false)
    ensures d.results != [] && d.results[0] == ResultOf(json, h, tasks[..0], tasks[0])
  {
    var t := tasks[0];
    assert tasks[..0] == [] && [] + [t] == [t];
    BrokenFirst(t, []);
    if Asks(c, t) && !Breaks(t) {
      DirectCall(json, t, c, h);
    }
  }

  /** What the first task does to the result of a later one: it may break the stream, or push. */
  lemma LaterResult(json: Json, first: Task, before: seq<Task>, t: Task, h: Applied)
    ensures ResultOf(json, h, [first] + before, t) ==
            if Breaks(first) && t.CallTask? && t.request.params.Some? then Failure(END)
            else ResultOf(json, ApplyAll(json, h, PushesIn(first)), before, t)
  {
    assert [first] + before + [t] == [first] + (before + [t]);
    BrokenFirst(first, before + [t]);
    PushesInFront(json, first, before, h);
  }

  lemma BrokenFirst(first: Task, rest: seq<Task>)
    ensures Broken([first] + rest) <==> Breaks(first) || Broken(rest)
  {
    var all := [first] + rest;
    assert all[0] == first;
    assert forall i {:trigger rest[i]} :: 0 <= i < |rest| ==> rest[i] == all[i + 1];
  }

  lemma PushesInFront(json: Json, first: Task, before: seq<Task>, h: Applied)
    ensures ApplyAll(json, h, PushesOf([first] + before))
         == ApplyAll(json, ApplyAll(json, h, PushesIn(first)), PushesOf(before))
  {
    var ps, qs := PushesIn(first), PushesOf(before);
    assert ([first] + before)[1..] == before;
    if ps == [] {
      assert ps + qs == qs;
    } else {
      ApplyAllFromFront(json, h, ps[0], qs);
      ApplyAllFromFront(json, h, ps[0], []);
      assert [ps[0]] + [] == ps;
    }
  }

  /** Calls before the bootstrap are refused on the spot. */
  lemma {:induction false} DirectBeforeBootstrap(json: Json, early: seq<Task>, rest: seq<Task>, h: Applied)
    requires forall i :: 0 <= i < |early| ==> early[i].CallTask?
    ensures var d := RunDirectly(json, early + rest, FRESH, h, false);
            var e := RunDirectly(json, rest, FRESH, h, false);
            && |d.results| == |early| + |e.results| && d.results[|early|..] == e.results
            && forall i :: 0 <= i < |early| ==> d.results[i] == Failure(CallBeforeBootstrap)
    decreases early
  {
    if early == [] {
      assert early + rest == rest;
    } else {
      assert (early + rest)[1..] == early[1..] + rest && (early + rest)[0] == early[0];
      DirectBeforeBootstrap(json, early[1..], rest, h);
    }
  }

  lemma DirectBootstrap(json: Json, tasks: seq<Task>, h: Applied)
    requires tasks != [] && tasks[0].BootstrapTask?
    ensures RunDirectly(json, tasks, FRESH, h, false).results
         == [Success(Capability)] + RunDirectly(json, tasks[1..], Client(1, true), h, false).results
  {
  }

  /** The place of the first bootstrap, or the end of the list. */
  function FirstBootstrap(tasks: seq<Task>): (k: nat)
    ensures k <= |tasks| && (k < |tasks| ==> tasks[k].BootstrapTask?)
    ensures forall i :: 0 <= i < k ==> tasks[i].CallTask?
  {
    if tasks == [] || tasks[0].BootstrapTask? then 0 else 1 + FirstBootstrap(tasks[1..])
  }

  /** What becomes of the `k`-th task: see `CallGetsItsOwnAnswer`. */
  function DueResult(json: Json, h: Applied, tasks: seq<Task>, k: nat): Reported
    requires k < |tasks|
  {
    var first := FirstBootstrap(tasks);
    if k < first then Failure(CallBeforeBootstrap)
    else if k == first then Success(Capability)
    else ResultOf(json, h, tasks[first + 1..k], tasks[k])
  }

  /**
    Every task gets the result of its own question, whatever the tasks and the schedule. Calls before
    the first bootstrap are refused; the bootstrap succeeds; and each task behind it yields what its
    method computes from its own parameters and the pushes made before it, or, from the first call on
    that the server cannot read, the failure of the stream.
   */
  lemma CallGetsItsOwnAnswer(json: Json, tasks: seq<Task>, h: Applied, schedule: seq<Turn>, t: System, k: nat)
    requires Run(json, Start(tasks, h), schedule, t)
    requires k < |t.results|
    ensures k < |tasks| && Blur(t.results[k]) == DueResult(json, h, tasks, k)
    ensures var first := FirstBootstrap(tasks);
            k <= first || !Broken(tasks[first + 1..k + 1]) ==> t.results[k] == DueResult(json, h, tasks, k)
  {
    EveryScheduleAgrees(json, tasks, h, schedule, t);
    DirectResult(json, tasks, h, k);
    assert Blur(t.results[k]) == BlurAll(t.results)[k];
  }

  /** The same for direct calls. */
  lemma DirectResult(json: Json, tasks: seq<Task>, h: Applied, k: nat)
    requires k < |RunDirectly(json, tasks, FRESH, h, false).results|
    ensures k < |tasks| && RunDirectly(json, tasks, FRESH, h, false).results[k] == DueResult(json, h, tasks, k)
    ensures var first := FirstBootstrap(tasks);
            DueResult(json, h, tasks, k) == Failure(END) ==> k > first && Broken(tasks[first + 1..k + 1])
  {
    var first := FirstBootstrap(tasks);
    DirectSplit(json, tasks, h);
    if k > first {
      LateResult(json, tasks, first + 1, h, k, ResultOf(json, h, tasks[first + 1..k], tasks[k]));
    }
  }

  /** The direct results, split at the first bootstrap. */
  lemma DirectSplit(json: Json, tasks: seq<Task>, h: Applied)
    ensures var rs, first := RunDirectly(json, tasks, FRESH, h, false).results, FirstBootstrap(tasks);
            && |rs| == |tasks| && (forall i :: 0 <= i < first ==> rs[i] == Failure(CallBeforeBootstrap))
            && (first < |tasks| ==>
                && rs[first] == Success(Capability)
                && rs[first + 1..] == RunDirectly(json, tasks[first + 1..], Client(1, true), h, false).results)
  {
    var first := FirstBootstrap(tasks);
    DirectNeverCrossed(json, tasks, FRESH, h, false);
    if first < |tasks| {
      assert tasks == tasks[..first] + ([BootstrapTask] + tasks[first + 1..]);
      DirectSession(json, tasks[..first], tasks[first + 1..], h);
    } else {
      assert tasks == tasks + [];
      DirectBeforeBootstrap(json, tasks, [], h);
    }
  }

  /** The result of a task behind the bootstrap. */
  lemma LateResult(json: Json, tasks: seq<Task>, start: nat, h: Applied, k: nat, r: Reported)
    requires start <= k < |tasks| && r == ResultOf(json, h, tasks[start..k], tasks[k])
    ensures var rs := RunDirectly(json, tasks[start..], Client(1, true), h, false).results;
            k - start < |rs| && rs[k - start] == r
    ensures r == Failure(END) ==> Broken(tasks[start..k + 1])
  {
    var late, i := tasks[start..], k - start;
    DirectAnswers(json, late, Client(1, true), h, i);
    assert late[..i] == tasks[start..k] && late[i] == tasks[k];
    ReplyIsWhole(json, h, tasks[start..k], tasks[k]);
    assert tasks[start..k] + [tasks[k]] == tasks[start..k + 1];
  }

  lemma DirectSession(json: Json, early: seq<Task>, late: seq<Task>, h: Applied)
    requires forall i :: 0 <= i < |early| ==> early[i].CallTask?
    ensures var rs := RunDirectly(json, early + ([BootstrapTask] + late), FRESH, h, false).results;
            && |rs| == |early| + 1 + |late| && (forall i :: 0 <= i < |early| ==> rs[i] == Failure(CallBeforeBootstrap))
            && rs[|early|] == Success(Capability)
            && rs[|early| + 1..] == RunDirectly(json, late, Client(1, true), h, false).results
  {
    var session := [BootstrapTask] + late;
    var rs := RunDirectly(json, early + session, FRESH, h, false).results;
    assert session[1..] == late;
    DirectBeforeBootstrap(json, early, session, h);
    DirectBootstrap(json, session, h);
    DirectNeverCrossed(json, late, Client(1, true), h, false);
    assert rs[|early| + 1..] == rs[|early|..][1..];
    assert rs[|early|] == rs[|early|..][0];
  }

  /** Only from the first call on that the server cannot read does a task see the stream fail. */
  lemma ReplyIsWhole(json: Json, h: Applied, before: seq<Task>, t: Task)
    ensures ResultOf(json, h, before, t) == Failure(END) ==> Broken(before + [t])
  {
  }

  /** A session with a call that the server cannot read, and one that it could. */
  const UNREADABLE := CallTask(Request(0, CONFIGURATION_MANAGER_INTERFACE_ID, 0, Some(OtherParams([]))), true)
  const UNKNOWN := CallTask(Request(0, 0, 0, Some(OtherParams([]))), true)

  /** Both calls end with the failure of the stream, in every finished run. */
  lemma UnreadableCallBreaksSession(json: Json, h: Applied, schedule: seq<Turn>, t: System)
    requires Run(json, Start([BootstrapTask, UNREADABLE, UNKNOWN], h), schedule, t) && Final(t)
    ensures BlurAll(t.results) == [Success(Capability), Failure(END), Failure(END)] && t.handler == h
  {
    var tasks := [BootstrapTask, UNREADABLE, UNKNOWN];
    EveryScheduleAgrees(json, tasks, h, schedule, t);
    assert tasks[1..] == [UNREADABLE, UNKNOWN] && tasks[1..][1..] == [UNKNOWN] && tasks[1..][1..][1..] == [];
    DirectBootstrap(json, tasks, h);
    var c := Client(1, true);
    assert RunDirectly(json, [UNKNOWN], Asked(c), h, true) == Direct([Failure(END)], Asked(Asked(c)), h);
    assert RunDirectly(json, tasks[1..], c, h, false).results == [Failure(END), Failure(END)];
  }

  /** One such run, from the first question to the close. */
  lemma BrokenSessionRuns(json: Json, h: Applied)
    ensures exists schedule, t :: Run(json, Start([BootstrapTask, UNREADABLE, UNKNOWN], h), schedule, t) && Final(t)
  {
    var s := Start([BootstrapTask, UNREADABLE, UNKNOWN], h);
    assert Inv(s);
    var schedule, t := Finishes(json, s);
  }

  /** From every state with the invariant some schedule leads to the end. */
  lemma {:induction false} Finishes(json: Json, s: System) returns (schedule: seq<Turn>, t: System)
    requires Inv(s)
    ensures Run(json, s, schedule, t) && Final(t)
    decreases Remaining(s)
  {
    if Final(s) {
      schedule, t := [], s;
    } else {
      NeverStuck(s);
      var turn := if ClientCanMove(s) then ClientTurn(true) else ServerTurn;
      if turn.ClientTurn? {
        ClientMoveKeeps(json, s, true);
      } else {
        ServerMoveKeeps(json, s);
      }
      var rest;
      rest, t := Finishes(json, Move(json, s, turn));
      schedule := [turn] + rest;
      assert schedule[1..] == rest;
    }
  }

  // ---------------------------------------------------------------------------
  // The client of the system is the client of the wire.

  /** The client's own operation for a task. */
  function Operation(c: Client, t: Task, w: World): Outcome<Content> {
    match t
    case BootstrapTask =>
      var o := DoBootstrap(c, w);
      Outcome(o.client, o.events, if o.result.Success? then Success(Capability) else Failure(o.result.error))
    case CallTask(r, decodes) => DoCall(c, r, content => if decodes then Some(content) else None, w)
  }

  /** A task that is not asked is that operation, which then touches no stream. */
  lemma LocalIsOperation(s: System, ok: bool, w: World)
    requires s.pc.Idle? && s.todo != [] && !Asks(s.client, s.todo[0])
    ensures var o := Operation(s.client, s.todo[0], w);
            && o.events == []
            && ClientMove(s, ok) == s.(todo := s.todo[1..], client := o.client, results := s.results + [o.result])
  {
  }

  /** Nothing but what the world says reaches the waiting client. */
  predicate Delivers(s: System, w: World) {
    match w.reply
    case Success(m) => s.toClient != [] && s.toClient[0] == m
    case Failure(e) => e == END && s.toClient == [] && s.stopped
  }

  /**
    The steps of an asked task are that operation, event by event: the question written, the message or
    the end of the stream read by the client waiting in `s'`, and the finish written.
   */
  lemma AskedIsOperation(s: System, s': System, w: World)
    requires s.pc.Idle? && s.todo != [] && Asks(s.client, s.todo[0])
    requires s'.pc == Waiting(s.todo[0], s.client.next) && s'.client == Asked(s.client) && Delivers(s', w)
    ensures var (t, q) := (s.todo[0], s.client.next);
            var o := Operation(s.client, t, w);
            var asked, heard := ClientMove(s, w.sendOk), ClientMove(s', true);
            if !w.sendOk then
              && o.events == [Sent(Ask(t, q), false)] && asked.toServer == s.toServer
              && asked.client == o.client && asked.results == s.results + [o.result]
            else
              && asked.toServer == s.toServer + [Ask(t, q)]
              && asked.pc == s'.pc && asked.client == s'.client
              && if !heard.pc.Finishing? then
                   && o.events == [Sent(Ask(t, q), true), Heard(w)]
                   && heard.client == o.client && heard.results == s'.results + [o.result]
                 else
                   var done := ClientMove(heard, w.finishOk);
                   && o.events == [Sent(Ask(t, q), true), Heard(w), Sent(heard.pc.finish, w.finishOk)]
                   && done.toServer == s'.toServer + (if w.finishOk then [heard.pc.finish] else [])
                   && done.client == o.client && done.results == s'.results + [o.result]
  {
  }

  function Heard(w: World): Event {
    if w.reply.Success? then Received(w.reply.value) else ReceiveFailed(w.reply.error)
  }
}
