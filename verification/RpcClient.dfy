/**
  The minimal Cap'n Proto RPC client of rpc/src/rpc.rs at message level: the `Message`, `Return`,
  `Finish` and `Release` types of rpc.capnp, over one full-duplex stream.
 */
module RpcClient {
  import opened Bytes
  import opened Configuration

  // ---------------------------------------------------------------------------
  // Messages. Payloads are opaque values; `Unreadable` stands for anything that does not decode.

  datatype Content =
    | Capability
    | ConfigurationResult(response: UpdateResponse)
    | SessionResult(error: string, spans: seq<Byte>)
    | EmptyResult
    | OtherContent(bytes: seq<Byte>)

  datatype Params =
    | UpdateConfigurationParams(push: Push)
    | RegisterSessionParams(session: seq<Byte>, ip: seq<Byte>, port: nat)
    | OtherParams(bytes: seq<Byte>)
    | UnreadableParams

  datatype CapDescriptor = SenderHosted(id: nat) | SenderPromise(id: nat) | OtherDescriptor | UnreadableDescriptor

  datatype ReturnBody =
    | Results(content: Content, caps: seq<CapDescriptor>)
    | Exception(reason: string)
    | OtherReturn
    | UnreadableReturn

  datatype Message =
    | Bootstrap(question: nat)
    | Call(question: nat, target: nat, interfaceId: nat, methodId: nat, params: Params)
    | Return(answer: nat, body: ReturnBody)
    | Finish(question: nat, releaseResultCaps: bool)
    | Release(id: nat, count: nat)
    | Abort(reason: string, kind: nat)
    | OtherMessage
    | Unreadable

  datatype RpcError =
    | BootstrapTwice
    | CallBeforeBootstrap
    | NoCapability
    | UnexpectedReturn
    | AnswerMismatch(answer: nat, question: nat)
    | ExpectedReturn
    | RemoteCall(reason: string)
    | Aborted(reason: string, kind: nat)
    | Undecodable
    | Stream(eof: bool)

  predicate IsQuestion(m: Message) {
    m.Bootstrap? || m.Call?
  }

  // ---------------------------------------------------------------------------
  // Decoding of answers.

  function ExpectReturn(m: Message, question: nat): Result<ReturnBody, RpcError> {
    match m
    case Return(answer, body) =>
      if answer != question then Failure(AnswerMismatch(answer, question)) else Success(body)
    case Abort(reason, kind) => Failure(Aborted(reason, kind))
    case Unreadable => Failure(Undecodable)
    case _ => Failure(ExpectedReturn)
  }

  /** How an answered question ended; everything but a value asks for the result capabilities back. */
  datatype Verdict<T> = Value(value: T) | Refused(error: RpcError)

  function DecodeBootstrap(m: Message, question: nat): Result<Verdict<nat>, RpcError> {
    match ExpectReturn(m, question)
    case Failure(e) => Failure(e)
    case Success(body) =>
      match body
      case Results(_, caps) =>
        if caps == [] then Success(Refused(NoCapability))
        else if caps[0].UnreadableDescriptor? then Failure(Undecodable)
        else if caps[0].OtherDescriptor? then Success(Refused(UnexpectedReturn))
        else Success(Value(0))
      case Exception(reason) => Success(Refused(RemoteCall(reason)))
      case OtherReturn => Success(Refused(UnexpectedReturn))
      case UnreadableReturn => Failure(Undecodable)
  }

  function DecodeCall<T>(m: Message, question: nat, decode: Content -> Option<T>): Result<Verdict<T>, RpcError> {
    match ExpectReturn(m, question)
    case Failure(e) => Failure(e)
    case Success(body) =>
      match body
      case Results(content, _) =>
        if decode(content).None? then Failure(Undecodable) else Success(Value(decode(content).value))
      case Exception(reason) => Success(Refused(RemoteCall(reason)))
      case OtherReturn => Success(Refused(UnexpectedReturn))
      case UnreadableReturn => Failure(Undecodable)
  }

  // ---------------------------------------------------------------------------
  // The client, as a function of how the stream and the peer behave during one exchange.

  /** What happens on the stream, as the client sees it. `ok` tells whether the write succeeded. */
  datatype Event = Sent(message: Message, ok: bool) | Received(reply: Message) | ReceiveFailed(error: RpcError)

  /** The behaviour of stream and peer during one exchange. */
  datatype World = World(sendOk: bool, reply: Result<Message, RpcError>, finishOk: bool)

  datatype Client = Client(next: nat, bootstrapped: bool)

  const FRESH := Client(0, false)
  const BROKEN := Stream(false)

  datatype Outcome<T> = Outcome(client: Client, events: seq<Event>, result: Result<T, RpcError>)

  /** The next id of a 32-bit counter that wraps around. */
  function Succ(n: nat): nat {
    if n + 1 >= U32_LIMIT then 0 else n + 1
  }

  /** Send the question, await one message, decode it, send the finish. */
  function Exchange<T>(ask: Message, question: nat, verdict: Message -> Result<Verdict<T>, RpcError>, w: World)
    : (seq<Event>, Result<T, RpcError>)
  {
    if !w.sendOk then ([Sent(ask, false)], Failure(BROKEN))
    else if w.reply.Failure? then ([Sent(ask, true), ReceiveFailed(w.reply.error)], Failure(w.reply.error))
    else
      var got := [Sent(ask, true), Received(w.reply.value)];
      match verdict(w.reply.value)
      case Failure(e) => (got, Failure(e))
      case Success(v) =>
        (got + [Sent(Finish(question, v.Refused?), w.finishOk)],
         if !w.finishOk then Failure(BROKEN)
         else if v.Value? then Success(v.value)
         else Failure(v.error))
  }

  function DoBootstrap(c: Client, w: World): Outcome<nat> {
    if c.bootstrapped then Outcome(c, [], Failure(BootstrapTwice))
    else
      var (events, result) := Exchange(Bootstrap(c.next), c.next, m => DecodeBootstrap(m, c.next), w);
      var accepted := w.sendOk && w.reply.Success? && DecodeBootstrap(w.reply.value, c.next) == Success(Value(0));
      Outcome(Client(Succ(c.next), accepted), events, result)
  }

  /** `params` is `None` when filling in the parameters fails: nothing is sent, the id is used up. */
  datatype Request = Request(target: nat, interfaceId: nat, methodId: nat, params: Option<Params>)

  function DoCall<T>(c: Client, r: Request, decode: Content -> Option<T>, w: World): Outcome<T> {
    if !c.bootstrapped then Outcome(c, [], Failure(CallBeforeBootstrap))
    else if r.params.None? then Outcome(c.(next := Succ(c.next)), [], Failure(Undecodable))
    else
      var ask := Call(c.next, r.target, r.interfaceId, r.methodId, r.params.value);
      var (events, result) := Exchange(ask, c.next, m => DecodeCall(m, c.next, decode), w);
      Outcome(c.(next := Succ(c.next)), events, result)
  }

  function DoClose(c: Client, ok: bool): (seq<Event>, Option<RpcError>) {
    if c.bootstrapped then ([Sent(Release(0, 1), ok)], if ok then None else Some(BROKEN)) else ([], None)
  }

  // ---------------------------------------------------------------------------
  // What an operation reports and writes, read off the peer's message.

  /** How a client on a healthy stream takes a message that is no return to its question. */
  function StrayReport(m: Message, question: nat): RpcError
    requires !m.Return? || m.answer != question
  {
    match m
    case Return(answer, _) => AnswerMismatch(answer, question)
    case Abort(reason, kind) => Aborted(reason, kind)
    case Unreadable => Undecodable
    case _ => ExpectedReturn
  }

  /** A stray message ends the operation with its own report, without a finish. */
  lemma StraysAreReported<T>(c: Client, r: Request, decode: Content -> Option<T>, m: Message, finishOk: bool)
    requires !m.Return? || m.answer != c.next
    ensures !c.bootstrapped ==>
              DoBootstrap(c, World(true, Success(m), finishOk))
              == Outcome(Client(Succ(c.next), false), [Sent(Bootstrap(c.next), true), Received(m)],
                         Failure(StrayReport(m, c.next)))
    ensures c.bootstrapped && r.params.Some? ==>
              DoCall(c, r, decode, World(true, Success(m), finishOk))
              == Outcome(Client(Succ(c.next), true),
                         [Sent(Call(c.next, r.target, r.interfaceId, r.methodId, r.params.value), true), Received(m)],
                         Failure(StrayReport(m, c.next)))
  {
  }

  /** The return to a bootstrap: accepted with a capability of the sender, refused or unreadable otherwise. */
  lemma BootstrapReports(c: Client, body: ReturnBody)
    requires !c.bootstrapped
    ensures var m := Return(c.next, body);
            var o := DoBootstrap(c, World(true, Success(m), true));
            var refused := [Sent(Bootstrap(c.next), true), Received(m), Sent(Finish(c.next, true), true)];
            match body
            case Results(_, caps) =>
              if caps == [] then
                o.result == Failure(NoCapability) && o.events == refused && !o.client.bootstrapped
              else
                match caps[0] {
                  case UnreadableDescriptor =>
                    o.result == Failure(Undecodable) && o.events == refused[..2] && !o.client.bootstrapped
                  case OtherDescriptor =>
                    o.result == Failure(UnexpectedReturn) && o.events == refused && !o.client.bootstrapped
                  case _ =>
                    && o.result == Success(0) && o.client.bootstrapped
                    && o.events == refused[..2] + [Sent(Finish(c.next, false), true)]
                }
            case Exception(reason) =>
              o.result == Failure(RemoteCall(reason)) && o.events == refused && !o.client.bootstrapped
            case OtherReturn =>
              o.result == Failure(UnexpectedReturn) && o.events == refused && !o.client.bootstrapped
            case UnreadableReturn =>
              o.result == Failure(Undecodable) && o.events == refused[..2] && !o.client.bootstrapped
  {
  }

  /** The return to a call: its decoded value, its exception, or the failure to read it. */
  lemma CallReports<T>(c: Client, r: Request, decode: Content -> Option<T>, body: ReturnBody)
    requires c.bootstrapped && r.params.Some?
    ensures var m := Return(c.next, body);
            var o := DoCall(c, r, decode, World(true, Success(m), true));
            var got := [Sent(Call(c.next, r.target, r.interfaceId, r.methodId, r.params.value), true), Received(m)];
            match body
            case Results(content, _) =>
              if decode(content).Some? then
                o.result == Success(decode(content).value) && o.events == got + [Sent(Finish(c.next, false), true)]
              else o.result == Failure(Undecodable) && o.events == got
            case Exception(reason) =>
              o.result == Failure(RemoteCall(reason)) && o.events == got + [Sent(Finish(c.next, true), true)]
            case OtherReturn =>
              o.result == Failure(UnexpectedReturn) && o.events == got + [Sent(Finish(c.next, true), true)]
            case UnreadableReturn => o.result == Failure(Undecodable) && o.events == got
  {
  }

  /** What goes wrong before or after the answer: the stream, or the order of the operations. */
  lemma FailuresAreReported<T>(c: Client, r: Request, decode: Content -> Option<T>, w: World)
    ensures c.bootstrapped ==> DoBootstrap(c, w) == Outcome(c, [], Failure(BootstrapTwice))
    ensures !c.bootstrapped ==> DoCall(c, r, decode, w) == Outcome(c, [], Failure(CallBeforeBootstrap))
    ensures c.bootstrapped && r.params.None? ==>
              DoCall(c, r, decode, w) == Outcome(Client(Succ(c.next), true), [], Failure(Undecodable))
    ensures !c.bootstrapped && !w.sendOk ==> DoBootstrap(c, w).result == Failure(Stream(false))
    ensures c.bootstrapped && r.params.Some? && !w.sendOk ==> DoCall(c, r, decode, w).result == Failure(Stream(false))
    ensures !c.bootstrapped && w.sendOk && w.reply.Failure? ==> DoBootstrap(c, w).result == Failure(w.reply.error)
    ensures c.bootstrapped && r.params.Some? && w.sendOk && w.reply.Failure? ==>
              DoCall(c, r, decode, w).result == Failure(w.reply.error)
    ensures (!c.bootstrapped && w.sendOk && !w.finishOk
             && w.reply.Success? && DecodeBootstrap(w.reply.value, c.next).Success?) ==>
              DoBootstrap(c, w).result == Failure(Stream(false))
    ensures (c.bootstrapped && r.params.Some? && w.sendOk && !w.finishOk
             && w.reply.Success? && DecodeCall(w.reply.value, c.next, decode).Success?) ==>
              DoCall(c, r, decode, w).result == Failure(Stream(false))
  {
  }

  /** The counter is one of 32 bits. */
  lemma SuccWraps(n: nat)
    requires n < 4294967296
    ensures Succ(n) == (n + 1) % 4294967296
  {
  }

  /** A close releases import 0 once when a bootstrap was accepted. */
  lemma CloseReleases(c: Client, ok: bool)
    ensures DoClose(c, ok) == if !c.bootstrapped then ([], None)
                              else ([Sent(Release(0, 1), ok)], if ok then None else Some(Stream(false)))
  {
  }

  // ---------------------------------------------------------------------------
  // The client as it is: a mutable object on a stream with an arbitrary peer.

  class Wire {
    ghost var events: seq<Event>

    constructor ()
      ensures events == []
    {
      events := [];
    }

    method Send(m: Message) returns (ok: bool)
      modifies this
      ensures events == old(events) + [Sent(m, ok)]
    {
      ok :| true;
      events := events + [Sent(m, ok)];
    }

    method Receive() returns (r: Result<Message, RpcError>)
      modifies this
      ensures events == old(events) + [if r.Success? then Received(r.value) else ReceiveFailed(r.error)]
    {
      r :| true;
      events := events + [if r.Success? then Received(r.value) else ReceiveFailed(r.error)];
    }
  }

  class Connection {
    const wire: Wire
    var nextQuestion: nat
    var hasBootstrap: bool

    constructor (wire: Wire)
      ensures this.wire == wire && State() == FRESH
    {
      this.wire := wire;
      nextQuestion := 0;
      hasBootstrap := false;
    }

    ghost function State(): Client
      reads this
    {
      Client(nextQuestion, hasBootstrap)
    }

    method SendBootstrap() returns (r: Result<nat, RpcError>, ghost w: World)
      modifies this, wire
      ensures var o := DoBootstrap(old(State()), w);
              State() == o.client && wire.events == old(wire.events) + o.events && r == o.result
    {
      w := World(true, Success(Unreadable), true);
      if hasBootstrap {
        return Failure(BootstrapTwice), w;
      }
      var question := nextQuestion;
      nextQuestion := Succ(nextQuestion);
      var ok := wire.Send(Bootstrap(question));
      if !ok {
        return Failure(BROKEN), w.(sendOk := false);
      }
      var reply := wire.Receive();
      w := w.(reply := reply);
      if reply.Failure? {
        return Failure(reply.error), w;
      }
      var outcome := DecodeBootstrap(reply.value, question);
      if outcome.Failure? {
        return Failure(outcome.error), w;
      }
      match outcome.value
      case Value(_) =>
        hasBootstrap := true;
        ok := wire.Send(Finish(question, false));
        r := if ok then Success(0) else Failure(BROKEN);
        w := w.(finishOk := ok);
      case Refused(e) =>
        ok := wire.Send(Finish(question, true));
        r := if ok then Failure(e) else Failure(BROKEN);
        w := w.(finishOk := ok);
    }

    method SendCall<T>(request: Request, decode: Content -> Option<T>)
      returns (r: Result<T, RpcError>, ghost w: World)
      modifies this, wire
      ensures var o := DoCall(old(State()), request, decode, w);
              State() == o.client && wire.events == old(wire.events) + o.events && r == o.result
    {
      w := World(true, Success(Unreadable), true);
      if !hasBootstrap {
        return Failure(CallBeforeBootstrap), w;
      }
      var question := nextQuestion;
      nextQuestion := Succ(nextQuestion);
      if request.params.None? {
        return Failure(Undecodable), w;
      }
      var ok := wire.Send(Call(question, request.target, request.interfaceId, request.methodId, request.params.value));
      if !ok {
        return Failure(BROKEN), w.(sendOk := false);
      }
      var reply := wire.Receive();
      w := w.(reply := reply);
      if reply.Failure? {
        return Failure(reply.error), w;
      }
      var outcome := DecodeCall(reply.value, question, decode);
      if outcome.Failure? {
        return Failure(outcome.error), w;
      }
      match outcome.value
      case Value(value) =>
        ok := wire.Send(Finish(question, false));
        r := if ok then Success(value) else Failure(BROKEN);
        w := w.(finishOk := ok);
      case Refused(e) =>
        ok := wire.Send(Finish(question, true));
        r := if ok then Failure(e) else Failure(BROKEN);
        w := w.(finishOk := ok);
    }

    method Close() returns (r: Option<RpcError>, ghost ok: bool)
      modifies this, wire
      ensures var o := DoClose(old(State()), ok);
              wire.events == old(wire.events) + o.0 && r == o.1
      ensures State() == old(State()).(bootstrapped := old(State()).bootstrapped && !ok)
    {
      ok := true;
      r := None;
      if hasBootstrap {
        var sent := wire.Send(Release(0, 1));
        if !sent {
          return Some(BROKEN), false;
        }
        hasBootstrap := false;
      }
    }
  }
}
