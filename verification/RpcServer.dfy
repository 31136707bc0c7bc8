/** The connector's server loop: rpc/src/cloudflared.rs, at message level. */
module RpcServer {
  import opened Bytes
  import opened Configuration
  import opened RpcClient

  const CLOUDFLARED_SERVER_INTERFACE_ID := 0xf548_cef9_dea2_a4a1
  const SESSION_MANAGER_INTERFACE_ID := 0x8394_45a5_9fb0_1686
  const CONFIGURATION_MANAGER_INTERFACE_ID := 0xb48e_dfbd_aa25_db04

  const NO_UDP := "UDP sessions are not supported"
  const UNIMPLEMENTED := "unimplemented"

  datatype Method = UpdateConfiguration | RegisterUdpSession | UnregisterUdpSession | Unknown

  function Classify(interfaceId: nat, methodId: nat): Method {
    if (interfaceId == CONFIGURATION_MANAGER_INTERFACE_ID && methodId == 0)
       || (interfaceId == CLOUDFLARED_SERVER_INTERFACE_ID && methodId == 2) then UpdateConfiguration
    else if (interfaceId == SESSION_MANAGER_INTERFACE_ID && methodId == 0)
            || (interfaceId == CLOUDFLARED_SERVER_INTERFACE_ID && methodId == 0) then RegisterUdpSession
    else if (interfaceId == SESSION_MANAGER_INTERFACE_ID && methodId == 1)
            || (interfaceId == CLOUDFLARED_SERVER_INTERFACE_ID && methodId == 1) then UnregisterUdpSession
    else Unknown
  }

  /** What the loop does with one message. */
  datatype Reaction = Reply(message: Message) | Silent | Stop(error: RpcError)

  /** The parameters decode for the method that the call addresses. */
  predicate Readable(m: Message) {
    match m
    case Call(_, _, interfaceId, methodId, params) =>
      (match Classify(interfaceId, methodId)
       case UpdateConfiguration => params.UpdateConfigurationParams?
       case RegisterUdpSession => params.RegisterSessionParams?
       case _ => true)
    case Unreadable => false
    case _ => true
  }

  function Respond(json: Json, s: Applied, m: Message): Reaction {
    if !Readable(m) then Stop(Undecodable)
    else
      match m
      case Bootstrap(question) => Reply(Return(question, Results(Capability, [SenderHosted(0)])))
      case Call(question, _, interfaceId, methodId, params) =>
        (match Classify(interfaceId, methodId)
         case UpdateConfiguration =>
           Reply(Return(question, Results(ConfigurationResult(Answer(json, s, params.push)), [])))
         case RegisterUdpSession => Reply(Return(question, Results(SessionResult(NO_UDP, []), [])))
         case UnregisterUdpSession => Reply(Return(question, Results(EmptyResult, [])))
         case Unknown => Reply(Return(question, Exception(UNIMPLEMENTED))))
      case _ => Silent
  }

  /** The configuration push that a message carries, if any. */
  function PushOf(m: Message): seq<Push> {
    if m.Call? && Readable(m) && Classify(m.interfaceId, m.methodId) == UpdateConfiguration then [m.params.push]
    else []
  }

  function After(json: Json, s: Applied, m: Message): Applied {
    if PushOf(m) == [] then s else Apply(json, s, PushOf(m)[0])
  }

  /** The whole run of the loop on a stream of messages that then ends. */
  datatype Served = Served(replies: seq<Message>, handler: Applied, stopped: Option<RpcError>)

  function Serve(json: Json, s: Applied, ms: seq<Message>): Served
    decreases ms
  {
    if ms == [] then Served([], s, None)
    else
      match Respond(json, s, ms[0])
      case Stop(e) => Served([], s, Some(e))
      case Silent => Serve(json, s, ms[1..])
      case Reply(r) =>
        var rest := Serve(json, After(json, s, ms[0]), ms[1..]);
        rest.(replies := [r] + rest.replies)
  }

  /** A stream is served message by message: a stop is final, otherwise the rest goes on from there. */
  lemma {:induction false} ServeSplit(json: Json, s: Applied, a: seq<Message>, b: seq<Message>)
    ensures var first := Serve(json, s, a);
            Serve(json, s, a + b) ==
            if first.stopped.Some? then first
            else
              var rest := Serve(json, first.handler, b);
              rest.(replies := first.replies + rest.replies)
    decreases a
  {
    if a == [] {
      assert a + b == b;
      assert [] + Serve(json, s, b).replies == Serve(json, s, b).replies;
    } else {
      assert (a + b)[0] == a[0] && (a + b)[1..] == a[1..] + b;
      ServeSplit(json, After(json, s, a[0]), a[1..], b);
      if Respond(json, s, a[0]).Reply? {
        var r := Respond(json, s, a[0]).message;
        var first := Serve(json, After(json, s, a[0]), a[1..]);
        Regroup(r, first.replies, Serve(json, first.handler, b).replies);
      }
    }
  }

  lemma Regroup(r: Message, x: seq<Message>, y: seq<Message>)
    ensures [r] + (x + y) == ([r] + x) + y
  {
  }

  /** One more message. */
  lemma ServeOne(json: Json, s: Applied, ms: seq<Message>, i: nat, served: Served)
    requires i < |ms| && served == Serve(json, s, ms[..i]) && served.stopped == None
    ensures Serve(json, s, ms[..i + 1]) ==
            match Respond(json, served.handler, ms[i])
            case Stop(e) => served.(stopped := Some(e))
            case Silent => served
            case Reply(r) => Served(served.replies + [r], After(json, served.handler, ms[i]), None)
    ensures Respond(json, served.handler, ms[i]).Stop? ==>
              Serve(json, s, ms) == served.(stopped := Some(Respond(json, served.handler, ms[i]).error))
  {
    var one := [ms[i]];
    assert ms[..i + 1] == ms[..i] + one && one[1..] == [];
    ServeSplit(json, s, ms[..i], one);
    assert Serve(json, served.handler, one[1..]).replies == [];
    assert served.replies + [] == served.replies;
    if Respond(json, served.handler, ms[i]).Stop? {
      assert ms == ms[..i + 1] + ms[i + 1..];
      ServeSplit(json, s, ms[..i + 1], ms[i + 1..]);
    }
  }

  /** The handler is in state `s`; without a callback nothing has been announced since `start`. */
  ghost predicate Shows(handler: EdgeConfigurationHandler, start: Applied, s: Applied)
    reads handler
  {
    && handler.applied == s.version
    && handler.announced == if handler.hasCallback then s.announced else start.announced
  }

  /** What the loop makes of one message, apart from writing the reply. */
  method ReactTo(handler: EdgeConfigurationHandler, ghost start: Applied, ghost s: Applied, m: Message)
    returns (r: Reaction)
    requires Shows(handler, start, s)
    modifies handler
    ensures r == Respond(handler.json, s, m) && Shows(handler, start, After(handler.json, s, m))
  {
    match m
    case Bootstrap(question) =>
      return Reply(Return(question, Results(Capability, [SenderHosted(0)])));
    case Call(question, _, interfaceId, methodId, params) =>
      match Classify(interfaceId, methodId) {
        case UpdateConfiguration =>
          if !params.UpdateConfigurationParams? {
            return Stop(Undecodable);
          }
          var response := handler.UpdateConfiguration(params.push);
          return Reply(Return(question, Results(ConfigurationResult(response), [])));
        case RegisterUdpSession =>
          if !params.RegisterSessionParams? {
            return Stop(Undecodable);
          }
          return Reply(Return(question, Results(SessionResult(NO_UDP, []), [])));
        case UnregisterUdpSession =>
          return Reply(Return(question, Results(EmptyResult, [])));
        case Unknown =>
          return Reply(Return(question, Exception(UNIMPLEMENTED)));
      }
    case Unreadable =>
      return Stop(Undecodable);
    case _ =>
      return Silent;
  }

  /** Where the loop writes its replies. Only a faulty one loses a reply, and then has `failed`. */
  class ReplyStream {
    var written: seq<Message>
    var failed: bool
    const faulty: bool

    constructor (faulty: bool)
      ensures written == [] && !failed && this.faulty == faulty
    {
      written := [];
      failed := false;
      this.faulty := faulty;
    }

    method Write(m: Message) returns (ok: bool)
      modifies this
      ensures failed == (old(failed) || !ok)
      ensures written == if ok then old(written) + [m] else old(written)
      ensures !ok ==> faulty
    {
      ok := true;
      if faulty {
        ok :| true;
      }
      if ok {
        written := written + [m];
      }
      failed := failed || !ok;
    }
  }

  /**
    The loop. `end` is what reading reports after the last message; the end of the stream is a
    normal return. `handled` messages were taken from the stream; the loop ends early at a message
    that it cannot read and when the stream reports that a reply was lost, and only then.
   */
  method ServeCloudflared(handler: EdgeConfigurationHandler, incoming: seq<Message>, end: RpcError, out: ReplyStream)
    returns (r: Option<RpcError>, ghost handled: nat)
    requires out.written == [] && !out.failed
    modifies handler, out
    ensures handled <= |incoming|
    ensures var start := Applied(old(handler.applied), old(handler.announced));
            var served := Serve(handler.json, start, incoming[..handled]);
            && Shows(handler, start, served.handler)
            && if out.failed then
                 && served.replies != [] && out.written == served.replies[..|served.replies| - 1]
                 && r == Some(BROKEN)
               else
                 && served == Serve(handler.json, start, incoming) && out.written == served.replies
                 && r == if served.stopped.Some? then served.stopped
                         else if end == Stream(true) then None else Some(end)
  {
    handled := 0;
    ghost var start := Applied(handler.applied, handler.announced);
    ghost var served := Serve(handler.json, start, incoming[..0]);
    for i := 0 to |incoming|
      invariant handled == i && !out.failed
      invariant served == Serve(handler.json, start, incoming[..i])
      invariant served.stopped == None && served.replies == out.written
      invariant Shows(handler, start, served.handler)
    {
      ServeOne(handler.json, start, incoming, i, served);
      var reaction := ReactTo(handler, start, served.handler, incoming[i]);
      handled := i + 1;
      served := Serve(handler.json, start, incoming[..i + 1]);
      match reaction {
        case Stop(error) =>
          return Some(error), handled;
        case Silent =>
        case Reply(reply) =>
          var ok := out.Write(reply);
          if !ok {
            return Some(BROKEN), handled;
          }
      }
    }
    assert incoming[..|incoming|] == incoming;
    r := if end == Stream(true) then None else Some(end);
  }

  // ---------------------------------------------------------------------------
  // What the loop promises for every stream of readable messages.

  /** The ids of the questions, in order of arrival. */
  function Questions(ms: seq<Message>): seq<nat> {
    if ms == [] then []
    else (if IsQuestion(ms[0]) then [ms[0].question] else []) + Questions(ms[1..])
  }

  /** One return per question, in order, each with the id of its own. */
  predicate Echoes(replies: seq<Message>, questions: seq<nat>) {
    && |replies| == |questions|
    && forall i :: 0 <= i < |replies| ==> replies[i].Return? && replies[i].answer == questions[i]
  }

  /** Exactly one return per bootstrap or call, in order, echoing its id; nothing for anything else. */
  lemma {:induction false} OneReturnPerQuestion(json: Json, s: Applied, ms: seq<Message>)
    requires forall i :: 0 <= i < |ms| ==> Readable(ms[i])
    ensures Serve(json, s, ms).stopped == None && Echoes(Serve(json, s, ms).replies, Questions(ms))
    decreases ms
  {
    if ms != [] {
      var rest := Serve(json, After(json, s, ms[0]), ms[1..]);
      OneReturnPerQuestion(json, After(json, s, ms[0]), ms[1..]);
      ServeFirst(json, s, ms, rest);
      if IsQuestion(ms[0]) {
        EchoesFirst(Respond(json, s, ms[0]).message, ms[0].question, rest.replies, Questions(ms[1..]));
      } else {
        assert [] + Questions(ms[1..]) == Questions(ms[1..]);
      }
    }
  }

  lemma ServeFirst(json: Json, s: Applied, ms: seq<Message>, rest: Served)
    requires ms != [] && Readable(ms[0]) && rest == Serve(json, After(json, s, ms[0]), ms[1..])
    ensures Serve(json, s, ms) ==
            if IsQuestion(ms[0]) then rest.(replies := [Respond(json, s, ms[0]).message] + rest.replies) else rest
    ensures IsQuestion(ms[0]) ==>
              Respond(json, s, ms[0]).Reply? && Respond(json, s, ms[0]).message.Return?
              && Respond(json, s, ms[0]).message.answer == ms[0].question
  {
  }

  lemma EchoesFirst(r: Message, q: nat, replies: seq<Message>, questions: seq<nat>)
    requires r.Return? && r.answer == q && Echoes(replies, questions)
    ensures Echoes([r] + replies, [q] + questions)
  {
  }

  function Pushes(ms: seq<Message>): seq<Push> {
    if ms == [] then [] else PushOf(ms[0]) + Pushes(ms[1..])
  }

  /** The configuration results among the replies. */
  function ConfigurationReplies(ms: seq<Message>): seq<UpdateResponse> {
    if ms == [] then []
    else (if ms[0].Return? && ms[0].body.Results? && ms[0].body.content.ConfigurationResult?
          then [ms[0].body.content.response] else [])
         + ConfigurationReplies(ms[1..])
  }

  /** The answers to a list of pushes, handled one after the other. */
  function Answers(json: Json, s: Applied, ps: seq<Push>): (rs: seq<UpdateResponse>)
    ensures |rs| == |ps|
    decreases ps
  {
    if ps == [] then [] else [Answer(json, s, ps[0])] + Answers(json, Apply(json, s, ps[0]), ps[1..])
  }

  lemma {:induction false} ApplyAllFromFront(json: Json, s: Applied, p: Push, ps: seq<Push>)
    ensures ApplyAll(json, s, [p] + ps) == ApplyAll(json, Apply(json, s, p), ps)
    decreases |ps|
  {
    var all := [p] + ps;
    if ps == [] {
      assert all[..0] == [];
    } else {
      assert all[..|all| - 1] == [p] + ps[..|ps| - 1];
      ApplyAllFromFront(json, s, p, ps[..|ps| - 1]);
    }
  }

  /** Answers and final state depend on the pushes alone, whatever other messages surround them. */
  lemma {:induction false} ServesPushes(json: Json, s: Applied, ms: seq<Message>)
    requires forall i :: 0 <= i < |ms| ==> Readable(ms[i])
    ensures Serve(json, s, ms).handler == ApplyAll(json, s, Pushes(ms))
    ensures ConfigurationReplies(Serve(json, s, ms).replies) == Answers(json, s, Pushes(ms))
    decreases ms
  {
    if ms != [] {
      var rest := Serve(json, After(json, s, ms[0]), ms[1..]);
      ServesPushes(json, After(json, s, ms[0]), ms[1..]);
      ServeStep(json, s, ms);
      if PushOf(ms[0]) == [] {
        assert Pushes(ms) == Pushes(ms[1..]);
      } else {
        ApplyAllFromFront(json, s, PushOf(ms[0])[0], Pushes(ms[1..]));
        assert Pushes(ms)[1..] == Pushes(ms[1..]);
      }
    }
  }

  /** One readable message in front of the others. */
  lemma ServeStep(json: Json, s: Applied, ms: seq<Message>)
    requires ms != [] && Readable(ms[0])
    ensures var rest := Serve(json, After(json, s, ms[0]), ms[1..]);
            var served := Serve(json, s, ms);
            && served.handler == rest.handler
            && ConfigurationReplies(served.replies)
               == (if PushOf(ms[0]) == [] then [] else [Answer(json, s, PushOf(ms[0])[0])])
                  + ConfigurationReplies(rest.replies)
  {
    var rest := Serve(json, After(json, s, ms[0]), ms[1..]);
    if IsQuestion(ms[0]) {
      var r := Respond(json, s, ms[0]).message;
      assert ([r] + rest.replies)[1..] == rest.replies;
    }
  }

  /** Each answer is the one for the history of pushes before it. */
  lemma {:induction false} AnswersFollowHistory(json: Json, s: Applied, ps: seq<Push>, k: nat)
    requires k < |ps|
    ensures Answers(json, s, ps)[k] == Answer(json, ApplyAll(json, s, ps[..k]), ps[k])
    decreases k
  {
    if k > 0 {
      AnswersFollowHistory(json, Apply(json, s, ps[0]), ps[1..], k - 1);
      assert ps[..k] == [ps[0]] + ps[1..][..k - 1];
      ApplyAllFromFront(json, s, ps[0], ps[1..][..k - 1]);
    }
  }

  /** Both ways of addressing a method are the same call. */
  lemma AddressingSchemesAgree(json: Json, s: Applied, q: nat, t: nat, p: Params)
    ensures var update := Call(q, t, CONFIGURATION_MANAGER_INTERFACE_ID, 0, p);
            var update' := Call(q, t, CLOUDFLARED_SERVER_INTERFACE_ID, 2, p);
            Respond(json, s, update) == Respond(json, s, update') && After(json, s, update) == After(json, s, update')
    ensures Respond(json, s, Call(q, t, SESSION_MANAGER_INTERFACE_ID, 0, p))
         == Respond(json, s, Call(q, t, CLOUDFLARED_SERVER_INTERFACE_ID, 0, p))
    ensures Respond(json, s, Call(q, t, SESSION_MANAGER_INTERFACE_ID, 1, p))
         == Respond(json, s, Call(q, t, CLOUDFLARED_SERVER_INTERFACE_ID, 1, p))
  {
  }

  // ---------------------------------------------------------------------------
  // The served interface, method by method, with the identifiers written out.

  /** A push is answered and applied, under either address. */
  lemma PushesAreServed(json: Json, s: Applied, q: nat, target: nat, id: nat, ordinal: nat, push: Push)
    requires (id == 0xb48edfbdaa25db04 && ordinal == 0) || (id == 0xf548cef9dea2a4a1 && ordinal == 2)
    ensures var call := Call(q, target, id, ordinal, UpdateConfigurationParams(push));
            && Respond(json, s, call) == Reply(Return(q, Results(ConfigurationResult(Answer(json, s, push)), [])))
            && After(json, s, call) == Apply(json, s, push)
  {
  }

  /** Registering a UDP session is refused with an error text. */
  lemma SessionsAreRefused(json: Json, s: Applied, q: nat, target: nat, id: nat, ordinal: nat,
                           session: seq<Byte>, ip: seq<Byte>, port: nat)
    requires (id == 0x839445a59fb01686 || id == 0xf548cef9dea2a4a1) && ordinal == 0
    ensures var call := Call(q, target, id, ordinal, RegisterSessionParams(session, ip, port));
            && Respond(json, s, call)
               == Reply(Return(q, Results(SessionResult("UDP sessions are not supported", []), [])))
            && After(json, s, call) == s
  {
  }

  /** Unregistering one is acknowledged, whatever the parameters. */
  lemma UnregistrationsAreAcknowledged(json: Json, s: Applied, q: nat, target: nat, id: nat, ordinal: nat, p: Params)
    requires (id == 0x839445a59fb01686 || id == 0xf548cef9dea2a4a1) && ordinal == 1
    ensures var call := Call(q, target, id, ordinal, p);
            Respond(json, s, call) == Reply(Return(q, Results(EmptyResult, []))) && After(json, s, call) == s
  {
  }

  /** One of the six addresses above. */
  predicate Known(id: nat, ordinal: nat) {
    || (id == 0xb48edfbdaa25db04 && ordinal == 0)
    || (id == 0x839445a59fb01686 && ordinal < 2)
    || (id == 0xf548cef9dea2a4a1 && ordinal < 3)
  }

  /** Every other call gets an exception and leaves the handler alone. */
  lemma OtherCallsAreUnimplemented(json: Json, s: Applied, q: nat, target: nat, id: nat, ordinal: nat, p: Params)
    requires !Known(id, ordinal)
    ensures var call := Call(q, target, id, ordinal, p);
            Respond(json, s, call) == Reply(Return(q, Exception("unimplemented"))) && After(json, s, call) == s
  {
  }

  /** Parameters that do not fit their method stop the loop, and so does a message that does not decode. */
  lemma MisfitsStop(json: Json, s: Applied, q: nat, target: nat, id: nat, ordinal: nat, p: Params)
    requires Known(id, ordinal)
    ensures var call := Call(q, target, id, ordinal, p);
            Respond(json, s, call) == Stop(Undecodable) <==>
            if id == 0xb48edfbdaa25db04 || ordinal == 2 then !p.UpdateConfigurationParams?
            else ordinal == 0 && !p.RegisterSessionParams?
    ensures Respond(json, s, Unreadable) == Stop(Undecodable)
  {
  }

  /** A bootstrap is answered with the connector's own capability; all other messages are passed over. */
  lemma BootstrapsAreAnswered(json: Json, s: Applied, q: nat, m: Message)
    requires !m.Bootstrap? && !m.Call? && !m.Unreadable?
    ensures Respond(json, s, Bootstrap(q)) == Reply(Return(q, Results(Capability, [SenderHosted(0)])))
    ensures After(json, s, Bootstrap(q)) == s && Respond(json, s, m) == Silent && After(json, s, m) == s
  {
  }
}
