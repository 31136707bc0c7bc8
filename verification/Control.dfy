/** The life of a registration: src/edge/control.rs over the client of rpc/src/tunnel.rs. */
module Control {
  import opened Bytes
  import opened RpcClient
  import opened RpcTrace

  const REGISTRATION_SERVER_INTERFACE_ID := 0xf716_95ec_7fe8_5497
  const METHOD_REGISTER_CONNECTION := 0
  const METHOD_UNREGISTER_CONNECTION := 1
  const METHOD_UPDATE_LOCAL_CONFIGURATION := 2
  const DUPLICATE_CONNECTION_CAUSE := "EDUPCONN"

  /** The edge's answer to `registerConnection`, as far as the control flow looks at it. */
  datatype ConnectionResponse = RejectedBy(cause: string) | Details(remotelyManaged: bool)

  /** Decoding of the response payload, taken as an arbitrary function. */
  type ResponseDecoder = Content -> Option<ConnectionResponse>

  datatype ControlError = Rpc(error: RpcError) | BadTunnelIdentifier | DuplicateConnection | Registration(cause: string)

  function RequestFor(methodId: nat, params: Params): Request {
    Request(0, REGISTRATION_SERVER_INTERFACE_ID, methodId, Some(params))
  }

  /** The two calls whose results are not looked at. */
  function Ignore(content: Content): Option<()> {
    Some(())
  }

  /** Everything that is not under the client's control. */
  datatype Edge = Edge(bootstrap: World, register: World, update: World, closeOk: bool,
                       unregister: World, finalCloseOk: bool)

  /** What the connector brings: parameters, and whether its tunnel id has the right form. */
  datatype Tunnel = Tunnel(validIdentifier: bool, register: Params, update: Params, unregister: Params)

  datatype Registered = Registered(events: seq<Event>, client: Client, result: Result<ConnectionResponse, ControlError>)

  function Register(t: Tunnel, decode: ResponseDecoder, e: Edge): Registered {
    var b := DoBootstrap(FRESH, e.bootstrap);
    if b.result.Failure? then Registered(b.events, b.client, Failure(Rpc(b.result.error)))
    else if !t.validIdentifier then Registered(b.events, b.client, Failure(BadTunnelIdentifier))
    else
      var r := DoCall<ConnectionResponse>(b.client, RequestFor(METHOD_REGISTER_CONNECTION, t.register),
                                          decode, e.register);
      match r.result
      case Failure(error) => Registered(b.events + r.events, r.client, Failure(Rpc(error)))
      case Success(response) => Conclude(t, r.client, b.events + r.events, response, e)
  }

  /** What follows the edge's answer. */
  function Conclude(t: Tunnel, c: Client, events: seq<Event>, response: ConnectionResponse, e: Edge): Registered {
    match response
    case RejectedBy(cause) =>
      Registered(events + DoClose(c, e.closeOk).0, c,
                 Failure(if cause == DUPLICATE_CONNECTION_CAUSE then DuplicateConnection else Registration(cause)))
    case Details(managed) =>
      if managed then Registered(events, c, Success(response))
      else
        var u := DoCall(c, RequestFor(METHOD_UPDATE_LOCAL_CONFIGURATION, t.update), Ignore, e.update);
        Registered(events + u.events, u.client, Success(response))
  }

  function Unregister(t: Tunnel, c: Client, e: Edge): seq<Event> {
    var u := DoCall(c, RequestFor(METHOD_UNREGISTER_CONNECTION, t.unregister), Ignore, e.unregister);
    u.events + DoClose(u.client, e.finalCloseOk).0
  }

  /** The whole life: registration, and unregistration when there is something to unregister. */
  function Life(t: Tunnel, decode: ResponseDecoder, e: Edge): seq<Event> {
    var r := Register(t, decode, e);
    if r.result.Success? then r.events + Unregister(t, r.client, e) else r.events
  }

  // ---------------------------------------------------------------------------
  // The operations.

  method RegisterOnStream(wire: Wire, t: Tunnel, decode: ResponseDecoder)
    returns (r: Result<ConnectionResponse, ControlError>, client: Connection, ghost e: Edge)
    modifies wire
    ensures fresh(client) && client.wire == wire
    ensures var spec := Register(t, decode, e);
            && wire.events == old(wire.events) + spec.events
            && r == spec.result
            && (r.Success? ==> client.State() == spec.client)
  {
    ghost var none := World(false, Success(Unreadable), false);
    e := Edge(none, none, none, false, none, false);
    client := new Connection(wire);
    var bootstrapped, w1 := client.SendBootstrap();
    e := e.(bootstrap := w1);
    if bootstrapped.Failure? {
      return Failure(Rpc(bootstrapped.error)), client, e;
    }
    if !t.validIdentifier {
      return Failure(BadTunnelIdentifier), client, e;
    }
    var response, w2 := client.SendCall(RequestFor(METHOD_REGISTER_CONNECTION, t.register), decode);
    e := e.(register := w2);
    if response.Failure? {
      return Failure(Rpc(response.error)), client, e;
    }
    r, e := ConcludeRegistration(client, t, response.value, e);
  }

  /** Acts on the edge's answer. */
  method ConcludeRegistration(client: Connection, t: Tunnel, response: ConnectionResponse, ghost e: Edge)
    returns (r: Result<ConnectionResponse, ControlError>, ghost e': Edge)
    modifies client, client.wire
    ensures e'.bootstrap == e.bootstrap && e'.register == e.register
    ensures var spec := Conclude(t, old(client.State()), [], response, e');
            && client.wire.events == old(client.wire.events) + spec.events && r == spec.result
            && (r.Success? ==> client.State() == spec.client)
  {
    e' := e;
    match response
    case RejectedBy(cause) =>
      var _, ok := client.Close();
      e' := e.(closeOk := ok);
      r := Failure(if cause == DUPLICATE_CONNECTION_CAUSE then DuplicateConnection else Registration(cause));
    case Details(managed) =>
      if !managed {
        var _, w := client.SendCall(RequestFor(METHOD_UPDATE_LOCAL_CONFIGURATION, t.update), Ignore);
        e' := e.(update := w);
      }
      r := Success(response);
  }

  method UnregisterConnection(client: Connection, t: Tunnel) returns (ghost e: Edge)
    modifies client, client.wire
    ensures client.wire.events == old(client.wire.events) + Unregister(t, old(client.State()), e)
  {
    ghost var none := World(false, Success(Unreadable), false);
    e := Edge(none, none, none, false, none, false);
    var _, w := client.SendCall(RequestFor(METHOD_UNREGISTER_CONNECTION, t.unregister), Ignore);
    var _, ok := client.Close();
    e := e.(unregister := w, finalCloseOk := ok);
  }

  // ---------------------------------------------------------------------------
  // Whole lives, for any behaviour of the edge and the stream.

  lemma CloseIsSafe(c: Client, tr: seq<Event>, ok: bool)
    requires Agree(c, tr)
    ensures SafeTrace(tr + DoClose(c, ok).0)
  {
    assert tr + [] == tr;
    if c.bootstrapped {
      Snoc(tr, Sent(Release(0, 1), ok));
    }
  }

  lemma Regroup(a: seq<Event>, b: seq<Event>, c: seq<Event>)
    ensures a + (b + c) == (a + b) + c
  {
  }

  /** The states along a registration agree with what has been written so far. */
  lemma RegisterIsSafe(t: Tunnel, decode: ResponseDecoder, e: Edge)
    ensures var r := Register(t, decode, e);
            && SafeTrace(r.events)
            && (r.result.Success? ==> Agree(r.client, r.events) && r.client.bootstrapped)
  {
    var b := DoBootstrap(FRESH, e.bootstrap);
    BootstrapIsSafe(FRESH, [], e.bootstrap);
    assert [] + b.events == b.events;
    if b.result.Success? && t.validIdentifier {
      var request := RequestFor(METHOD_REGISTER_CONNECTION, t.register);
      var r := DoCall<ConnectionResponse>(b.client, request, decode, e.register);
      CallIsSafe(b.client, b.events, request, decode, e.register);
      if r.result.Success? {
        ConcludeIsSafe(t, r.client, b.events + r.events, r.result.value, e);
      }
    }
  }

  lemma ConcludeIsSafe(t: Tunnel, c: Client, events: seq<Event>, response: ConnectionResponse, e: Edge)
    requires Agree(c, events) && c.bootstrapped
    ensures var r := Conclude(t, c, events, response, e);
            && SafeTrace(r.events)
            && (r.result.Success? ==> Agree(r.client, r.events) && r.client.bootstrapped)
  {
    match response
    case RejectedBy(_) => CloseIsSafe(c, events, e.closeOk);
    case Details(_) =>
      CallIsSafe(c, events, RequestFor(METHOD_UPDATE_LOCAL_CONFIGURATION, t.update), Ignore, e.update);
  }

  /** Every life obeys the RPC protocol; hence no call before an accepted bootstrap, and at most one release, last. */
  lemma LifeIsSafe(t: Tunnel, decode: ResponseDecoder, e: Edge)
    ensures SafeTrace(Life(t, decode, e))
  {
    var r := Register(t, decode, e);
    RegisterIsSafe(t, decode, e);
    if r.result.Success? {
      var request := RequestFor(METHOD_UNREGISTER_CONNECTION, t.unregister);
      var u := DoCall(r.client, request, Ignore, e.unregister);
      CallIsSafe(r.client, r.events, request, Ignore, e.unregister);
      CloseIsSafe(u.client, r.events + u.events, e.finalCloseOk);
      Regroup(r.events, u.events, DoClose(u.client, e.finalCloseOk).0);
    }
  }

  /** A life that is cut short by a timeout, at any point, is safe as well. */
  lemma CutLifeIsSafe(t: Tunnel, decode: ResponseDecoder, e: Edge, k: nat)
    requires k <= |Life(t, decode, e)|
    ensures SafeTrace(Life(t, decode, e)[..k])
  {
    LifeIsSafe(t, decode, e);
    SafePrefix(Life(t, decode, e), k);
  }

  // What the trace says about the calls.

  /** The methods called, in order. */
  function Methods(tr: seq<Event>): seq<nat> {
    if tr == [] then []
    else (if tr[0].Sent? && tr[0].message.Call? then [tr[0].message.methodId] else []) + Methods(tr[1..])
  }

  function Releases(tr: seq<Event>): nat {
    if tr == [] then 0
    else (if tr[0].Sent? && tr[0].message.Release? then 1 else 0) + Releases(tr[1..])
  }

  lemma {:induction false} CountsAppend(a: seq<Event>, b: seq<Event>)
    ensures Methods(a + b) == Methods(a) + Methods(b)
    ensures Releases(a + b) == Releases(a) + Releases(b)
  {
    if a == [] {
      assert a + b == b;
    } else {
      assert (a + b)[1..] == a[1..] + b;
      CountsAppend(a[1..], b);
    }
  }

  /**
    The edge's verdict, read off the trace: the sixth event is the successful finish of the
    registration question, so the fifth is its return.
   */
  function EdgeVerdict(decode: ResponseDecoder, tr: seq<Event>): Option<ConnectionResponse> {
    if && |tr| >= 6
       && tr[3].Sent? && tr[3].message.Call? && tr[3].message.methodId == METHOD_REGISTER_CONNECTION
       && tr[4].Received? && tr[4].reply.Return? && tr[4].reply.body.Results?
       && tr[5].Sent? && tr[5].ok
    then decode(tr[4].reply.body.content)
    else None
  }

  /** Neither a call nor a release. */
  predicate Plain(e: Event) {
    e.Sent? ==> !e.message.Call? && !e.message.Release?
  }

  lemma {:induction false} PlainCounts(tr: seq<Event>)
    requires forall i :: 0 <= i < |tr| ==> Plain(tr[i])
    ensures Methods(tr) == [] && Releases(tr) == 0
  {
    if tr != [] {
      PlainCounts(tr[1..]);
    }
  }

  lemma BootstrapShape(e: Edge)
    ensures var b := DoBootstrap(FRESH, e.bootstrap);
            && Methods(b.events) == [] && Releases(b.events) == 0 && |b.events| <= 3
            && (b.result.Success? ==> |b.events| == 3 && b.client.bootstrapped)
  {
    PlainCounts(DoBootstrap(FRESH, e.bootstrap).events);
  }

  lemma CallShape<T>(c: Client, methodId: nat, params: Params, decode: Content -> Option<T>, w: World)
    requires c.bootstrapped
    ensures var o := DoCall(c, RequestFor(methodId, params), decode, w);
            && o.client.bootstrapped && Methods(o.events) == [methodId] && Releases(o.events) == 0
            && 1 <= |o.events| <= 3
            && o.events[0].Sent? && o.events[0].message.Call? && o.events[0].message.methodId == methodId
            && (o.result.Success? ==>
                && |o.events| == 3 && o.events[1].Received? && o.events[1].reply.Return?
                && o.events[1].reply.body.Results? && o.events[2].Sent? && o.events[2].ok
                && decode(o.events[1].reply.body.content) == Some(o.result.value))
            && (o.result.Failure? && |o.events| == 3 && o.events[2].ok && o.events[1].reply.Return? ==>
                !o.events[1].reply.body.Results?)
  {
    PlainCounts(DoCall(c, RequestFor(methodId, params), decode, w).events[1..]);
  }

  /** Bootstrap and registration: what the first events amount to. */
  lemma RegistrationShape(t: Tunnel, decode: ResponseDecoder, e: Edge)
    requires DoBootstrap(FRESH, e.bootstrap).result.Success? && t.validIdentifier
    ensures var b := DoBootstrap(FRESH, e.bootstrap);
            var r := DoCall<ConnectionResponse>(b.client, RequestFor(METHOD_REGISTER_CONNECTION, t.register),
                                                decode, e.register);
            var tr := b.events + r.events;
            && r.client.bootstrapped && Methods(tr) == [METHOD_REGISTER_CONNECTION] && Releases(tr) == 0
            && (r.result.Success? ==> |tr| == 6)
            && EdgeVerdict(decode, tr) == if r.result.Success? then Some(r.result.value) else None
  {
    var b := DoBootstrap(FRESH, e.bootstrap);
    var r := DoCall<ConnectionResponse>(b.client, RequestFor(METHOD_REGISTER_CONNECTION, t.register),
                                        decode, e.register);
    BootstrapShape(e);
    CallShape(b.client, METHOD_REGISTER_CONNECTION, t.register, decode, e.register);
    CountsAppend(b.events, r.events);
    var tr := b.events + r.events;
    assert forall i {:trigger r.events[i]} :: 0 <= i < |r.events| ==> tr[3 + i] == r.events[i];
  }

  lemma VerdictIsEarly(decode: ResponseDecoder, tr: seq<Event>, more: seq<Event>)
    requires |tr| >= 6
    ensures EdgeVerdict(decode, tr + more) == EdgeVerdict(decode, tr)
  {
  }

  /** One more call on a bootstrapped client. */
  lemma CallExtends(tr: seq<Event>, c: Client, methodId: nat, params: Params, w: World)
    requires c.bootstrapped && Releases(tr) == 0
    ensures var o := DoCall(c, RequestFor(methodId, params), Ignore, w);
            && o.client.bootstrapped && Releases(tr + o.events) == 0
            && Methods(tr + o.events) == Methods(tr) + [methodId]
  {
    CallShape(c, methodId, params, Ignore, w);
    CountsAppend(tr, DoCall(c, RequestFor(methodId, params), Ignore, w).events);
  }

  /** What a life amounts to, given the edge's verdict. */
  ghost predicate FollowsVerdict(verdict: Option<ConnectionResponse>, tr: seq<Event>) {
    match verdict
    case None => (Methods(tr) == [] || Methods(tr) == [METHOD_REGISTER_CONNECTION]) && Releases(tr) == 0
    case Some(RejectedBy(_)) => Methods(tr) == [METHOD_REGISTER_CONNECTION] && EndsWithOneRelease(tr)
    case Some(Details(managed)) =>
      && Methods(tr) == [METHOD_REGISTER_CONNECTION]
                        + (if managed then [] else [METHOD_UPDATE_LOCAL_CONFIGURATION])
                        + [METHOD_UNREGISTER_CONNECTION]
      && EndsWithOneRelease(tr)
  }

  lemma UnregisterShape(t: Tunnel, tr: seq<Event>, c: Client, e: Edge)
    requires c.bootstrapped && Releases(tr) == 0
    ensures Methods(tr + Unregister(t, c, e)) == Methods(tr) + [METHOD_UNREGISTER_CONNECTION]
    ensures EndsWithOneRelease(tr + Unregister(t, c, e))
  {
    var u := DoCall(c, RequestFor(METHOD_UNREGISTER_CONNECTION, t.unregister), Ignore, e.unregister);
    CallExtends(tr, c, METHOD_UNREGISTER_CONNECTION, t.unregister, e.unregister);
    ReleaseEnds(tr + u.events, e.finalCloseOk);
    Regroup(tr, u.events, [Sent(Release(0, 1), e.finalCloseOk)]);
  }

  /**
    registerConnection is called at most once and first; updateLocalConfiguration exactly when the
    edge accepted a tunnel that is not remotely managed; unregisterConnection exactly when the edge
    accepted; and the capability is released exactly once, at the end, whenever the edge gave a verdict.
   */
  lemma LifeFollowsVerdict(t: Tunnel, decode: ResponseDecoder, e: Edge)
    ensures FollowsVerdict(EdgeVerdict(decode, Life(t, decode, e)), Life(t, decode, e))
  {
    var b := DoBootstrap(FRESH, e.bootstrap);
    BootstrapShape(e);
    if b.result.Success? && t.validIdentifier {
      var r := DoCall<ConnectionResponse>(b.client, RequestFor(METHOD_REGISTER_CONNECTION, t.register),
                                          decode, e.register);
      RegistrationShape(t, decode, e);
      var tr := b.events + r.events;
      if r.result.Success? && r.result.value.Details? {
        AcceptedLife(t, decode, e, tr, r.client, r.result.value.remotelyManaged);
      } else if r.result.Success? {
        ReleaseEnds(tr, e.closeOk);
        VerdictIsEarly(decode, tr, [Sent(Release(0, 1), e.closeOk)]);
      }
    }
  }

  lemma AcceptedLife(t: Tunnel, decode: ResponseDecoder, e: Edge, tr: seq<Event>, c: Client, managed: bool)
    requires c.bootstrapped && Releases(tr) == 0 && Methods(tr) == [METHOD_REGISTER_CONNECTION] && |tr| >= 6
    requires EdgeVerdict(decode, tr) == Some(Details(managed))
    ensures var u := DoCall(c, RequestFor(METHOD_UPDATE_LOCAL_CONFIGURATION, t.update), Ignore, e.update);
            var life := if managed then tr + Unregister(t, c, e) else tr + u.events + Unregister(t, u.client, e);
            EdgeVerdict(decode, life) == Some(Details(managed)) && FollowsVerdict(Some(Details(managed)), life)
  {
    if managed {
      UnregisterShape(t, tr, c, e);
      VerdictIsEarly(decode, tr, Unregister(t, c, e));
    } else {
      var u := DoCall(c, RequestFor(METHOD_UPDATE_LOCAL_CONFIGURATION, t.update), Ignore, e.update);
      CallExtends(tr, c, METHOD_UPDATE_LOCAL_CONFIGURATION, t.update, e.update);
      UnregisterShape(t, tr + u.events, u.client, e);
      VerdictIsEarly(decode, tr, u.events);
      VerdictIsEarly(decode, tr + u.events, Unregister(t, u.client, e));
    }
  }

  predicate EndsWithOneRelease(tr: seq<Event>) {
    tr != [] && Last(tr).Sent? && Last(tr).message == Release(0, 1) && Releases(tr) == 1
  }

  lemma ReleaseEnds(tr: seq<Event>, ok: bool)
    requires Releases(tr) == 0
    ensures EndsWithOneRelease(tr + [Sent(Release(0, 1), ok)])
    ensures Methods(tr + [Sent(Release(0, 1), ok)]) == Methods(tr)
  {
    var last := [Sent(Release(0, 1), ok)];
    assert last[1..] == [];
    assert Methods(last) == [] && Releases(last) == 1;
    CountsAppend(tr, last);
  }

  // ---------------------------------------------------------------------------
  // What a registration reports and asks for, with texts and identifiers written out.

  /** The failure of a registration without a verdict: that of the bootstrap, the identifier or the call. */
  function EarlyFailure(t: Tunnel, decode: ResponseDecoder, e: Edge): ControlError {
    var b := DoBootstrap(FRESH, e.bootstrap);
    if b.result.Failure? then Rpc(b.result.error)
    else if !t.validIdentifier then BadTunnelIdentifier
    else
      var call := Request(0, 0xf71695ec7fe85497, 0, Some(t.register));
      var r := DoCall<ConnectionResponse>(b.client, call, decode, e.register);
      if r.result.Failure? then Rpc(r.result.error) else BadTunnelIdentifier
  }

  /** The result of a registration is the edge's verdict; a duplicate connection is told apart by its cause. */
  lemma RegistrationReports(t: Tunnel, decode: ResponseDecoder, e: Edge)
    ensures var r := Register(t, decode, e).result;
            match EdgeVerdict(decode, Life(t, decode, e))
            case Some(RejectedBy(cause)) =>
              r == Failure(if cause == "EDUPCONN" then DuplicateConnection else Registration(cause))
            case Some(Details(managed)) => r == Success(Details(managed))
            case None => r == Failure(EarlyFailure(t, decode, e))
  {
    var b := DoBootstrap(FRESH, e.bootstrap);
    BootstrapShape(e);
    if b.result.Success? && t.validIdentifier {
      var r := DoCall<ConnectionResponse>(b.client, RequestFor(METHOD_REGISTER_CONNECTION, t.register),
                                          decode, e.register);
      RegistrationShape(t, decode, e);
      var tr := b.events + r.events;
      if r.result.Success? && r.result.value.Details? {
        AcceptedLife(t, decode, e, tr, r.client, r.result.value.remotelyManaged);
      } else if r.result.Success? {
        VerdictIsEarly(decode, tr, [Sent(Release(0, 1), e.closeOk)]);
      }
    }
  }

  /** A tunnel identifier of the wrong form is found out behind the bootstrap, and nothing more is written. */
  lemma BadIdentifierReports(t: Tunnel, decode: ResponseDecoder, e: Edge)
    requires !t.validIdentifier
    ensures var b := DoBootstrap(FRESH, e.bootstrap);
            Life(t, decode, e) == b.events
            && Register(t, decode, e).result
               == Failure(if b.result.Failure? then Rpc(b.result.error) else BadTunnelIdentifier)
  {
  }

  /** A call of the registration interface of the bootstrapped capability, with the parameters of its method. */
  predicate ProperCall(t: Tunnel, e: Event) {
    e.Sent? && e.message.Call? ==>
      && e.message.target == 0 && e.message.interfaceId == 0xf71695ec7fe85497
      && match e.message.methodId
         case 0 => e.message.params == t.register
         case 1 => e.message.params == t.unregister
         case 2 => e.message.params == t.update
         case _ => false
  }

  ghost predicate ProperCalls(t: Tunnel, tr: seq<Event>) {
    forall i :: 0 <= i < |tr| ==> ProperCall(t, tr[i])
  }

  lemma ProperAppend(t: Tunnel, a: seq<Event>, b: seq<Event>)
    requires ProperCalls(t, a) && ProperCalls(t, b)
    ensures ProperCalls(t, a + b)
  {
  }

  lemma CallIsProper<T>(t: Tunnel, c: Client, methodId: nat, params: Params, decode: Content -> Option<T>, w: World)
    requires match methodId
             case 0 => params == t.register
             case 1 => params == t.unregister
             case 2 => params == t.update
             case _ => false
    ensures ProperCalls(t, DoCall(c, RequestFor(methodId, params), decode, w).events)
  {
  }

  /** Every call of a life is a proper one. */
  lemma LifeCallsProperly(t: Tunnel, decode: ResponseDecoder, e: Edge)
    ensures ProperCalls(t, Life(t, decode, e))
  {
    var b := DoBootstrap(FRESH, e.bootstrap);
    assert ProperCalls(t, b.events);
    if b.result.Success? && t.validIdentifier {
      var r := DoCall<ConnectionResponse>(b.client, RequestFor(METHOD_REGISTER_CONNECTION, t.register),
                                          decode, e.register);
      CallIsProper(t, b.client, 0, t.register, decode, e.register);
      ProperAppend(t, b.events, r.events);
      if r.result.Success? {
        ConclusionIsProper(t, r.client, b.events + r.events, r.result.value, e);
      }
    }
  }

  lemma ConclusionIsProper(t: Tunnel, c: Client, events: seq<Event>, response: ConnectionResponse, e: Edge)
    requires ProperCalls(t, events)
    ensures var r := Conclude(t, c, events, response, e);
            ProperCalls(t, r.events) && ProperCalls(t, r.events + Unregister(t, r.client, e))
  {
    var r := Conclude(t, c, events, response, e);
    CallIsProper(t, c, 2, t.update, Ignore, e.update);
    if response.Details? && !response.remotelyManaged {
      var update := DoCall(c, RequestFor(METHOD_UPDATE_LOCAL_CONFIGURATION, t.update), Ignore, e.update);
      ProperAppend(t, events, update.events);
    }
    var u := DoCall(r.client, RequestFor(METHOD_UNREGISTER_CONNECTION, t.unregister), Ignore, e.unregister);
    CallIsProper(t, r.client, 1, t.unregister, Ignore, e.unregister);
    ProperAppend(t, u.events, DoClose(u.client, e.finalCloseOk).0);
    ProperAppend(t, r.events, u.events + DoClose(u.client, e.finalCloseOk).0);
  }
}
