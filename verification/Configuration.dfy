/** Remotely-managed configuration: src/edge/configuration.rs. */
module Configuration {
  import opened Bytes

  /** One ingress rule as JSON decoding leaves it; missing fields are empty. */
  datatype Rule = Rule(hostname: string, service: string)

  /** JSON decoding, taken as an arbitrary function from bytes to rules or an error text. */
  type Json = seq<Byte> -> Result<seq<Rule>, string>

  datatype RemoteConfiguration =
    RemoteConfiguration(version: int, hostnames: seq<string>, services: seq<string>)

  datatype UpdateResponse = UpdateResponse(latestAppliedVersion: int, error: string)

  /** A configuration push: `updateConfiguration(version, config)`. */
  datatype Push = Push(version: int, config: seq<Byte>)

  const NOT_JSON := "config is not valid JSON: "
  const NOTHING_APPLIED := -1

  /** The rules with a hostname; the catch-all rule has none. */
  function Routed(rules: seq<Rule>): seq<Rule> {
    if rules == [] then []
    else if rules[0].hostname != "" then [rules[0]] + Routed(rules[1..])
    else Routed(rules[1..])
  }

  function Hostnames(rules: seq<Rule>): (hs: seq<string>)
    ensures |hs| == |rules| && forall i :: 0 <= i < |rules| ==> hs[i] == rules[i].hostname
  {
    seq(|rules|, i requires 0 <= i < |rules| => rules[i].hostname)
  }

  function Services(rules: seq<Rule>): (ss: seq<string>)
    ensures |ss| == |rules| && forall i :: 0 <= i < |rules| ==> ss[i] == rules[i].service
  {
    seq(|rules|, i requires 0 <= i < |rules| => rules[i].service)
  }

  function Parseable(json: Json, push: Push): bool {
    json(push.config).Success?
  }

  /** What the consumer is told about a parseable push. */
  function Announcement(json: Json, push: Push): RemoteConfiguration
    requires Parseable(json, push)
  {
    var routed := Routed(json(push.config).value);
    RemoteConfiguration(push.version, Hostnames(routed), Services(routed))
  }

  method ParseRemoteConfiguration(json: Json, push: Push)
    returns (r: Result<RemoteConfiguration, string>)
    ensures r.Success? <==> Parseable(json, push)
    ensures r.Success? ==> r.value == Announcement(json, push)
    ensures r.Failure? ==> r.error == ErrorText(json, push) != ""
  {
    var parsed := json(push.config);
    if parsed.Failure? {
      return Failure(NOT_JSON + parsed.error);
    }
    var hostnames, services := SplitRules(parsed.value);
    return Success(RemoteConfiguration(push.version, hostnames, services));
  }

  /** The filtering loop: two vectors, filled in step. */
  method SplitRules(rules: seq<Rule>) returns (hostnames: seq<string>, services: seq<string>)
    ensures hostnames == Hostnames(Routed(rules)) && services == Services(Routed(rules))
  {
    hostnames, services := [], [];
    ghost var routed: seq<Rule> := [];
    for i := 0 to |rules|
      invariant Routed(rules) == routed + Routed(rules[i..])
      invariant hostnames == Hostnames(routed) && services == Services(routed)
    {
      assert rules[i..][1..] == rules[i + 1..];
      if rules[i].hostname != "" {
        hostnames := hostnames + [rules[i].hostname];
        services := services + [rules[i].service];
        assert routed + ([rules[i]] + Routed(rules[i + 1..])) == routed + [rules[i]] + Routed(rules[i + 1..]);
        routed := routed + [rules[i]];
      }
    }
    assert Routed(rules) == routed;
  }

  /** The mutable part of the handler: the applied version and what the callback has seen. */
  datatype Applied = Applied(version: int, announced: seq<RemoteConfiguration>)

  const NOTHING := Applied(NOTHING_APPLIED, [])

  function ErrorText(json: Json, push: Push): string
    requires !Parseable(json, push)
  {
    NOT_JSON + json(push.config).error
  }

  /** The effect of one push on the handler. */
  function Apply(json: Json, s: Applied, push: Push): Applied {
    if Parseable(json, push) then Applied(push.version, s.announced + [Announcement(json, push)]) else s
  }

  /** The reply to one push, computed from the state before it. */
  function Answer(json: Json, s: Applied, push: Push): UpdateResponse {
    if Parseable(json, push) then UpdateResponse(push.version, "")
    else UpdateResponse(s.version, ErrorText(json, push))
  }

  class EdgeConfigurationHandler {
    const json: Json
    const hasCallback: bool
    var applied: int
    var announced: seq<RemoteConfiguration>

    constructor (json: Json, hasCallback: bool)
      ensures this.json == json && this.hasCallback == hasCallback
      ensures applied == NOTHING_APPLIED && announced == []
    {
      this.json := json;
      this.hasCallback := hasCallback;
      applied := NOTHING_APPLIED;
      announced := [];
    }

    method UpdateConfiguration(push: Push) returns (r: UpdateResponse)
      modifies this
      ensures r == Answer(json, Applied(old(applied), old(announced)), push)
      ensures applied == Apply(json, Applied(old(applied), old(announced)), push).version
      ensures announced == if hasCallback then Apply(json, Applied(old(applied), old(announced)), push).announced
                           else old(announced)
    {
      var parsed := ParseRemoteConfiguration(json, push);
      match parsed
      case Success(remote) =>
        applied := push.version;
        if hasCallback {
          announced := announced + [remote];
        }
        r := UpdateResponse(push.version, "");
      case Failure(error) =>
        r := UpdateResponse(applied, error);
    }
  }

  // ---------------------------------------------------------------------------
  // Whole histories of pushes, from any number of RPC streams, one after the other.

  function ApplyAll(json: Json, s: Applied, pushes: seq<Push>): Applied {
    if pushes == [] then s
    else Apply(json, ApplyAll(json, s, pushes[..|pushes| - 1]), pushes[|pushes| - 1])
  }

  /** The latest parseable push is the one at `i`. */
  ghost predicate LatestAt(json: Json, pushes: seq<Push>, i: nat) {
    && i < |pushes| && Parseable(json, pushes[i])
    && forall j :: i < j < |pushes| ==> !Parseable(json, pushes[j])
  }

  /** The version of the latest parseable push, or -1. Defined without the handler. */
  ghost predicate IsLatest(json: Json, pushes: seq<Push>, version: int) {
    || (version == -1 && forall i :: 0 <= i < |pushes| ==> !Parseable(json, pushes[i]))
    || exists i: nat :: LatestAt(json, pushes, i) && pushes[i].version == version
  }

  /** A push that does not parse changes nothing. */
  lemma LatestStays(json: Json, front: seq<Push>, last: Push, version: int)
    requires IsLatest(json, front, version) && !Parseable(json, last)
    ensures IsLatest(json, front + [last], version)
  {
    var pushes := front + [last];
    assert forall j :: 0 <= j < |front| ==> pushes[j] == front[j];
    if i: nat :| LatestAt(json, front, i) && front[i].version == version {
      assert LatestAt(json, pushes, i);
    }
  }

  lemma {:induction false} AppliedIsLatest(json: Json, pushes: seq<Push>)
    ensures IsLatest(json, pushes, ApplyAll(json, NOTHING, pushes).version)
  {
    if pushes != [] {
      var front, last := pushes[..|pushes| - 1], pushes[|pushes| - 1];
      AppliedIsLatest(json, front);
      if Parseable(json, last) {
        assert LatestAt(json, pushes, |front|);
      } else {
        LatestStays(json, front, last, ApplyAll(json, NOTHING, front).version);
        assert front + [last] == pushes;
      }
    }
  }

  /** The parseable pushes, in order. */
  function ParseablePushes(json: Json, pushes: seq<Push>): (ps: seq<Push>)
    ensures forall i :: 0 <= i < |ps| ==> Parseable(json, ps[i])
  {
    if pushes == [] then []
    else
      var front, last := ParseablePushes(json, pushes[..|pushes| - 1]), pushes[|pushes| - 1];
      if Parseable(json, last) then front + [last] else front
  }

  /** The callback sees the parseable pushes, all of them, in order, and nothing else. */
  lemma {:induction false} CallbackSeesParseablePushes(json: Json, pushes: seq<Push>)
    ensures var announced := ApplyAll(json, NOTHING, pushes).announced;
            var ps := ParseablePushes(json, pushes);
            |announced| == |ps| && forall i :: 0 <= i < |ps| ==> announced[i] == Announcement(json, ps[i])
  {
    if pushes != [] {
      CallbackSeesParseablePushes(json, pushes[..|pushes| - 1]);
    }
  }

  /**
    The reply to the last push of any history: its version is that of the latest parseable push,
    itself included, and its error is empty exactly when it is parseable.
   */
  lemma ReplyReportsLatest(json: Json, pushes: seq<Push>)
    requires pushes != []
    ensures var front, last := pushes[..|pushes| - 1], pushes[|pushes| - 1];
            var r := Answer(json, ApplyAll(json, NOTHING, front), last);
            && IsLatest(json, pushes, r.latestAppliedVersion)
            && (r.error == "" <==> Parseable(json, last))
            && (!Parseable(json, last) ==> r.error == "config is not valid JSON: " + json(last.config).error)
  {
    AppliedIsLatest(json, pushes);
  }

  /** `r` is version `version` and, field by field, the rules at these places. */
  ghost predicate Carries(r: RemoteConfiguration, version: int, rules: seq<Rule>, at: seq<nat>) {
    && r.version == version && |r.hostnames| == |r.services| == |at|
    && forall k :: 0 <= k < |at| ==>
         at[k] < |rules| && r.hostnames[k] == rules[at[k]].hostname && r.services[k] == rules[at[k]].service
  }

  /**
    What the callback sees, without reference to how it is computed: after any history, the `i`-th value
    has the version of the `i`-th parseable push, and its two vectors hold the hostnames and the services
    of exactly those rules of that push that have a hostname, in rule order.
   */
  lemma CallbackSeesRules(json: Json, pushes: seq<Push>, i: nat) returns (at: seq<nat>)
    requires i < |ParseablePushes(json, pushes)|
    ensures var announced, push := ApplyAll(json, NOTHING, pushes).announced, ParseablePushes(json, pushes)[i];
            && |announced| == |ParseablePushes(json, pushes)|
            && Selects(json(push.config).value, at)
            && Carries(announced[i], push.version, json(push.config).value, at)
  {
    CallbackSeesParseablePushes(json, pushes);
    at := RoutedIsSubsequence(json(ParseablePushes(json, pushes)[i].config).value);
  }

  /** Hostnames and services of an announcement pair up rule by rule, in rule order. */
  lemma {:induction false} RoutedIsSubsequence(rules: seq<Rule>) returns (at: seq<nat>)
    ensures Selects(rules, at) && Picks(rules, at, Routed(rules))
  {
    if rules == [] {
      at := [];
    } else {
      var rest := RoutedIsSubsequence(rules[1..]);
      at := if rules[0].hostname != "" then [0] + Shift(rest) else Shift(rest);
      SelectsShift(rules, rest);
      PicksShift(rules, rest, Routed(rules[1..]));
    }
  }

  /** `picked` lists the rules at these places. */
  ghost predicate Picks(rules: seq<Rule>, at: seq<nat>, picked: seq<Rule>) {
    && |picked| == |at|
    && forall k :: 0 <= k < |at| ==> at[k] < |rules| && picked[k] == rules[at[k]]
  }

  lemma PicksShift(rules: seq<Rule>, rest: seq<nat>, picked: seq<Rule>)
    requires rules != [] && Picks(rules[1..], rest, picked)
    ensures Picks(rules, Shift(rest), picked) && Picks(rules, [0] + Shift(rest), [rules[0]] + picked)
  {
  }

  /** `at` lists, in increasing order, exactly the places of the rules with a hostname. */
  ghost predicate Selects(rules: seq<Rule>, at: seq<nat>) {
    && (forall k :: 0 <= k < |at| ==> at[k] < |rules|)
    && (forall k, l :: 0 <= k < l < |at| ==> at[k] < at[l])
    && (forall i: nat :: i < |rules| ==> (i in at <==> rules[i].hostname != ""))
  }

  function Shift(at: seq<nat>): (shifted: seq<nat>)
    ensures |shifted| == |at| && forall k :: 0 <= k < |at| ==> shifted[k] == at[k] + 1
  {
    seq(|at|, k requires 0 <= k < |at| => at[k] + 1)
  }

  lemma ShiftMembers(at: seq<nat>, i: nat)
    ensures i + 1 in Shift(at) <==> i in at
    ensures 0 !in Shift(at)
  {
    if i in at {
      var k :| 0 <= k < |at| && at[k] == i;
      assert Shift(at)[k] == i + 1;
    }
  }

  lemma SelectsShift(rules: seq<Rule>, rest: seq<nat>)
    requires rules != [] && Selects(rules[1..], rest)
    ensures Selects(rules, if rules[0].hostname != "" then [0] + Shift(rest) else Shift(rest))
  {
    var shifted := Shift(rest);
    var at := if rules[0].hostname != "" then [0] + shifted else shifted;
    forall i: nat | i < |rules|
      ensures i in at <==> rules[i].hostname != ""
    {
      if i > 0 {
        assert rules[1..][i - 1] == rules[i];
        ShiftMembers(rest, i - 1);
      } else {
        ShiftMembers(rest, 0);
      }
    }
  }
}
