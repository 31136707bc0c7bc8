/**
  The bidirectional pump of src/origin/pump.rs: two copying directions that share one loop,
  interleaved in any way the scheduler likes.
 */
module Pump {
  import opened Bytes

  const BUFFER_SIZE := 8192

  // ---------------------------------------------------------------------------
  // One direction.

  /** What one turn of a direction amounts to: end of source, a read error, or a chunk read and then written. */
  datatype Action =
    | EndOfSource
    | ReadError
    | Copy(size: nat)
    | WriteError(size: nat, written: nat)

  /** `source` is what is still to be read, `closes` counts how often the destination was closed. */
  datatype Direction = Direction(source: seq<Byte>, delivered: seq<Byte>, done: bool, failed: bool, closes: nat)

  function Ready(source: seq<Byte>): Direction {
    Direction(source, [], false, false, 0)
  }

  predicate Possible(d: Direction, a: Action) {
    && !d.done
    && match a
       case EndOfSource => d.source == []
       case ReadError => true
       case Copy(n) => 1 <= n <= BUFFER_SIZE && n <= |d.source|
       case WriteError(n, k) => 1 <= n <= BUFFER_SIZE && n <= |d.source| && k <= n
  }

  function Turn(d: Direction, a: Action): Direction
    requires Possible(d, a)
  {
    match a
    case EndOfSource => d.(done := true, closes := d.closes + 1)
    case ReadError => d.(done := true, failed := true)
    case Copy(n) => d.(source := d.source[n..], delivered := d.delivered + d.source[..n])
    case WriteError(n, k) =>
      d.(source := d.source[n..], delivered := d.delivered + d.source[..k], done := true, failed := true)
  }

  predicate PossibleAll(d: Direction, actions: seq<Action>)
    decreases |actions|, 0
  {
    actions != [] ==>
      && PossibleAll(d, actions[..|actions| - 1])
      && Possible(TurnAll(d, actions[..|actions| - 1]), actions[|actions| - 1])
  }

  function TurnAll(d: Direction, actions: seq<Action>): Direction
    requires PossibleAll(d, actions)
    decreases |actions|, 1
  {
    if actions == [] then d else Turn(TurnAll(d, actions[..|actions| - 1]), actions[|actions| - 1])
  }

  // ---------------------------------------------------------------------------
  // Both directions under one loop. `ToOrigin` copies from the edge, `ToEdge` from the origin.

  datatype Side = ToOrigin | ToEdge

  datatype Step = Step(side: Side, action: Action)

  datatype State = State(toOrigin: Direction, toEdge: Direction)

  function Of(s: State, side: Side): Direction {
    if side.ToOrigin? then s.toOrigin else s.toEdge
  }

  function With(s: State, side: Side, d: Direction): State {
    if side.ToOrigin? then s.(toOrigin := d) else s.(toEdge := d)
  }

  predicate Finished(s: State) {
    s.toOrigin.done && s.toEdge.done
  }

  /** The steps are, one after the other, possible turns of the loop. */
  predicate Runs(s: State, steps: seq<Step>)
    decreases |steps|, 0
  {
    steps != [] ==>
      var front, last := steps[..|steps| - 1], steps[|steps| - 1];
      Runs(s, front) && !Finished(Run(s, front)) && Possible(Of(Run(s, front), last.side), last.action)
  }

  function Run(s: State, steps: seq<Step>): State
    requires Runs(s, steps)
    decreases |steps|, 1
  {
    if steps == [] then s
    else
      var t, last := Run(s, steps[..|steps| - 1]), steps[|steps| - 1];
      With(t, last.side, Turn(Of(t, last.side), last.action))
  }

  /** The turns of one side. */
  function Turns(steps: seq<Step>, side: Side): seq<Action> {
    if steps == [] then []
    else Turns(steps[..|steps| - 1], side) + if steps[|steps| - 1].side == side then [steps[|steps| - 1].action] else []
  }

  lemma {:induction false} SidesAreIndependent(s: State, steps: seq<Step>, side: Side)
    requires Runs(s, steps)
    ensures PossibleAll(Of(s, side), Turns(steps, side))
    ensures Of(Run(s, steps), side) == TurnAll(Of(s, side), Turns(steps, side))
  {
    if steps != [] {
      var front, last := steps[..|steps| - 1], steps[|steps| - 1];
      SidesAreIndependent(s, front, side);
      if last.side == side {
        assert Turns(steps, side)[..|Turns(front, side)|] == Turns(front, side);
      } else {
        assert Turns(steps, side) == Turns(front, side);
      }
    }
  }

  /**
    Non-interference: what one side has done depends only on its own turns. Whatever the other side
    does, errors included, and however the turns interleave, nothing about this side changes.
   */
  lemma ErrorsDoNotCross(s: State, s': State, steps: seq<Step>, steps': seq<Step>, side: Side)
    requires Runs(s, steps) && Runs(s', steps')
    requires Of(s, side) == Of(s', side) && Turns(steps, side) == Turns(steps', side)
    ensures Of(Run(s, steps), side) == Of(Run(s', steps'), side)
  {
    SidesAreIndependent(s, steps, side);
    SidesAreIndependent(s', steps', side);
  }

  // ---------------------------------------------------------------------------
  // Safety of a direction.

  /** What holds of a direction that started with `input` to copy. */
  predicate Sound(input: seq<Byte>, d: Direction) {
    && d.delivered <= input
    && (!d.failed ==> d.delivered + d.source == input)
    && d.closes == (if d.done && !d.failed then 1 else 0)
    && (d.closes == 1 ==> d.delivered == input)
    && (d.failed ==> d.done)
  }

  lemma {:induction false} TurnsAreSound(input: seq<Byte>, actions: seq<Action>)
    requires PossibleAll(Ready(input), actions)
    ensures Sound(input, TurnAll(Ready(input), actions))
  {
    if actions != [] {
      var front := actions[..|actions| - 1];
      TurnsAreSound(input, front);
      TurnIsSound(input, TurnAll(Ready(input), front), actions[|actions| - 1]);
    }
  }

  lemma TurnIsSound(input: seq<Byte>, d: Direction, a: Action)
    requires Sound(input, d) && Possible(d, a)
    ensures Sound(input, Turn(d, a))
  {
    match a
    case EndOfSource =>
      assert d.delivered + [] == d.delivered;
    case Copy(n) =>
      assert d.delivered + d.source[..n] + d.source[n..] == input;
    case WriteError(n, k) =>
      assert d.delivered + d.source[..k] + d.source[k..] == input;
    case ReadError =>
  }

  /**
    In every reachable state: each side has delivered a prefix of its source, has closed its
    destination at most once, and only at the end of its source, after delivering everything.
   */
  lemma PumpIsSafe(edge: seq<Byte>, origin: seq<Byte>, steps: seq<Step>)
    requires Runs(State(Ready(edge), Ready(origin)), steps)
    ensures var t := Run(State(Ready(edge), Ready(origin)), steps);
            Sound(edge, t.toOrigin) && Sound(origin, t.toEdge)
  {
    var s := State(Ready(edge), Ready(origin));
    SidesAreIndependent(s, steps, ToOrigin);
    SidesAreIndependent(s, steps, ToEdge);
    TurnsAreSound(edge, Turns(steps, ToOrigin));
    TurnsAreSound(origin, Turns(steps, ToEdge));
  }

  // ---------------------------------------------------------------------------
  // Termination and confluence.

  function Left(d: Direction): nat {
    if d.done then 0 else |d.source| + 1
  }

  lemma {:induction false} PumpTerminates(s: State, steps: seq<Step>)
    requires Runs(s, steps)
    ensures |steps| + Left(Run(s, steps).toOrigin) + Left(Run(s, steps).toEdge) <= Left(s.toOrigin) + Left(s.toEdge)
  {
    if steps != [] {
      PumpTerminates(s, steps[..|steps| - 1]);
    }
  }

  predicate ErrorFree(steps: seq<Step>) {
    forall i :: 0 <= i < |steps| ==> steps[i].action.EndOfSource? || steps[i].action.Copy?
  }

  lemma {:induction false} ErrorFreeNeverFails(s: State, steps: seq<Step>)
    requires Runs(s, steps) && ErrorFree(steps) && !s.toOrigin.failed && !s.toEdge.failed
    ensures !Run(s, steps).toOrigin.failed && !Run(s, steps).toEdge.failed
  {
    if steps != [] {
      assert steps[|steps| - 1].action.EndOfSource? || steps[|steps| - 1].action.Copy?;
      ErrorFreeNeverFails(s, steps[..|steps| - 1]);
    }
  }

  /** All error-free schedules end alike: both sources delivered completely, both destinations closed once. */
  lemma SchedulesAgree(edge: seq<Byte>, origin: seq<Byte>, steps: seq<Step>)
    requires Runs(State(Ready(edge), Ready(origin)), steps) && ErrorFree(steps)
    requires Finished(Run(State(Ready(edge), Ready(origin)), steps))
    ensures Run(State(Ready(edge), Ready(origin)), steps)
         == State(Direction([], edge, true, false, 1), Direction([], origin, true, false, 1))
  {
    var s := State(Ready(edge), Ready(origin));
    PumpIsSafe(edge, origin, steps);
    ErrorFreeNeverFails(s, steps);
    var t := Run(s, steps);
    assert |t.toOrigin.delivered + t.toOrigin.source| == |edge|;
    assert |t.toEdge.delivered + t.toEdge.source| == |origin|;
  }

  /** A pump that has not finished can always go on without an error. */
  lemma PumpNeverStuck(s: State)
    requires !Finished(s)
    ensures exists step: Step ::
              Possible(Of(s, step.side), step.action) && (step.action.EndOfSource? || step.action.Copy?)
  {
    var side := if s.toOrigin.done then ToEdge else ToOrigin;
    var action := if Of(s, side).source == [] then EndOfSource else Copy(1);
    var step := Step(side, action);
    assert Possible(Of(s, step.side), step.action);
  }

  // ---------------------------------------------------------------------------
  // The loop itself.

  /**
    One end of the pump: bytes to read from it, bytes written to it, and whether a read or a write has
    reported an error. Only a faulty end reports errors.
   */
  class Endpoint {
    var input: seq<Byte>
    var output: seq<Byte>
    var closes: nat
    var readFailed: bool
    var writeFailed: bool
    const faulty: bool

    constructor (input: seq<Byte>, faulty: bool)
      ensures this.input == input && Unused() && this.faulty == faulty
    {
      this.input := input;
      output := [];
      closes := 0;
      readFailed := false;
      writeFailed := false;
      this.faulty := faulty;
    }

    predicate Unused()
      reads this
    {
      output == [] && closes == 0 && !readFailed && !writeFailed
    }

    /** `None` is an error, the empty chunk the end of the stream. */
    method Read() returns (chunk: Option<seq<Byte>>)
      modifies this`input, this`readFailed
      ensures readFailed == (old(readFailed) || chunk.None?)
      ensures chunk.None? ==> faulty && input == old(input)
      ensures chunk.Some? ==>
                && |chunk.value| <= 8192 && (chunk.value == [] <==> old(input) == [])
                && chunk.value <= old(input) && input == old(input)[|chunk.value|..]
    {
      if faulty {
        var fails: bool :| true;
        if fails {
          readFailed := true;
          return None;
        }
      }
      if input == [] {
        return Some([]);
      }
      var n: nat :| 1 <= n <= BUFFER_SIZE && n <= |input|;
      chunk := Some(input[..n]);
      input := input[n..];
    }

    /** Writes everything, or some prefix and then fails. */
    method WriteAll(chunk: seq<Byte>) returns (written: nat, ok: bool)
      modifies this`output, this`writeFailed
      ensures writeFailed == (old(writeFailed) || !ok)
      ensures written <= |chunk| && output == old(output) + chunk[..written]
      ensures ok ==> written == |chunk|
      ensures !ok ==> faulty
    {
      written, ok := |chunk|, true;
      if faulty {
        written, ok :| written <= |chunk| && (ok ==> written == |chunk|);
      }
      writeFailed := writeFailed || !ok;
      output := output + chunk[..written];
    }

    method Close()
      modifies this`closes
      ensures closes == old(closes) + 1
    {
      closes := closes + 1;
    }
  }

  /** The state of the pump, as seen on its two ends: a direction has failed exactly when an end reported it. */
  ghost predicate Shows(s: State, edge: Endpoint, origin: Endpoint)
    reads edge, origin
  {
    && s.toOrigin.source == edge.input && s.toOrigin.delivered == origin.output && s.toOrigin.closes == origin.closes
    && s.toEdge.source == origin.input && s.toEdge.delivered == edge.output && s.toEdge.closes == edge.closes
    && s.toOrigin.failed == (edge.readFailed || origin.writeFailed)
    && s.toEdge.failed == (origin.readFailed || edge.writeFailed)
  }

  /** One arm of the select: read from one end, then write to the other or close it. */
  method TakeTurn(from: Endpoint, to: Endpoint, ghost d: Direction) returns (done: bool, ghost a: Action)
    requires from != to && !d.done
    requires d.source == from.input && d.delivered == to.output && d.closes == to.closes
    requires d.failed == (from.readFailed || to.writeFailed)
    modifies from`input, from`readFailed, to`output, to`writeFailed, to`closes
    ensures Possible(d, a)
    ensures var e := Turn(d, a);
            && e.source == from.input && e.delivered == to.output && e.closes == to.closes && e.done == done
            && e.failed == (from.readFailed || to.writeFailed)
    ensures !from.faulty && !to.faulty ==> a.EndOfSource? || a.Copy?
  {
    var chunk := from.Read();
    if chunk.None? {
      return true, ReadError;
    }
    var n := |chunk.value|;
    if n == 0 {
      to.Close();
      return true, EndOfSource;
    }
    var written, ok := to.WriteAll(chunk.value);
    assert chunk.value[..written] == d.source[..written];
    return !ok, if ok then Copy(n) else WriteError(n, written);
  }

  lemma RunSnoc(s: State, steps: seq<Step>, step: Step)
    requires Runs(s, steps) && !Finished(Run(s, steps)) && Possible(Of(Run(s, steps), step.side), step.action)
    ensures Runs(s, steps + [step])
    ensures Run(s, steps + [step]) == With(Run(s, steps), step.side, Turn(Of(Run(s, steps), step.side), step.action))
  {
    assert (steps + [step])[..|steps|] == steps;
  }

  /** The select: one of the sides that are not done takes its turn. */
  method SelectTurn(edge: Endpoint, origin: Endpoint, edgeDone: bool, originDone: bool, ghost s: State)
    returns (edgeDone': bool, originDone': bool, ghost step: Step, ghost t: State)
    requires edge != origin && Shows(s, edge, origin) && !(edgeDone && originDone)
    requires s.toOrigin.done == edgeDone && s.toEdge.done == originDone
    modifies edge, origin
    ensures Possible(Of(s, step.side), step.action)
    ensures t == With(s, step.side, Turn(Of(s, step.side), step.action)) && Shows(t, edge, origin)
    ensures t.toOrigin.done == edgeDone' && t.toEdge.done == originDone'
    ensures !edge.faulty && !origin.faulty ==> step.action.EndOfSource? || step.action.Copy?
  {
    edgeDone', originDone' := edgeDone, originDone;
    ghost var action: Action;
    if {
      case !edgeDone =>
        edgeDone', action := TakeTurn(edge, origin, s.toOrigin);
        step := Step(ToOrigin, action);
      case !originDone =>
        originDone', action := TakeTurn(origin, edge, s.toEdge);
        step := Step(ToEdge, action);
    }
    t := With(s, step.side, Turn(Of(s, step.side), step.action));
  }

  lemma StepGetsCloser(s: State, step: Step)
    requires Possible(Of(s, step.side), step.action)
    ensures var t := With(s, step.side, Turn(Of(s, step.side), step.action));
            Left(t.toOrigin) + Left(t.toEdge) < Left(s.toOrigin) + Left(s.toEdge)
  {
  }

  /** The loop of the pump; `steps` records the schedule that it happened to follow. */
  method PumpLoop(edge: Endpoint, origin: Endpoint, ghost s: State) returns (ghost steps: seq<Step>, ghost t: State)
    requires edge != origin && Shows(s, edge, origin) && !s.toOrigin.done && !s.toEdge.done
    modifies edge, origin
    ensures Runs(s, steps) && t == Run(s, steps) && Finished(t) && Shows(t, edge, origin)
    ensures !edge.faulty && !origin.faulty ==> ErrorFree(steps)
  {
    t := s;
    steps := [];
    var edgeDone, originDone := false, false;
    while !(edgeDone && originDone)
      invariant Runs(s, steps) && t == Run(s, steps)
      invariant Shows(t, edge, origin)
      invariant t.toOrigin.done == edgeDone && t.toEdge.done == originDone
      invariant !edge.faulty && !origin.faulty ==> ErrorFree(steps)
      decreases Left(t.toOrigin) + Left(t.toEdge)
    {
      ghost var step, t';
      edgeDone, originDone, step, t' := SelectTurn(edge, origin, edgeDone, originDone, t);
      RunSnoc(s, steps, step);
      StepGetsCloser(t, step);
      t, steps := t', steps + [step];
    }
  }

  /**
    The pump, from the first byte to the last. Each direction delivers its whole source and closes its
    destination once unless one of its own two ends reported an error to it, whatever the other does.
   */
  method RunPump(edge: Endpoint, origin: Endpoint) returns (ghost steps: seq<Step>)
    requires edge != origin && edge.Unused() && origin.Unused()
    modifies edge, origin
    ensures Runs(State(Ready(old(edge.input)), Ready(old(origin.input))), steps)
    ensures var t := Run(State(Ready(old(edge.input)), Ready(old(origin.input))), steps);
            Finished(t) && Shows(t, edge, origin)
    ensures edge.output <= old(origin.input) && origin.output <= old(edge.input)
    ensures if edge.readFailed || origin.writeFailed then origin.closes == 0
            else origin.output == old(edge.input) && origin.closes == 1
    ensures if origin.readFailed || edge.writeFailed then edge.closes == 0
            else edge.output == old(origin.input) && edge.closes == 1
    ensures !edge.faulty && !origin.faulty ==>
              && edge.output == old(origin.input) && origin.output == old(edge.input)
              && edge.closes == 1 && origin.closes == 1
  {
    ghost var s := State(Ready(edge.input), Ready(origin.input));
    ghost var t;
    steps, t := PumpLoop(edge, origin, s);
    PumpIsSafe(s.toOrigin.source, s.toEdge.source, steps);
    if !edge.faulty && !origin.faulty {
      SchedulesAgree(s.toOrigin.source, s.toEdge.source, steps);
    }
  }
}
