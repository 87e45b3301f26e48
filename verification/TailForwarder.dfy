/** The forwarding loop of the Docker json-file collector as a step system: a producer goroutine fills the channel
    `inner` and reports its end on `done`, the forwarder moves lines to `out`, and cancellation and the consumer's
    readiness change at any moment. */
module TailForwarder {
  import opened Options

  datatype RawLine = RawLine(source: string, line: string, at: int)

  const INNER_CAP := 64

  /** The forwarder's source label and its unwrapping of a Docker JSON line. */
  datatype Config = Config(source: string, unwrap: string -> string) {
    /** The line that leaves for a line that came in. */
    function Forward(raw: RawLine): RawLine {
      RawLine(source, TrimNewlines(unwrap(raw.line)), raw.at)
    }

    function ForwardAll(raws: seq<RawLine>): seq<RawLine> {
      if raws == [] then [] else ForwardAll(raws[..|raws| - 1]) + [Forward(raws[|raws| - 1])]
    }
  }

  function TrimNewlines(s: string): string {
    if s != [] && s[|s| - 1] == '\n' then TrimNewlines(s[..|s| - 1]) else s
  }

  /** Where a send continues once its line is out. */
  datatype Caller = MainSelect | DrainLoop(err: Option<string>)

  datatype Phase =
    | Selecting                                  // the main select
    | Trying(line: RawLine, caller: Caller)      // send, at its non-blocking attempt
    | Blocked(line: RawLine, caller: Caller)     // send, at its select with cancellation
    | Draining(err: Option<string>)              // the drain loop, after done
    | Returned(err: Option<string>, drained: bool, lost: Option<RawLine>)

  /** sent, delivered and emitted are histories: what the producer put into inner, which of these lines the forwarder
      has sent on, and what reached the consumer. */
  datatype State = State(
    sent: seq<RawLine>, inner: seq<RawLine>, finished: bool, done: Option<Option<string>>,
    cancelled: bool, ready: bool,
    phase: Phase, delivered: seq<RawLine>, emitted: seq<RawLine>)

  ghost predicate Init(s: State) {
    s.sent == s.inner == s.delivered == s.emitted == [] && !s.finished && s.done.None? && s.phase.Selecting?
  }

  /* ---- Steps ---- */

  ghost predicate Produce(s: State, t: State, line: RawLine) {
    && !s.finished && |s.inner| < INNER_CAP
    && t == s.(sent := s.sent + [line], inner := s.inner + [line])
  }

  ghost predicate Finish(s: State, t: State, err: Option<string>) {
    !s.finished && t == s.(finished := true, done := Some(err))
  }

  /** Cancellation, and the consumer becoming ready or not. */
  ghost predicate Environment(s: State, t: State) {
    (s.cancelled ==> t.cancelled) && t == s.(cancelled := t.cancelled, ready := t.ready)
  }

  function Resume(caller: Caller): Phase {
    match caller
    case MainSelect => Selecting
    case DrainLoop(err) => Draining(err)
  }

  function Emit(s: State, line: RawLine, caller: Caller, c: Config): State {
    s.(emitted := s.emitted + [c.Forward(line)], delivered := s.delivered + [line], phase := Resume(caller))
  }

  function Take(s: State, caller: Caller): State
    requires s.inner != []
  {
    s.(inner := s.inner[1..], phase := Trying(s.inner[0], caller))
  }

  /** The forwarder's own step: one ready case of the select it stands at. */
  ghost predicate Forwarder(s: State, t: State, c: Config) {
    match s.phase
    case Selecting =>
      || (s.inner != [] && t == Take(s, MainSelect))
      || (s.done.Some? && t == s.(done := None, phase := Draining(s.done.value)))
      || (s.cancelled && t == s.(phase := Returned(None, false, None)))
    case Trying(line, caller) =>
      t == if s.ready then Emit(s, line, caller, c) else s.(phase := Blocked(line, caller))
    case Blocked(line, caller) =>
      || (s.ready && t == Emit(s, line, caller, c))
      || (s.cancelled && t == s.(phase := match caller
                                          case MainSelect => Returned(None, false, Some(line))
                                          case DrainLoop(err) => Returned(err, true, Some(line))))
    case Draining(err) =>
      t == if s.inner != [] then Take(s, DrainLoop(err)) else s.(phase := Returned(err, true, None))
    case Returned(_, _, _) => false
  }

  ghost predicate Next(s: State, t: State, c: Config) {
    || (exists line :: Produce(s, t, line))
    || (exists err :: Finish(s, t, err))
    || Environment(s, t)
    || Forwarder(s, t, c)
  }

  ghost predicate IsRun(run: seq<State>, c: Config) {
    && run != [] && Init(run[0])
    && forall i :: 0 <= i < |run| - 1 ==> Next(run[i], run[i + 1], c)
  }

  /* ---- The invariant ---- */

  /** The line taken and not yet out, if any. */
  function InHand(phase: Phase): seq<RawLine> {
    match phase
    case Trying(line, _) => [line]
    case Blocked(line, _) => [line]
    case Returned(_, _, Some(line)) => [line]
    case _ => []
  }

  /** The lines the forwarder took out of inner. */
  function Taken(s: State): seq<RawLine> {
    s.delivered + InHand(s.phase)
  }

  /** Whether the forwarder has heard of the producer's end. */
  predicate HeardDone(phase: Phase) {
    match phase
    case Trying(_, caller) => caller.DrainLoop?
    case Blocked(_, caller) => caller.DrainLoop?
    case Draining(_) => true
    case Returned(_, drained, _) => drained
    case Selecting => false
  }

  ghost predicate Inv(s: State, c: Config) {
    && s.sent == Taken(s) + s.inner
    && s.emitted == c.ForwardAll(s.delivered)
    && (s.done.Some? || HeardDone(s.phase) ==> s.finished)
    && |s.inner| <= INNER_CAP
    && (s.phase.Returned? && (!s.phase.drained || s.phase.lost.Some?) ==> s.cancelled)
    && (s.phase.Returned? && s.phase.drained && s.phase.lost.None? ==> s.inner == [])
  }

  lemma {:induction false} ForwardOne(c: Config, raws: seq<RawLine>, line: RawLine)
    ensures c.ForwardAll(raws + [line]) == c.ForwardAll(raws) + [c.Forward(line)]
  {
    assert (raws + [line])[..|raws|] == raws;
  }

  lemma {:induction false} TakeKeepsInv(s: State, caller: Caller, c: Config)
    requires Inv(s, c) && s.inner != [] && InHand(s.phase) == []
    requires caller.DrainLoop? ==> s.finished
    ensures Inv(Take(s, caller), c)
  {
    assert Taken(Take(s, caller)) + s.inner[1..] == Taken(s) + s.inner;
  }

  lemma {:induction false} EmitKeepsInv(s: State, line: RawLine, caller: Caller, c: Config)
    requires Inv(s, c)
    requires s.phase == Trying(line, caller) || s.phase == Blocked(line, caller)
    ensures Inv(Emit(s, line, caller, c), c)
  {
    ForwardOne(c, s.delivered, line);
    assert Taken(Emit(s, line, caller, c)) == Taken(s);
  }

  lemma {:induction false} ForwarderKeepsInv(s: State, t: State, c: Config)
    requires Inv(s, c) && Forwarder(s, t, c)
    ensures Inv(t, c)
  {
    assert s.delivered + [] == s.delivered;
    match s.phase
    case Selecting =>
      if s.inner != [] && t == Take(s, MainSelect) {
        TakeKeepsInv(s, MainSelect, c);
      }
    case Trying(line, caller) =>
      if s.ready {
        EmitKeepsInv(s, line, caller, c);
      }
    case Blocked(line, caller) =>
      if s.ready && t == Emit(s, line, caller, c) {
        EmitKeepsInv(s, line, caller, c);
      }
    case Draining(err) =>
      if s.inner != [] {
        TakeKeepsInv(s, DrainLoop(err), c);
      }
    case Returned(_, _, _) =>
  }

  lemma {:induction false} NextKeepsInv(s: State, t: State, c: Config)
    requires Inv(s, c) && Next(s, t, c)
    ensures Inv(t, c)
  {
    if Forwarder(s, t, c) {
      ForwarderKeepsInv(s, t, c);
    }
  }

  lemma {:induction false} RunKeepsInv(run: seq<State>, i: nat, c: Config)
    requires IsRun(run, c) && i < |run|
    ensures Inv(run[i], c) && |run[i].inner| <= 64
  {
    if i > 0 {
      RunKeepsInv(run, i - 1, c);
      NextKeepsInv(run[i - 1], run[i], c);
    }
  }

  /* ---- What every run keeps ---- */

  lemma {:induction false} ForwardPrefix(c: Config, a: seq<RawLine>, b: seq<RawLine>)
    ensures c.ForwardAll(a) <= c.ForwardAll(a + b)
  {
    if b == [] {
      assert a + b == a;
    } else {
      ForwardPrefix(c, a, b[..|b| - 1]);
      assert (a + b)[..|a + b| - 1] == a + b[..|b| - 1];
    }
  }

  lemma {:induction false} ForwardLength(c: Config, a: seq<RawLine>)
    ensures |c.ForwardAll(a)| == |a|
  {
    if a != [] {
      ForwardLength(c, a[..|a| - 1]);
    }
  }

  /** Under every interleaving the consumer has seen a prefix of the producer's lines, in order, and all of the
      taken ones but at most the one in hand. */
  lemma {:induction false} EmittedIsPrefix(run: seq<State>, i: nat, c: Config)
    requires IsRun(run, c) && i < |run|
    ensures run[i].emitted <= c.ForwardAll(run[i].sent)
    ensures |Taken(run[i])| - 1 <= |run[i].emitted| <= |Taken(run[i])|
  {
    RunKeepsInv(run, i, c);
    hide IsRun;
    var s := run[i];
    ForwardPrefix(c, s.delivered, InHand(s.phase) + s.inner);
    assert s.delivered + (InHand(s.phase) + s.inner) == s.sent;
    ForwardLength(c, s.delivered);
  }

  /** A run that returns without cancellation returns through done, and has delivered every line. */
  lemma {:induction false} NothingLostWithoutCancel(run: seq<State>, i: nat, c: Config)
    requires IsRun(run, c) && i < |run|
    requires run[i].phase.Returned? && !run[i].cancelled
    ensures run[i].phase.drained && run[i].finished
    ensures run[i].emitted == c.ForwardAll(run[i].sent)
  {
    RunKeepsInv(run, i, c);
    assert run[i].delivered == run[i].sent;
  }

  /** At its return the forwarder has delivered every line it took, except the one it reports lost, which was the
      last it took, and only after cancellation. */
  lemma {:induction false} LosesAtMostOne(run: seq<State>, i: nat, c: Config)
    requires IsRun(run, c) && i < |run|
    requires run[i].phase.Returned?
    ensures match run[i].phase.lost
            case None => run[i].emitted == c.ForwardAll(Taken(run[i]))
            case Some(line) =>
              && run[i].cancelled
              && run[i].emitted + [c.Forward(line)] == c.ForwardAll(Taken(run[i]))
  {
    RunKeepsInv(run, i, c);
    match run[i].phase.lost
    case None =>
      assert Taken(run[i]) == run[i].delivered;
    case Some(line) =>
      ForwardOne(c, run[i].delivered, line);
  }

  /** While the consumer stays ready no line is ever held back, so none is lost, cancelled or not. */
  lemma {:induction false} ReadyConsumerLosesNothing(run: seq<State>, i: nat, c: Config)
    requires IsRun(run, c) && i < |run|
    requires forall j :: 0 <= j < |run| ==> run[j].ready
    ensures !run[i].phase.Blocked? && !(run[i].phase.Returned? && run[i].phase.lost.Some?)
  {
    if i > 0 {
      ReadyConsumerLosesNothing(run, i - 1, c);
      assert Next(run[i - 1], run[i], c);
    }
  }

  lemma {:induction false} ForwardAt(c: Config, raws: seq<RawLine>, k: nat)
    requires k < |raws|
    ensures |c.ForwardAll(raws)| == |raws| && c.ForwardAll(raws)[k] == c.Forward(raws[k])
  {
    ForwardLength(c, raws);
    if k < |raws| - 1 {
      ForwardLength(c, raws[..|raws| - 1]);
      ForwardAt(c, raws[..|raws| - 1], k);
    }
  }

  lemma {:induction false} TrimmedNewlines(s: string)
    ensures var t := TrimNewlines(s);
            && t <= s && (t == [] || t[|t| - 1] != '\n')
            && forall i :: |t| <= i < |s| ==> s[i] == '\n'
  {
    if s != [] && s[|s| - 1] == '\n' {
      TrimmedNewlines(s[..|s| - 1]);
    }
  }

  /** A line leaves with the forwarder's source and the producer's time; its text is the unwrapped one up to the
      newlines at its end, of which none is left. */
  lemma {:induction false} EmittedLine(run: seq<State>, i: nat, k: nat, c: Config)
    requires IsRun(run, c) && i < |run| && k < |run[i].emitted|
    ensures k < |run[i].sent|
    ensures var came, left := run[i].sent[k], run[i].emitted[k];
            var text := c.unwrap(came.line);
            && left.source == c.source && left.at == came.at
            && left.line <= text && (left.line == [] || left.line[|left.line| - 1] != '\n')
            && forall j :: |left.line| <= j < |text| ==> text[j] == '\n'
  {
    EmittedIsPrefix(run, i, c);
    ForwardLength(c, run[i].sent);
    ForwardAt(c, run[i].sent, k);
    TrimmedNewlines(c.unwrap(run[i].sent[k].line));
  }

  /** The error the forwarder heard from the producer, while it is still on its way or returned. */
  function HeardError(phase: Phase): Option<string> {
    match phase
    case Trying(_, DrainLoop(err)) => err
    case Blocked(_, DrainLoop(err)) => err
    case Draining(err) => err
    case Returned(err, _, _) => err
    case _ => None
  }

  /** What a step keeps: once heard, the error stays, and it is heard of the producer. */
  ghost predicate KeepsError(s: State, t: State) {
    && (HeardDone(s.phase) ==> HeardDone(t.phase) && HeardError(t.phase) == HeardError(s.phase))
    && (!HeardDone(s.phase) && HeardError(s.phase) == None ==>
          if HeardDone(t.phase) then s.done == Some(HeardError(t.phase)) else HeardError(t.phase) == None)
  }

  lemma ForwarderKeepsError(s: State, t: State, c: Config)
    requires Forwarder(s, t, c)
    ensures KeepsError(s, t)
  {
  }

  lemma StepKeepsError(s: State, t: State, c: Config)
    requires Next(s, t, c)
    ensures KeepsError(s, t)
  {
    hide Forwarder;
    if Forwarder(s, t, c) {
      ForwarderKeepsError(s, t, c);
    } else {
      assert t.phase == s.phase;
      hide Next;
    }
  }

  /** What the forwarder returns after draining is what the producer reported, and otherwise nothing. */
  lemma {:induction false} ReturnsProducersError(run: seq<State>, i: nat, c: Config)
    requires IsRun(run, c) && i < |run|
    ensures HeardDone(run[i].phase) ==> exists j :: 0 <= j < i && run[j].done == Some(HeardError(run[i].phase))
    ensures !HeardDone(run[i].phase) ==> HeardError(run[i].phase) == None
  {
    if i > 0 {
      ReturnsProducersError(run, i - 1, c);
      assert Next(run[i - 1], run[i - 1 + 1], c);
      hide Next, IsRun, HeardDone, HeardError;
      StepKeepsError(run[i - 1], run[i], c);
    }
  }

  /* ---- Two runs ---- */

  lemma RunGrows(run: seq<State>, t: State, c: Config)
    requires IsRun(run, c) && Next(run[|run| - 1], t, c)
    ensures IsRun(run + [t], c)
  {
    hide Init, Next;
    var more := run + [t];
    forall i | 0 <= i < |more| - 1 ensures Next(more[i], more[i + 1], c) {
      if i < |run| - 1 {
        assert Next(run[i], run[i + 1], c);
      }
    }
  }

  /** The producer has sent a line and the forwarder has taken it. */
  lemma OneTaken(line: RawLine, ready: bool, c: Config) returns (run: seq<State>)
    ensures IsRun(run, c)
    ensures run[|run| - 1]
         == State([line], [], false, None, false, ready, Trying(line, MainSelect), [], [])
  {
    var s0 := State([], [], false, None, false, ready, Selecting, [], []);
    var s1 := s0.(sent := [line], inner := [line]);
    assert s0.sent + [line] == [line];
    assert Produce(s0, s1, line);
    var s2 := Take(s1, MainSelect);
    assert [line][1..] == [];
    assert Forwarder(s1, s2, c);
    run := [s0];
    RunGrows(run, s1, c);
    run := run + [s1];
    RunGrows(run, s2, c);
    run := run + [s2];
  }

  /** With a ready consumer the line goes through, and the forwarder returns when the producer ends. */
  lemma LineGoesThrough(line: RawLine, err: Option<string>, c: Config) returns (run: seq<State>)
    ensures IsRun(run, c) && run[|run| - 1].phase == Returned(err, true, None)
    ensures run[|run| - 1].sent == [line] && run[|run| - 1].emitted == [c.Forward(line)]
  {
    run := OneTaken(line, true, c);
    var s2 := run[|run| - 1];
    var s3 := Emit(s2, line, MainSelect, c);
    var s4 := s3.(finished := true, done := Some(err));
    var s5 := s4.(done := None, phase := Draining(err));
    var s6 := s5.(phase := Returned(err, true, None));
    assert Forwarder(s2, s3, c) && Finish(s3, s4, err) && Forwarder(s4, s5, c) && Forwarder(s5, s6, c);
    assert [] + [c.Forward(line)] == [c.Forward(line)];
    hide IsRun, Forwarder, Finish, Emit;
    RunGrows(run, s3, c);
    run := run + [s3];
    RunGrows(run, s4, c);
    run := run + [s4];
    RunGrows(run, s5, c);
    run := run + [s5];
    RunGrows(run, s6, c);
    run := run + [s6];
  }

  /** With a consumer that never reads, cancellation loses the one line that was taken. */
  lemma CancelLosesOne(line: RawLine, c: Config) returns (run: seq<State>)
    ensures IsRun(run, c) && run[|run| - 1].phase == Returned(None, false, Some(line))
    ensures run[|run| - 1].sent == [line] && run[|run| - 1].emitted == []
  {
    run := OneTaken(line, false, c);
    var s2 := run[|run| - 1];
    var s3 := s2.(phase := Blocked(line, MainSelect));
    var s4 := s3.(cancelled := true);
    var s5 := s4.(phase := Returned(None, false, Some(line)));
    assert Forwarder(s2, s3, c) && Environment(s3, s4) && Forwarder(s4, s5, c);
    hide IsRun, Forwarder, Environment;
    RunGrows(run, s3, c);
    run := run + [s3];
    RunGrows(run, s4, c);
    run := run + [s4];
    RunGrows(run, s5, c);
    run := run + [s5];
  }

  /* ---- Progress ---- */

  /** The forwarder cannot step exactly when it has returned, or is not cancelled and waits for the consumer at its
      blocking send, or for the producer at its select. Cancelled, it never waits. */
  lemma {:induction false} WaitsOnlyUncancelled(s: State, c: Config)
    ensures (exists t :: Forwarder(s, t, c))
       <==> !(|| s.phase.Returned?
              || (!s.cancelled && s.phase.Blocked? && !s.ready)
              || (!s.cancelled && s.phase.Selecting? && s.inner == [] && s.done.None?))
  {
    match s.phase
    case Selecting =>
      if s.inner != [] {
        assert Forwarder(s, Take(s, MainSelect), c);
      } else if s.done.Some? {
        assert Forwarder(s, s.(done := None, phase := Draining(s.done.value)), c);
      } else if s.cancelled {
        assert Forwarder(s, s.(phase := Returned(None, false, None)), c);
      }
    case Trying(line, caller) =>
      assert Forwarder(s, if s.ready then Emit(s, line, caller, c) else s.(phase := Blocked(line, caller)), c);
    case Blocked(line, caller) =>
      if s.ready {
        assert Forwarder(s, Emit(s, line, caller, c), c);
      } else if s.cancelled {
        var end := match caller
                   case MainSelect => Returned(None, false, Some(line))
                   case DrainLoop(err) => Returned(err, true, Some(line));
        assert Forwarder(s, s.(phase := end), c);
      }
    case Draining(err) =>
      assert Forwarder(s, if s.inner != [] then Take(s, DrainLoop(err)) else s.(phase := Returned(err, true, None)), c);
    case Returned(_, _, _) =>
  }

  /** At its selects the forwarder may take any case that is ready, whatever else is. */
  lemma AnyReadyCase(s: State, c: Config)
    ensures s.phase.Selecting? && s.inner != [] ==> Forwarder(s, Take(s, MainSelect), c)
    ensures s.phase.Selecting? && s.done.Some? ==> Forwarder(s, s.(done := None, phase := Draining(s.done.value)), c)
    ensures s.phase.Selecting? && s.cancelled ==> Forwarder(s, s.(phase := Returned(None, false, None)), c)
    ensures s.phase.Blocked? && s.ready ==> Forwarder(s, Emit(s, s.phase.line, s.phase.caller, c), c)
    ensures s.phase.Blocked? && s.cancelled ==>
              exists t :: Forwarder(s, t, c) && t.phase.Returned? && t.emitted == s.emitted
  {
    if s.phase.Blocked? && s.cancelled {
      var end := match s.phase.caller
                 case MainSelect => Returned(None, false, Some(s.phase.line))
                 case DrainLoop(err) => Returned(err, true, Some(s.phase.line));
      assert Forwarder(s, s.(phase := end), c);
    }
  }

  /** How many steps the forwarder can still take on the lines now in inner. */
  function Measure(s: State): nat {
    match s.phase
    case Returned(_, _, _) => 0
    case Draining(_) => 5 * |s.inner| + 1
    case Selecting => 5 * |s.inner| + 2
    case Blocked(_, _) => 5 * |s.inner| + 3
    case Trying(_, _) => 5 * |s.inner| + 4
  }

  /** A forwarder that runs alone from s: nobody sends to inner any more. */
  ghost predicate RunsAlone(run: seq<State>, c: Config) {
    run != [] && forall i :: 0 <= i < |run| - 1 ==> Forwarder(run[i], run[i + 1], c) || Environment(run[i], run[i + 1])
  }

  /** The forwarder's own steps in a run. */
  ghost function OwnSteps(run: seq<State>, c: Config): nat
    requires run != []
  {
    if |run| == 1 then 0
    else OwnSteps(run[..|run| - 1], c) + if Forwarder(run[|run| - 2], run[|run| - 1], c) then 1 else 0
  }

  lemma {:induction false} StepDecreases(s: State, t: State, c: Config)
    ensures Forwarder(s, t, c) ==> Measure(t) < Measure(s)
    ensures Environment(s, t) ==> Measure(t) == Measure(s)
  {
  }

  /** Once the producer is silent the forwarder takes at most Measure steps, whatever the consumer and cancellation do:
      with WaitsOnlyUncancelled, a cancelled forwarder returns. */
  lemma {:induction false} StepsAreBounded(run: seq<State>, c: Config)
    requires RunsAlone(run, c)
    ensures OwnSteps(run, c) + Measure(run[|run| - 1]) <= Measure(run[0])
  {
    hide Forwarder, Environment, Measure;
    if |run| > 1 {
      var n := |run| - 1;
      assert Forwarder(run[n - 1], run[n - 1 + 1], c) || Environment(run[n - 1], run[n - 1 + 1]);
      StepDecreases(run[n - 1], run[n], c);
      assert RunsAlone(run[..n], c) by {
        forall i | 0 <= i < n - 1
          ensures Forwarder(run[..n][i], run[..n][i + 1], c) || Environment(run[..n][i], run[..n][i + 1])
        {
          assert Forwarder(run[i], run[i + 1], c) || Environment(run[i], run[i + 1]);
        }
      }
      StepsAreBounded(run[..n], c);
    }
  }
}
