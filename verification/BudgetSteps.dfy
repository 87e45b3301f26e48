/** The daily token budget under concurrent calls, as a step system. A call of Consume, and the daemon's gate (Exceeded,
    then NoteExceededToday), is cut into its steps: record, read the total, read the clock, and the step under the lock.
    The clock is read before the lock is taken. */
module BudgetSteps {
  import opened Budget
  import opened Net
  import opened Options

  datatype Kind = Consume(usage: Usage, ip: Addr) | Gate

  datatype Result = Notified(day: int) | Quiet | Failed

  datatype Pc =
    | Recording            // Consume, before RecordUsage
    | Checking             // before the total is read
    | Breached             // the limit is reached; before the clock is read
    | Stamped(day: int)    // the day is read; before the lock
    | Done(result: Result)

  datatype Call = Call(kind: Kind, pc: Pc)

  datatype State = State(day: int, rows: seq<Row>, notified: Option<int>, calls: seq<Call>)

  /** Whether a call that reads the total now goes on to note the breach. */
  predicate SeesBreach(s: State, kind: Kind, daily: int) {
    Left(s.rows, s.day, daily).remaining == 0 && if kind.Gate? then daily > 0 else daily != 0
  }

  /* ---- Steps ---- */

  function At(s: State, i: nat, pc: Pc): State
    requires i < |s.calls|
  {
    s.(calls := s.calls[i := s.calls[i].(pc := pc)])
  }

  function AfterRecord(s: State, i: nat, daily: int): State
    requires i < |s.calls| && s.calls[i].kind.Consume?
  {
    var kind := s.calls[i].kind;
    var t := At(s, i, if daily == 0 then Done(Quiet) else Checking);
    t.(rows := s.rows + [Recorded(s.day, kind.usage, kind.ip)])
  }

  function AfterCheck(s: State, i: nat, daily: int): State
    requires i < |s.calls|
  {
    At(s, i, if SeesBreach(s, s.calls[i].kind, daily) then Breached else Done(Quiet))
  }

  /** The step under the lock: compare the noted day with the day that was read, and replace it. */
  function AfterLock(s: State, i: nat): State
    requires i < |s.calls| && s.calls[i].pc.Stamped?
  {
    var day := s.calls[i].pc.day;
    if s.notified == Some(day) then At(s, i, Done(Quiet)) else At(s, i, Done(Notified(day))).(notified := Some(day))
  }

  /** A step of call i. */
  ghost predicate Moves(s: State, t: State, i: nat, daily: int) {
    && i < |s.calls|
    && match s.calls[i].pc
       case Recording => t == At(s, i, Done(Failed)) || (s.calls[i].kind.Consume? && t == AfterRecord(s, i, daily))
       case Checking => t == At(s, i, Done(Failed)) || t == AfterCheck(s, i, daily)
       case Breached => t == At(s, i, Stamped(s.day))
       case Stamped(_) => t == AfterLock(s, i)
       case Done(_) => false
  }

  function Begin(s: State, kind: Kind): State {
    s.(calls := s.calls + [Call(kind, if kind.Consume? then Recording else Checking)])
  }

  ghost predicate Begins(s: State, t: State) {
    t.calls != [] && t == Begin(s, t.calls[|t.calls| - 1].kind)
  }

  /** The clock goes on; it never goes back. */
  ghost predicate Ticks(s: State, t: State) {
    s.day <= t.day && t == s.(day := t.day)
  }

  ghost predicate Step(s: State, t: State, daily: int) {
    Ticks(s, t) || Begins(s, t) || exists i: nat :: Moves(s, t, i, daily)
  }

  /** A new Budget. */
  ghost predicate Init(s: State) {
    s.notified.None? && s.calls == []
  }

  ghost predicate Run(run: seq<State>, daily: int) {
    run != [] && forall k :: 0 <= k < |run| - 1 ==> Step(run[k], run[k + 1], daily)
  }

  function Last(run: seq<State>): State
    requires run != []
  {
    run[|run| - 1]
  }

  lemma Prefix(run: seq<State>, daily: int)
    requires Run(run, daily) && |run| > 1
    ensures Run(run[..|run| - 1], daily) && Step(Last(run[..|run| - 1]), Last(run), daily)
  {
    hide Step;
    var k := |run| - 2;
    assert Step(run[k], run[k + 1], daily);
  }

  /* ---- At most once a day ---- */

  ghost predicate OncePerDay(s: State) {
    forall i, j ::
      0 <= i < j < |s.calls| && s.calls[i].pc.Done? && s.calls[j].pc.Done? && s.calls[i].pc.result.Notified?
      ==> s.calls[i].pc.result != s.calls[j].pc.result
  }

  /** No call waits for the lock with the day before. */
  ghost predicate Settled(s: State) {
    forall i :: 0 <= i < |s.calls| && s.calls[i].pc.Stamped? ==> s.calls[i].pc.day == s.day
  }

  ghost predicate SettledRun(run: seq<State>, daily: int) {
    Run(run, daily) && forall k :: 0 <= k < |run| ==> Settled(run[k])
  }

  /** What settled runs keep: the noted day is the latest that was notified. */
  ghost predicate Inv(s: State) {
    && OncePerDay(s)
    && (s.notified.Some? ==> s.notified.value <= s.day)
    && forall i :: 0 <= i < |s.calls| && s.calls[i].pc.Done? && s.calls[i].pc.result.Notified?
                   ==> s.notified.Some? && s.calls[i].pc.result.day <= s.notified.value
  }

  lemma {:induction false} StepKeepsInv(s: State, t: State, daily: int)
    requires Inv(s) && Settled(s) && Step(s, t, daily)
    ensures Inv(t)
  {
    hide Spent, Left, SeesBreach;
    if !Ticks(s, t) && !Begins(s, t) {
      var i: nat :| Moves(s, t, i, daily);
      assert forall j :: 0 <= j < |s.calls| && j != i ==> t.calls[j] == s.calls[j];
    }
  }

  lemma {:induction false} SettledRunKeepsInv(run: seq<State>, daily: int)
    requires SettledRun(run, daily) && Inv(run[0])
    ensures Inv(Last(run))
  {
    hide Inv, Settled, Step;
    if |run| > 1 {
      Prefix(run, daily);
      SettledRunKeepsInv(run[..|run| - 1], daily);
      StepKeepsInv(run[|run| - 2], Last(run), daily);
    }
  }

  /** In every run in which no call holds the day before while it waits for the lock, no day is notified twice. */
  lemma {:induction false} NotifiesOncePerDay(run: seq<State>, daily: int)
    requires SettledRun(run, daily) && Init(run[0])
    ensures OncePerDay(Last(run))
  {
    assert Inv(run[0]);
    SettledRunKeepsInv(run, daily);
  }

  /* ---- And only then ---- */

  /** t can be followed by u before the day changes again. */
  ghost predicate Today(run: seq<State>, t: State, u: State, daily: int) {
    Run(run, daily) && run[0] == t && Last(run) == u && forall k :: 0 <= k < |run| ==> run[k].day == t.day
  }

  lemma Extend(run: seq<State>, t: State, s: State, u: State, daily: int)
    requires Today(run, t, s, daily) && Step(s, u, daily) && s.day == u.day
    ensures Today(run + [u], t, u, daily)
  {
    hide Step;
    var more := run + [u];
    forall k | 0 <= k < |more| - 1 ensures Step(more[k], more[k + 1], daily) {
      if k < |run| - 1 {
        assert Step(run[k], run[k + 1], daily);
      }
    }
  }

  /** A call of Consume that runs alone, step by step, ends as the sequential Consume does. */
  lemma {:induction false} Alone(run: seq<State>, t: State, s: State, usage: Usage, ip: Addr, daily: int)
      returns (more: seq<State>, u: State)
    requires Today(run, t, s, daily)
    ensures Today(more, t, u, daily)
    ensures u.day == s.day && u.rows == s.rows + [Recorded(s.day, usage, ip)]
    ensures var notifies := Notifies(u.rows, s.notified, s.day, daily);
            && u.notified == (if notifies then Some(s.day) else s.notified)
            && u.calls == s.calls + [Call(Consume(usage, ip), Done(if notifies then Notified(s.day) else Quiet))]
  {
    hide Spent, Step;
    var i := |s.calls|;
    var s1 := Begin(s, Consume(usage, ip));
    StepBegin(s, Consume(usage, ip), daily);
    Extend(run, t, s, s1, daily);
    var s2 := AfterRecord(s1, i, daily);
    StepOf(s1, s2, i, daily);
    Extend(run + [s1], t, s1, s2, daily);
    if daily == 0 {
      return run + [s1] + [s2], s2;
    }
    var s3 := AfterCheck(s2, i, daily);
    StepOf(s2, s3, i, daily);
    Extend(run + [s1] + [s2], t, s2, s3, daily);
    if s3.calls[i].pc.Done? {
      return run + [s1] + [s2] + [s3], s3;
    }
    var s4 := At(s3, i, Stamped(s3.day));
    StepOf(s3, s4, i, daily);
    Extend(run + [s1] + [s2] + [s3], t, s3, s4, daily);
    u := AfterLock(s4, i);
    StepOf(s4, u, i, daily);
    Extend(run + [s1] + [s2] + [s3] + [s4], t, s4, u, daily);
    more := run + [s1] + [s2] + [s3] + [s4] + [u];
  }

  /** The daemon's gate run alone: it notes the breach exactly when a limit is set and reached and the day's was not
      noted before, and records nothing. */
  lemma {:induction false} GateAlone(run: seq<State>, t: State, s: State, daily: int)
      returns (more: seq<State>, u: State)
    requires Today(run, t, s, daily)
    ensures Today(more, t, u, daily)
    ensures u.day == s.day && u.rows == s.rows
    ensures var notes := && daily > 0 && InputToday(s.rows, s.day) + OutputToday(s.rows, s.day) >= daily
                         && s.notified != Some(s.day);
            && u.notified == (if notes then Some(s.day) else s.notified)
            && u.calls == s.calls + [Call(Gate, Done(if notes then Notified(s.day) else Quiet))]
  {
    ExceededIff(s.rows, s.day, daily);
    hide Spent, Step, InputToday, OutputToday;
    var i := |s.calls|;
    var s1 := Begin(s, Gate);
    StepBegin(s, Gate, daily);
    Extend(run, t, s, s1, daily);
    var s2 := AfterCheck(s1, i, daily);
    StepOf(s1, s2, i, daily);
    Extend(run + [s1], t, s1, s2, daily);
    if s2.calls[i].pc.Done? {
      return run + [s1] + [s2], s2;
    }
    var s3 := At(s2, i, Stamped(s2.day));
    StepOf(s2, s3, i, daily);
    Extend(run + [s1] + [s2], t, s2, s3, daily);
    u := AfterLock(s3, i);
    StepOf(s3, u, i, daily);
    Extend(run + [s1] + [s2] + [s3], t, s3, u, daily);
    more := run + [s1] + [s2] + [s3] + [u];
  }

  lemma StepBegin(s: State, kind: Kind, daily: int)
    ensures Step(s, Begin(s, kind), daily)
  {
    assert Begins(s, Begin(s, kind));
  }

  lemma StepOf(s: State, t: State, i: nat, daily: int)
    requires Moves(s, t, i, daily)
    ensures Step(s, t, daily)
  {
  }

  /** Any call may fail at either of its store calls. */
  lemma AnyStoreCallMayFail(s: State, i: nat, daily: int)
    requires i < |s.calls| && (s.calls[i].pc.Recording? || s.calls[i].pc.Checking?)
    ensures Step(s, At(s, i, Done(Failed)), daily)
  {
    assert Moves(s, At(s, i, Done(Failed)), i, daily);
  }

  /** A usage that brings any total to the limit. */
  function Enough(s: State, daily: int): Usage {
    Usage((if daily < 0 then 0 else daily) + (if Spent(s.rows, s.day) < 0 then -Spent(s.rows, s.day) else 0), 0, 0.0)
  }

  /** A new call that uses enough tokens and runs alone takes the notification of the day, when it is to be had. */
  lemma {:induction false} Burst(run: seq<State>, t: State, s: State, daily: int) returns (more: seq<State>, u: State)
    requires Today(run, t, s, daily) && daily != 0 && s.notified != Some(s.day)
    ensures Today(more, t, u, daily)
    ensures u.notified == Some(s.day) && u.day == s.day
    ensures u.calls == s.calls + [Call(Consume(Enough(s, daily), NoAddr), Done(Notified(s.day)))]
  {
    more, u := Alone(run, t, s, Enough(s, daily), NoAddr, daily);
    assert u.rows[..|u.rows| - 1] == s.rows;
  }

  /** A call that waits with the day before takes the noted day back, so that the new day is notified twice. */
  lemma {:induction false} StaleDayNotifiesTwice(t: State, i: nat, daily: int) returns (run: seq<State>, u: State)
    requires daily != 0 && t.notified != Some(t.day)
    requires i < |t.calls| && t.calls[i].pc.Stamped? && t.calls[i].pc.day != t.day
    ensures Today(run, t, u, daily) && !OncePerDay(u)
  {
    assert Today([t], t, t, daily);
    hide Spent;
    var r1, s1 := Burst([t], t, t, daily);
    var s2 := AfterLock(s1, i);
    assert Moves(s1, s2, i, daily);
    Extend(r1, t, s1, s2, daily);
    run, u := Burst(r1 + [s2], t, s2, daily);
    var a, b := |t.calls|, |s2.calls|;
    assert u.calls[a] == s2.calls[a] == s1.calls[a];
    assert u.calls[a].pc == u.calls[b].pc == Done(Notified(t.day));
  }

  /** A run that notifies one day twice: a first call reads day 0, midnight passes, a second call notifies day 1, the
      first one takes the lock, and a third call notifies day 1 again. */
  lemma {:induction false} MidnightNotifiesTwice(daily: int) returns (run: seq<State>)
    requires daily != 0
    ensures Run(run, daily) && Init(run[0]) && !OncePerDay(Last(run))
  {
    var s0 := State(0, [], None, []);
    var s1 := Begin(s0, Consume(Enough(s0, daily), NoAddr));
    var s2 := AfterRecord(s1, 0, daily);
    assert s2.rows[..0] == [];
    assert SeesBreach(s2, s2.calls[0].kind, daily);
    var s3 := AfterCheck(s2, 0, daily);
    var s4 := At(s3, 0, Stamped(s3.day));
    var s5 := s4.(day := 1);
    assert Begins(s0, s1) && Moves(s1, s2, 0, daily) && Moves(s2, s3, 0, daily) && Moves(s3, s4, 0, daily)
            && Ticks(s4, s5);
    var more, u := StaleDayNotifiesTwice(s5, 0, daily);
    hide Step;
    var first := [s0, s1, s2, s3, s4];
    run := first + more;
    forall k | 0 <= k < |run| - 1 ensures Step(run[k], run[k + 1], daily) {
      if k > 4 {
        assert Step(more[k - 5], more[k - 5 + 1], daily);
      }
    }
  }

  /** What every run keeps: no day that was read, noted or notified lies ahead of the clock. */
  ghost predicate NothingAhead(s: State) {
    && (s.notified.Some? ==> s.notified.value <= s.day)
    && forall i :: 0 <= i < |s.calls| ==>
         && (s.calls[i].pc.Stamped? ==> s.calls[i].pc.day <= s.day)
         && (s.calls[i].pc.Done? && s.calls[i].pc.result.Notified? ==> s.calls[i].pc.result.day <= s.day)
  }

  lemma {:induction false} StepKeepsNothingAhead(s: State, t: State, daily: int)
    requires NothingAhead(s) && Step(s, t, daily)
    ensures NothingAhead(t)
  {
    hide Spent, Left, SeesBreach;
    if !Ticks(s, t) && !Begins(s, t) {
      var i: nat :| Moves(s, t, i, daily);
      assert forall j :: 0 <= j < |s.calls| && j != i ==> t.calls[j] == s.calls[j];
    }
  }

  lemma {:induction false} RunKeepsNothingAhead(run: seq<State>, daily: int)
    requires Run(run, daily) && Init(run[0])
    ensures NothingAhead(Last(run))
  {
    hide NothingAhead, Step;
    if |run| > 1 {
      Prefix(run, daily);
      RunKeepsNothingAhead(run[..|run| - 1], daily);
      StepKeepsNothingAhead(run[|run| - 2], Last(run), daily);
    } else {
      InitIsNotAhead(run[0]);
    }
  }

  lemma InitIsNotAhead(s: State)
    requires Init(s)
    ensures NothingAhead(s)
  {
  }

  /** What a day keeps that began settled. */
  ghost predicate SafeToday(s: State) {
    OncePerDay(s) && Settled(s) && OnceToday(s)
  }

  lemma {:induction false} StepKeepsSafeToday(s: State, t: State, daily: int)
    requires SafeToday(s) && Step(s, t, daily) && s.day == t.day
    ensures SafeToday(t)
  {
    hide Step, Settled, OncePerDay, OnceToday;
    OnlyTicksUnsettle(s, t, daily);
    StepKeepsOnceToday(s, t, daily);
    StepKeepsOncePerDay(s, t, daily);
  }

  lemma {:induction false} StepKeepsOncePerDay(s: State, t: State, daily: int)
    requires OncePerDay(s) && Settled(s) && OnceToday(s) && Step(s, t, daily)
    ensures OncePerDay(t)
  {
    hide Spent, Left, SeesBreach;
    if !Ticks(s, t) && !Begins(s, t) {
      var i: nat :| Moves(s, t, i, daily);
      assert forall j :: 0 <= j < |s.calls| && j != i ==> t.calls[j] == s.calls[j];
      assert forall j :: 0 <= j < |s.calls| && s.calls[j].pc == Done(Notified(s.day)) ==> NotifiedIn(s, j);
    }
  }

  lemma {:induction false} TodayKeepsSafe(run: seq<State>, t: State, u: State, daily: int)
    requires SafeToday(t) && Today(run, t, u, daily)
    ensures SafeToday(u)
  {
    hide Step, SafeToday;
    if |run| > 1 {
      Prefix(run, daily);
      var shorter := run[..|run| - 1];
      assert shorter[|run| - 2] == run[|run| - 2];
      TodayKeepsSafe(shorter, t, Last(shorter), daily);
      StepKeepsSafeToday(Last(shorter), u, daily);
    }
  }

  /** After any run that has notified no day twice, whatever stale calls it had, the day that begins stays safe in every
      continuation exactly when no call waits for the lock with a day before it. */
  lemma {:induction false} OncePerDayIffSettled(run: seq<State>, t: State, daily: int)
    requires daily != 0 && Run(run, daily) && Init(run[0]) && OncePerDay(Last(run))
    requires Ticks(Last(run), t) && Last(run).day < t.day
    ensures Settled(t) <==> forall more, u :: Today(more, t, u, daily) ==> OncePerDay(u)
  {
    RunKeepsNothingAhead(run, daily);
    assert !SomeNotified(t) by {
      NobodyYet(Last(run), t);
    }
    if Settled(t) {
      assert SafeToday(t);
      forall more, u | Today(more, t, u, daily) ensures OncePerDay(u) {
        TodayKeepsSafe(more, t, u, daily);
      }
    } else {
      var i :| 0 <= i < |t.calls| && t.calls[i].pc.Stamped? && t.calls[i].pc.day != t.day;
      var more, u := StaleDayNotifiesTwice(t, i, daily);
    }
  }

  lemma NobodyYet(s: State, t: State)
    requires NothingAhead(s) && Ticks(s, t) && s.day < t.day
    ensures !SomeNotified(t) && t.notified != Some(t.day)
  {
    assert forall i :: 0 <= i < |t.calls| ==> t.calls[i] == s.calls[i];
  }

  lemma {:induction false} OnlyTicksUnsettle(s: State, t: State, daily: int)
    requires Settled(s) && Step(s, t, daily)
    ensures Settled(t) || (Ticks(s, t) && s.day < t.day)
  {
    hide Spent, Left, SeesBreach;
    if Begins(s, t) {
      assert forall j :: 0 <= j < |s.calls| ==> t.calls[j] == s.calls[j];
    } else if !Ticks(s, t) {
      var i: nat :| Moves(s, t, i, daily);
      assert forall j :: 0 <= j < |s.calls| && j != i ==> t.calls[j] == s.calls[j];
    }
  }

  lemma {:induction false} SameDayStaysSettled(run: seq<State>, t: State, u: State, daily: int)
    requires Settled(t) && Today(run, t, u, daily)
    ensures SettledRun(run, daily)
  {
    hide Step, Settled;
    if |run| > 1 {
      Prefix(run, daily);
      var shorter := run[..|run| - 1];
      SameDayStaysSettled(shorter, t, Last(shorter), daily);
      assert shorter[|run| - 2] == run[|run| - 2];
      OnlyTicksUnsettle(Last(shorter), u, daily);
      forall k | 0 <= k < |run| ensures Settled(run[k]) {
        if k < |run| - 1 {
          assert shorter[k] == run[k];
        }
      }
    }
  }

  /* ---- Exactly once ---- */

  /** Nothing runs, the limit is not reached, and nothing was notified today. */
  ghost predicate Quiescent(s: State, daily: int) {
    && (forall i :: 0 <= i < |s.calls| ==>
            s.calls[i].pc.Done? && s.calls[i].pc.result != Notified(s.day) && s.calls[i].pc != Done(Failed))
    && s.notified != Some(s.day) && Spent(s.rows, s.day) < daily
  }

  /** A new budget is, as long as the day's tokens are below its limit. */
  lemma NewIsQuiescent(s: State, daily: int)
    requires Init(s) && InputToday(s.rows, s.day) + OutputToday(s.rows, s.day) < daily
    ensures Quiescent(s, daily) && Nonnegative(s) && SettledRun([s], daily) && Today([s], s, s, daily)
  {
    SpentIsInputAndOutput(s.rows, s.day);
  }

  ghost predicate Nonnegative(s: State) {
    forall i :: 0 <= i < |s.calls| && s.calls[i].kind.Consume? ==>
            s.calls[i].kind.usage.input >= 0 && s.calls[i].kind.usage.output >= 0
  }

  predicate OnItsWay(pc: Pc, day: int) {
    pc.Checking? || pc.Breached? || pc == Stamped(day)
  }

  predicate NotifiedIn(s: State, i: int) {
    0 <= i < |s.calls| && s.calls[i].pc == Done(Notified(s.day))
  }

  ghost predicate SomeNotified(s: State) {
    exists i :: NotifiedIn(s, i)
  }

  ghost predicate SomeOnItsWay(s: State) {
    exists i :: 0 <= i < |s.calls| && OnItsWay(s.calls[i].pc, s.day)
  }

  ghost predicate SomeFailed(s: State) {
    exists i :: 0 <= i < |s.calls| && s.calls[i].pc == Done(Failed)
  }

  /** What a day keeps: nobody notifies below the limit, and at the limit the notification is made, on its way or lost
      with a failed call. */
  ghost predicate DayInv(s: State, daily: int) {
    && Settled(s)
    && (s.notified == Some(s.day) <==> SomeNotified(s))
    && (Spent(s.rows, s.day) < daily ==> !SomeNotified(s) && forall i :: 0 <= i < |s.calls| ==>
            !s.calls[i].pc.Breached? && !s.calls[i].pc.Stamped?)
    && (Spent(s.rows, s.day) >= daily ==> SomeNotified(s) || SomeOnItsWay(s) || SomeFailed(s))
  }

  lemma {:induction false} StepKeepsDayInv(s: State, t: State, daily: int)
    requires daily > 0 && DayInv(s, daily) && Nonnegative(t) && Step(s, t, daily) && s.day == t.day
    ensures DayInv(t, daily)
  {
    if Ticks(s, t) {
    } else if Begins(s, t) {
      BeginKeepsDayInv(s, t, daily);
    } else {
      var i: nat :| Moves(s, t, i, daily);
      MoveKeepsDayInv(s, t, i, daily);
    }
  }

  lemma {:induction false} BeginKeepsDayInv(s: State, t: State, daily: int)
    requires DayInv(s, daily) && Begins(s, t)
    ensures DayInv(t, daily)
  {
    hide Spent;
    assert forall j :: 0 <= j < |s.calls| ==> t.calls[j] == s.calls[j];
    assert forall j :: NotifiedIn(s, j) ==> NotifiedIn(t, j);
    assert forall j :: NotifiedIn(t, j) ==> NotifiedIn(s, j);
  }

  lemma {:induction false} MoveKeepsDayInv(s: State, t: State, i: nat, daily: int)
    requires daily > 0 && DayInv(s, daily) && Nonnegative(t) && Moves(s, t, i, daily)
    ensures DayInv(t, daily)
  {
    if s.calls[i].pc.Recording? && t != At(s, i, Done(Failed)) {
      RecordKeepsDayInv(s, i, daily);
    } else {
      hide Spent, Nonnegative;
      assert forall j :: 0 <= j < |s.calls| && j != i ==> t.calls[j] == s.calls[j];
      assert forall j :: NotifiedIn(s, j) ==> NotifiedIn(t, j);
      assert t.calls[i].pc == Done(Notified(t.day)) ==> NotifiedIn(t, i);
      assert forall j :: NotifiedIn(t, j) && j != i ==> NotifiedIn(s, j);
      if Spent(s.rows, s.day) >= daily {
        assert OnItsWay(s.calls[i].pc, s.day) ==>
            OnItsWay(t.calls[i].pc, t.day) || NotifiedIn(t, i) || t.calls[i].pc == Done(Failed) || SomeNotified(s);
      }
    }
  }

  lemma {:induction false} RecordKeepsDayInv(s: State, i: nat, daily: int)
    requires daily > 0 && DayInv(s, daily)
    requires i < |s.calls| && s.calls[i].pc.Recording? && s.calls[i].kind.Consume?
            && Nonnegative(AfterRecord(s, i, daily))
    ensures DayInv(AfterRecord(s, i, daily), daily)
  {
    var t := AfterRecord(s, i, daily);
    assert s.calls[i].kind == t.calls[i].kind;
    assert t.rows[..|t.rows| - 1] == s.rows;
    assert Spent(t.rows, t.day) >= Spent(s.rows, s.day);
    hide Spent, Nonnegative;
    assert forall j :: 0 <= j < |s.calls| && j != i ==> t.calls[j] == s.calls[j];
    assert OnItsWay(t.calls[i].pc, t.day);
    assert forall j :: NotifiedIn(t, j) <==> NotifiedIn(s, j);
  }

  lemma {:induction false} DayKeepsInv(run: seq<State>, t: State, u: State, daily: int)
    requires daily > 0 && Today(run, t, u, daily) && DayInv(t, daily) && Nonnegative(u)
    ensures DayInv(u, daily)
  {
    hide DayInv, Step, Nonnegative;
    if |run| > 1 {
      Prefix(run, daily);
      var shorter := run[..|run| - 1];
      assert shorter[|run| - 2] == run[|run| - 2];
      EarlierNonnegative(Last(shorter), u, daily);
      DayKeepsInv(shorter, t, Last(shorter), daily);
      StepKeepsDayInv(Last(shorter), u, daily);
    }
  }

  lemma {:induction false} EarlierNonnegative(s: State, t: State, daily: int)
    requires Step(s, t, daily) && Nonnegative(t)
    ensures Nonnegative(s)
  {
    hide Spent, SeesBreach;
    assert |s.calls| <= |t.calls| && forall j :: 0 <= j < |s.calls| ==> t.calls[j].kind == s.calls[j].kind;
  }

  /** Within one day, once every call that ran is done and none failed, exactly one call has notified if the limit was
      reached, and none otherwise, whatever the order of their steps. */
  lemma {:induction false} ExactlyOneNotifies(run: seq<State>, t: State, u: State, daily: int)
    requires daily > 0 && Today(run, t, u, daily) && Quiescent(t, daily)
    requires Nonnegative(u) && forall i :: 0 <= i < |u.calls| ==> u.calls[i].pc.Done? && u.calls[i].pc != Done(Failed)
    ensures Spent(u.rows, u.day) >= daily <==> SomeNotified(u)
    ensures InputToday(u.rows, u.day) + OutputToday(u.rows, u.day) >= daily <==> SomeNotified(u)
    ensures forall i, j :: NotifiedIn(u, i) && NotifiedIn(u, j) ==> i == j
  {
    ExceededIff(u.rows, u.day, daily);
    SpentIsInputAndOutput(u.rows, u.day);
    hide Spent;
    assert DayInv(t, daily);
    DayKeepsInv(run, t, u, daily);
    SameDayStaysSettled(run, t, u, daily);
    TodayOnce(run, t, u, daily);
  }

  ghost predicate OnceToday(s: State) {
    && (SomeNotified(s) ==> s.notified == Some(s.day))
    && forall i, j :: NotifiedIn(s, i) && NotifiedIn(s, j) ==> i == j
  }

  lemma {:induction false} TodayOnce(run: seq<State>, t: State, u: State, daily: int)
    requires Today(run, t, u, daily) && SettledRun(run, daily) && OnceToday(t)
    ensures OnceToday(u)
  {
    hide Step, Settled, OnceToday;
    if |run| > 1 {
      Prefix(run, daily);
      var shorter := run[..|run| - 1];
      assert shorter[|run| - 2] == run[|run| - 2];
      TodayOnce(shorter, t, Last(shorter), daily);
      StepKeepsOnceToday(Last(shorter), u, daily);
    }
  }

  lemma {:induction false} StepKeepsOnceToday(s: State, t: State, daily: int)
    requires OnceToday(s) && Settled(s) && Step(s, t, daily) && s.day == t.day
    ensures OnceToday(t)
  {
    hide Spent, Left, SeesBreach;
    if !Ticks(s, t) && !Begins(s, t) {
      var i: nat :| Moves(s, t, i, daily);
      assert forall j :: 0 <= j < |s.calls| && j != i ==> t.calls[j] == s.calls[j];
      assert forall j :: NotifiedIn(t, j) && j != i ==> NotifiedIn(s, j);
    } else {
      assert forall j :: NotifiedIn(t, j) ==> NotifiedIn(s, j);
    }
  }
}
