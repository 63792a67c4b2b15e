// CyclicRunner (util/cyclic_runner.cc): the runner's thread and any number of quitting threads on a steady clock.
module CyclicRunner {
  import opened Results

  /** Where the thread inside Start is. `lap` is the time at which the current iteration built its timer. */
  datatype Phase =
    | NotRunning
    | BeforeCheck
    | BeforeTimer
    | BeforeTask(lap: nat)
    | InTask(lap: nat)
    | Waiting(lap: nat)
    | Woken(lap: nat)
    | Returned

  /** now, period: steady clock ticks. laps, starts: when timers were built and task calls began, oldest first. */
  datatype Sys = Sys(
    now: nat, period: int, started: bool, quit: bool, phase: Phase,
    laps: seq<nat>, starts: seq<nat>, startsAtQuit: nat, replies: seq<StatusCode>)

  const INIT := Sys(0, 0, false, false, NotRunning, [], [], 0, [])

  datatype Label =
    | Tick(elapsed: nat)
    | Quit
    | Start(period: int)
    | CheckQuit
    | BuildTimer
    | StartTask
    | EndTask
    | Wake          // quit, the deadline or a spurious wake-up ended the wait; the lock is held and released
    | CheckElapsed

  predicate Enabled(s: Sys, l: Label) {
    match l
    case Tick(_) => true
    case Quit => true
    case Start(_) => true
    case CheckQuit => s.phase.BeforeCheck?
    case BuildTimer => s.phase.BeforeTimer?
    case StartTask => s.phase.BeforeTask?
    case EndTask => s.phase.InTask?
    case Wake => s.phase.Waiting?
    case CheckElapsed => s.phase.Woken?
  }

  function Apply(s: Sys, l: Label): Sys
    requires Enabled(s, l)
  {
    match l
    case Tick(elapsed) => s.(now := s.now + elapsed)
    case Quit => if s.quit then s else s.(quit := true, startsAtQuit := |s.starts|)
    case Start(period) =>
      if s.started then s.(replies := s.replies + [FailedPrecondition])
      else if period <= 0 then s.(started := true, replies := s.replies + [InvalidArgument])
      else s.(started := true, period := period, phase := BeforeCheck)
    case CheckQuit =>
      if s.quit then s.(phase := Returned, replies := s.replies + [OkCode]) else s.(phase := BeforeTimer)
    case BuildTimer => s.(phase := BeforeTask(s.now), laps := s.laps + [s.now])
    case StartTask => s.(phase := InTask(s.phase.lap), starts := s.starts + [s.now])
    case EndTask => s.(phase := Waiting(s.phase.lap))
    case Wake =>
      if s.quit then s.(phase := Returned, replies := s.replies + [OkCode])
      else s.(phase := Woken(s.phase.lap))
    case CheckElapsed => if s.period <= s.now - s.phase.lap then s.(phase := BeforeTimer) else s.(phase := Waiting(s.phase.lap))
  }

  ghost predicate ValidRun(s: Sys, run: seq<Label>)
    decreases |run|
  {
    run == [] || (Enabled(s, run[0]) && ValidRun(Apply(s, run[0]), run[1..]))
  }

  ghost function After(s: Sys, run: seq<Label>): Sys
    requires ValidRun(s, run)
    decreases |run|
  {
    if run == [] then s else After(Apply(s, run[0]), run[1..])
  }

  ghost predicate Reachable(s: Sys) {
    exists run :: ValidRun(INIT, run) && After(INIT, run) == s
  }

  // ---------- The invariant ----------

  predicate HasLap(p: Phase) {
    p.BeforeTask? || p.InTask? || p.Waiting? || p.Woken?
  }

  /** The current iteration's timer is the last one built, and its task call the last one begun. */
  ghost predicate IterationFits(s: Sys) {
    && |s.laps| == |s.starts| + (if s.phase.BeforeTask? then 1 else 0)
    && (HasLap(s.phase) ==> s.laps != [] && s.phase.lap == s.laps[|s.laps| - 1])
    && (s.phase.NotRunning? || s.phase.BeforeCheck? ==> s.laps == [])
    && (s.started <== !s.phase.NotRunning?)
    && (!s.phase.NotRunning? ==> s.period > 0)
  }

  /** Timers are a period apart, the next one only when the period is over, and task calls follow their timers. */
  ghost predicate TimesFit(s: Sys) {
    && (forall k :: 0 <= k < |s.laps| ==> s.laps[k] <= s.now)
    && (forall k :: 0 <= k < |s.starts| && k < |s.laps| ==> s.laps[k] <= s.starts[k] <= s.now)
    && (forall j, k :: 0 <= j < |s.starts| && j < k < |s.laps| ==> s.starts[j] <= s.laps[k])
    && (forall j, k :: 0 <= j < k < |s.laps| ==> s.laps[j] + s.period <= s.laps[k])
    && (s.phase.BeforeTimer? ==> forall k :: 0 <= k < |s.laps| ==> s.laps[k] + s.period <= s.now)
  }

  /** A task call that began after Quit is the last: its wait notices. */
  ghost predicate QuitFits(s: Sys) {
    s.quit ==>
      && s.startsAtQuit <= |s.starts| <= s.startsAtQuit + 1
      && (|s.starts| == s.startsAtQuit + 1 ==> s.phase.InTask? || s.phase.Waiting? || s.phase.Returned?)
  }

  ghost predicate Inv(s: Sys) {
    IterationFits(s) && TimesFit(s) && QuitFits(s)
  }

  lemma StepKeepsIteration(s: Sys, l: Label)
    requires IterationFits(s) && Enabled(s, l)
    ensures IterationFits(Apply(s, l))
  {
  }

  lemma BuildTimerKeepsTimes(s: Sys)
    requires IterationFits(s) && TimesFit(s) && s.phase.BeforeTimer?
    ensures TimesFit(Apply(s, BuildTimer))
  {
    var t := Apply(s, BuildTimer);
    var n := |s.laps|;
    forall j, k | 0 <= j < k < |t.laps| ensures t.laps[j] + t.period <= t.laps[k] {
      assert t.laps[j] == s.laps[j];
      if k < n {
        assert t.laps[k] == s.laps[k];
      }
    }
    forall j, k | 0 <= j < |t.starts| && j < k < |t.laps| ensures t.starts[j] <= t.laps[k] {
      if k < n {
        assert t.laps[k] == s.laps[k];
      }
    }
  }

  lemma StartTaskKeepsTimes(s: Sys)
    requires IterationFits(s) && TimesFit(s) && s.phase.BeforeTask?
    ensures TimesFit(Apply(s, StartTask))
  {
    var t := Apply(s, StartTask);
    var n := |s.starts|;
    assert s.laps[n] <= s.now;
    forall k | 0 <= k < |t.starts| && k < |t.laps| ensures t.laps[k] <= t.starts[k] <= t.now {
      if k < n {
        assert t.starts[k] == s.starts[k];
      }
    }
    forall j, k | 0 <= j < |t.starts| && j < k < |t.laps| ensures t.starts[j] <= t.laps[k] {
      assert t.starts[j] == s.starts[j];
    }
  }

  lemma SameTimes(s: Sys, t: Sys)
    requires TimesFit(s) && t.laps == s.laps && t.starts == s.starts && t.now == s.now && t.period == s.period
    requires t.phase.BeforeTimer? ==> forall k :: 0 <= k < |s.laps| ==> s.laps[k] + s.period <= s.now
    ensures TimesFit(t)
  {
  }

  lemma LastLapIsLatest(s: Sys)
    requires TimesFit(s) && s.laps != [] && s.period > 0
    ensures forall k :: 0 <= k < |s.laps| ==> s.laps[k] <= s.laps[|s.laps| - 1]
  {
    var n := |s.laps| - 1;
    forall k | 0 <= k < |s.laps| ensures s.laps[k] <= s.laps[n] {
      if k < n {
        assert s.laps[k] + s.period <= s.laps[n];
      }
    }
  }

  lemma CheckElapsedKeepsTimes(s: Sys)
    requires IterationFits(s) && TimesFit(s) && s.phase.Woken?
    ensures TimesFit(Apply(s, CheckElapsed))
  {
    LastLapIsLatest(s);
    hide TimesFit;
    SameTimes(s, Apply(s, CheckElapsed));
  }

  lemma OtherStepKeepsTimes(s: Sys, l: Label)
    requires IterationFits(s) && TimesFit(s) && Enabled(s, l) && !l.BuildTimer? && !l.StartTask? && !l.CheckElapsed?
    ensures TimesFit(Apply(s, l))
  {
    var t := Apply(s, l);
    assert t.laps == s.laps && t.starts == s.starts && s.now <= t.now;
  }

  lemma StepKeepsTimes(s: Sys, l: Label)
    requires IterationFits(s) && TimesFit(s) && Enabled(s, l)
    ensures TimesFit(Apply(s, l))
  {
    hide IterationFits, TimesFit;
    match l {
      case BuildTimer => BuildTimerKeepsTimes(s);
      case StartTask => StartTaskKeepsTimes(s);
      case CheckElapsed => CheckElapsedKeepsTimes(s);
      case _ => OtherStepKeepsTimes(s, l);
    }
  }

  lemma StepKeepsQuit(s: Sys, l: Label)
    requires IterationFits(s) && QuitFits(s) && Enabled(s, l)
    ensures QuitFits(Apply(s, l))
  {
  }

  lemma {:induction false} RunKeepsInv(s: Sys, run: seq<Label>)
    requires Inv(s) && ValidRun(s, run)
    ensures Inv(After(s, run))
    decreases |run|
  {
    hide IterationFits, TimesFit, QuitFits;
    if run != [] {
      StepKeepsIteration(s, run[0]);
      StepKeepsTimes(s, run[0]);
      StepKeepsQuit(s, run[0]);
      RunKeepsInv(Apply(s, run[0]), run[1..]);
    }
  }

  lemma ReachableInv(s: Sys)
    requires Reachable(s)
    ensures Inv(s)
  {
    var run :| ValidRun(INIT, run) && After(INIT, run) == s;
    RunKeepsInv(INIT, run);
  }

  // ---------- Quit ----------

  lemma {:induction false} QuitFixed(s: Sys, run: seq<Label>)
    requires s.quit && ValidRun(s, run)
    ensures After(s, run).quit && After(s, run).startsAtQuit == s.startsAtQuit
    decreases |run|
  {
    if run != [] {
      QuitFixed(Apply(s, run[0]), run[1..]);
    }
  }

  /** However Quit interleaves, at most one task call begins after it, in any run. */
  lemma AtMostOneStartAfterQuit(s: Sys, run: seq<Label>)
    requires Reachable(s) && ValidRun(Apply(s, Quit), run)
    ensures |After(Apply(s, Quit), run).starts| <= |s.starts| + 1
  {
    ReachableInv(s);
    var t := Apply(s, Quit);
    StepKeepsIteration(s, Quit);
    StepKeepsTimes(s, Quit);
    StepKeepsQuit(s, Quit);
    RunKeepsInv(t, run);
    QuitFixed(t, run);
  }

  /** None begins if Quit comes before Start. */
  lemma {:induction false} QuitBeforeStart(s: Sys, run: seq<Label>)
    requires s.quit && s.starts == [] && (s.phase.NotRunning? || s.phase.BeforeCheck? || s.phase.Returned?)
    requires ValidRun(s, run)
    ensures After(s, run).starts == []
    decreases |run|
  {
    if run != [] {
      QuitBeforeStart(Apply(s, run[0]), run[1..]);
    }
  }

  lemma {:induction false} StartedStays(s: Sys, run: seq<Label>)
    requires s.started && ValidRun(s, run)
    ensures After(s, run).started
    decreases |run|
  {
    if run != [] {
      StartedStays(Apply(s, run[0]), run[1..]);
    }
  }

  /** A runner runs at most once: after any call of Start, also one refused for its period, every other is refused. */
  lemma StartsOnce(s: Sys, first: int, run: seq<Label>, period: int)
    requires ValidRun(Apply(s, Start(first)), run)
    ensures var t := After(Apply(s, Start(first)), run);
            Apply(t, Start(period)) == t.(replies := t.replies + [FailedPrecondition])
  {
    StartedStays(Apply(s, Start(first)), run);
  }

  /** The first call of Start is refused exactly for a period that is not positive. */
  lemma FirstStart(run: seq<Label>, period: int)
    requires ValidRun(INIT, run) && forall k :: 0 <= k < |run| ==> !run[k].Start?
    ensures var s, t := After(INIT, run), Apply(After(INIT, run), Start(period));
            && s.replies == []
            && t.replies == (if period > 0 then [] else [InvalidArgument])
            && (t.phase.NotRunning? <==> period <= 0) && (period > 0 ==> t.period == period)
  {
    NotStarted(INIT, run);
  }

  lemma {:induction false} NotStarted(s: Sys, run: seq<Label>)
    requires !s.started && s.phase.NotRunning? && ValidRun(s, run) && forall k :: 0 <= k < |run| ==> !run[k].Start?
    ensures var t := After(s, run); !t.started && t.phase.NotRunning? && t.replies == s.replies
    decreases |run|
  {
    if run != [] {
      assert !run[0].Start?;
      assert forall k :: 0 <= k < |run[1..]| ==> run[1..][k] == run[k + 1];
      NotStarted(Apply(s, run[0]), run[1..]);
    }
  }

  // ---------- What the calls of Start return ----------

  /** The call that ran returned OK; all others were refused. */
  ghost predicate OneReturned(replies: seq<StatusCode>, k: nat) {
    k < |replies| && replies[k] == OkCode && forall j :: 0 <= j < |replies| && j != k ==> replies[j] == FailedPrecondition
  }

  ghost predicate RepliesFit(s: Sys) {
    if !s.started then s.replies == [] && s.phase.NotRunning?
    else if s.phase.NotRunning? then
      s.replies != [] && s.replies[0] == InvalidArgument && forall k :: 0 < k < |s.replies| ==> s.replies[k] == FailedPrecondition
    else if s.phase.Returned? then exists k: nat :: OneReturned(s.replies, k)
    else forall k :: 0 <= k < |s.replies| ==> s.replies[k] == FailedPrecondition
  }

  lemma StepKeepsReplies(s: Sys, l: Label)
    requires IterationFits(s) && RepliesFit(s) && Enabled(s, l)
    ensures RepliesFit(Apply(s, l))
  {
    var t := Apply(s, l);
    if t.phase.Returned? {
      if s.phase.Returned? {
        var k: nat :| OneReturned(s.replies, k);
        assert OneReturned(t.replies, k);
      } else {
        assert OneReturned(t.replies, |s.replies|);
      }
    }
  }

  lemma {:induction false} RunKeepsReplies(s: Sys, run: seq<Label>)
    requires IterationFits(s) && RepliesFit(s) && ValidRun(s, run)
    ensures RepliesFit(After(s, run))
    decreases |run|
  {
    hide IterationFits, RepliesFit;
    if run != [] {
      StepKeepsIteration(s, run[0]);
      StepKeepsReplies(s, run[0]);
      RunKeepsReplies(Apply(s, run[0]), run[1..]);
    }
  }

  /** Start returns OK exactly once the runner has quit, and only for the call that ran it. */
  lemma OkOnlyAfterQuit(s: Sys)
    requires Reachable(s)
    ensures RepliesFit(s)
    ensures OkCode in s.replies <==> s.phase.Returned?
    ensures s.phase.Returned? ==> s.quit
  {
    var run :| ValidRun(INIT, run) && After(INIT, run) == s;
    RunKeepsReplies(INIT, run);
    if s.phase.Returned? {
      var k: nat :| OneReturned(s.replies, k);
      assert s.replies[k] in s.replies;
    }
    ReturnedHasQuit(INIT, run);
  }

  lemma {:induction false} ReturnedHasQuit(s: Sys, run: seq<Label>)
    requires ValidRun(s, run) && (s.phase.Returned? ==> s.quit)
    ensures After(s, run).phase.Returned? ==> After(s, run).quit
    decreases |run|
  {
    if run != [] {
      ReturnedHasQuit(Apply(s, run[0]), run[1..]);
    }
  }

  // ---------- The period ----------

  /** Iterations never catch up: the timers of two iterations are at least that many periods apart. */
  lemma {:induction false} LapsApart(s: Sys, i: nat, j: nat)
    requires Inv(s) && i <= j < |s.laps|
    ensures s.laps[j] >= s.laps[i] + (j - i) * s.period
    decreases j
  {
    if i < j {
      LapsApart(s, i, j - 1);
      Distribute(j - i, s.period);
    }
  }

  lemma Distribute(n: int, p: int)
    ensures n * p == (n - 1) * p + p
  {
  }

  /**
   * A task call begins at least one period after the timer of an earlier iteration for every iteration in between, and
   * after the earlier call began. So calls are that far apart as well if the earlier one began on its timer.
   */
  lemma StartsApart(s: Sys, i: nat, j: nat)
    requires Reachable(s) && i < j < |s.starts|
    ensures |s.laps| >= |s.starts| && s.laps[i] <= s.starts[i] <= s.laps[j] <= s.starts[j]
    ensures s.starts[j] >= s.laps[i] + (j - i) * s.period
    ensures s.starts[i] == s.laps[i] ==> s.starts[j] >= s.starts[i] + (j - i) * s.period
  {
    ReachableInv(s);
    LapsApart(s, i, j);
  }

  lemma {:induction false} RunSnoc(s: Sys, run: seq<Label>, l: Label)
    requires ValidRun(s, run) && Enabled(After(s, run), l)
    ensures ValidRun(s, run + [l]) && After(s, run + [l]) == Apply(After(s, run), l)
    decreases |run|
  {
    hide Enabled, Apply;
    if run == [] {
      assert run + [l] == [l] && [l][1..] == [];
    } else {
      assert (run + [l])[1..] == run[1..] + [l];
      RunSnoc(Apply(s, run[0]), run[1..], l);
    }
  }

  lemma ReachableStep(s: Sys, l: Label)
    requires Reachable(s) && Enabled(s, l)
    ensures Reachable(Apply(s, l))
  {
    hide Enabled, Apply;
    var run :| ValidRun(INIT, run) && After(INIT, run) == s;
    RunSnoc(INIT, run, l);
  }

  // ---------- When calls are a period apart ----------

  /** What has been recorded stays, and a runner keeps its period. */
  lemma {:induction false} RecordsGrow(s: Sys, run: seq<Label>)
    requires ValidRun(s, run) && s.started
    ensures var t := After(s, run);
            t.started && t.period == s.period && s.laps <= t.laps && s.starts <= t.starts
    decreases |run|
  {
    if run != [] {
      RecordsGrow(Apply(s, run[0]), run[1..]);
    }
  }

  lemma {:induction false} RunAppend(s: Sys, run: seq<Label>, more: seq<Label>)
    requires ValidRun(s, run) && ValidRun(After(s, run), more)
    ensures ValidRun(s, run + more) && After(s, run + more) == After(After(s, run), more)
    decreases |more|
  {
    hide Enabled, Apply;
    if more == [] {
      assert run + more == run;
    } else {
      RunSnoc(s, run, more[0]);
      RunAppend(s, run + [more[0]], more[1..]);
      assert run + [more[0]] + more[1..] == run + more;
    }
  }

  lemma ReachableRun(s: Sys, run: seq<Label>)
    requires Reachable(s) && ValidRun(s, run)
    ensures Reachable(After(s, run))
  {
    hide Enabled, Apply, ValidRun, After;
    var first :| ValidRun(INIT, first) && After(INIT, first) == s;
    RunAppend(INIT, first, run);
  }

  /** The task call in progress has just begun. */
  ghost predicate JustStarted(s: Sys) {
    s.phase.InTask? && s.starts != [] && s.starts[|s.starts| - 1] == s.now
  }

  /** Whatever happens next, the next task call begins at least a period after this one. */
  ghost predicate NextCallAPeriodLater(s: Sys) {
    forall run :: ValidRun(s, run) && |After(s, run).starts| > |s.starts| ==>
      After(s, run).starts[|s.starts|] >= s.now + s.period
  }

  lemma LastLap(s: Sys)
    requires Reachable(s) && JustStarted(s)
    ensures |s.laps| == |s.starts| && s.laps[|s.laps| - 1] == s.phase.lap <= s.now && s.started && s.period > 0
  {
    ReachableInv(s);
    hide Reachable, QuitFits;
  }

  /** A call that began on its timer. */
  lemma OnTimeKeepsPeriod(s: Sys, run: seq<Label>)
    requires Reachable(s) && JustStarted(s) && s.phase.lap == s.now
    requires ValidRun(s, run) && |After(s, run).starts| > |s.starts|
    ensures After(s, run).starts[|s.starts|] >= s.now + s.period
  {
    LastLap(s);
    ReachableRun(s, run);
    RecordsGrow(s, run);
    hide Reachable, ValidRun, After;
    var t, n := After(s, run), |s.starts|;
    assert t.laps[n - 1] == s.laps[n - 1] && t.starts[n - 1] == s.starts[n - 1];
    StartsApart(t, n - 1, n);
  }

  /** After Quit a call in progress is the last. */
  lemma {:induction false} NoneAfterQuit(s: Sys, run: seq<Label>)
    requires s.quit && s.started && (s.phase.InTask? || s.phase.Waiting? || s.phase.Returned?)
    requires ValidRun(s, run)
    ensures After(s, run).starts == s.starts
    decreases |run|
  {
    if run != [] {
      NoneAfterQuit(Apply(s, run[0]), run[1..]);
    }
  }

  /** A call that began late: the next one may begin less than a period later, in an iteration that takes no longer than it must. */
  lemma LateBreaksPeriod(s: Sys) returns (run: seq<Label>)
    requires Reachable(s) && JustStarted(s) && s.phase.lap < s.now && !s.quit
    ensures ValidRun(s, run) && |After(s, run).starts| == |s.starts| + 1
    ensures After(s, run).starts[|s.starts|] < s.now + s.period
  {
    LastLap(s);
    hide Reachable, ValidRun, After;
    var elapsed := s.now - s.phase.lap;
    var rest: nat := if elapsed < s.period then s.period - elapsed else 0;
    NoRun(s);
    var t := s;
    run := [];
    run, t := Extended(s, run, t, EndTask);
    run, t := Extended(s, run, t, Tick(rest));
    run, t := Extended(s, run, t, Wake);
    run, t := Extended(s, run, t, CheckElapsed);
    run, t := Extended(s, run, t, BuildTimer);
    run, t := Extended(s, run, t, StartTask);
  }

  lemma NoRun(s: Sys)
    ensures ValidRun(s, []) && After(s, []) == s
  {
  }

  lemma Extended(s: Sys, run: seq<Label>, t: Sys, l: Label) returns (longer: seq<Label>, next: Sys)
    requires ValidRun(s, run) && After(s, run) == t && Enabled(t, l)
    ensures ValidRun(s, longer) && After(s, longer) == next == Apply(t, l)
  {
    RunSnoc(s, run, l);
    longer, next := run + [l], Apply(t, l);
  }

  /**
   * Right after a task call has begun, the next call begins at least a period later in every continuation if and only if
   * this one began at the moment its timer was built, or Quit has been called and there is no next call.
   */
  lemma NextCallAPeriodLaterIff(s: Sys)
    requires Reachable(s) && JustStarted(s)
    ensures NextCallAPeriodLater(s) <==> s.phase.lap == s.now || s.quit
  {
    LastLap(s);
    hide Reachable;
    if s.phase.lap == s.now || s.quit {
      forall run | ValidRun(s, run) && |After(s, run).starts| > |s.starts|
        ensures After(s, run).starts[|s.starts|] >= s.now + s.period
      {
        if s.quit {
          NoneAfterQuit(s, run);
        } else {
          OnTimeKeepsPeriod(s, run);
        }
      }
    } else {
      var run := LateBreaksPeriod(s);
    }
  }

  /**
   * Consecutive task calls can begin less than a period apart, only timers cannot: here the thread loses the processor
   * for 9 of 10 ticks between building its timer and calling the task.
   */
  lemma CallsCanBeCloser() returns (s: Sys)
    ensures Reachable(s) && s.period == 10 && s.starts == [9, 10]
  {
    hide Reachable;
    s := INIT;
    InitReachable();
    ReachableStep(s, Start(10));
    s := Apply(s, Start(10));
    ReachableStep(s, CheckQuit);
    s := Apply(s, CheckQuit);
    ReachableStep(s, BuildTimer);
    s := Apply(s, BuildTimer);
    ReachableStep(s, Tick(9));
    s := Apply(s, Tick(9));
    ReachableStep(s, StartTask);
    s := Apply(s, StartTask);
    ReachableStep(s, EndTask);
    s := Apply(s, EndTask);
    ReachableStep(s, Tick(1));
    s := Apply(s, Tick(1));
    ReachableStep(s, Wake);
    s := Apply(s, Wake);
    ReachableStep(s, CheckElapsed);
    s := Apply(s, CheckElapsed);
    ReachableStep(s, BuildTimer);
    s := Apply(s, BuildTimer);
    ReachableStep(s, StartTask);
    s := Apply(s, StartTask);
  }

  lemma InitReachable()
    ensures Reachable(INIT)
  {
    assert ValidRun(INIT, []) && After(INIT, []) == INIT;
  }
}
