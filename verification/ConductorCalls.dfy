// What the conductor's calls about its operation have brought about when they go on or return (conductor/conductor.cc),
// over all runs of the threads in ConductorLocks.
module ConductorCalls {
  import opened Results
  import opened ConductorLocks
  import opened ConductorSafety

  // ---------- What steps of other threads leave alone ----------

  predicate Concerns(l: Label, t: ThreadId) {
    match l
    case Call(u, _) => u == t
    case Step(u, _) => u == t
    case GiveUp(u) => u == t
  }

  predicate StopRequested(s: Sys, o: OpId) {
    o in s.ops && s.ops[o].stop
  }

  /** Operations stay, with what has happened to them. */
  lemma OpsGrow(s: Sys, l: Label, o: OpId)
    requires Enabled(s, l) && o in s.ops
    ensures var s' := Apply(s, l);
            && o in s'.ops && s'.ops[o].thread == s.ops[o].thread
            && (s.ops[o].done ==> s'.ops[o].done) && (s.ops[o].stop ==> s'.ops[o].stop)
  {
    hide NextPc, HoldsE, HoldsM, HoldsO, EcOpAfter, RequestsStop, CanStep;
  }

  /** Only the thread that holds ec_op_mu_ replaces ec_op_. */
  lemma EcOpGuarded(s: Sys, l: Label, t: ThreadId)
    requires Inv(s) && Enabled(s, l) && !Concerns(l, t)
    requires t in s.threads && HoldsE(s.threads[t])
    ensures Apply(s, l).ecOp == s.ecOp
  {
    if l.Step? {
      StepResult(s, l.t, l.choice);
      assert s.e == Some(t) && !HoldsE(s.threads[l.t]);
    }
    hide NextPc, HoldsM, HoldsO, RequestsStop, OpsFit, OneUnfinished;
  }

  lemma OthersLeave(s: Sys, l: Label, t: ThreadId)
    requires Enabled(s, l) && !Concerns(l, t) && t in s.threads
    ensures t in Apply(s, l).threads && Apply(s, l).threads[t] == s.threads[t]
  {
    if l.Step? {
      StepResult(s, l.t, l.choice);
    }
    hide NextPc, HoldsE, HoldsM, HoldsO, EcOpAfter, RequestsStop, CanStep;
  }

  lemma {:induction false} EndedStays(s: Sys, run: seq<Label>, t: ThreadId)
    requires ValidRun(s, run) && t in s.threads && s.threads[t].Ended?
    ensures t in After(s, run).threads && After(s, run).threads[t].Ended?
    decreases |run|
  {
    if run != [] {
      assert !Concerns(run[0], t);
      OthersLeave(s, run[0], t);
      EndedStays(Apply(s, run[0]), run[1..], t);
    }
  }

  // ---------- Cancelling and waiting ----------

  /** The call goes on to, or is in, its section under mu_. */
  predicate GoesOn(s: Sys, t: ThreadId) {
    t in s.threads && (s.threads[t].CancelWantM? || s.threads[t].CancelInM?)
  }

  /** At some point of the run. */
  ghost predicate WentOn(s: Sys, run: seq<Label>, t: ThreadId)
    requires ValidRun(s, run)
    decreases |run|
  {
    GoesOn(s, t) || (run != [] && WentOn(Apply(s, run[0]), run[1..], t))
  }

  /** How far a call has come that found this operation; `looked` if it saw it unfinished. */
  predicate Cancelling(s: Sys, t: ThreadId, o: OpId, looked: bool) {
    && t in s.threads && o in s.ops
    && match s.threads[t]
       case CancelCheck => !looked && s.ecOp == Some(o)
       case CancelWantO(p) => p == o
       case CancelInO(p) => p == o
       case CancelWait(p) => p == o && s.ops[o].stop
       case CancelWantM => s.ops[o].done && (looked ==> s.ops[o].stop)
       case CancelInM => s.ops[o].done && (looked ==> s.ops[o].stop)
       case _ => false
  }

  /** The call's own steps: they stay on course until it ends, by giving up or after its section. */
  lemma CancelStep(s: Sys, l: Label, t: ThreadId, o: OpId, looked: bool)
    requires Inv(s) && Enabled(s, l) && Cancelling(s, t, o, looked) && Concerns(l, t)
    ensures var s' := Apply(s, l);
            || Cancelling(s', t, o, looked)
            || (t in s'.threads && s'.threads[t].Ended? && (l == GiveUp(t) || GoesOn(s, t)))
  {
    OpsGrow(s, l, o);
    if l.Step? {
      CancelMoves(s, t, l.choice, o, looked);
    } else {
      hide HoldsE, HoldsM, HoldsO, OpAfter, Inv;
      assert l.GiveUp?;
    }
  }

  lemma CancelMoves(s: Sys, t: ThreadId, c: Choice, o: OpId, looked: bool)
    requires Enabled(s, Step(t, c)) && Cancelling(s, t, o, looked)
    requires o in StepOf(s, t, c).ops && (s.ops[o].done ==> StepOf(s, t, c).ops[o].done)
    requires s.ops[o].stop ==> StepOf(s, t, c).ops[o].stop
    ensures var s' := StepOf(s, t, c);
            t in s'.threads && (Cancelling(s', t, o, looked) || (s'.threads[t].Ended? && GoesOn(s, t)))
  {
    StepResult(s, t, c);
    StopsAsked(s, t, c, o);
    WaitedForDone(s, t, c);
    EcOpKept(s, s.threads[t]);
    hide StepOf, Enabled;
  }

  lemma WaitedForDone(s: Sys, t: ThreadId, c: Choice)
    requires Enabled(s, Step(t, c))
    ensures s.threads[t].CancelWait? ==> Done(s, s.threads[t].op)
  {
    hide WantsE, WantsM, WantsO;
  }

  lemma EcOpKept(s: Sys, pc: Pc)
    requires !pc.PrepareMade? && !pc.PrepareJoin?
    ensures EcOpAfter(s, pc) == s.ecOp
  {
  }

  /** Leaving the operation's name lookup requests the stop. */
  lemma StopsAsked(s: Sys, t: ThreadId, c: Choice, o: OpId)
    requires Enabled(s, Step(t, c)) && o in s.ops
    ensures s.threads[t] == CancelInO(o) ==> StopRequested(StepOf(s, t, c), o)
    ensures s.threads[t].LookupInO? && s.threads[t].op == o && s.threads[t].stop && !c.Fail? ==> StopRequested(StepOf(s, t, c), o)
  {
    hide NextPc, HoldsE, HoldsM, HoldsO, EcOpAfter;
  }

  lemma CancelKept(s: Sys, l: Label, t: ThreadId, o: OpId, looked: bool)
    requires Inv(s) && Enabled(s, l) && Cancelling(s, t, o, looked) && !Concerns(l, t)
    ensures Cancelling(Apply(s, l), t, o, looked)
  {
    OpsGrow(s, l, o);
    OthersLeave(s, l, t);
    if s.threads[t].CancelCheck? {
      EcOpGuarded(s, l, t);
    }
    hide Apply, Enabled, Inv;
  }

  lemma {:induction false} CancelRun(s: Sys, run: seq<Label>, t: ThreadId, o: OpId, looked: bool)
    requires Inv(s) && ValidRun(s, run) && Cancelling(s, t, o, looked)
    ensures GoesOn(After(s, run), t) ==> Done(After(s, run), o) && (looked ==> StopRequested(After(s, run), o))
    ensures t in After(s, run).threads && After(s, run).threads[t].Ended? ==> GiveUp(t) in run || WentOn(s, run, t)
    decreases |run|
  {
    if run != [] {
      var l, s1 := run[0], Apply(s, run[0]);
      StepKeepsInv(s, l);
      assert forall x :: x in run[1..] ==> x in run;
      assert l in run;
      hide Inv, Enabled, Apply;
      if !Concerns(l, t) {
        CancelKept(s, l, t, o, looked);
      } else {
        CancelStep(s, l, t, o, looked);
      }
      if Cancelling(s1, t, o, looked) {
        CancelRun(s1, run[1..], t, o, looked);
      } else {
        EndedStays(s1, run[1..], t);
      }
    }
  }

  /**
   * StopSolution and NotifyAllProcessesStopped that find an operation go on only when it is done, in every run; they return
   * without going on only if their caller gave up.
   */
  lemma GoesOnOnlyWhenDone(s: Sys, run: seq<Label>, t: ThreadId, o: OpId)
    requires Reachable(s) && t in s.threads && s.threads[t].CancelCheck? && s.ecOp == Some(o) && ValidRun(s, run)
    ensures GoesOn(After(s, run), t) ==> Done(After(s, run), o)
    ensures t in After(s, run).threads && After(s, run).threads[t].Ended? ==> GiveUp(t) in run || WentOn(s, run, t)
  {
    ReachableInv(s);
    CancelRun(s, run, t, o, false);
  }

  /** If the operation was not done when the call looked, its stop has been requested by then as well. */
  lemma GoesOnOnlyWhenStopped(s: Sys, run: seq<Label>, t: ThreadId, o: OpId)
    requires Reachable(s) && t in s.threads && s.threads[t].CancelCheck? && s.ecOp == Some(o) && !Done(s, o)
    requires ValidRun(s, run) && run != [] && run[0].Step? && run[0].t == t
    ensures GoesOn(After(s, run), t) ==> Done(After(s, run), o) && StopRequested(After(s, run), o)
  {
    ReachableInv(s);
    StepKeepsInv(s, run[0]);
    assert o in s.ops;
    Looked(s, run[0], t, o);
    hide Inv, Cancelling, Apply, Enabled, GoesOn, StopRequested, Done, Reachable;
    CancelRun(Apply(s, run[0]), run[1..], t, o, true);
  }

  lemma Looked(s: Sys, l: Label, t: ThreadId, o: OpId)
    requires t in s.threads && s.threads[t].CancelCheck? && s.ecOp == Some(o) && o in s.ops && !s.ops[o].done
    requires Enabled(s, l) && l.Step? && l.t == t
    ensures Cancelling(Apply(s, l), t, o, true)
  {
    OpsGrow(s, l, o);
    StepResult(s, t, l.choice);
    hide StepOf, Enabled;
  }

  /** A call that finds no operation, or a finished one, goes on. */
  lemma {:induction false} GoesOnUnlessUnfinished(s: Sys, run: seq<Label>, t: ThreadId)
    requires Reachable(s) && t in s.threads && s.threads[t].CancelCheck? && NoUnfinished(s) && ValidRun(s, run)
    ensures t in After(s, run).threads
    ensures After(s, run).threads[t].Ended? ==> WentOn(s, run, t)
  {
    ReachableInv(s);
    NothingToCancel(s, run, t);
  }

  lemma {:induction false} NothingToCancel(s: Sys, run: seq<Label>, t: ThreadId)
    requires Inv(s) && t in s.threads && s.threads[t].CancelCheck? && NoUnfinished(s) && ValidRun(s, run)
    ensures t in After(s, run).threads
    ensures After(s, run).threads[t].Ended? ==> WentOn(s, run, t)
    decreases |run|
  {
    if run != [] {
      var l, s1 := run[0], Apply(s, run[0]);
      StepKeepsInv(s, l);
      if Concerns(l, t) {
        StepResult(s, t, l.choice);
        assert GoesOn(s1, t);
        hide Inv, Enabled, Apply, StepOf;
        ThreadStays(s1, run[1..], t);
      } else {
        NoneUnfinishedStays(s, l, t);
        hide Inv, Enabled, Apply, NoUnfinished;
        NothingToCancel(s1, run[1..], t);
      }
    }
  }

  lemma NoneUnfinishedStays(s: Sys, l: Label, t: ThreadId)
    requires Inv(s) && Enabled(s, l) && !Concerns(l, t)
    requires t in s.threads && HoldsE(s.threads[t]) && NoUnfinished(s)
    ensures NoUnfinished(Apply(s, l)) && t in Apply(s, l).threads && Apply(s, l).threads[t] == s.threads[t]
  {
    EcOpGuarded(s, l, t);
    OthersLeave(s, l, t);
    if s.ecOp.Some? {
      OpsGrow(s, l, s.ecOp.value);
    }
    hide Apply, Enabled, Inv;
  }

  lemma {:induction false} ThreadStays(s: Sys, run: seq<Label>, t: ThreadId)
    requires ValidRun(s, run) && t in s.threads
    ensures t in After(s, run).threads
    decreases |run|
  {
    if run != [] {
      if run[0].Step? {
        StepResult(s, run[0].t, run[0].choice);
      }
      hide StepOf, CanStep;
      ThreadStays(Apply(s, run[0]), run[1..], t);
    }
  }

  // ---------- Preparing a process start ----------

  /** The call is about to answer with, or answers with, the operation it has installed. */
  predicate Answers(s: Sys, t: ThreadId) {
    && t in s.threads && (s.threads[t].PrepareWantO? || s.threads[t].PrepareInO?)
    && s.ecOp == Some(s.threads[t].op)
  }

  ghost predicate Answered(s: Sys, run: seq<Label>, t: ThreadId)
    requires ValidRun(s, run)
    decreases |run|
  {
    Answers(s, t) || (run != [] && Answered(Apply(s, run[0]), run[1..], t))
  }

  /** How far a call has come that may start an operation. */
  predicate Preparing(s: Sys, t: ThreadId) {
    && t in s.threads
    && match s.threads[t]
       case PrepareCheck => NoUnfinished(s)
       case PrepareWantM => true
       case PrepareInM => true
       case PrepareMade(_) => true
       case PrepareJoin(_, _) => true
       case PrepareWantO(op) => s.ecOp == Some(op)
       case PrepareInO(op) => s.ecOp == Some(op)
       case _ => false
  }

  lemma PrepareMoves(s: Sys, t: ThreadId, c: Choice)
    requires Enabled(s, Step(t, c)) && Preparing(s, t)
    ensures var s' := StepOf(s, t, c);
            && t in s'.threads
            && (Preparing(s', t) || (s'.threads[t].Ended? && (Answers(s, t) || (s.threads[t].PrepareInM? && c.Fail?))))
  {
    StepResult(s, t, c);
    MadeOrFailed(s, t, c);
    hide StepOf, Enabled;
  }

  lemma MadeOrFailed(s: Sys, t: ThreadId, c: Choice)
    requires Enabled(s, Step(t, c))
    ensures s.threads[t].PrepareInM? ==> c.Fail? || c.Make?
  {
    hide CanStep;
  }

  lemma PrepareKept(s: Sys, l: Label, t: ThreadId)
    requires Inv(s) && Enabled(s, l) && Preparing(s, t) && !Concerns(l, t)
    ensures Preparing(Apply(s, l), t)
  {
    EcOpGuarded(s, l, t);
    OthersLeave(s, l, t);
    if s.threads[t].PrepareCheck? {
      NoneUnfinishedStays(s, l, t);
    }
    hide Apply, Enabled, Inv, NoUnfinished;
  }

  lemma {:induction false} PrepareRun(s: Sys, run: seq<Label>, t: ThreadId)
    requires Inv(s) && ValidRun(s, run) && Preparing(s, t)
    ensures t in After(s, run).threads
    ensures After(s, run).threads[t].Ended? ==> Step(t, Fail) in run || Answered(s, run, t)
    ensures Preparing(After(s, run), t) || After(s, run).threads[t].Ended?
    decreases |run|
  {
    if run != [] {
      var l, s1 := run[0], Apply(s, run[0]);
      StepKeepsInv(s, l);
      assert forall x :: x in run[1..] ==> x in run;
      assert l in run;
      if !Concerns(l, t) {
        PrepareKept(s, l, t);
      } else {
        assert l.Step?;
        PrepareMoves(s, t, l.choice);
      }
      hide Inv, Enabled, Apply, StepOf;
      if Preparing(s1, t) {
        PrepareRun(s1, run[1..], t);
      } else {
        EndedStays(s1, run[1..], t);
      }
    }
  }

  /**
   * PrepareProcessStart that finds no unfinished operation returns only after answering with the operation it has made the
   * current one, or because making it failed; whenever it is about to answer, that operation is the current one.
   */
  lemma StartsOrFails(s: Sys, run: seq<Label>, t: ThreadId)
    requires Reachable(s) && t in s.threads && s.threads[t].PrepareCheck? && NoUnfinished(s) && ValidRun(s, run)
    ensures t in After(s, run).threads
    ensures After(s, run).threads[t].Ended? ==> Step(t, Fail) in run || Answered(s, run, t)
    ensures After(s, run).threads[t].PrepareWantO? || After(s, run).threads[t].PrepareInO? ==> Answers(After(s, run), t)
  {
    ReachableInv(s);
    PrepareRun(s, run, t);
  }

  // ---------- Replacing an operation ----------

  predicate ThreadEnded(s: Sys, o: OpId) {
    o in s.ops && s.ops[o].thread in s.threads && s.threads[s.ops[o].thread].Ended?
  }

  /** An operation that is neither current nor about to be has no thread any more. */
  ghost predicate OldOnesEnded(s: Sys) {
    && (forall o :: o in s.ops ==>
          s.ecOp == Some(o) || ThreadEnded(s, o) || exists t :: t in s.threads && Installing(s.threads[t], o))
    && (forall t :: t in s.threads && s.threads[t].PrepareJoin? ==> s.ecOp == Some(s.threads[t].prior))
  }

  lemma ThreadEndedStays(s: Sys, l: Label, o: OpId)
    requires Enabled(s, l) && ThreadEnded(s, o)
    ensures ThreadEnded(Apply(s, l), o)
  {
    OpsGrow(s, l, o);
    var t := s.ops[o].thread;
    assert !Concerns(l, t);
    OthersLeave(s, l, t);
    hide Apply, Enabled;
  }

  lemma JoinedHasEnded(s: Sys, t: ThreadId, c: Choice)
    requires Enabled(s, Step(t, c)) && s.threads[t].PrepareJoin?
    ensures ThreadEnded(s, s.threads[t].prior)
  {
    hide WantsE, WantsM, WantsO;
  }

  /** Which operations a step adds, and where the current one goes. */
  lemma OpsOfStep(s: Sys, t: ThreadId, c: Choice, o: OpId)
    requires Enabled(s, Step(t, c)) && o in StepOf(s, t, c).ops
    ensures o in s.ops || (s.threads[t].PrepareInM? && c.Make? && c.op == o)
  {
    hide NextPc, HoldsE, HoldsM, HoldsO, EcOpAfter, RequestsStop, CanStep;
  }

  lemma StepKeepsEnded(s: Sys, t: ThreadId, c: Choice, o: OpId)
    requires Inv(s) && OldOnesEnded(s) && Enabled(s, Step(t, c)) && o in StepOf(s, t, c).ops
    ensures var s' := StepOf(s, t, c);
            s'.ecOp == Some(o) || ThreadEnded(s', o) || exists u :: u in s'.threads && Installing(s'.threads[u], o)
  {
    var s', pc := StepOf(s, t, c), s.threads[t];
    StepResult(s, t, c);
    InstallSteps(s, pc, c);
    OpsOfStep(s, t, c, o);
    if pc.PrepareJoin? {
      JoinedHasEnded(s, t, c);
    }
    if o in s.ops && ThreadEnded(s, o) {
      ThreadEndedStays(s, Step(t, c), o);
    } else if o !in s.ops {
      assert Installing(s'.threads[t], o);
    } else if s.ecOp == Some(o) {
      hide StepOf, Enabled, Inv;
      assert EcOpAfter(s, pc) == s.ecOp || pc.PrepareJoin?;
    } else {
      hide StepOf, Enabled, Inv, NextPc, EcOpAfter;
      var u :| u in s.threads && Installing(s.threads[u], o);
      if u == t {
        assert s'.ecOp == Some(o) || Installing(s'.threads[t], o);
      } else {
        assert Installing(s'.threads[u], o);
      }
    }
  }

  lemma JoinsCurrent(s: Sys, l: Label, u: ThreadId)
    requires Inv(s) && OldOnesEnded(s) && Enabled(s, l)
    requires u in Apply(s, l).threads && Apply(s, l).threads[u].PrepareJoin?
    ensures Apply(s, l).ecOp == Some(Apply(s, l).threads[u].prior)
  {
    if l.Step? {
      StepResult(s, l.t, l.choice);
      InstallSteps(s, s.threads[l.t], l.choice);
    }
    if Concerns(l, u) {
      assert l.Step?;
      EcOpKeptWhileMade(s, s.threads[u]);
      hide StepOf, Enabled, Inv;
    } else if u in s.threads {
      OthersLeave(s, l, u);
      EcOpGuarded(s, l, u);
    } else {
      MadeThreadBegins(s, l, u);
    }
  }

  lemma EcOpKeptWhileMade(s: Sys, pc: Pc)
    requires pc.PrepareMade? && s.ecOp.Some?
    ensures EcOpAfter(s, pc) == s.ecOp
  {
  }

  lemma MadeThreadBegins(s: Sys, l: Label, u: ThreadId)
    requires Enabled(s, l) && u !in s.threads && u in Apply(s, l).threads
    ensures !Apply(s, l).threads[u].PrepareJoin?
  {
    hide NextPc, HoldsE, HoldsM, HoldsO, EcOpAfter, RequestsStop;
  }

  lemma EndedKept(s: Sys, l: Label)
    requires Inv(s) && OldOnesEnded(s) && Enabled(s, l)
    ensures OldOnesEnded(Apply(s, l))
  {
    var s' := Apply(s, l);
    forall o | o in s'.ops
      ensures s'.ecOp == Some(o) || ThreadEnded(s', o) || exists t :: t in s'.threads && Installing(s'.threads[t], o)
    {
      if l.Step? {
        StepKeepsEnded(s, l.t, l.choice, o);
      } else {
        OtherKeepsEnded(s, l, o);
      }
    }
    hide Inv, OldOnesEnded, Enabled, Apply, ThreadEnded, Installing;
    forall u | u in s'.threads && s'.threads[u].PrepareJoin? ensures s'.ecOp == Some(s'.threads[u].prior) {
      JoinsCurrent(s, l, u);
    }
    EndedMeans(s');
  }

  lemma EndedMeans(s: Sys)
    requires forall o :: o in s.ops ==>
               s.ecOp == Some(o) || ThreadEnded(s, o) || exists t :: t in s.threads && Installing(s.threads[t], o)
    requires forall t :: t in s.threads && s.threads[t].PrepareJoin? ==> s.ecOp == Some(s.threads[t].prior)
    ensures OldOnesEnded(s)
  {
    hide ThreadEnded, Installing;
  }

  lemma OtherKeepsEnded(s: Sys, l: Label, o: OpId)
    requires OldOnesEnded(s) && Enabled(s, l) && !l.Step? && o in Apply(s, l).ops
    ensures var s' := Apply(s, l);
            s'.ecOp == Some(o) || ThreadEnded(s', o) || exists t :: t in s'.threads && Installing(s'.threads[t], o)
  {
    var s' := Apply(s, l);
    assert o in s.ops && s'.ecOp == s.ecOp;
    if ThreadEnded(s, o) {
      ThreadEndedStays(s, l, o);
    } else if s.ecOp != Some(o) {
      var u :| u in s.threads && Installing(s.threads[u], o);
      assert !Concerns(l, u);
      OthersLeave(s, l, u);
      assert Installing(s'.threads[u], o);
    }
  }

  lemma {:induction false} RunKeepsEnded(s: Sys, run: seq<Label>)
    requires Inv(s) && OldOnesEnded(s) && ValidRun(s, run)
    ensures OldOnesEnded(After(s, run))
    decreases |run|
  {
    hide Inv, OldOnesEnded, Enabled, Apply;
    if run != [] {
      StepKeepsInv(s, run[0]);
      EndedKept(s, run[0]);
      RunKeepsEnded(Apply(s, run[0]), run[1..]);
    }
  }

  /** In every reachable state an operation that has been replaced has no thread left: destroying it has joined it. */
  lemma ReplacedHasEnded(s: Sys, o: OpId)
    requires Reachable(s) && o in s.ops && s.ecOp != Some(o)
    ensures ThreadEnded(s, o) || exists t :: t in s.threads && Installing(s.threads[t], o)
  {
    var run :| ValidRun(INIT, run) && After(INIT, run) == s;
    InitInv();
    RunKeepsEnded(INIT, run);
  }

  // ---------- The thread of an operation ----------

  /** The thread is, or at some point of the run was, in the operation's work under mu_. */
  ghost predicate Worked(s: Sys, run: seq<Label>, t: ThreadId)
    requires ValidRun(s, run)
    decreases |run|
  {
    (t in s.threads && s.threads[t].OpInM?) || (run != [] && Worked(Apply(s, run[0]), run[1..], t))
  }

  /** How far the thread has come; it skips its work only if asked to stop. */
  predicate Operating(s: Sys, t: ThreadId, o: OpId) {
    && t in s.threads && o in s.ops && s.ops[o].thread == t
    && match s.threads[t]
       case OpBegin(p) => p == o
       case OpWantM(p) => p == o
       case OpInM(p) => p == o
       case OpWantO(p) => p == o && s.ops[o].stop
       case OpInO(p) => p == o && s.ops[o].stop
       case OpNotified(p) => p == o && s.ops[o].stop
       case Ended => s.ops[o].stop
       case _ => false
  }

  /** Where the thread goes from there, unless it has worked. */
  lemma OpMoves(s: Sys, t: ThreadId, c: Choice, o: OpId)
    requires Enabled(s, Step(t, c)) && Operating(s, t, o) && !s.threads[t].OpInM?
    ensures Operating(StepOf(s, t, c), t, o)
  {
    OpsGrow(s, Step(t, c), o);
    StepResult(s, t, c);
    hide StepOf, Enabled;
  }

  lemma OpKept(s: Sys, l: Label, t: ThreadId, o: OpId)
    requires Enabled(s, l) && Operating(s, t, o) && !Concerns(l, t)
    ensures Operating(Apply(s, l), t, o)
  {
    OpsGrow(s, l, o);
    OthersLeave(s, l, t);
    hide Apply, Enabled;
  }

  /** The thread of an operation that is done has notified. */
  lemma DoneHasEnded(s: Sys, o: OpId)
    requires Inv(s) && Done(s, o)
    ensures var t := s.ops[o].thread; t in s.threads && (s.threads[t].Ended? || s.threads[t].OpNotified?)
  {
    hide LocksHeld, OneUnfinished;
  }

  lemma {:induction false} OpRun(s: Sys, run: seq<Label>, t: ThreadId, o: OpId)
    requires Inv(s) && ValidRun(s, run) && Operating(s, t, o)
    ensures Done(After(s, run), o) ==> StopRequested(After(s, run), o) || Worked(s, run, t)
    decreases |run|
  {
    if run == [] {
      if Done(s, o) {
        DoneHasEnded(s, o);
      }
    } else if !s.threads[t].OpInM? {
      var l := run[0];
      StepKeepsInv(s, l);
      if Concerns(l, t) {
        assert l.Step?;
        OpMoves(s, t, l.choice, o);
      } else {
        OpKept(s, l, t, o);
      }
      hide Inv, Enabled, Apply, Operating;
      OpRun(Apply(s, l), run[1..], t, o);
    }
  }

  /** An operation's thread that has begun finishes it only after its work under mu_, unless a stop was requested. */
  lemma DoneOnlyAfterWork(s: Sys, run: seq<Label>, t: ThreadId, o: OpId)
    requires Reachable(s) && t in s.threads && s.threads[t] == OpBegin(o) && ValidRun(s, run)
    ensures Done(After(s, run), o) ==> StopRequested(After(s, run), o) || Worked(s, run, t)
  {
    ReachableInv(s);
    OwnThread(s, t);
    OpRun(s, run, t, o);
  }

  lemma OwnThread(s: Sys, t: ThreadId)
    requires Inv(s) && t in s.threads && OpThread(s.threads[t])
    ensures s.threads[t].op in s.ops && s.ops[s.threads[t].op].thread == t
  {
    hide LocksHeld, OneUnfinished;
  }

  /** How far a thread has come that was asked to stop before it began. */
  predicate Skipping(s: Sys, t: ThreadId, o: OpId) {
    && t in s.threads && StopRequested(s, o)
    && match s.threads[t]
       case OpBegin(p) => p == o
       case OpWantO(p) => p == o
       case OpInO(p) => p == o
       case OpNotified(p) => p == o
       case Ended => true
       case _ => false
  }

  lemma SkippingKept(s: Sys, l: Label, t: ThreadId, o: OpId)
    requires Enabled(s, l) && Skipping(s, t, o)
    ensures Skipping(Apply(s, l), t, o)
  {
    OpsGrow(s, l, o);
    if Concerns(l, t) {
      assert l.Step?;
      StepResult(s, t, l.choice);
      hide StepOf, Enabled;
    } else {
      OthersLeave(s, l, t);
      hide Apply, Enabled;
    }
  }

  /** An operation that is asked to stop before its thread begins does none of its work. */
  lemma {:induction false} StoppedNeverWorks(s: Sys, run: seq<Label>, t: ThreadId, o: OpId)
    requires ValidRun(s, run) && Skipping(s, t, o)
    ensures !Worked(s, run, t)
    decreases |run|
  {
    if run != [] {
      SkippingKept(s, run[0], t, o);
      hide Enabled, Apply;
      StoppedNeverWorks(Apply(s, run[0]), run[1..], t, o);
    }
  }

  /** The callers that ask an operation to stop. */
  predicate AsksToStop(s: Sys, l: Label, o: OpId) {
    l.Step? && l.t in s.threads
    && match s.threads[l.t]
       case CancelInO(p) => p == o
       case LookupInO(p, _, stop) => p == o && stop && !l.choice.Fail?
       case PrepareMade(_) => s.ecOp == Some(o)
       case _ => false
  }

  /**
   * A stop is requested exactly by a call that cancels the operation, by one that cancels it under its name, and by the
   * destruction of the operation when another one is put in its place.
   */
  lemma StopRequestedIff(s: Sys, l: Label, o: OpId)
    requires Enabled(s, l) && o in s.ops && !s.ops[o].stop
    ensures o in Apply(s, l).ops && (Apply(s, l).ops[o].stop <==> AsksToStop(s, l, o))
  {
    OpsGrow(s, l, o);
    hide HoldsE, HoldsM, HoldsO, EcOpAfter, CanStep;
  }

  // ---------- Entering the sections ----------

  /** At some point of the run the thread is in its own section under mu_. */
  ghost predicate Entered(s: Sys, run: seq<Label>, t: ThreadId)
    requires ValidRun(s, run)
    decreases |run|
  {
    || (t in s.threads && (s.threads[t].CancelInM? || s.threads[t].PlainInM?))
    || (run != [] && Entered(Apply(s, run[0]), run[1..], t))
  }

  lemma WaitsOrEnters(s: Sys, l: Label, t: ThreadId)
    requires Enabled(s, l) && t in s.threads && (s.threads[t].CancelWantM? || s.threads[t].PlainWantM?)
    ensures var s' := Apply(s, l);
            t in s'.threads && (s'.threads[t] == s.threads[t] || s'.threads[t].CancelInM? || s'.threads[t].PlainInM?)
  {
    if Concerns(l, t) {
      assert l.Step?;
      StepResult(s, t, l.choice);
      hide StepOf, Enabled;
    } else {
      OthersLeave(s, l, t);
      hide Apply, Enabled;
    }
  }

  /** A call that waits for mu_ does not return without its section. */
  lemma {:induction false} NoneReturnsWithoutSection(s: Sys, run: seq<Label>, t: ThreadId)
    requires ValidRun(s, run) && t in s.threads && (s.threads[t].CancelWantM? || s.threads[t].PlainWantM?)
    ensures t in After(s, run).threads
    ensures After(s, run).threads[t] == s.threads[t] || Entered(s, run, t)
    decreases |run|
  {
    if run != [] {
      WaitsOrEnters(s, run[0], t);
      var s1 := Apply(s, run[0]);
      hide Enabled, Apply;
      if s1.threads[t] == s.threads[t] {
        NoneReturnsWithoutSection(s1, run[1..], t);
      } else {
        ThreadStays(s1, run[1..], t);
        assert Entered(s1, run[1..], t);
      }
    }
  }

  // ---------- GetOperation and CancelOperation ----------

  /** How far a cancelling call has come that found this operation. */
  predicate Stopping(s: Sys, t: ThreadId, o: OpId) {
    && t in s.threads && o in s.ops
    && match s.threads[t]
       case LookupCheck(stop) => stop && s.ecOp == Some(o)
       case LookupWantO(p, again, stop) => p == o && stop && !again
       case LookupInO(p, again, stop) => p == o && stop && !again
       case _ => false
  }

  lemma StoppingMoves(s: Sys, t: ThreadId, c: Choice, o: OpId)
    requires Enabled(s, Step(t, c)) && Stopping(s, t, o)
    ensures var s' := StepOf(s, t, c);
            && t in s'.threads
            && (Stopping(s', t, o) || (s'.threads[t].Ended? && (c.Fail? || StopRequested(s', o))))
  {
    OpsGrow(s, Step(t, c), o);
    StepResult(s, t, c);
    StopsAsked(s, t, c, o);
    EcOpKept(s, s.threads[t]);
    hide StepOf, Enabled;
  }

  lemma StoppingKept(s: Sys, l: Label, t: ThreadId, o: OpId)
    requires Inv(s) && Enabled(s, l) && Stopping(s, t, o) && !Concerns(l, t)
    ensures Stopping(Apply(s, l), t, o)
  {
    OpsGrow(s, l, o);
    OthersLeave(s, l, t);
    EcOpGuarded(s, l, t);
    hide Apply, Enabled, Inv;
  }

  lemma {:induction false} StopStays(s: Sys, run: seq<Label>, o: OpId)
    requires ValidRun(s, run) && StopRequested(s, o)
    ensures StopRequested(After(s, run), o)
    decreases |run|
  {
    if run != [] {
      OpsGrow(s, run[0], o);
      hide Apply, Enabled;
      StopStays(Apply(s, run[0]), run[1..], o);
    }
  }

  lemma {:induction false} StoppingRun(s: Sys, run: seq<Label>, t: ThreadId, o: OpId)
    requires Inv(s) && ValidRun(s, run) && Stopping(s, t, o)
    ensures t in After(s, run).threads
    ensures After(s, run).threads[t].Ended? ==> Step(t, Fail) in run || StopRequested(After(s, run), o)
    decreases |run|
  {
    if run != [] {
      var l, s1 := run[0], Apply(s, run[0]);
      StepKeepsInv(s, l);
      assert forall x :: x in run[1..] ==> x in run;
      assert l in run;
      if !Concerns(l, t) {
        StoppingKept(s, l, t, o);
      } else {
        assert l.Step?;
        StoppingMoves(s, t, l.choice, o);
      }
      hide Inv, Enabled, Apply, StepOf;
      if Stopping(s1, t, o) {
        StoppingRun(s1, run[1..], t, o);
      } else {
        ThreadStays(s1, run[1..], t);
        if StopRequested(s1, o) {
          StopStays(s1, run[1..], o);
        }
      }
    }
  }

  /** CancelOperation returns only after the stop of the operation it found has been requested, unless the name differs. */
  lemma StopsOrFails(s: Sys, run: seq<Label>, t: ThreadId, o: OpId)
    requires Reachable(s) && t in s.threads && s.threads[t] == LookupCheck(true) && s.ecOp == Some(o) && ValidRun(s, run)
    ensures t in After(s, run).threads
    ensures After(s, run).threads[t].Ended? ==> Step(t, Fail) in run || StopRequested(After(s, run), o)
  {
    ReachableInv(s);
    StoppingRun(s, run, t, o);
  }

  /** How far a call has come that looks at this operation: its name first, and its result then. */
  predicate Looking(s: Sys, t: ThreadId, o: OpId) {
    && t in s.threads
    && match s.threads[t]
       case LookupCheck(stop) => !stop && s.ecOp == Some(o)
       case LookupWantO(p, again, stop) => p == o && !stop
       case LookupInO(p, again, stop) => p == o && !stop && !again
       case _ => false
  }

  /** At some point of the run the thread has the operation's mutex for the second time. */
  ghost predicate ReadResult(s: Sys, run: seq<Label>, t: ThreadId, o: OpId)
    requires ValidRun(s, run)
    decreases |run|
  {
    || (t in s.threads && s.threads[t] == LookupInO(o, true, false))
    || (run != [] && ReadResult(Apply(s, run[0]), run[1..], t, o))
  }

  lemma LookingKept(s: Sys, l: Label, t: ThreadId, o: OpId)
    requires Inv(s) && Enabled(s, l) && Looking(s, t, o) && !Concerns(l, t)
    ensures Looking(Apply(s, l), t, o)
  {
    OthersLeave(s, l, t);
    if s.threads[t].LookupCheck? {
      EcOpGuarded(s, l, t);
    }
    hide Apply, Enabled, Inv;
  }

  lemma LookingSteps(s: Sys, t: ThreadId, c: Choice, o: OpId)
    requires Enabled(s, Step(t, c)) && Looking(s, t, o)
    ensures var s' := StepOf(s, t, c);
            t in s'.threads && (Looking(s', t, o) || s'.threads[t] == LookupInO(o, true, false) || c.Fail?)
  {
    StepResult(s, t, c);
    EcOpKept(s, s.threads[t]);
    hide StepOf, Enabled;
  }

  lemma LookingMoves(s: Sys, l: Label, t: ThreadId, o: OpId)
    requires Inv(s) && Enabled(s, l) && Looking(s, t, o)
    ensures var s' := Apply(s, l);
            && t in s'.threads
            && (Looking(s', t, o) || s'.threads[t] == LookupInO(o, true, false) || l == Step(t, Fail))
  {
    if Concerns(l, t) {
      assert l.Step?;
      LookingSteps(s, t, l.choice, o);
      hide StepOf, Inv;
    } else {
      hide Apply, Inv;
      LookingKept(s, l, t, o);
    }
  }

  lemma {:induction false} LookingRun(s: Sys, run: seq<Label>, t: ThreadId, o: OpId)
    requires Inv(s) && ValidRun(s, run) && Looking(s, t, o)
    ensures t in After(s, run).threads
    ensures After(s, run).threads[t].Ended? ==> Step(t, Fail) in run || ReadResult(s, run, t, o)
    decreases |run|
  {
    if run != [] {
      var l, s1 := run[0], Apply(s, run[0]);
      StepKeepsInv(s, l);
      assert forall x :: x in run[1..] ==> x in run;
      assert l in run;
      LookingMoves(s, l, t, o);
      hide Inv, Enabled, Apply;
      if Looking(s1, t, o) {
        LookingRun(s1, run[1..], t, o);
      } else {
        ThreadStays(s1, run[1..], t);
        if l != Step(t, Fail) {
          assert ReadResult(s1, run[1..], t, o);
        }
      }
    }
  }

  /** GetOperation returns what it read from the operation it found, unless the name differs. */
  lemma ReadsOrFails(s: Sys, run: seq<Label>, t: ThreadId, o: OpId)
    requires Reachable(s) && t in s.threads && s.threads[t] == LookupCheck(false) && s.ecOp == Some(o) && ValidRun(s, run)
    ensures t in After(s, run).threads
    ensures After(s, run).threads[t].Ended? ==> Step(t, Fail) in run || ReadResult(s, run, t, o)
  {
    ReachableInv(s);
    LookingRun(s, run, t, o);
  }

  // ---------- Mutual exclusion ----------

  /** The sections under mu_: the calls' own, and the work of an operation. */
  predicate InSection(pc: Pc) {
    pc.PrepareInM? || pc.CancelInM? || pc.PlainInM? || pc.OpInM?
  }

  /** The calls about the operation, from looking at it to returning, also while they wait for it or make another. */
  predicate AboutOperation(pc: Pc) {
    || pc.PrepareCheck? || pc.PrepareWantM? || pc.PrepareInM? || pc.PrepareMade? || pc.PrepareJoin? || pc.PrepareWantO?
    || pc.PrepareInO? || pc.CancelCheck? || pc.CancelWantO? || pc.CancelInO? || pc.CancelWait?
    || pc.LookupCheck? || pc.LookupWantO? || pc.LookupInO?
  }

  /** No two threads are in such sections at the same time. */
  lemma SectionsExclude(s: Sys, t: ThreadId, u: ThreadId)
    requires Reachable(s) && t in s.threads && u in s.threads && t != u
    ensures !(InSection(s.threads[t]) && InSection(s.threads[u]))
    ensures !(AboutOperation(s.threads[t]) && AboutOperation(s.threads[u]))
  {
    ReachableInv(s);
    hide Reachable, OpsFit, OneUnfinished;
  }
}
