// One unfinished operation at most, and no deadlock, in every reachable state of the conductor.
module ConductorSafety {
  import opened Results
  import opened ConductorLocks

  lemma InitInv()
    ensures Inv(INIT)
  {
  }

  // ---------- What follows from the positions alone ----------

  /** A lock is only taken from a position that waits for it, and an operation's lock is not swapped for another's. */
  lemma TakesWhatItWants(s: Sys, pc: Pc, c: Choice)
    ensures var pc' := NextPc(s, pc, c);
            && (HoldsE(pc') && !HoldsE(pc) ==> WantsE(pc))
            && (HoldsM(pc') && !HoldsM(pc) ==> WantsM(pc))
            && (HoldsO(pc').Some? && HoldsO(pc') != HoldsO(pc) ==> WantsO(pc) == HoldsO(pc') && HoldsO(pc).None?)
  {
  }

  /** The thread of an operation stays with it, and notifies it from OpInO. */
  lemma OpThreadStays(s: Sys, pc: Pc, c: Choice)
    ensures var pc' := NextPc(s, pc, c);
            && (OpThread(pc) ==> if pc.OpNotified? then pc'.Ended? else OpThread(pc') && pc'.op == pc.op)
            && (!OpThread(pc) ==> !OpThread(pc'))
            && (pc'.OpNotified? <==> pc.OpInO?)
  {
  }

  /** A position only mentions what its predecessor did, the current operation, or the one just made. */
  lemma MentionsKnown(s: Sys, pc: Pc, c: Choice, o: OpId)
    requires Mentions(NextPc(s, pc, c), o)
    ensures Mentions(pc, o) || s.ecOp == Some(o) || (pc.PrepareInM? && c.Make? && c.op == o)
  {
  }

  // ---------- Locks ----------

  lemma MoveKeepsLocks(s: Sys, t: ThreadId, c: Choice, pc': Pc)
    requires LocksHeld(s) && t in s.threads
    requires var pc := s.threads[t];
             && (HoldsE(pc') && !HoldsE(pc) ==> s.e.None?)
             && (HoldsM(pc') && !HoldsM(pc) ==> s.m.None?)
             && (HoldsO(pc').Some? && HoldsO(pc') != HoldsO(pc) ==>
                   HoldsO(pc).None? && HoldsO(pc').value in s.ops && s.ops[HoldsO(pc').value].holder.None?)
    ensures LocksHeld(MoveTo(s, t, c, pc'))
  {
    hide HoldsE, HoldsM, HoldsO, EcOpAfter, RequestsStop;
  }

  lemma MakeKeepsLocks(s: Sys, o: OpId, u: ThreadId)
    requires LocksHeld(s) && o !in s.ops && u !in s.threads
    requires forall t :: t in s.threads ==> HoldsO(s.threads[t]) != Some(o)
    ensures LocksHeld(s.(threads := s.threads[u := OpBegin(o)], ops := s.ops[o := Op(u, false, false, None)]))
  {
    assert HoldsO(OpBegin(o)).None? && !HoldsE(OpBegin(o)) && !HoldsM(OpBegin(o));
    hide HoldsE, HoldsM, HoldsO;
  }

  lemma HeldIsMentioned(pc: Pc)
    ensures HoldsO(pc).Some? ==> Mentions(pc, HoldsO(pc).value)
  {
  }

  lemma CallKeepsLocks(s: Sys, t: ThreadId, pc: Pc)
    requires LocksHeld(s) && t !in s.threads && ClientStart(pc)
    ensures LocksHeld(s.(threads := s.threads[t := pc]))
  {
    assert HoldsO(pc).None? && !HoldsE(pc) && !HoldsM(pc);
    hide HoldsE, HoldsM, HoldsO;
  }

  lemma MadeIsNew(s: Sys, t: ThreadId, c: Choice)
    requires OpsExist(s) && Allowed(s, t, c) && c.Make?
    ensures NextPc(s, s.threads[t], c) == PrepareMade(c.op)
    ensures var s' := MoveTo(s, t, c, PrepareMade(c.op));
            forall u :: u in s'.threads ==> HoldsO(s'.threads[u]) != Some(c.op)
  {
    var s' := MoveTo(s, t, c, PrepareMade(c.op));
    assert s.threads[t].PrepareInM?;
    forall u | u in s'.threads ensures HoldsO(s'.threads[u]) != Some(c.op) {
      HeldIsMentioned(s'.threads[u]);
      if u != t { assert s'.threads[u] == s.threads[u]; }
    }
  }

  lemma LocksKept(s: Sys, l: Label)
    requires LocksHeld(s) && OpsExist(s) && Enabled(s, l)
    ensures LocksHeld(Apply(s, l))
  {
    match l
    case Call(t, pc) =>
      CallKeepsLocks(s, t, pc);
    case GiveUp(t) =>
      hide OpsExist, LocksHeld, MoveTo;
      MoveKeepsLocks(s, t, Go, Ended);
    case Step(t, c) =>
      var pc' := NextPc(s, s.threads[t], c);
      TakesWhatItWants(s, s.threads[t], c);
      if c.Make? { MadeIsNew(s, t, c); }
      hide OpsExist, LocksHeld, HoldsE, HoldsM, HoldsO, NextPc, WantsE, WantsM, WantsO, EcOpAfter, RequestsStop;
      MoveKeepsLocks(s, t, c, pc');
      if c.Make? {
        var s' := MoveTo(s, t, c, pc');
        assert c.thread !in s'.threads && c.op !in s'.ops;
        MakeKeepsLocks(s', c.op, c.thread);
      }
  }

  // ---------- Operations ----------

  lemma MentionsKept(s: Sys, l: Label)
    requires OpsExist(s) && Enabled(s, l)
    ensures OpsExist(Apply(s, l))
  {
    var s' := Apply(s, l);
    forall u, o | u in s'.threads && Mentions(s'.threads[u], o) ensures o in s'.ops {
      if l.Step? && u == l.t && (l.choice.Make? ==> u != l.choice.thread) {
        MentionsKnown(s, s.threads[u], l.choice, o);
      }
    }
    if s'.ecOp != s.ecOp {
      assert l.Step?;
      var pc := s.threads[l.t];
      assert Mentions(pc, pc.made);
    }
  }

  lemma MoveKeepsRuns(s: Sys, t: ThreadId, c: Choice, pc': Pc)
    requires OpsRun(s) && t in s.threads
    requires var pc := s.threads[t];
             && !pc.Ended?
             && (OpThread(pc) ==> if pc.OpNotified? then pc'.Ended? else OpThread(pc') && pc'.op == pc.op)
             && (!OpThread(pc) ==> !OpThread(pc'))
             && (pc'.OpNotified? <==> pc.OpInO?)
    ensures OpsRun(MoveTo(s, t, c, pc'))
  {
    var pc := s.threads[t];
    var s' := MoveTo(s, t, c, pc');
    hide HoldsE, HoldsM, HoldsO, EcOpAfter, RequestsStop, OpThread, NewHolder;
    forall o | o in s'.ops
      ensures s'.ops[o].thread in s'.threads && RunsOp(s'.threads[s'.ops[o].thread], o, s'.ops[o])
    {
      MoveKeepsRun(s, t, c, pc', o);
    }
  }

  lemma MoveKeepsRun(s: Sys, t: ThreadId, c: Choice, pc': Pc, o: OpId)
    requires OpsRun(s) && t in s.threads && o in s.ops
    requires var pc := s.threads[t];
             && !pc.Ended?
             && (OpThread(pc) ==> if pc.OpNotified? then pc'.Ended? else OpThread(pc') && pc'.op == pc.op)
             && (pc'.OpNotified? <==> pc.OpInO?)
    ensures var s' := MoveTo(s, t, c, pc');
            s'.ops[o].thread in s'.threads && RunsOp(s'.threads[s'.ops[o].thread], o, s'.ops[o])
  {
    var pc := s.threads[t];
    hide HoldsE, HoldsM, HoldsO, EcOpAfter, RequestsStop, NewHolder;
    var u := s.ops[o].thread;
    assert RunsOp(s.threads[u], o, s.ops[o]);
    if pc == OpInO(o) {
      assert OpThread(pc) && pc.op == o;
      assert u == t;
    }
  }

  lemma RunsKept(s: Sys, l: Label)
    requires OpsRun(s) && OpsExist(s) && Enabled(s, l)
    ensures OpsRun(Apply(s, l))
  {
    match l
    case Call(t, pc) =>
      assert !OpThread(pc);
      hide OpThread;
    case GiveUp(t) =>
      hide OpsExist, OpsRun, MoveTo;
      MoveKeepsRuns(s, t, Go, Ended);
    case Step(t, c) =>
      OpThreadStays(s, s.threads[t], c);
      hide OpsExist, OpsRun, HoldsE, HoldsM, HoldsO, NextPc, WantsE, WantsM, WantsO, EcOpAfter, RequestsStop;
      MoveKeepsRuns(s, t, c, NextPc(s, s.threads[t], c));
      if c.Make? {
        MakeKeepsRuns(MoveTo(s, t, c, NextPc(s, s.threads[t], c)), c.op, c.thread);
      }
  }

  lemma MakeKeepsRuns(s: Sys, o: OpId, u: ThreadId)
    requires OpsRun(s) && o !in s.ops && u !in s.threads
    ensures OpsRun(s.(threads := s.threads[u := OpBegin(o)], ops := s.ops[o := Op(u, false, false, None)]))
  {
  }

  // ---------- At most one unfinished operation ----------

  /** Only one thread can be between checking ec_op_ and replacing it. */
  lemma OneChecked(s: Sys, t: ThreadId, u: ThreadId)
    requires LocksHeld(s) && t in s.threads && u in s.threads
    requires Checked(s.threads[t]) && HoldsE(s.threads[u])
    ensures t == u
  {
    assert HoldsE(s.threads[t]);
    hide HoldsE, HoldsM, HoldsO;
  }

  lemma FinishedStaysFinished(s: Sys, l: Label, o: OpId)
    requires Enabled(s, l) && Done(s, o)
    ensures Done(Apply(s, l), o)
  {
    hide NextPc, HoldsE, HoldsM, HoldsO, EcOpAfter, RequestsStop;
  }

  /** How a step changes which operations are being installed, checked and current. */
  lemma InstallSteps(s: Sys, pc: Pc, c: Choice)
    requires pc.PrepareInM? ==> c.Fail? || c.Make?
    ensures var pc' := NextPc(s, pc, c);
            && (Checked(pc') ==> (Checked(pc) || NoUnfinished(s)) && HoldsE(pc'))
            && (pc'.PrepareJoin? ==> pc.PrepareMade? && s.ecOp == Some(pc'.prior) && pc'.made == pc.made)
            && (forall o: OpId :: Installing(pc, o) ==> Installing(pc', o) || EcOpAfter(s, pc) == Some(o))
            && (EcOpAfter(s, pc) != s.ecOp ==> (pc.PrepareMade? || pc.PrepareJoin?) && Installing(pc, pc.made) && !Checked(pc'))
            && (pc.PrepareInM? && c.Make? ==> Installing(pc', c.op))
  {
  }

  /** What a step leaves of the parts that installing is about. */
  lemma StepResult(s: Sys, t: ThreadId, c: Choice)
    requires Enabled(s, Step(t, c))
    ensures var s' := StepOf(s, t, c);
            && s'.ecOp == EcOpAfter(s, s.threads[t])
            && t in s'.threads && s'.threads[t] == NextPc(s, s.threads[t], c)
            && (forall u :: u in s.threads && u != t ==> u in s'.threads && s'.threads[u] == s.threads[u])
            && (forall o :: o in s'.ops && !s'.ops[o].done ==> (o in s.ops && !s.ops[o].done) || (c.Make? && c.op == o))
            && (c.Make? ==> s.threads[t].PrepareInM?)
            && !s.threads[t].Ended?
  {
    hide NextPc, HoldsE, HoldsM, HoldsO, RequestsStop, EcOpAfter, WantsE, WantsM, WantsO;
  }

  lemma UnfinishedKept(s: Sys, t: ThreadId, c: Choice, o: OpId)
    requires Inv(s) && Enabled(s, Step(t, c))
    requires var s' := StepOf(s, t, c); o in s'.ops && !s'.ops[o].done
    ensures var s' := StepOf(s, t, c);
            s'.ecOp == Some(o) || exists u :: u in s'.threads && Installing(s'.threads[u], o)
  {
    hide StepOf, NextPc, LocksHeld, Installing, HoldsE, HoldsM, HoldsO, RequestsStop, EcOpAfter;
    var s' := StepOf(s, t, c);
    var pc := s.threads[t];
    InstallSteps(s, pc, c);
    StepResult(s, t, c);
    hide Enabled, OpsFit;
    if c.Make? && c.op == o {
      assert Installing(s'.threads[t], o);
    } else if s.ecOp == Some(o) {
      assert EcOpAfter(s, pc) == s.ecOp;
    } else {
      var u :| u in s.threads && Installing(s.threads[u], o);
      if u != t {
        assert Installing(s'.threads[u], o);
      }
    }
  }

  lemma CheckedKept(s: Sys, t: ThreadId, c: Choice, u: ThreadId)
    requires Inv(s) && Enabled(s, Step(t, c))
    requires var s' := StepOf(s, t, c); u in s'.threads && Checked(s'.threads[u])
    ensures var s' := StepOf(s, t, c);
            NoUnfinished(s') && (s'.threads[u].PrepareJoin? ==> Done(s', s'.threads[u].prior))
  {
    var s' := StepOf(s, t, c);
    var pc := s.threads[t];
    InstallSteps(s, pc, c);
    if EcOpAfter(s, pc) != s.ecOp && u != t {
      assert HoldsE(s.threads[t]);
      assert s'.threads[u] == s.threads[u];
      OneChecked(s, u, t);
    }
    hide NextPc, HoldsE, HoldsM, HoldsO, RequestsStop, LocksHeld, OpsFit, WantsE, WantsM, WantsO;
    assert s'.ecOp == s.ecOp;
    assert u != t ==> s'.threads[u] == s.threads[u];
    assert NoUnfinished(s);
    if s.ecOp.Some? {
      FinishedStaysFinished(s, Step(t, c), s.ecOp.value);
    }
    if s'.threads[u].PrepareJoin? && u != t {
      FinishedStaysFinished(s, Step(t, c), s.threads[u].prior);
    }
  }

  lemma CallKeepsOne(s: Sys, t: ThreadId, pc: Pc)
    requires Inv(s) && Enabled(s, Call(t, pc))
    ensures OneUnfinished(Apply(s, Call(t, pc)))
  {
    hide LocksHeld, OpsFit;
    var s' := Apply(s, Call(t, pc));
    assert !Checked(pc);
    forall o | o in s'.ops && !s'.ops[o].done
      ensures s'.ecOp == Some(o) || exists u :: u in s'.threads && Installing(s'.threads[u], o)
    {
      if s.ecOp != Some(o) {
        var u :| u in s.threads && Installing(s.threads[u], o);
        assert s'.threads[u] == s.threads[u];
      }
    }
  }

  lemma StepKeepsOne(s: Sys, t: ThreadId, c: Choice)
    requires Inv(s) && Enabled(s, Step(t, c))
    ensures OneUnfinished(Apply(s, Step(t, c)))
  {
    hide Inv, StepOf, OpsFit, Allowed, CanStep, Installing, Checked;
    var s' := StepOf(s, t, c);
    forall o | o in s'.ops && !s'.ops[o].done
      ensures s'.ecOp == Some(o) || exists u :: u in s'.threads && Installing(s'.threads[u], o)
    {
      UnfinishedKept(s, t, c, o);
    }
    forall u | u in s'.threads && Checked(s'.threads[u])
      ensures NoUnfinished(s') && (s'.threads[u].PrepareJoin? ==> Done(s', s'.threads[u].prior))
    {
      CheckedKept(s, t, c, u);
    }
    forall u | u in s'.threads && s'.threads[u].PrepareJoin? ensures Checked(s'.threads[u]) {
      JoinIsChecked(s'.threads[u]);
    }
  }

  lemma JoinIsChecked(pc: Pc)
    requires pc.PrepareJoin?
    ensures Checked(pc)
  {
  }

  lemma OneUnfinishedKept(s: Sys, l: Label)
    requires Inv(s) && Enabled(s, l)
    ensures OneUnfinished(Apply(s, l))
  {
    hide LocksHeld, OpsFit, OneUnfinished;
    match l
    case Call(t, pc) => CallKeepsOne(s, t, pc);
    case GiveUp(t) => GiveUpKeeps(s, t);
    case Step(t, c) => StepKeepsOne(s, t, c);
  }

  lemma GiveUpKeeps(s: Sys, t: ThreadId)
    requires OneUnfinished(s) && Enabled(s, GiveUp(t))
    ensures OneUnfinished(Apply(s, GiveUp(t)))
  {
    var s' := Apply(s, GiveUp(t));
    assert s'.ecOp == s.ecOp;
    forall o | o in s'.ops ensures o in s.ops && s'.ops[o].done == s.ops[o].done {
    }
    hide HoldsE, HoldsM, HoldsO, RequestsStop;
    forall o | o in s'.ops && !s'.ops[o].done
      ensures s'.ecOp == Some(o) || exists u :: u in s'.threads && Installing(s'.threads[u], o)
    {
      if s.ecOp != Some(o) {
        var u :| u in s.threads && Installing(s.threads[u], o);
        assert u != t && s'.threads[u] == s.threads[u];
      }
    }
  }

  lemma StepKeepsInv(s: Sys, l: Label)
    requires Inv(s) && Enabled(s, l)
    ensures Inv(Apply(s, l))
  {
    LocksKept(s, l);
    MentionsKept(s, l);
    RunsKept(s, l);
    OneUnfinishedKept(s, l);
    hide Enabled, Apply, LocksHeld, OpsExist, OpsRun, OneUnfinished;
  }

  lemma {:induction false} RunKeepsInv(s: Sys, run: seq<Label>)
    requires Inv(s) && ValidRun(s, run)
    ensures Inv(After(s, run))
    decreases |run|
  {
    hide Inv, Enabled, Apply;
    if run != [] {
      StepKeepsInv(s, run[0]);
      RunKeepsInv(Apply(s, run[0]), run[1..]);
    }
  }

  lemma ReachableInv(s: Sys)
    requires Reachable(s)
    ensures Inv(s)
  {
    InitInv();
    var run :| ValidRun(INIT, run) && After(INIT, run) == s;
    RunKeepsInv(INIT, run);
  }

  /** In every reachable state at most one operation, old or new, is not done. */
  lemma AtMostOneUnfinished(s: Sys, o: OpId, p: OpId)
    requires Reachable(s)
    requires o in s.ops && !s.ops[o].done && p in s.ops && !s.ops[p].done
    ensures o == p
  {
    ReachableInv(s);
    hide LocksHeld, OpsFit;
    if s.ecOp != Some(o) && s.ecOp != Some(p) {
      var t :| t in s.threads && Installing(s.threads[t], o);
      var u :| u in s.threads && Installing(s.threads[u], p);
      SameInstaller(s, t, u);
    }
  }

  lemma SameInstaller(s: Sys, t: ThreadId, u: ThreadId)
    requires LocksHeld(s) && t in s.threads && u in s.threads && Checked(s.threads[t]) && Checked(s.threads[u])
    ensures t == u
  {
    assert HoldsE(s.threads[u]);
    OneChecked(s, t, u);
  }

  // ---------- No circular wait ----------

  /** Thread t cannot go on before thread u does something. */
  ghost predicate WaitsFor(s: Sys, t: ThreadId, u: ThreadId) {
    && t in s.threads && u in s.threads
    && var pc := s.threads[t];
       || (WantsE(pc) && s.e == Some(u))
       || (WantsM(pc) && s.m == Some(u))
       || (WantsO(pc).Some? && WantsO(pc).value in s.ops && s.ops[WantsO(pc).value].holder == Some(u))
       || (pc.CancelWait? && pc.op in s.ops && !s.ops[pc.op].done && s.ops[pc.op].thread == u)
       || (pc.PrepareJoin? && pc.prior in s.ops && s.ops[pc.prior].thread == u && !s.threads[u].Ended?)
  }

  /** The order in which the locks are taken, and how far down an operation's thread can wait. */
  function Rank(pc: Pc): nat {
    if WantsE(pc) then 3
    else if pc.CancelWait? || pc.PrepareJoin? then 2
    else if WantsM(pc) || WantsO(pc).Some? then 1
    else 0
  }

  lemma HoldersRank(pc: Pc)
    ensures HoldsE(pc) ==> Rank(pc) <= 2
    ensures HoldsM(pc) || HoldsO(pc).Some? ==> Rank(pc) == 0
    ensures OpThread(pc) ==> Rank(pc) <= 1
  {
  }

  /** Waiting always leads to a thread of lower rank, so no waits form a circle. */
  lemma WaitsGoDown(s: Sys, t: ThreadId, u: ThreadId)
    requires Inv(s) && WaitsFor(s, t, u)
    ensures Rank(s.threads[u]) < Rank(s.threads[t])
  {
    HoldersRank(s.threads[u]);
    var pc := s.threads[t];
    hide HoldsE, HoldsM, OneUnfinished, OpsExist;
    if pc.CancelWait? && pc.op in s.ops && s.ops[pc.op].thread == u {
      assert RunsOp(s.threads[u], pc.op, s.ops[pc.op]);
    }
    if pc.PrepareJoin? && pc.prior in s.ops && s.ops[pc.prior].thread == u {
      assert RunsOp(s.threads[u], pc.prior, s.ops[pc.prior]);
    }
  }

  /** A chain of threads each of which waits for the next. */
  ghost predicate WaitChain(s: Sys, chain: seq<ThreadId>) {
    forall i :: 0 <= i < |chain| - 1 ==> WaitsFor(s, chain[i], chain[i + 1])
  }

  lemma {:induction false} ChainGoesDown(s: Sys, chain: seq<ThreadId>)
    requires Inv(s) && WaitChain(s, chain) && |chain| >= 2
    ensures chain[0] in s.threads && chain[|chain| - 1] in s.threads
    ensures Rank(s.threads[chain[|chain| - 1]]) + |chain| - 1 <= Rank(s.threads[chain[0]])
  {
    hide Inv, WaitsFor;
    assert WaitsFor(s, chain[0], chain[1]);
    WaiterExists(s, chain[0], chain[1]);
    WaitsGoDown(s, chain[0], chain[1]);
    if |chain| > 2 {
      forall i | 0 <= i < |chain[1..]| - 1 ensures WaitsFor(s, chain[1..][i], chain[1..][i + 1]) {
        assert WaitsFor(s, chain[i + 1], chain[i + 2]);
      }
      ChainGoesDown(s, chain[1..]);
    }
  }

  lemma WaiterExists(s: Sys, t: ThreadId, u: ThreadId)
    requires WaitsFor(s, t, u)
    ensures t in s.threads && u in s.threads
  {
  }

  /** No circular wait, and no chain of more than four threads, in any reachable state. */
  lemma NoCircularWait(s: Sys, chain: seq<ThreadId>)
    requires Reachable(s) && WaitChain(s, chain) && |chain| >= 2
    ensures chain[0] != chain[|chain| - 1] && |chain| <= 4
  {
    ReachableInv(s);
    ChainGoesDown(s, chain);
  }

  lemma BlockedOnLock(s: Sys, t: ThreadId) returns (u: ThreadId)
    requires LocksHeld(s) && OpsExist(s) && t in s.threads && !CanStep(s, t)
    requires var pc := s.threads[t]; WantsE(pc) || WantsM(pc) || WantsO(pc).Some?
    ensures WaitsFor(s, t, u) && !s.threads[u].Ended?
  {
    var pc := s.threads[t];
    WantedIsMentioned(pc);
    hide Mentions;
    u := if WantsE(pc) then s.e.value
         else if WantsM(pc) then s.m.value
         else s.ops[WantsO(pc).value].holder.value;
  }

  lemma BlockedOnOperation(s: Sys, t: ThreadId) returns (u: ThreadId)
    requires OpsExist(s) && OpsRun(s) && t in s.threads && !CanStep(s, t)
    requires var pc := s.threads[t]; pc.CancelWait? || pc.PrepareJoin?
    ensures WaitsFor(s, t, u) && !s.threads[u].Ended?
  {
    var pc := s.threads[t];
    WantedIsMentioned(pc);
    hide Mentions, HoldsE, HoldsM, HoldsO;
    var o := if pc.CancelWait? then pc.op else pc.prior;
    u := s.ops[o].thread;
    assert RunsOp(s.threads[u], o, s.ops[o]);
  }

  /** A thread that cannot step waits for one that exists and has not ended. */
  lemma BlockedWaits(s: Sys, t: ThreadId) returns (u: ThreadId)
    requires Inv(s) && t in s.threads && !s.threads[t].Ended? && !CanStep(s, t)
    ensures WaitsFor(s, t, u) && !s.threads[u].Ended?
  {
    var pc := s.threads[t];
    if pc.CancelWait? || pc.PrepareJoin? {
      u := BlockedOnOperation(s, t);
    } else {
      assert WantsE(pc) || WantsM(pc) || WantsO(pc).Some? by { hide LocksHeld, OpsFit, OneUnfinished; }
      u := BlockedOnLock(s, t);
    }
  }

  lemma WantedIsMentioned(pc: Pc)
    ensures WantsO(pc).Some? ==> Mentions(pc, WantsO(pc).value)
    ensures pc.CancelWait? ==> Mentions(pc, pc.op)
    ensures pc.PrepareJoin? ==> Mentions(pc, pc.prior)
  {
  }

  /** Whoever has not ended can go on, or waits, directly or through others, for someone who can. */
  lemma SomeoneCanStep(s: Sys, t: ThreadId) returns (chain: seq<ThreadId>)
    requires Inv(s) && t in s.threads && !s.threads[t].Ended?
    ensures chain != [] && chain[0] == t && WaitChain(s, chain)
    ensures CanStep(s, chain[|chain| - 1])
    decreases Rank(s.threads[t])
  {
    hide CanStep, Rank, Inv, WaitsFor;
    if CanStep(s, t) {
      chain := [t];
    } else {
      var u := BlockedWaits(s, t);
      WaitsGoDown(s, t, u);
      WaiterExists(s, t, u);
      var rest := SomeoneCanStep(s, u);
      chain := [t] + rest;
      forall i | 0 <= i < |chain| - 1 ensures WaitsFor(s, chain[i], chain[i + 1]) {
        if i > 0 { assert WaitsFor(s, rest[i - 1], rest[i]); }
      }
    }
  }

  /** So while any thread is unfinished, some step is possible: the conductor never deadlocks. */
  lemma NoDeadlock(s: Sys, t: ThreadId) returns (l: Label)
    requires Reachable(s) && t in s.threads && !s.threads[t].Ended?
    ensures Enabled(s, l) && l.Step?
  {
    ReachableInv(s);
    hide Inv, CanStep;
    var chain := SomeoneCanStep(s, t);
    var u := chain[|chain| - 1];
    StepExists(s, u);
    l := Step(u, if s.threads[u].PrepareInM? then Fail else Go);
  }

  lemma StepExists(s: Sys, u: ThreadId)
    requires CanStep(s, u)
    ensures u in s.threads && Allowed(s, u, if s.threads[u].PrepareInM? then Fail else Go)
  {
  }
}
