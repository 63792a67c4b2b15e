// Every step of the model controller keeps the invariant of ModelProtocol.
module ModelInvariants {
  import opened Results
  import opened MlModels
  import opened VersionOrder
  import opened ModelController
  import opened ModelProtocol

  lemma InitInv()
    ensures Inv(INIT)
  {
  }

  // ---------- Steps of a task that only move it ----------

  /** Two systems with the same outstanding works agree on who has a task. */
  ghost predicate SameWorks(s: Sys, s': Sys) {
    && s'.sh == s.sh && Pending(s') == Pending(s) && s'.tasks.Keys == s.tasks.Keys
    && forall i :: i in s.tasks ==> s'.tasks[i].work == s.tasks[i].work
  }

  lemma SameWorksKeepNames(s: Sys, s': Sys)
    requires SameWorks(s, s') && OneTaskPerName(s)
    ensures OneTaskPerName(s')
  {
    hide DistinctNames, Pending;
  }

  lemma SameWorksKeepBusy(s: Sys, s': Sys)
    requires SameWorks(s, s') && BusyMatchesTasks(s)
    ensures BusyMatchesTasks(s')
  {
    hide Pending, MarkedEntry;
    forall n | Busy(s', n) ensures HasTask(s', n) {
      assert Busy(s, n) && HasTask(s, n);
      if i :| i in s.tasks && s.tasks[i].work.name == n {
        assert s'.tasks[i].work.name == n;
      }
    }
  }

  lemma SameWorksKeepKeys(s: Sys, s': Sys)
    requires SameWorks(s, s') && s'.reconciler == s.reconciler && Keyed(s)
    ensures Keyed(s')
  {
    hide Pending, KeyedWork, KeyedByName;
  }

  /** Moving a task keeps everything but the facts about phases and the guard. */
  lemma MovedKeeps(s: Sys, s': Sys)
    requires Inv(s) && SameWorks(s, s') && s'.reconciler == s.reconciler && s'.pool == s.pool
    requires s'.stopping == s.stopping && s'.closed == s.closed && s'.nextTask == s.nextTask
    ensures OneTaskPerName(s') && BusyMatchesTasks(s') && Keyed(s') && SnapshotSafe(s') && PoolFits(s')
  {
    SameWorksKeepNames(s, s');
    SameWorksKeepBusy(s, s');
    SameWorksKeepKeys(s, s');
    hide OneTaskPerName, BusyMatchesTasks, Keyed, PhasesFit, GuardFits, DictionariesAgree;
  }

  /** The names in the guard once this task is in that phase. */
  function GuardWhenMoved(s: Sys, id: nat, phase: Phase): set<string>
    requires id in s.tasks
  {
    var name := s.tasks[id].work.name;
    if phase.InAssets? then s.inProgress + {name}
    else if s.tasks[id].phase.InAssets? then s.inProgress - {name}
    else s.inProgress
  }

  lemma MovedKeepsGuard(s: Sys, id: nat, phase: Phase)
    requires OneTaskPerName(s) && GuardFits(s) && id in s.tasks
    ensures GuardFits(Moved(s, id, phase).(inProgress := GuardWhenMoved(s, id, phase)))
  {
    var s' := Moved(s, id, phase).(inProgress := GuardWhenMoved(s, id, phase));
    var name := s.tasks[id].work.name;
    assert s'.tasks[id].work.name == name;
    forall n | n in s'.inProgress
      ensures exists i :: i in s'.tasks && s'.tasks[i].phase.InAssets? && s'.tasks[i].work.name == n
    {
      if n == name && phase.InAssets? {
        assert s'.tasks[id].phase.InAssets?;
      } else {
        var i :| i in s.tasks && s.tasks[i].phase.InAssets? && s.tasks[i].work.name == n;
        assert i != id && s'.tasks[i] == s.tasks[i];
      }
    }
  }

  /** A task may be where this phase puts it. */
  predicate PhaseFits(sh: Shared, w: Work, phase: Phase) {
    && (phase.AtAssets? || phase.InAssets? ==> CallFits(sh, w, phase.call))
    && (phase.Finishing? && w.kind.Unload? ==> phase.ok)
  }

  lemma MovedKeepsPhases(s: Sys, id: nat, phase: Phase)
    requires PhasesFit(s) && id in s.tasks && PhaseFits(s.sh, s.tasks[id].work, phase)
    ensures PhasesFit(Moved(s, id, phase))
  {
    hide CallFits;
  }

  lemma MoveKeepsInv(s: Sys, id: nat, phase: Phase)
    requires Inv(s) && id in s.tasks && PhaseFits(s.sh, s.tasks[id].work, phase)
    ensures Inv(Moved(s, id, phase).(inProgress := GuardWhenMoved(s, id, phase)))
  {
    var m := Moved(s, id, phase);
    var s' := m.(inProgress := GuardWhenMoved(s, id, phase));
    assert SameWorks(s, s');
    MovedKeeps(s, s');
    MovedKeepsGuard(s, id, phase);
    MovedKeepsPhases(s, id, phase);
    PhasesFitCongruent(m, s');
    hide OneTaskPerName, BusyMatchesTasks, Keyed, PhasesFit, GuardFits, DictionariesAgree, PhaseFits, SnapshotSafe, PoolFits;
  }

  lemma PhasesFitCongruent(s: Sys, s': Sys)
    requires PhasesFit(s) && s'.tasks == s.tasks && s'.sh == s.sh
    ensures PhasesFit(s')
  {
    hide CallFits;
  }

  /** The model of an asset call has the name of the task. */
  lemma CallName(s: Sys, id: nat)
    requires Keyed(s) && PhasesFit(s) && id in s.tasks
    requires s.tasks[id].phase.AtAssets? || s.tasks[id].phase.InAssets?
    ensures s.tasks[id].phase.call.model.name == s.tasks[id].work.name
    ensures CallFits(s.sh, s.tasks[id].work, s.tasks[id].phase.call)
  {
  }

  /** Under the invariant the guard never raises: a second asset call for a name cannot be in progress. */
  lemma GuardNeverRaises(s: Sys, id: nat)
    requires Inv(s) && Enabled(s, EnterGuard(id))
    ensures s.tasks[id].phase.call.model.name == s.tasks[id].work.name
    ensures s.tasks[id].phase.call.model.name !in s.inProgress
  {
    CallName(s, id);
    hide BusyMatchesTasks, Keyed, PhasesFit, SnapshotSafe, PoolFits, DictionariesAgree;
    forall i | i in s.tasks && s.tasks[i].phase.InAssets?
      ensures s.tasks[i].work.name != s.tasks[id].work.name
    {
    }
  }

  lemma FirstPhaseFits(s: Sys, id: nat)
    requires Inv(s) && Enabled(s, Begin(id))
    ensures PhaseFits(s.sh, s.tasks[id].work, FirstPhase(s.tasks[id].work, s.sh))
  {
    hide OneTaskPerName, Keyed, PhasesFit, SnapshotSafe, PoolFits, GuardFits;
    assert Lookup(s.sh.states, s.tasks[id].work.name) == Some(MarkedEntry(s.tasks[id].work));
  }

  /** What is on disk and in the backend has no part in the invariant. */
  lemma InvIgnoresOutside(s: Sys, s': Sys)
    requires Inv(s) && s' == s.(disk := s'.disk, backend := s'.backend)
    ensures Inv(s')
  {
    assert SameWorks(s, s');
    MovedKeeps(s, s');
    PhasesFitCongruent(s, s');
    GuardFitsCongruent(s, s');
    hide OneTaskPerName, BusyMatchesTasks, Keyed, PhasesFit, GuardFits, SnapshotSafe, PoolFits;
  }

  /** Where a step of a task leads. */
  function NextPhase(s: Sys, l: Label): Phase
    requires l.Begin? || l.EnterGuard? || l.LeaveGuard? || l.CallBackend?
    requires l.id in s.tasks && (l.EnterGuard? ==> s.tasks[l.id].phase.AtAssets?)
  {
    var t := s.tasks[l.id];
    match l
    case Begin(_) => FirstPhase(t.work, s.sh)
    case EnterGuard(_) => InAssets(t.phase.call)
    case LeaveGuard(_, ok) => AfterAssets(t.work, ok)
    case CallBackend(_, ok) => AfterBackend(t.work, ok)
  }

  lemma TaskStepEffect(s: Sys, l: Label)
    requires Enabled(s, l) && (l.Begin? || l.EnterGuard? || l.LeaveGuard? || l.CallBackend?)
    requires l.EnterGuard? || l.LeaveGuard? ==> s.tasks[l.id].phase.call.model.name == s.tasks[l.id].work.name
    requires l.EnterGuard? ==> s.tasks[l.id].work.name !in s.inProgress
    ensures var phase := NextPhase(s, l);
            Apply(s, l) == Moved(s, l.id, phase).(inProgress := GuardWhenMoved(s, l.id, phase),
                                                  disk := Apply(s, l).disk, backend := Apply(s, l).backend)
  {
    hide DiskAfter, BackendAfter;
  }

  lemma TaskStepKeepsInv(s: Sys, l: Label)
    requires Inv(s) && Enabled(s, l)
    requires l.Begin? || l.EnterGuard? || l.LeaveGuard? || l.CallBackend?
    ensures Inv(Apply(s, l))
  {
    if l.Begin? {
      FirstPhaseFits(s, l.id);
    } else if l.EnterGuard? {
      GuardNeverRaises(s, l.id);
    }
    if l.EnterGuard? || l.LeaveGuard? {
      CallName(s, l.id);
    }
    var phase := NextPhase(s, l);
    TaskStepEffect(s, l);
    hide Inv, Apply, CallFits, FirstPhase;
    var m := Moved(s, l.id, phase).(inProgress := GuardWhenMoved(s, l.id, phase));
    MoveKeepsInv(s, l.id, phase);
    InvIgnoresOutside(m, Apply(s, l));
  }

  // ---------- Recording an outcome ----------

  /** Recording the outcome of a task changes the entries of its own name only. */
  lemma RecordLocal(sh: Shared, w: Work, ok: bool, n: string)
    requires n != w.name
    ensures Lookup(Record(sh, w, ok).states, n) == Lookup(sh.states, n)
    ensures Lookup(Record(sh, w, ok).models, n) == Lookup(sh.models, n)
  {
  }

  lemma RecordAgrees(sh: Shared, w: Work, ok: bool)
    requires DictionariesAgree(sh)
    ensures DictionariesAgree(Record(sh, w, ok))
  {
    var sh' := Record(sh, w, ok);
    forall n
      ensures n in sh'.models ==> n in sh'.states
      ensures n in sh'.states && sh'.states[n].state.Ready? ==> n in sh'.models && sh'.states[n].proto == Some(sh'.models[n])
      ensures n in sh'.states && sh'.states[n].state.Loading? ==> n !in sh'.models
    {
      if n != w.name { RecordLocal(sh, w, ok, n); }
    }
  }


  /** Finishing a task leaves the other tasks, which are for other names, and the parts the guard and pool look at. */
  lemma FinishLeaves(s: Sys, id: nat)
    requires OneTaskPerName(s) && Enabled(s, Finish(id))
    ensures var s', w := Apply(s, Finish(id)), s.tasks[id].work;
            && s'.inProgress == s.inProgress && s'.pool == s.pool && s'.stopping == s.stopping && s'.closed == s.closed
            && s'.nextTask == s.nextTask && s'.reconciler == s.reconciler
            && (forall i :: i in s'.tasks <==> i in s.tasks && i != id)
            && (forall i :: i in s'.tasks ==> s'.tasks[i] == s.tasks[i] && s.tasks[i].work.name != w.name)
            && (forall n :: n != w.name ==> Lookup(s'.sh.states, n) == Lookup(s.sh.states, n))
            && (forall n :: n != w.name ==> Lookup(s'.sh.models, n) == Lookup(s.sh.models, n))
  {
    hide Record, DistinctNames;
    var w := s.tasks[id].work;
    forall n: string | n != w.name
      ensures Lookup(Record(s.sh, w, s.tasks[id].phase.ok).states, n) == Lookup(s.sh.states, n)
      ensures Lookup(Record(s.sh, w, s.tasks[id].phase.ok).models, n) == Lookup(s.sh.models, n)
    {
      RecordLocal(s.sh, w, s.tasks[id].phase.ok, n);
    }
  }

  lemma FinishKeepsTasks(s: Sys, id: nat)
    requires OneTaskPerName(s) && BusyMatchesTasks(s) && Keyed(s) && Enabled(s, Finish(id))
    ensures var s' := Apply(s, Finish(id)); OneTaskPerName(s') && BusyMatchesTasks(s') && Keyed(s')
  {
    var s', w := Apply(s, Finish(id)), s.tasks[id].work;
    FinishLeaves(s, id);
    RecordKeyed(s.sh, w, s.tasks[id].phase.ok);
    hide Record, Enabled, DistinctNames;
    assert !Busy(s', w.name) && Pending(s') == Pending(s);
    assert KeyedByName(s'.sh.models);
    assert forall n :: n in s'.sh.states && s'.sh.states[n].proto.Some? ==> s'.sh.states[n].proto.value.name == n;
    hide Apply;
    forall n | Busy(s', n) ensures HasTask(s', n) {
      assert Lookup(s'.sh.states, n) == Lookup(s.sh.states, n);
      assert Busy(s, n) && HasTask(s, n);
      if i :| i in s.tasks && s.tasks[i].work.name == n {
        assert i in s'.tasks;
      }
    }
  }

  /** An outcome is recorded under the name of its proto, and no longer as busy. */
  lemma RecordKeyed(sh: Shared, w: Work, ok: bool)
    requires KeyedByName(sh.models) && KeyedWork(w)
    requires forall n :: n in sh.states && sh.states[n].proto.Some? ==> sh.states[n].proto.value.name == n
    ensures var r := Record(sh, w, ok);
            && KeyedByName(r.models)
            && (forall n :: n in r.states && r.states[n].proto.Some? ==> r.states[n].proto.value.name == n)
            && (w.name in r.states ==> !IsBusy(r.states[w.name].state))
  {
  }

  lemma FinishKeepsGuard(s: Sys, id: nat)
    requires GuardFits(s) && PoolFits(s) && OneTaskPerName(s) && PhasesFit(s) && Enabled(s, Finish(id))
    ensures var s' := Apply(s, Finish(id)); GuardFits(s') && PoolFits(s') && PhasesFit(s')
  {
    var s' := Apply(s, Finish(id));
    FinishLeaves(s, id);
    assert s.tasks[id].phase.Finishing?;
    hide Apply, OneTaskPerName, Enabled;
    forall n | n in s'.inProgress
      ensures exists i :: i in s'.tasks && s'.tasks[i].phase.InAssets? && s'.tasks[i].work.name == n
    {
      var i :| i in s.tasks && s.tasks[i].phase.InAssets? && s.tasks[i].work.name == n;
      assert i in s'.tasks;
    }
  }

  lemma FinishKeepsInv(s: Sys, id: nat)
    requires Inv(s) && Enabled(s, Finish(id))
    ensures Inv(Apply(s, Finish(id)))
  {
    var s' := Apply(s, Finish(id));
    var w, ok := s.tasks[id].work, s.tasks[id].phase.ok;
    FinishKeepsTasks(s, id);
    FinishKeepsGuard(s, id);
    RecordAgrees(s.sh, w, ok);
    hide OneTaskPerName, Keyed, PhasesFit, GuardFits, PoolFits;
    if s.reconciler.Snapped? {
      forall n | n in s'.sh.models && n !in s.reconciler.current
        ensures n in s'.sh.states && s'.sh.states[n].state.Ready?
      {
        assert Lookup(s.sh.states, w.name) == Some(MarkedEntry(w));
        if n != w.name {
          RecordLocal(s.sh, w, ok, n);
        } else if !ok {
          assert false;
        }
      }
    }
  }

  // ---------- Steps of the reconciler ----------

  lemma ListKeepsInv(s: Sys, installed: seq<MlModel>)
    requires Inv(s) && Enabled(s, List(installed))
    ensures Inv(Apply(s, List(installed)))
  {
    hide LatestVersions;
    LatestKeyedByName(installed);
    var s' := Apply(s, List(installed));
    forall n | Busy(s', n) ensures HasTask(s', n) {
      assert Busy(s, n) && HasTask(s, n);
    }
  }

  predicate IsLocal(l: Label) {
    l.Snapshot? || l.NoChange? || l.EndReconcile? || l.FutureDone? || l.Start? || l.StopTake? || l.StopShutdown?
  }

  /** These steps leave the tasks, their works and the dictionaries alone. */
  lemma LocalStepEffect(s: Sys, l: Label)
    requires Enabled(s, l) && IsLocal(l)
    ensures var s' := Apply(s, l);
            && SameWorks(s, s') && s'.tasks == s.tasks && s'.inProgress == s.inProgress && s'.nextTask == s.nextTask
            && (!s'.reconciler.Listed? || s'.reconciler == s.reconciler)
            && (l.Snapshot? ==> s'.reconciler == Snapped(s.sh.models, s.sh.states, s.reconciler.desired))
            && (!l.Snapshot? ==> !s'.reconciler.Snapped? || s'.reconciler == s.reconciler)
  {
    hide DiffOf, Empty, LatestVersions;
  }

  lemma LocalStepKeepsKeys(s: Sys, l: Label)
    requires Keyed(s) && Enabled(s, l) && IsLocal(l)
    ensures Keyed(Apply(s, l))
  {
    LocalStepEffect(s, l);
    assert l.Snapshot? ==> s.reconciler.Listed?;
    hide Apply, Enabled, KeyedWork, KeyedByName, Pending;
  }

  lemma LocalStepKeepsPool(s: Sys, l: Label)
    requires PoolFits(s) && Enabled(s, l) && IsLocal(l)
    ensures PoolFits(Apply(s, l))
  {
    hide DiffOf, Empty, LatestVersions;
  }

  lemma GuardFitsCongruent(s: Sys, s': Sys)
    requires GuardFits(s) && s'.tasks == s.tasks && s'.inProgress == s.inProgress
    ensures GuardFits(s')
  {
  }

  lemma LocalStepKeepsInv(s: Sys, l: Label)
    requires Inv(s) && Enabled(s, l) && IsLocal(l)
    ensures Inv(Apply(s, l))
  {
    var s' := Apply(s, l);
    LocalStepEffect(s, l);
    LocalStepKeepsKeys(s, l);
    LocalStepKeepsPool(s, l);
    SameWorksKeepNames(s, s');
    SameWorksKeepBusy(s, s');
    PhasesFitCongruent(s, s');
    GuardFitsCongruent(s, s');
    hide Apply, Enabled, OneTaskPerName, BusyMatchesTasks, Keyed, PhasesFit, GuardFits, PoolFits, DictionariesAgree;
  }

  /** Submitting turns the first pending work into a queued task. */
  lemma SubmitShifts(s: Sys)
    requires PoolFits(s) && Enabled(s, Submit)
    ensures var s', id := Apply(s, Submit), s.nextTask;
            && id !in s.tasks && id in s'.tasks && s'.tasks[id] == Task(Pending(s)[0], Queued)
            && (forall i :: i in s'.tasks <==> i == id || i in s.tasks)
            && (forall i :: i in s.tasks ==> s'.tasks[i] == s.tasks[i])
            && Pending(s)[0] in Pending(s)
            && (forall w :: w in Pending(s) <==> w == Pending(s)[0] || w in Pending(s'))
            && s'.sh == s.sh
  {
    var works := Pending(s);
    assert Pending(Apply(s, Submit)) == works[1..];
    assert works == [works[0]] + works[1..];
  }

  lemma SubmitKeepsNames(s: Sys)
    requires OneTaskPerName(s) && PoolFits(s) && Enabled(s, Submit)
    ensures OneTaskPerName(Apply(s, Submit))
  {
    SubmitShifts(s);
    var s', works := Apply(s, Submit), Pending(s);
    TailDistinct(works);
    assert Pending(s') == works[1..];
    hide PoolFits, Apply, Enabled, DistinctNames;
  }

  lemma TailDistinct(works: seq<Work>)
    requires DistinctNames(works) && works != []
    ensures DistinctNames(works[1..]) && forall w :: w in works[1..] ==> w.name != works[0].name
  {
  }

  lemma SubmitKeepsBusy(s: Sys)
    requires BusyMatchesTasks(s) && PoolFits(s) && Enabled(s, Submit)
    ensures BusyMatchesTasks(Apply(s, Submit))
  {
    SubmitShifts(s);
    var s' := Apply(s, Submit);
    hide PoolFits, Apply, Pending, MarkedEntry;
    forall n | Busy(s', n) ensures HasTask(s', n) {
      assert Busy(s, n) && HasTask(s, n);
      if i :| i in s.tasks && s.tasks[i].work.name == n {
        assert s'.tasks[i].work.name == n;
      } else {
        var w :| w in Pending(s) && w.name == n;
        if w == Pending(s)[0] {
          assert s'.tasks[s.nextTask].work.name == n;
        } else {
          assert w in Pending(s');
        }
      }
    }
  }

  lemma SubmitKeepsKeys(s: Sys)
    requires Keyed(s) && PoolFits(s) && Enabled(s, Submit)
    ensures Keyed(Apply(s, Submit)) && PoolFits(Apply(s, Submit)) && SnapshotSafe(Apply(s, Submit))
  {
    SubmitShifts(s);
    var s' := Apply(s, Submit);
    assert s'.reconciler.Submitting?;
    hide Pending, KeyedWork, KeyedByName;
  }

  lemma SubmitKeepsGuard(s: Sys)
    requires GuardFits(s) && PhasesFit(s) && PoolFits(s) && Enabled(s, Submit)
    ensures GuardFits(Apply(s, Submit)) && PhasesFit(Apply(s, Submit))
  {
    SubmitShifts(s);
    var s' := Apply(s, Submit);
    assert s'.inProgress == s.inProgress;
    hide PoolFits, Pending, CallFits, Apply;
    forall n | n in s'.inProgress
      ensures exists i :: i in s'.tasks && s'.tasks[i].phase.InAssets? && s'.tasks[i].work.name == n
    {
      var i :| i in s.tasks && s.tasks[i].phase.InAssets? && s.tasks[i].work.name == n;
      assert s'.tasks[i] == s.tasks[i];
    }
  }

  lemma SubmitKeepsInv(s: Sys)
    requires Inv(s) && Enabled(s, Submit)
    ensures Inv(Apply(s, Submit))
  {
    SubmitKeepsNames(s);
    SubmitKeepsBusy(s);
    SubmitKeepsKeys(s);
    SubmitKeepsGuard(s);
    assert Apply(s, Submit).sh == s.sh;
    hide OneTaskPerName, BusyMatchesTasks, Keyed, PhasesFit, GuardFits, DictionariesAgree, SnapshotSafe, PoolFits, Apply;
  }

  /** What marking needs of a decision: the name has no task now, and the dictionaries stay related. */
  lemma DecisionSound(s: Sys, w: Work)
    requires Inv(s) && s.reconciler.Snapped?
    requires Decide(DiffOf(s.reconciler), s.reconciler.current, s.reconciler.desired, w.name,
                    Lookup(s.sh.states, w.name)) == Some(w)
    ensures !Busy(s, w.name)
    ensures forall i :: i in s.tasks ==> s.tasks[i].work.name != w.name
    ensures KeyedWork(w)
    ensures w.kind.Load? ==> w.name !in s.sh.models
  {
    var n := w.name;
    hide OneTaskPerName, PhasesFit, GuardFits, PoolFits;
    forall i | i in s.tasks ensures s.tasks[i].work.name != n {
      var e := MarkedEntry(s.tasks[i].work);
      assert Lookup(s.sh.states, s.tasks[i].work.name) == Some(e) && IsBusy(e.state);
    }
  }

  /** What marking does: the entries of the works, which are for names without a task, and no others. */
  lemma MarkEntries(s: Sys, works: seq<Work>)
    requires Inv(s) && Enabled(s, MarkAll(works))
    ensures var s' := Apply(s, MarkAll(works));
            && s'.tasks == s.tasks && s'.sh.models == s.sh.models && Pending(s) == [] && Pending(s') == works
            && s'.reconciler.Submitting? && DistinctNames(works)
            && (forall n :: (forall w :: w in works ==> w.name != n) ==> Lookup(s'.sh.states, n) == Lookup(s.sh.states, n))
            && (forall w :: w in works ==> Lookup(s'.sh.states, w.name) == Some(MarkedEntry(w)))
    ensures forall w :: w in works ==>
              && !Busy(s, w.name) && KeyedWork(w) && (w.kind.Load? ==> w.name !in s.sh.models)
              && forall i :: i in s.tasks ==> s.tasks[i].work.name != w.name
  {
    forall w | w in works
      ensures !Busy(s, w.name) && KeyedWork(w) && (w.kind.Load? ==> w.name !in s.sh.models)
      ensures forall i :: i in s.tasks ==> s.tasks[i].work.name != w.name
    {
      hide Mark, Empty, Decide;
      DecisionSound(s, w);
    }
    assert DistinctNames(works);
    hide Inv, Decide, Mark, Empty, InSubmitOrder, DiffOf;
    forall n
      ensures (forall w :: w in works ==> w.name != n) ==> Lookup(Mark(s.sh.states, works), n) == Lookup(s.sh.states, n)
      ensures forall w :: w in works && w.name == n ==> Lookup(Mark(s.sh.states, works), n) == Some(MarkedEntry(w))
    {
      MarkAt(s.sh.states, works, n);
    }
  }

  lemma MarkKeepsTasks(s: Sys, works: seq<Work>)
    requires Inv(s) && Enabled(s, MarkAll(works))
    ensures var s' := Apply(s, MarkAll(works)); OneTaskPerName(s') && BusyMatchesTasks(s') && Keyed(s')
  {
    var s' := Apply(s, MarkAll(works));
    MarkEntries(s, works);
    hide Apply, Enabled, SnapshotSafe, PhasesFit, GuardFits, PoolFits, DictionariesAgree, MarkedEntry, Pending, DistinctNames;
    MarkKeepsBusy(s, s', works);
    MarkKeepsKeys(s, s', works);
  }

  lemma MarkKeepsBusy(s: Sys, s': Sys, works: seq<Work>)
    requires BusyMatchesTasks(s) && s'.tasks == s.tasks && Pending(s) == [] && Pending(s') == works
    requires forall n :: (forall w :: w in works ==> w.name != n) ==> Lookup(s'.sh.states, n) == Lookup(s.sh.states, n)
    requires forall w :: w in works ==> Lookup(s'.sh.states, w.name) == Some(MarkedEntry(w))
    requires forall w :: w in works ==> forall i :: i in s.tasks ==> s.tasks[i].work.name != w.name
    ensures BusyMatchesTasks(s')
  {
    hide MarkedEntry, Pending;
    forall i | i in s'.tasks ensures Lookup(s'.sh.states, s.tasks[i].work.name) == Some(MarkedEntry(s.tasks[i].work)) {
      assert forall w :: w in works ==> w.name != s.tasks[i].work.name;
    }
    forall n | Busy(s', n) ensures HasTask(s', n) {
      if forall w :: w in works ==> w.name != n {
        assert Lookup(s'.sh.states, n) == Lookup(s.sh.states, n);
        assert Busy(s, n) && HasTask(s, n);
      }
    }
  }

  lemma MarkKeepsKeys(s: Sys, s': Sys, works: seq<Work>)
    requires Keyed(s) && s'.tasks == s.tasks && s'.sh.models == s.sh.models && Pending(s') == works
    requires s'.reconciler.Submitting? && forall w :: w in works ==> KeyedWork(w)
    requires forall n :: (forall w :: w in works ==> w.name != n) ==> Lookup(s'.sh.states, n) == Lookup(s.sh.states, n)
    requires forall w :: w in works ==> Lookup(s'.sh.states, w.name) == Some(MarkedEntry(w))
    ensures Keyed(s')
  {
    hide Pending, KeyedByName;
    forall n | n in s'.sh.states && s'.sh.states[n].proto.Some? ensures s'.sh.states[n].proto.value.name == n {
      if w :| w in works && w.name == n {
        assert Lookup(s'.sh.states, n) == Some(MarkedEntry(w)) && KeyedWork(w);
      } else {
        assert Lookup(s'.sh.states, n) == Lookup(s.sh.states, n);
      }
    }
  }

  lemma MarkAgrees(sh: Shared, works: seq<Work>, states: map<string, ModelAndState>)
    requires DictionariesAgree(sh)
    requires forall w :: w in works ==> Lookup(states, w.name) == Some(MarkedEntry(w)) && (w.kind.Load? ==> w.name !in sh.models)
    requires forall n :: (forall w :: w in works ==> w.name != n) ==> Lookup(states, n) == Lookup(sh.states, n)
    ensures DictionariesAgree(sh.(states := states))
    ensures forall n :: n in states && states[n].state.Ready? ==> Lookup(states, n) == Lookup(sh.states, n)
  {
    forall n
      ensures n in sh.states ==> n in states
      ensures n in states && states[n].state.Ready? ==> Lookup(states, n) == Lookup(sh.states, n)
      ensures n in states && states[n].state.Loading? ==> n !in sh.models
    {
      if w :| w in works && w.name == n {
        assert Lookup(states, n) == Some(MarkedEntry(w));
      } else {
        assert Lookup(states, n) == Lookup(sh.states, n);
      }
    }
  }

  lemma MarkKeepsInv(s: Sys, works: seq<Work>)
    requires Inv(s) && Enabled(s, MarkAll(works))
    ensures Inv(Apply(s, MarkAll(works)))
  {
    hide Decided, Mark, Decide, OneTaskPerName, Keyed, BusyMatchesTasks, Empty, Lookup;
    MarkKeepsTasks(s, works);
    MarkEntries(s, works);
    var s' := Apply(s, MarkAll(works));
    MarkAgrees(s.sh, works, s'.sh.states);
  }

  // ---------- All steps, all runs ----------

  lemma StepKeepsInv(s: Sys, l: Label)
    requires Inv(s) && Enabled(s, l)
    ensures Inv(Apply(s, l))
  {
    hide Inv, Enabled, Apply;
    match l
    case List(installed) => ListKeepsInv(s, installed);
    case MarkAll(works) => MarkKeepsInv(s, works);
    case Submit => SubmitKeepsInv(s);
    case Begin(_) => TaskStepKeepsInv(s, l);
    case EnterGuard(_) => TaskStepKeepsInv(s, l);
    case LeaveGuard(_, _) => TaskStepKeepsInv(s, l);
    case CallBackend(_, _) => TaskStepKeepsInv(s, l);
    case Finish(id) => FinishKeepsInv(s, id);
    case _ => LocalStepKeepsInv(s, l);
  }

  lemma {:induction false} RunKeepsInv(s: Sys, run: seq<Label>)
    requires Inv(s) && ValidRun(s, run)
    ensures Inv(After(s, run))
    decreases |run|
  {
    hide Inv, Enabled, Apply;
    if run != [] {
      StepKeepsInv(s, run[0]);
      RunKeepsInv(Apply(s, run[0]), run[1..]);
    }
  }

  lemma ReachableInv(s: Sys)
    requires Reachable(s)
    ensures Inv(s)
  {
    InitInv();
    var run :| ValidRun(INIT, run) && After(INIT, run) == s;
    RunKeepsInv(INIT, run);
  }
}
