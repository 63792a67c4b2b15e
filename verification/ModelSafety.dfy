// What holds in every reachable state of the model controller, and what stays stuck.
module ModelSafety {
  import opened Results
  import opened MlModels
  import opened VersionOrder
  import opened ModelController
  import opened ModelProtocol
  import opened ModelInvariants

  // ---------- At most one task per name, and no overlapping asset calls ----------

  ghost function TasksOf(s: Sys, n: string): set<nat> {
    set i | i in s.tasks && s.tasks[i].work.name == n
  }

  ghost function PendingOf(s: Sys, n: string): set<nat> {
    set k: nat | k < |Pending(s)| && Pending(s)[k].name == n
  }

  lemma AtMostOne<T>(xs: set<T>)
    requires forall x, y :: x in xs && y in xs ==> x == y
    ensures |xs| <= 1
  {
    if x :| x in xs {
      assert xs == {x};
    }
  }

  lemma TasksOfAtMostOne(s: Sys, n: string)
    requires OneTaskPerName(s)
    ensures |TasksOf(s, n)| <= 1 && |PendingOf(s, n)| <= 1
    ensures TasksOf(s, n) == {} || PendingOf(s, n) == {}
  {
    AtMostOne(TasksOf(s, n));
    forall x, y | x in PendingOf(s, n) && y in PendingOf(s, n) ensures x == y {
      assert !(x < y) && !(y < x);
    }
    AtMostOne(PendingOf(s, n));
    if i :| i in TasksOf(s, n) {
      forall k: nat | k < |Pending(s)| ensures Pending(s)[k].name != n {
        assert Pending(s)[k] in Pending(s);
      }
    }
  }

  /** UNLOADING, LOADING and RELOADING are for the three kinds of tasks, with the proto the task is for. */
  predicate Announces(state: ModelAndState, w: Work) {
    state.proto == Some(w.proto)
    && match w.kind
       case Unload => state.state == Unloading
       case Load => state.state == Loading
       case Reload => state.state == Reloading
  }

  /**
   * In every interleaving a name is LOADING, RELOADING or UNLOADING exactly while one task for it is waiting to be
   * submitted, queued or running; there are never two, and the task is the one the state announces.
   */
  lemma ExactlyOneTask(s: Sys, n: string)
    requires Reachable(s)
    ensures |TasksOf(s, n)| + |PendingOf(s, n)| == if Busy(s, n) then 1 else 0
    ensures forall i :: i in TasksOf(s, n) ==> Announces(s.sh.states[n], s.tasks[i].work)
    ensures forall k :: k in PendingOf(s, n) ==> Announces(s.sh.states[n], Pending(s)[k])
  {
    ReachableInv(s);
    TasksOfAtMostOne(s, n);
    hide OneTaskPerName, Keyed, DictionariesAgree, SnapshotSafe, PhasesFit, GuardFits, PoolFits;
    if Busy(s, n) {
      assert HasTask(s, n);
      if i :| i in s.tasks && s.tasks[i].work.name == n {
        assert i in TasksOf(s, n);
      } else {
        var w :| w in Pending(s) && w.name == n;
        var k: nat :| k < |Pending(s)| && Pending(s)[k] == w;
        assert k in PendingOf(s, n);
      }
    }
    forall i | i in TasksOf(s, n) ensures Lookup(s.sh.states, n) == Some(MarkedEntry(s.tasks[i].work)) {
    }
    forall k | k in PendingOf(s, n) ensures Lookup(s.sh.states, n) == Some(MarkedEntry(Pending(s)[k])) {
      assert Pending(s)[k] in Pending(s);
    }
  }

  /** Entering the guard always succeeds: ConcurrentModelOperationError is never raised. */
  lemma AssetCallsNeverOverlap(s: Sys, id: nat)
    requires Reachable(s) && Enabled(s, EnterGuard(id))
    ensures s.tasks[id].phase.call.model.name !in s.inProgress
    ensures Apply(s, EnterGuard(id)).tasks[id].phase == InAssets(s.tasks[id].phase.call)
    ensures forall j :: j in s.tasks && s.tasks[j].phase.InAssets? ==> s.tasks[j].work.name != s.tasks[id].work.name
  {
    ReachableInv(s);
    GuardNeverRaises(s, id);
  }

  /** An update of assets replaces the version that is loaded, from the call until its outcome is recorded. */
  lemma UpdateReplacesLoadedVersion(s: Sys, id: nat)
    requires Reachable(s) && id in s.tasks
    requires s.tasks[id].phase.AtAssets? || s.tasks[id].phase.InAssets?
    ensures var w, call := s.tasks[id].work, s.tasks[id].phase.call;
            && call.model == w.proto && w.proto.name == w.name
            && (call.Update? ==> Lookup(s.sh.models, w.name) == Some(call.loaded) && call.loaded.name == w.name)
            && (call.Create? ==> w.name !in s.sh.models)
  {
    ReachableInv(s);
  }

  // ---------- The dictionaries ----------

  /** The merged view of model_states is _model_states itself. */
  lemma MergedViewIsStates(s: Sys)
    requires Reachable(s)
    ensures MergedStates(s.sh) == s.sh.states
    ensures forall n :: n in s.sh.models ==> n in s.sh.states && s.sh.models[n].name == n
    ensures forall n :: n in s.sh.states && s.sh.states[n].state.Ready? ==> s.sh.states[n].proto == Lookup(s.sh.models, n)
                                                                            && n in s.sh.models
    ensures forall n :: n in s.sh.states && s.sh.states[n].state.Loading? ==> n !in s.sh.models
    ensures forall n :: n in s.sh.states && s.sh.states[n].proto.Some? ==> s.sh.states[n].proto.value.name == n
  {
    ReachableInv(s);
  }

  // ---------- What a reconciliation decides ----------

  /** READY under the lock; a name of the snapshot that has no state any more counts as READY too. */
  predicate CountsAsReady(s: Sys, n: string)
    requires s.reconciler.Snapped?
  {
    if n in s.sh.states then s.sh.states[n].state.Ready? else n in s.reconciler.current
  }

  /** The tasks of a reconciliation: each name is unloaded, loaded or reloaded exactly under these conditions. */
  lemma MarkedIff(s: Sys, works: seq<Work>, n: string)
    requires Enabled(s, MarkAll(works))
    ensures var r := s.reconciler;
            && (forall m :: Work(Unload, n, m) in works <==>
                  n in r.current && n !in r.desired && CountsAsReady(s, n) && m == r.current[n])
            && (forall m :: Work(Reload, n, m) in works <==>
                  n in r.current && n in r.desired && r.current[n] != r.desired[n] && CountsAsReady(s, n) && m == r.desired[n])
            && (forall m :: Work(Load, n, m) in works <==>
                  && n !in r.current && n in r.desired && m == r.desired[n]
                  && (n in s.sh.states ==> s.sh.states[n].state.Failed?)
                  && !FailedUnchanged(r.currentStates, r.desired, n))
    ensures forall k, l :: 0 <= k < l < |works| ==> works[k].name != works[l].name
    ensures forall k, l :: 0 <= k < l < |works| ==> !(works[k].kind.Load? && works[l].kind.Unload?)
                                                    && (works[k].kind.Reload? ==> works[l].kind.Reload?)
  {
    var r := s.reconciler;
    var d := DiffOf(r);
    var decision := Decide(d, r.current, r.desired, n, Lookup(s.sh.states, n));
    forall w: Work | w.name == n ensures w in works <==> decision == Some(w) {
      assert decision.Some? ==> n in AllNames(d);
    }
    hide Decided;
  }

  // ---------- The executor ----------

  /** A task is never given to an executor that stop() has taken, and an idle wait misses no task. */
  lemma SubmitsToOpenExecutor(s: Sys)
    requires Reachable(s)
    ensures EnsureExecutor(s.pool).executor.Some?
    ensures EnsureExecutor(s.pool).executor.value !in s.stopping + s.closed
    ensures s.pool.inFlight == {} ==> s.tasks == map[]
  {
    ReachableInv(s);
    if s.pool.inFlight == {} {
      assert s.tasks.Keys == {};
    }
  }

  /** The executor was taken by stop(), and a new one is made by whatever needs one. */
  predicate Retired(s: Sys, e: nat) {
    e in s.stopping + s.closed && s.pool.executor != Some(e) && e < s.pool.made
  }

  lemma RetiredStep(s: Sys, l: Label, e: nat)
    requires Enabled(s, l) && Retired(s, e)
    ensures Retired(Apply(s, l), e)
  {
    hide LatestVersions, DiffOf, Empty, Decided, Mark, Record, DiskAfter, BackendAfter, FirstPhase;
  }

  lemma {:induction false} RetiredForGood(s: Sys, run: seq<Label>, e: nat)
    requires ValidRun(s, run) && Retired(s, e)
    ensures Retired(After(s, run), e)
    decreases |run|
  {
    if run != [] {
      RetiredStep(s, run[0], e);
      hide Enabled, Apply;
      RetiredForGood(Apply(s, run[0]), run[1..], e);
    }
  }

  /** After stop() the executor of before is never used again; start() makes another one, and stop() leaves none. */
  lemma StoppedForGood(s: Sys, e: nat, run: seq<Label>)
    requires Reachable(s) && s.pool.executor == Some(e) && ValidRun(Apply(s, StopTake), run)
    ensures Apply(s, StopTake).pool.executor == None
    ensures var t := After(Apply(s, StopTake), run);
            && e in t.stopping + t.closed && t.pool.executor != Some(e)
            && Apply(t, Start).pool.executor.Some? && Apply(t, Start).pool.executor != Some(e)
            && (t.pool.executor.Some? ==> Apply(t, Start).pool == t.pool)
  {
    ReachableInv(s);
    assert s.pool.executor.value < s.pool.made;
    hide Reachable, Inv;
    var taken := Apply(s, StopTake);
    assert Retired(taken, e);
    RetiredForGood(taken, run, e);
    StartUnlessRetired(After(taken, run), e);
  }

  lemma StartUnlessRetired(s: Sys, e: nat)
    requires Retired(s, e)
    ensures Apply(s, Start).pool.executor.Some? && Apply(s, Start).pool.executor != Some(e)
    ensures s.pool.executor.Some? ==> Apply(s, Start).pool == s.pool
  {
  }

  // ---------- Failures that are never retried ----------

  /** Loaded and FAILED: the outcome of a reload that failed. */
  predicate Stuck(s: Sys, n: string) {
    n in s.sh.models && n in s.sh.states && s.sh.states[n].state.Failed?
  }

  lemma MarkSkipsStuck(s: Sys, works: seq<Work>, n: string)
    requires Inv(s) && Enabled(s, MarkAll(works)) && Stuck(s, n)
    ensures forall w :: w in works ==> w.name != n
  {
    hide OneTaskPerName, BusyMatchesTasks, Keyed, PhasesFit, GuardFits, PoolFits;
  }

  lemma StuckStep(s: Sys, l: Label, n: string)
    requires Inv(s) && Enabled(s, l) && Stuck(s, n)
    ensures var s' := Apply(s, l);
            Stuck(s', n) && s'.sh.models[n] == s.sh.models[n] && s'.sh.states[n] == s.sh.states[n]
  {
    hide OneTaskPerName, Keyed, PhasesFit, GuardFits, PoolFits, DictionariesAgree, SnapshotSafe;
    if l.MarkAll? {
      MarkSkipsStuck(s, l.works, n);
      MarkAt(s.sh.states, l.works, n);
      assert Lookup(Apply(s, l).sh.states, n) == Lookup(s.sh.states, n);
    } else if l.Finish? {
      var w := s.tasks[l.id].work;
      assert Lookup(s.sh.states, w.name) == Some(MarkedEntry(w)) && IsBusy(MarkedEntry(w).state);
      RecordLocal(s.sh, w, s.tasks[l.id].phase.ok, n);
    }
  }

  /** No later step changes a stuck name, whatever is installed: it is neither reloaded nor unloaded. */
  lemma {:induction false} StuckForever(s: Sys, run: seq<Label>, n: string)
    requires Inv(s) && ValidRun(s, run) && Stuck(s, n)
    ensures var s' := After(s, run);
            Stuck(s', n) && s'.sh.models[n] == s.sh.models[n] && s'.sh.states[n] == s.sh.states[n]
    decreases |run|
  {
    hide Inv, Enabled, Apply;
    if run != [] {
      StuckStep(s, run[0], n);
      StepKeepsInv(s, run[0]);
      StuckForever(Apply(s, run[0]), run[1..], n);
    }
  }

  /** A name gets stuck exactly when the task of a loaded name records a failure; only reloads do. */
  lemma StuckOnlyByFailedReload(s: Sys, l: Label, n: string)
    requires Reachable(s) && Enabled(s, l) && !Stuck(s, n)
    ensures Stuck(Apply(s, l), n) <==>
            l.Finish? && s.tasks[l.id].work.name == n && s.tasks[l.id].work.kind.Reload?
            && !s.tasks[l.id].phase.ok && n in s.sh.models
  {
    ReachableInv(s);
    hide Inv, Reachable;
    if l.MarkAll? {
      MarkSticksNone(s, l.works, n);
    } else if l.Finish? {
      FinishSticks(s, l.id, n);
    } else {
      OtherStepsKeepShared(s, l);
    }
  }

  lemma MarkSticksNone(s: Sys, works: seq<Work>, n: string)
    requires Inv(s) && Enabled(s, MarkAll(works)) && !Stuck(s, n)
    ensures !Stuck(Apply(s, MarkAll(works)), n)
  {
    MarkEntries(s, works);
    var s' := Apply(s, MarkAll(works));
    hide Apply, Inv, Enabled;
    if w :| w in works && w.name == n {
      assert Lookup(s'.sh.states, n) == Some(MarkedEntry(w));
    } else {
      assert Lookup(s'.sh.states, n) == Lookup(s.sh.states, n);
    }
  }

  lemma FinishSticks(s: Sys, id: nat, n: string)
    requires Inv(s) && Enabled(s, Finish(id)) && !Stuck(s, n)
    ensures var t := s.tasks[id];
            Stuck(Apply(s, Finish(id)), n) <==> t.work.name == n && t.work.kind.Reload? && !t.phase.ok && n in s.sh.models
  {
    hide OneTaskPerName, Keyed, GuardFits, PoolFits, SnapshotSafe;
    var w := s.tasks[id].work;
    assert Lookup(s.sh.states, w.name) == Some(MarkedEntry(w));
    if w.name != n {
      RecordLocal(s.sh, w, s.tasks[id].phase.ok, n);
    }
  }

  lemma OtherStepsKeepShared(s: Sys, l: Label)
    requires Enabled(s, l) && !l.MarkAll? && !l.Finish?
    ensures Apply(s, l).sh == s.sh
  {
    hide LatestVersions, DiffOf, Empty;
  }

  // ---------- Failures that are retried although nothing changed ----------

  /** The name failed to load with exactly the desired proto. */
  predicate FailedUnchanged(states: map<string, ModelAndState>, desired: map<string, MlModel>, n: string) {
    n in desired && n in states && states[n] == ModelAndState(Failed, Some(desired[n]))
  }

  /**
   * A name that now has this failure and is not loaded is marked for loading again if and only if the failure was not
   * yet recorded when the snapshot was taken.
   */
  lemma RetriedIffFailureMissedSnapshot(s: Sys, works: seq<Work>, n: string)
    requires Reachable(s) && Enabled(s, MarkAll(works))
    requires FailedUnchanged(s.sh.states, s.reconciler.desired, n) && n !in s.sh.models
    requires n !in s.reconciler.current
    ensures Work(Load, n, s.reconciler.desired[n]) in works
            <==> !FailedUnchanged(s.reconciler.currentStates, s.reconciler.desired, n)
  {
    var r := s.reconciler;
    var d := DiffOf(r);
    var w := Work(Load, n, r.desired[n]);
    assert n in d.toLoad <==> Attempt(r.desired[n], Lookup(r.currentStates, n));
    assert n in d.toLoad ==> Decide(d, r.current, r.desired, n, Lookup(s.sh.states, n)) == Some(w);
    assert n in AllNames(d) ==> n in d.toLoad;
  }

  lemma {:induction false} ExtendRun(s: Sys, run: seq<Label>, l: Label)
    requires ValidRun(s, run) && Enabled(After(s, run), l)
    ensures ValidRun(s, run + [l]) && After(s, run + [l]) == Apply(After(s, run), l)
    decreases |run|
  {
    hide Enabled, Apply;
    if run == [] {
      assert run + [l] == [l];
      assert [l][1..] == [];
    } else {
      ExtendRun(Apply(s, run[0]), run[1..], l);
      assert (run + [l])[1..] == run[1..] + [l];
    }
  }

  lemma ReachableStep(s: Sys, l: Label)
    requires Reachable(s) && Enabled(s, l)
    ensures Reachable(Apply(s, l))
  {
    hide Enabled, Apply;
    var run :| ValidRun(INIT, run) && After(INIT, run) == s;
    ExtendRun(INIT, run, l);
  }

  lemma OnlyLatest(a: MlModel)
    ensures LatestVersions([a]) == map[a.name := a]
  {
    hide VersionLe, Served;
    VersionLeTotalPreorder(a, a, a);
    assert ServesAt([a], a.name, 0);
    LatestIsLastMaximal([a], a.name, a);
    assert a in [a] && Names([a]) == {a.name};
  }

  /** The only installed model has been marked for loading, for the first time. */
  lemma FirstLoadMarked(a: MlModel) returns (s: Sys)
    ensures Reachable(s)
    ensures s == INIT.(sh := Shared(map[], map[a.name := ModelAndState(Loading, Some(a))]),
                       reconciler := Submitting([Work(Load, a.name, a)]))
  {
    assert ValidRun(INIT, []) && After(INIT, []) == INIT;
    OnlyLatest(a);
    FirstLoadDecided(a);
    hide LatestVersions, Decided, Mark, Diff, Empty, InSubmitOrder, Reachable;
    var listed := Apply(INIT, List([a]));
    ReachableStep(INIT, List([a]));
    var snapped := Apply(listed, Snapshot);
    ReachableStep(listed, Snapshot);
    s := Apply(snapped, MarkAll([Work(Load, a.name, a)]));
    ReachableStep(snapped, MarkAll([Work(Load, a.name, a)]));
  }

  /** Its load is inside its asset call. */
  lemma LoadInProgress(a: MlModel) returns (s: Sys)
    ensures Reachable(s)
    ensures s.reconciler.Idle? && s.sh == Shared(map[], map[a.name := ModelAndState(Loading, Some(a))])
    ensures s.tasks == map[0 := Task(Work(Load, a.name, a), InAssets(Create(a)))]
  {
    var marked := FirstLoadMarked(a);
    hide Reachable, Decided, Mark, Diff;
    var submitted := Apply(marked, Submit);
    ReachableStep(marked, Submit);
    var released := Apply(submitted, EndReconcile);
    ReachableStep(submitted, EndReconcile);
    var begun := Apply(released, Begin(0));
    ReachableStep(released, Begin(0));
    s := Apply(begun, EnterGuard(0));
    ReachableStep(begun, EnterGuard(0));
  }

  lemma FirstLoadDecided(a: MlModel)
    ensures var d := Diff(map[], map[a.name := a], map[]);
            var w := Work(Load, a.name, a);
            && !Empty(d) && InSubmitOrder([w])
            && Decided([w], d, map[], map[a.name := a], map[], AllNames(d))
            && Mark(map[], [w]) == map[a.name := MarkedEntry(w)]
  {
    var d := Diff(map[], map[a.name := a], map[]);
    var w := Work(Load, a.name, a);
    assert a.name in d.toLoad;
    assert [w][..0] == [];
  }

  /** So a failed, unchanged load can be retried at once: the failure falls between snapshot and mark. */
  lemma UnchangedFailureRetried(a: MlModel) returns (s: Sys)
    ensures Reachable(s) && Enabled(s, MarkAll([Work(Load, a.name, a)]))
    ensures FailedUnchanged(s.sh.states, s.reconciler.desired, a.name) && s.reconciler.desired == map[a.name := a]
  {
    OnlyLatest(a);
    var loading := LoadInProgress(a);
    hide Reachable, LatestVersions, Decided, Mark, Diff, Empty, InSubmitOrder;
    var listed := Apply(loading, List([a]));
    ReachableStep(loading, List([a]));
    var snapped := Apply(listed, Snapshot);
    ReachableStep(listed, Snapshot);
    var left := Apply(snapped, LeaveGuard(0, false));
    ReachableStep(snapped, LeaveGuard(0, false));
    s := Apply(left, Finish(0));
    ReachableStep(left, Finish(0));
    RetryDecided(a);
    assert s.sh.states == map[a.name := ModelAndState(Failed, Some(a))];
  }

  lemma RetryDecided(a: MlModel)
    ensures var seen := map[a.name := ModelAndState(Loading, Some(a))];
            var found := map[a.name := ModelAndState(Failed, Some(a))];
            var d := Diff(map[], map[a.name := a], seen);
            var w := Work(Load, a.name, a);
            && !Empty(d) && InSubmitOrder([w])
            && Decided([w], d, map[], map[a.name := a], found, AllNames(d))
  {
    var seen := map[a.name := ModelAndState(Loading, Some(a))];
    var d := Diff(map[], map[a.name := a], seen);
    assert a.name in d.toLoad;
  }
}
