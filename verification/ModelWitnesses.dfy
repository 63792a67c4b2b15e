// A run in which a model gets stuck, and rounds that therefore do not converge.
module ModelWitnesses {
  import opened Results
  import opened MlModels
  import opened VersionOrder
  import opened ModelController
  import opened ModelProtocol
  import opened ModelInvariants
  import opened ModelSafety
  import opened ModelConvergence
  import opened ModelProgress

  /** The only installed model is loaded and nothing is going on. */
  lemma OneLoaded(a: MlModel) returns (s: Sys)
    ensures Reachable(s) && Quiescent(s)
    ensures s.sh == Shared(map[a.name := a], map[a.name := ModelAndState(Ready, Some(a))])
  {
    var loading := LoadInProgress(a);
    hide Reachable;
    var left := Apply(loading, LeaveGuard(0, true));
    ReachableStep(loading, LeaveGuard(0, true));
    var called := Apply(left, CallBackend(0, true));
    ReachableStep(left, CallBackend(0, true));
    s := Apply(called, Finish(0));
    ReachableStep(called, Finish(0));
  }

  lemma ReloadDecided(a: MlModel, b: MlModel)
    requires a.name == b.name && a != b
    ensures var ready := map[a.name := ModelAndState(Ready, Some(a))];
            var d := Diff(map[a.name := a], map[a.name := b], ready);
            var w := Work(Reload, a.name, b);
            && !Empty(d) && InSubmitOrder([w])
            && Decided([w], d, map[a.name := a], map[a.name := b], ready, AllNames(d))
            && Mark(ready, [w]) == map[a.name := MarkedEntry(w)]
  {
    var d := Diff(map[a.name := a], map[a.name := b], map[a.name := ModelAndState(Ready, Some(a))]);
    assert a.name in d.toReload;
    assert [Work(Reload, a.name, b)][..0] == [];
  }

  /** Another version has been installed and the snapshot been taken. */
  lemma ReloadSnapped(a: MlModel, b: MlModel) returns (s: Sys)
    requires a.name == b.name
    ensures Reachable(s) && s.tasks == map[]
    ensures s.sh == Shared(map[a.name := a], map[a.name := ModelAndState(Ready, Some(a))])
    ensures s.reconciler == Snapped(s.sh.models, s.sh.states, map[a.name := b])
  {
    OnlyLatest(b);
    var loaded := OneLoaded(a);
    hide Reachable, LatestVersions;
    var listed := Apply(loaded, List([b]));
    ReachableStep(loaded, List([b]));
    s := Apply(listed, Snapshot);
    ReachableStep(listed, Snapshot);
  }

  lemma ReloadMarked(a: MlModel, b: MlModel) returns (s: Sys)
    requires a.name == b.name && a != b
    ensures Reachable(s) && s.tasks == map[]
    ensures s.sh == Shared(map[a.name := a], map[a.name := ModelAndState(Reloading, Some(b))])
    ensures s.reconciler == Submitting([Work(Reload, a.name, b)])
  {
    var snapped := ReloadSnapped(a, b);
    ReloadDecided(a, b);
    hide Reachable, Decided, Mark, Diff, Empty, InSubmitOrder, AllNames;
    s := Apply(snapped, MarkAll([Work(Reload, a.name, b)]));
    ReachableStep(snapped, MarkAll([Work(Reload, a.name, b)]));
  }

  /** Its reload has been submitted. */
  lemma ReloadSubmitted(a: MlModel, b: MlModel) returns (s: Sys, id: nat)
    requires a.name == b.name && a != b
    ensures Reachable(s) && s.reconciler.Idle?
    ensures s.sh == Shared(map[a.name := a], map[a.name := ModelAndState(Reloading, Some(b))])
    ensures s.tasks == map[id := Task(Work(Reload, a.name, b), Queued)]
  {
    var marked := ReloadMarked(a, b);
    hide Reachable;
    id := marked.nextTask;
    var submitted := Apply(marked, Submit);
    ReachableStep(marked, Submit);
    s := Apply(submitted, EndReconcile);
    ReachableStep(submitted, EndReconcile);
  }

  lemma ReloadBegun(a: MlModel, b: MlModel) returns (s: Sys, id: nat, phase: Phase)
    requires a.name == b.name && a != b
    ensures Reachable(s) && s.reconciler.Idle?
    ensures s.sh == Shared(map[a.name := a], map[a.name := ModelAndState(Reloading, Some(b))])
    ensures s.tasks == map[id := Task(Work(Reload, a.name, b), phase)]
    ensures phase == AtBackend || phase == AtAssets(Update(a, b))
  {
    var submitted;
    submitted, id := ReloadSubmitted(a, b);
    hide Reachable;
    s := Apply(submitted, Begin(id));
    ReachableStep(submitted, Begin(id));
    phase := s.tasks[id].phase;
  }

  lemma ReloadEntersGuard(s: Sys, id: nat, b: MlModel, call: AssetCall)
    requires Reachable(s) && s.tasks == map[id := Task(Work(Reload, b.name, b), AtAssets(call))]
    ensures call.model.name !in s.inProgress
  {
    ReachableInv(s);
    GuardNeverRaises(s, id);
  }

  /** The reload is about to record a failure, of its asset call or of its backend call. */
  lemma ReloadFails(a: MlModel, b: MlModel) returns (s: Sys, id: nat)
    requires a.name == b.name && a != b
    ensures Reachable(s) && s.reconciler.Idle?
    ensures s.sh == Shared(map[a.name := a], map[a.name := ModelAndState(Reloading, Some(b))])
    ensures s.tasks == map[id := Task(Work(Reload, a.name, b), Finishing(false))]
  {
    var begun, phase;
    begun, id, phase := ReloadBegun(a, b);
    hide Reachable;
    if phase.AtBackend? {
      s := Apply(begun, CallBackend(id, false));
      ReachableStep(begun, CallBackend(id, false));
    } else {
      ReloadEntersGuard(begun, id, b, phase.call);
      var entered := Apply(begun, EnterGuard(id));
      ReachableStep(begun, EnterGuard(id));
      s := Apply(entered, LeaveGuard(id, false));
      ReachableStep(entered, LeaveGuard(id, false));
    }
  }

  /** Names do get stuck, at rest: the loaded model and the failure to replace it are both recorded. */
  lemma StuckReachable(a: MlModel, b: MlModel) returns (s: Sys)
    requires a.name == b.name && a != b
    ensures Reachable(s) && Quiescent(s) && Stuck(s, a.name)
    ensures s.sh == Shared(map[a.name := a], map[a.name := ModelAndState(Failed, Some(b))])
  {
    var failing, id := ReloadFails(a, b);
    hide Reachable;
    s := Apply(failing, Finish(id));
    ReachableStep(failing, Finish(id));
  }

  /**
   * So there are rounds that do not converge although every task succeeds: with the same version still installed, the old
   * one stays loaded, and the next reconciliation finds something to do again.
   */
  lemma BlockedRound(a: MlModel, b: MlModel) returns (s: Sys, run: seq<Label>)
    requires a.name == b.name && a != b
    ensures Reachable(s) && Quiescent(s)
    ensures var s1, desired := Apply(s, List([b])), LatestVersions([b]);
            && desired == map[b.name := b]
            && Blocked(s.sh, desired, a.name)
            && SucceedingRun(s1, run) && ValidRun(s1, run) && Quiescent(After(s1, run))
            && After(s1, run).sh.models != Goal(s.sh, desired)
            && !Empty(Diff(After(s1, run).sh.models, desired, After(s1, run).sh.states))
  {
    OnlyLatest(b);
    s := StuckReachable(a, b);
    var s1 := Apply(s, List([b]));
    assert Blocked(s.sh, LatestVersions([b]), a.name);
    ReachableStep(s, List([b]));
    ReachableInv(s1);
    hide Reachable, Inv, SucceedingRun, ValidRun, After, LatestVersions, Goal, Diff;
    run := RoundCompletes(s1);
    RoundConvergesIff(s, [b], run);
    NextDiffEmptyIff(s, [b], run);
  }
}
