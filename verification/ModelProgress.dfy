// A reconciliation always comes to an end: the outstanding work shrinks, and some step is always possible.
module ModelProgress {
  import opened Results
  import opened MlModels
  import opened VersionOrder
  import opened ModelController
  import opened ModelProtocol
  import opened ModelInvariants
  import opened ModelSafety
  import opened ModelConvergence

  // ---------- How much is left to do ----------

  /** Steps a task still has to take. */
  function StepsLeft(t: Task): nat {
    match t.phase
    case Queued => 5
    case AtAssets(_) => if t.work.kind.Unload? then 3 else 4
    case InAssets(_) => if t.work.kind.Unload? then 2 else 3
    case AtBackend => if t.work.kind.Unload? then 4 else 2
    case Finishing(_) => 1
  }

  function TotalSteps(tasks: map<nat, Task>, below: nat): nat {
    if below == 0 then 0
    else TotalSteps(tasks, below - 1) + if below - 1 in tasks then StepsLeft(tasks[below - 1]) else 0
  }

  lemma {:induction false} TotalStepsSame(a: map<nat, Task>, b: map<nat, Task>, below: nat)
    requires forall i: nat :: i < below ==> Lookup(a, i) == Lookup(b, i)
    ensures TotalSteps(a, below) == TotalSteps(b, below)
  {
    if below > 0 {
      TotalStepsSame(a, b, below - 1);
      var k: nat := below - 1;
      assert Lookup(a, k) == Lookup(b, k);
    }
  }

  /** Changing one task changes the total by the change of that task. */
  lemma {:induction false} TotalStepsChange(a: map<nat, Task>, b: map<nat, Task>, id: nat, below: nat)
    requires id < below && forall i: nat :: i != id ==> Lookup(a, i) == Lookup(b, i)
    ensures TotalSteps(b, below) - (if id in b then StepsLeft(b[id]) else 0)
            == TotalSteps(a, below) - (if id in a then StepsLeft(a[id]) else 0)
  {
    if id == below - 1 {
      TotalStepsSame(a, b, below - 1);
    } else {
      TotalStepsChange(a, b, id, below - 1);
      var k: nat := below - 1;
      assert Lookup(a, k) == Lookup(b, k);
    }
  }

  /** How far the reconciler is from being idle. */
  function ReconcilerLeft(r: Reconciler): nat {
    match r
    case Idle => 0
    case Submitting(_) => 1
    case Snapped(_, _, _) => 2
    case Listed(_) => 3
  }

  /** Pending works weigh more than a queued task and its future. */
  function WorkLeft(s: Sys): nat {
    7 * |Pending(s)| + TotalSteps(s.tasks, s.nextTask) + |s.pool.inFlight| + |s.stopping|
  }

  /** The steps that someone calls for from outside. */
  predicate External(l: Label) {
    l.List? || l.Start? || l.StopTake?
  }

  predicate IsTaskStep(l: Label) {
    l.Begin? || l.EnterGuard? || l.LeaveGuard? || l.CallBackend? || l.Finish?
  }

  /** A task step brings its own task closer to the end and leaves the others where they are. */
  lemma TaskStepLocal(s: Sys, l: Label)
    requires IsTaskStep(l) && Enabled(s, l)
    ensures var s' := Apply(s, l);
            && s'.reconciler == s.reconciler && s'.nextTask == s.nextTask
            && s'.pool == s.pool && s'.stopping == s.stopping
            && l.id in s.tasks && (l.id in s'.tasks ==> StepsLeft(s'.tasks[l.id]) < StepsLeft(s.tasks[l.id]))
            && forall i: nat :: i != l.id ==> Lookup(s.tasks, i) == Lookup(s'.tasks, i)
  {
    hide Record;
  }

  lemma TaskStepShrinks(s: Sys, l: Label)
    requires Inv(s) && Enabled(s, l) && IsTaskStep(l)
    ensures WorkLeft(Apply(s, l)) < WorkLeft(s) && Apply(s, l).reconciler == s.reconciler
  {
    TaskStepLocal(s, l);
    TaskBelowNext(s, l.id);
    hide Apply, Inv, Enabled, StepsLeft;
    TotalStepsChange(s.tasks, Apply(s, l).tasks, l.id, s.nextTask);
    SomeStepsLeft(s.tasks[l.id]);
  }

  lemma SomeStepsLeft(t: Task)
    ensures StepsLeft(t) > 0
  {
  }

  lemma TaskBelowNext(s: Sys, id: nat)
    requires Inv(s) && id in s.tasks
    ensures id < s.nextTask
  {
    hide OneTaskPerName, BusyMatchesTasks, Keyed, DictionariesAgree, SnapshotSafe, GuardFits, PhasesFit;
  }

  lemma SubmitShrinks(s: Sys)
    requires Inv(s) && Enabled(s, Submit)
    ensures WorkLeft(Apply(s, Submit)) < WorkLeft(s)
  {
    var s' := Apply(s, Submit);
    SubmitShifts(s);
    hide OneTaskPerName, BusyMatchesTasks, Keyed, DictionariesAgree, SnapshotSafe, GuardFits, PhasesFit;
    assert forall i: nat :: i != s.nextTask ==> Lookup(s.tasks, i) == Lookup(s'.tasks, i);
    TotalStepsSame(s.tasks, s'.tasks, s.nextTask);
    assert TotalSteps(s'.tasks, s.nextTask + 1) == TotalSteps(s'.tasks, s.nextTask) + 5;
    assert s.nextTask !in s.pool.inFlight;
    assert |Pending(s')| == |Pending(s)| - 1;
  }

  /**
   * Every step but List, Start and StopTake brings the end closer, so between two of those calls only finitely many
   * steps happen, in any interleaving and with any outcome.
   */
  lemma StepShrinks(s: Sys, l: Label)
    requires Inv(s) && Enabled(s, l) && !External(l)
    ensures var s' := Apply(s, l);
            || ReconcilerLeft(s'.reconciler) < ReconcilerLeft(s.reconciler)
            || (ReconcilerLeft(s'.reconciler) == ReconcilerLeft(s.reconciler) && WorkLeft(s') < WorkLeft(s))
  {
    if IsTaskStep(l) {
      TaskStepShrinks(s, l);
    } else if l.Submit? {
      SubmitShrinks(s);
    } else {
      hide Inv, TotalSteps;
      ControlStepShrinks(s, l);
    }
  }

  lemma ControlStepShrinks(s: Sys, l: Label)
    requires Enabled(s, l) && !External(l) && !IsTaskStep(l) && !l.Submit?
    ensures var s' := Apply(s, l);
            || ReconcilerLeft(s'.reconciler) < ReconcilerLeft(s.reconciler)
            || (ReconcilerLeft(s'.reconciler) == ReconcilerLeft(s.reconciler) && WorkLeft(s') < WorkLeft(s))
  {
    hide TotalSteps, Decided, InSubmitOrder, Mark, DiffOf, Empty, LatestVersions;
    match l
    case FutureDone(id) => SmallerWithout(s.pool.inFlight, id);
    case StopShutdown(e) => SmallerWithout(s.stopping, e);
    case _ =>
  }

  lemma SmallerWithout(s: set<nat>, x: nat)
    requires x in s
    ensures |s - {x}| == |s| - 1
  {
    assert s == s - {x} + {x};
  }

  // ---------- A step is always possible ----------

  lemma DecisionKind(d: ReconciliationDiff, current: map<string, MlModel>, desired: map<string, MlModel>, n: string,
                     status: Option<ModelAndState>, kind: TaskKind)
    requires WellFormed(d, current, desired)
    requires n in (match kind case Unload => d.toUnload case Load => d.toLoad case Reload => d.toReload)
    ensures var decision := Decide(d, current, desired, n, status); decision.Some? ==> decision.value.kind == kind
  {
  }

  /** The decisions for these names, in an order in which the set can be gone through. */
  lemma DecisionsExist(names: set<string>, d: ReconciliationDiff, current: map<string, MlModel>, desired: map<string, MlModel>,
                       states: map<string, ModelAndState>, works: seq<Work>, before: set<string>, kind: TaskKind)
    returns (more: seq<Work>)
    requires WellFormed(d, current, desired)
    requires names <= (match kind case Unload => d.toUnload case Load => d.toLoad case Reload => d.toReload)
    requires names !! before && Decided(works, d, current, desired, states, before)
    ensures Decided(works + more, d, current, desired, states, before + names)
    ensures forall w :: w in more ==> w.kind == kind
    decreases names
  {
    hide Decided, WellFormed, Decide;
    if names == {} {
      assert works + [] == works && before + names == before;
      more := [];
    } else {
      var n :| n in names;
      DecisionKind(d, current, desired, n, Lookup(states, n), kind);
      DecidedMore(works, n, d, current, desired, states, before);
      var decision := Decide(d, current, desired, n, Lookup(states, n));
      var first := if decision.Some? then [decision.value] else [];
      assert works + [] == works;
      var rest := DecisionsExist(names - {n}, d, current, desired, states, works + first, before + {n}, kind);
      more := first + rest;
      assert works + first + rest == works + more;
      assert before + {n} + (names - {n}) == before + names;
    }
  }

  lemma OrderedParts(unloads: seq<Work>, loads: seq<Work>, reloads: seq<Work>)
    requires forall w :: w in unloads ==> w.kind.Unload?
    requires forall w :: w in loads ==> w.kind.Load?
    requires forall w :: w in reloads ==> w.kind.Reload?
    ensures InSubmitOrder(unloads + loads + reloads)
  {
    var works := unloads + loads + reloads;
    forall i | 0 <= i < |works|
      ensures works[i].kind == if i < |unloads| then Unload else if i < |unloads| + |loads| then Load else Reload
    {
      if i < |unloads| {
        assert works[i] in unloads;
      } else if i < |unloads| + |loads| {
        assert works[i] == loads[i - |unloads|] && works[i] in loads;
      } else {
        assert works[i] == reloads[i - |unloads| - |loads|] && works[i] in reloads;
      }
    }
  }

  lemma DecisionsForDiff(d: ReconciliationDiff, current: map<string, MlModel>, desired: map<string, MlModel>,
                         states: map<string, ModelAndState>) returns (works: seq<Work>)
    requires WellFormed(d, current, desired)
    ensures InSubmitOrder(works) && Decided(works, d, current, desired, states, AllNames(d))
  {
    NothingDecided(d, current, desired, states);
    hide Decided, Decide, InSubmitOrder;
    var unloads := DecisionsExist(d.toUnload, d, current, desired, states, [], {}, Unload);
    assert [] + unloads == unloads && {} + d.toUnload == d.toUnload;
    var loads := DecisionsExist(d.toLoad, d, current, desired, states, unloads, d.toUnload, Load);
    var reloads := DecisionsExist(d.toReload, d, current, desired, states, unloads + loads, d.toUnload + d.toLoad, Reload);
    works := unloads + loads + reloads;
    OrderedParts(unloads, loads, reloads);
  }

  lemma MarkPossible(s: Sys) returns (works: seq<Work>)
    requires s.reconciler.Snapped? && !Empty(DiffOf(s.reconciler))
    ensures Enabled(s, MarkAll(works))
  {
    var r := s.reconciler;
    works := DecisionsForDiff(DiffOf(r), r.current, r.desired, s.sh.states);
  }

  /** Unless everything is at rest, a step of the reconciler or of a task is possible, and it may succeed. */
  lemma NextStep(s: Sys) returns (l: Label)
    requires Inv(s) && !Quiescent(s)
    ensures Enabled(s, l) && Succeeds(s, l) && !External(l)
  {
    if s.tasks != map[] {
      var id :| id in s.tasks;
      match s.tasks[id].phase
      case Queued => l := Begin(id);
      case AtAssets(_) => l := EnterGuard(id);
      case InAssets(_) => l := LeaveGuard(id, true);
      case AtBackend => l := CallBackend(id, true);
      case Finishing(_) => l := Finish(id);
    } else {
      match s.reconciler
      case Idle => assert false;
      case Listed(_) => l := Snapshot;
      case Snapped(_, _, _) =>
        if Empty(DiffOf(s.reconciler)) {
          l := NoChange;
        } else {
          var works := MarkPossible(s);
          l := MarkAll(works);
        }
      case Submitting(pending) => l := if pending == [] then EndReconcile else Submit;
    }
  }

  /** From every state of a round the round can be completed, so what ModelConvergence says of its end is not vacuous. */
  lemma RoundCompletes(s: Sys) returns (run: seq<Label>)
    requires Inv(s)
    ensures SucceedingRun(s, run) && ValidRun(s, run) && Quiescent(After(s, run))
    decreases ReconcilerLeft(s.reconciler), WorkLeft(s)
  {
    if Quiescent(s) {
      run := [];
    } else {
      var l := NextStep(s);
      StepShrinks(s, l);
      StepKeepsInv(s, l);
      hide Inv, Apply, Enabled, Succeeds;
      var rest := RoundCompletes(Apply(s, l));
      run := [l] + rest;
      assert run[1..] == rest;
    }
  }
}
