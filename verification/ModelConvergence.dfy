// One reconciliation whose tasks all succeed: what it reaches, in whatever order the tasks finish.
module ModelConvergence {
  import opened Results
  import opened MlModels
  import opened VersionOrder
  import opened ModelController
  import opened ModelProtocol
  import opened ModelInvariants
  import opened ModelSafety

  // ---------- Rounds ----------

  /** No reconciliation is running and no task is outstanding. */
  predicate Quiescent(s: Sys) {
    s.reconciler.Idle? && s.tasks == map[]
  }

  /** The asset and backend calls of loads and reloads succeed, and no other reconciliation begins. */
  predicate Succeeds(s: Sys, l: Label) {
    && !l.List?
    && (l.LeaveGuard? && !l.ok ==> l.id in s.tasks && s.tasks[l.id].work.kind.Unload?)
    && (l.CallBackend? && !l.ok ==> l.id in s.tasks && s.tasks[l.id].work.kind.Unload?)
  }

  ghost predicate SucceedingRun(s: Sys, run: seq<Label>)
    decreases |run|
  {
    run == [] || (Enabled(s, run[0]) && Succeeds(s, run[0]) && SucceedingRun(Apply(s, run[0]), run[1..]))
  }

  lemma {:induction false} SucceedingIsValid(s: Sys, run: seq<Label>)
    requires SucceedingRun(s, run)
    ensures ValidRun(s, run)
    decreases |run|
  {
    hide Apply, Enabled, Succeeds;
    if run != [] {
      SucceedingIsValid(Apply(s, run[0]), run[1..]);
    }
  }

  // ---------- What the round is to reach ----------

  /** The task for a name in a round that starts with these dictionaries. */
  function Plan(sh: Shared, desired: map<string, MlModel>, n: string): Option<Work> {
    Decide(Diff(sh.models, desired, sh.states), sh.models, desired, n, Lookup(sh.states, n))
  }

  /** This name failed to load with exactly the desired proto, and is not loaded. */
  predicate GivenUp(sh: Shared, desired: map<string, MlModel>, n: string) {
    n !in sh.models && FailedUnchanged(sh.states, desired, n)
  }

  /** The latest installed version of every name, except where loading it has failed already. */
  function Goal(sh: Shared, desired: map<string, MlModel>): map<string, MlModel> {
    map n | n in desired && !GivenUp(sh, desired, n) :: desired[n]
  }

  /** Loaded and FAILED with something else than what is desired now. */
  predicate Blocked(sh: Shared, desired: map<string, MlModel>, n: string) {
    && n in sh.models && n in sh.states && sh.states[n].state.Failed?
    && Lookup(desired, n) != Some(sh.models[n])
  }

  // ---------- The invariant of a round ----------

  predicate SameEntries(a: Shared, b: Shared, n: string) {
    Lookup(a.models, n) == Lookup(b.models, n) && Lookup(a.states, n) == Lookup(b.states, n)
  }

  ghost predicate Outstanding(s: Sys, w: Work) {
    w in Pending(s) || exists i :: i in s.tasks && s.tasks[i].work == w
  }

  /** A planned name is either still outstanding with its model untouched, or done; other names are untouched. */
  ghost predicate Advanced(sh0: Shared, desired: map<string, MlModel>, s: Sys, n: string) {
    var plan := Plan(sh0, desired, n);
    if plan.None? then
      SameEntries(s.sh, sh0, n)
    else
      || (Outstanding(s, plan.value) && Lookup(s.sh.models, n) == Lookup(sh0.models, n))
      || SameEntries(s.sh, Record(sh0, plan.value, true), n)
  }

  ghost predicate AllPlanned(sh0: Shared, desired: map<string, MlModel>, s: Sys) {
    && (forall i :: i in s.tasks ==> Plan(sh0, desired, s.tasks[i].work.name) == Some(s.tasks[i].work))
    && (forall w :: w in Pending(s) ==> Plan(sh0, desired, w.name) == Some(w))
    && (forall i :: i in s.tasks && s.tasks[i].phase.Finishing? ==> s.tasks[i].phase.ok)
  }

  ghost predicate InRound(sh0: Shared, desired: map<string, MlModel>, s: Sys) {
    match s.reconciler
    case Listed(d) => d == desired && s.sh == sh0 && s.tasks == map[]
    case Snapped(c, cs, d) => c == sh0.models && cs == sh0.states && d == desired && s.sh == sh0 && s.tasks == map[]
    case _ => AllPlanned(sh0, desired, s) && forall n {:trigger Plan(sh0, desired, n)} :: Advanced(sh0, desired, s, n)
  }

  lemma EmptyDiffPlansNothing(sh0: Shared, desired: map<string, MlModel>, n: string)
    requires Empty(Diff(sh0.models, desired, sh0.states))
    ensures Plan(sh0, desired, n).None?
  {
  }

  lemma MarkAdvances(sh0: Shared, desired: map<string, MlModel>, s: Sys, works: seq<Work>)
    requires Inv(s) && Enabled(s, MarkAll(works)) && InRound(sh0, desired, s)
    ensures InRound(sh0, desired, Apply(s, MarkAll(works)))
  {
    var s' := Apply(s, MarkAll(works));
    hide Mark, Inv, Empty, InSubmitOrder;
    forall w | w in works ensures Plan(sh0, desired, w.name) == Some(w) {
    }
    forall n ensures Advanced(sh0, desired, s', n) {
      MarkAdvancesAt(sh0, desired, s, works, n);
    }
  }

  lemma MarkAdvancesAt(sh0: Shared, desired: map<string, MlModel>, s: Sys, works: seq<Work>, n: string)
    requires Enabled(s, MarkAll(works)) && InRound(sh0, desired, s)
    ensures Advanced(sh0, desired, Apply(s, MarkAll(works)), n)
  {
    hide Mark, Empty, InSubmitOrder, Decide;
    MarkAt(sh0.states, works, n);
    var plan := Plan(sh0, desired, n);
    if plan.Some? {
      DecideKeepsName(DiffOf(s.reconciler), sh0.models, desired, n, Lookup(sh0.states, n));
      DecidedInDiff(DiffOf(s.reconciler), sh0.models, desired, n, Lookup(sh0.states, n));
      assert plan.value in works;
    } else {
      assert forall w :: w in works ==> w.name != n;
    }
  }

  lemma DecidedInDiff(d: ReconciliationDiff, current: map<string, MlModel>, desired: map<string, MlModel>, n: string,
      status: Option<ModelAndState>)
    requires WellFormed(d, current, desired) && Decide(d, current, desired, n, status).Some?
    ensures n in AllNames(d)
  {
  }

  lemma OutstandingKept(s: Sys, s': Sys, w: Work)
    requires SameWorks(s, s')
    ensures Outstanding(s, w) <==> Outstanding(s', w)
  {
    hide Pending;
    if Outstanding(s, w) && w !in Pending(s) {
      var i :| i in s.tasks && s.tasks[i].work == w;
      assert s'.tasks[i].work == w;
    }
    if Outstanding(s', w) && w !in Pending(s') {
      var i :| i in s'.tasks && s'.tasks[i].work == w;
      assert s.tasks[i].work == w;
    }
  }

  /** Steps that only move a task, or do not concern tasks at all. */
  lemma MoveAdvances(sh0: Shared, desired: map<string, MlModel>, s: Sys, s': Sys)
    requires InRound(sh0, desired, s) && SameWorks(s, s')
    requires !s.reconciler.Listed? && !s.reconciler.Snapped? && !s'.reconciler.Listed? && !s'.reconciler.Snapped?
    requires forall i :: i in s'.tasks && s'.tasks[i].phase.Finishing? ==> s'.tasks[i].phase.ok
    ensures InRound(sh0, desired, s')
  {
    hide Plan, Pending, SameEntries, Record, Outstanding;
    forall n ensures Advanced(sh0, desired, s', n) {
      assert Advanced(sh0, desired, s, n);
      if Plan(sh0, desired, n).Some? {
        OutstandingKept(s, s', Plan(sh0, desired, n).value);
      }
    }
  }

  lemma SubmitKeepsOutstanding(s: Sys, w: Work)
    requires PoolFits(s) && Enabled(s, Submit) && Outstanding(s, w)
    ensures Outstanding(Apply(s, Submit), w)
  {
    SubmitShifts(s);
    var s' := Apply(s, Submit);
    hide Pending, PoolFits, Apply;
    if w == Pending(s)[0] {
      assert s'.tasks[s.nextTask].work == w;
    } else if w !in Pending(s) {
      var i :| i in s.tasks && s.tasks[i].work == w;
      assert s'.tasks[i].work == w;
    }
  }

  lemma SubmitAdvances(sh0: Shared, desired: map<string, MlModel>, s: Sys)
    requires PoolFits(s) && InRound(sh0, desired, s) && Enabled(s, Submit)
    ensures InRound(sh0, desired, Apply(s, Submit))
  {
    SubmitShifts(s);
    var s' := Apply(s, Submit);
    assert s'.reconciler.Submitting?;
    hide Plan, Pending, SameEntries, Record, PoolFits, Outstanding, Apply;
    forall n ensures Advanced(sh0, desired, s', n) {
      assert Advanced(sh0, desired, s, n);
      if Plan(sh0, desired, n).Some? {
        var w := Plan(sh0, desired, n).value;
        if Outstanding(s, w) {
          SubmitKeepsOutstanding(s, w);
        }
      }
    }
  }

  lemma FinishAdvances(sh0: Shared, desired: map<string, MlModel>, s: Sys, id: nat)
    requires InRound(sh0, desired, s) && Enabled(s, Finish(id))
    requires !s.reconciler.Listed? && !s.reconciler.Snapped?
    ensures InRound(sh0, desired, Apply(s, Finish(id)))
  {
    var s' := Apply(s, Finish(id));
    var done := s.tasks[id].work;
    hide Plan;
    assert s.tasks[id].phase.ok && Pending(s') == Pending(s);
    forall n ensures Advanced(sh0, desired, s', n) {
      assert Advanced(sh0, desired, s, n);
      if n == done.name {
        assert Plan(sh0, desired, n) == Some(done);
      } else {
        RecordLocal(s.sh, done, true, n);
        if Plan(sh0, desired, n).Some? {
          var w := Plan(sh0, desired, n).value;
          if i :| i in s.tasks && s.tasks[i].work == w {
            assert Plan(sh0, desired, s.tasks[i].work.name) == Some(w);
            PlanKeepsName(sh0, desired, n);
            assert i in s'.tasks;
          }
        }
      }
    }
  }

  lemma PlanKeepsName(sh0: Shared, desired: map<string, MlModel>, n: string)
    ensures Plan(sh0, desired, n).Some? ==> Plan(sh0, desired, n).value.name == n
  {
  }

  lemma NoChangeAdvances(sh0: Shared, desired: map<string, MlModel>, s: Sys)
    requires InRound(sh0, desired, s) && Enabled(s, NoChange)
    ensures InRound(sh0, desired, Apply(s, NoChange))
  {
    var s' := Apply(s, NoChange);
    forall n ensures Advanced(sh0, desired, s', n) {
      EmptyDiffPlansNothing(sh0, desired, n);
    }
  }

  lemma StepAdvances(sh0: Shared, desired: map<string, MlModel>, s: Sys, l: Label)
    requires Inv(s) && InRound(sh0, desired, s) && Enabled(s, l) && Succeeds(s, l)
    ensures InRound(sh0, desired, Apply(s, l))
  {
    if l.MarkAll? {
      MarkAdvances(sh0, desired, s, l.works);
    } else if l.Submit? {
      SubmitAdvances(sh0, desired, s);
    } else if l.Finish? {
      FinishAdvances(sh0, desired, s, l.id);
    } else if l.NoChange? {
      NoChangeAdvances(sh0, desired, s);
    } else if !l.Snapshot? && !s.reconciler.Listed? && !s.reconciler.Snapped? {
      QuietStep(s, l);
      hide Inv, InRound, Enabled, Apply;
      MoveAdvances(sh0, desired, s, Apply(s, l));
    }
  }

  lemma QuietStep(s: Sys, l: Label)
    requires Inv(s) && Enabled(s, l) && Succeeds(s, l)
    requires !l.MarkAll? && !l.Submit? && !l.Finish? && !l.NoChange? && !l.Snapshot?
    requires !s.reconciler.Listed? && !s.reconciler.Snapped?
    requires forall i :: i in s.tasks && s.tasks[i].phase.Finishing? ==> s.tasks[i].phase.ok
    ensures var s' := Apply(s, l);
            && SameWorks(s, s') && !s'.reconciler.Listed? && !s'.reconciler.Snapped?
            && forall i :: i in s'.tasks && s'.tasks[i].phase.Finishing? ==> s'.tasks[i].phase.ok
  {
    if IsLocal(l) {
      LocalStepEffect(s, l);
    } else {
      if l.EnterGuard? { GuardNeverRaises(s, l.id); }
      MovesOn(s, l);
    }
  }

  /** A task step that only moves its task on, to success if nothing failed. */
  lemma MovesOn(s: Sys, l: Label)
    requires l.Begin? || l.EnterGuard? || l.LeaveGuard? || l.CallBackend?
    requires Enabled(s, l) && Succeeds(s, l)
    requires l.EnterGuard? ==> s.tasks[l.id].phase.call.model.name !in s.inProgress
    ensures var s' := Apply(s, l);
            && SameWorks(s, s') && s'.reconciler == s.reconciler && l.id in s'.tasks
            && (s'.tasks[l.id].phase.Finishing? ==> s'.tasks[l.id].phase.ok)
            && forall i :: i in s.tasks && i != l.id ==> s'.tasks[i] == s.tasks[i]
  {
  }

  lemma {:induction false} RunAdvances(sh0: Shared, desired: map<string, MlModel>, s: Sys, run: seq<Label>)
    requires Inv(s) && InRound(sh0, desired, s) && SucceedingRun(s, run)
    ensures ValidRun(s, run) && Inv(After(s, run)) && InRound(sh0, desired, After(s, run))
    decreases |run|
  {
    hide Inv, InRound, Apply, Enabled, Succeeds;
    if run != [] {
      StepKeepsInv(s, run[0]);
      StepAdvances(sh0, desired, s, run[0]);
      RunAdvances(sh0, desired, Apply(s, run[0]), run[1..]);
    }
  }

  // ---------- What every round reaches ----------

  /** The models after the round: the goal, except that loaded and FAILED names keep theirs. */
  function Reached(sh: Shared, desired: map<string, MlModel>): map<string, MlModel> {
    Goal(sh, desired) + (map n | n in sh.models && n in sh.states && sh.states[n].state.Failed? :: sh.models[n])
  }

  lemma PlansOfQuiescent(s0: Sys, desired: map<string, MlModel>, n: string)
    requires Inv(s0) && Quiescent(s0)
    ensures var plan := Plan(s0.sh, desired, n);
            var status := Lookup(s0.sh.states, n);
            && (n in s0.sh.models && status.value.state.Failed? ==> plan.None?)
            && (n in s0.sh.models && !status.value.state.Failed? ==>
                  plan == if n !in desired then Some(Work(Unload, n, s0.sh.models[n]))
                          else if desired[n] == s0.sh.models[n] then None
                          else Some(Work(Reload, n, desired[n])))
            && (n !in s0.sh.models ==>
                  plan == if n in desired && !GivenUp(s0.sh, desired, n) then Some(Work(Load, n, desired[n])) else None)
  {
    assert Pending(s0) == [];
    assert !HasTask(s0, n);
    assert !Busy(s0, n);
    hide OneTaskPerName, PhasesFit, GuardFits, PoolFits, BusyMatchesTasks;
  }

  lemma QuiescentDone(sh0: Shared, desired: map<string, MlModel>, s: Sys, n: string)
    requires InRound(sh0, desired, s) && Quiescent(s)
    ensures SameEntries(s.sh, if Plan(sh0, desired, n).None? then sh0 else Record(sh0, Plan(sh0, desired, n).value, true), n)
  {
    assert Advanced(sh0, desired, s, n);
    assert Pending(s) == [];
    hide Plan;
  }

  /** The name's model at the end of a round. */
  lemma RoundReachesAt(s0: Sys, desired: map<string, MlModel>, s: Sys, n: string)
    requires Inv(s0) && Quiescent(s0) && InRound(s0.sh, desired, s) && Quiescent(s)
    ensures Lookup(s.sh.models, n) == Lookup(Reached(s0.sh, desired), n)
    ensures GivenUp(s0.sh, desired, n) ==> Lookup(s.sh.states, n) == Lookup(s0.sh.states, n)
  {
    PlansOfQuiescent(s0, desired, n);
    QuiescentDone(s0.sh, desired, s, n);
    PlanKeepsName(s0.sh, desired, n);
    assert n in s0.sh.models ==> n in s0.sh.states;
    hide Plan, Inv, InRound, FailedUnchanged;
  }

  /** Beginning a round in a quiescent state, with any listing. */
  lemma RoundBegins(s0: Sys, installed: seq<MlModel>)
    requires Inv(s0) && Quiescent(s0)
    ensures Enabled(s0, List(installed))
    ensures Inv(Apply(s0, List(installed)))
    ensures InRound(s0.sh, LatestVersions(installed), Apply(s0, List(installed)))
  {
    StepKeepsInv(s0, List(installed));
  }

  /**
   * Whatever the interleaving, a round of succeeding tasks reaches the same models: the latest installed versions,
   * except those given up before, and except that loaded and FAILED names keep what they have.
   */
  lemma RoundReaches(s0: Sys, installed: seq<MlModel>, run: seq<Label>)
    requires Reachable(s0) && Quiescent(s0)
    requires SucceedingRun(Apply(s0, List(installed)), run)
    requires ValidRun(Apply(s0, List(installed)), run) && Quiescent(After(Apply(s0, List(installed)), run))
    ensures After(Apply(s0, List(installed)), run).sh.models == Reached(s0.sh, LatestVersions(installed))
  {
    ReachableInv(s0);
    RoundBegins(s0, installed);
    var s1 := Apply(s0, List(installed));
    var desired := LatestVersions(installed);
    RunAdvances(s0.sh, desired, s1, run);
    var s := After(s1, run);
    var reached := Reached(s0.sh, desired);
    hide Inv, InRound, Reached, LatestVersions, Apply, SucceedingRun;
    forall n ensures Lookup(s.sh.models, n) == Lookup(reached, n) {
      RoundReachesAt(s0, desired, s, n);
    }
    SameLookups(s.sh.models, reached);
  }

  lemma SameLookups(a: map<string, MlModel>, b: map<string, MlModel>)
    requires forall n :: Lookup(a, n) == Lookup(b, n)
    ensures a == b
  {
    forall n ensures n in a <==> n in b {
      assert Lookup(a, n) == Lookup(b, n);
    }
    forall n | n in a ensures a[n] == b[n] {
      assert Lookup(a, n) == Lookup(b, n);
    }
  }

  ghost predicate NoneBlocked(sh: Shared, desired: map<string, MlModel>) {
    forall n :: n in sh.models ==> !Blocked(sh, desired, n)
  }

  /** A round converges if and only if no name was loaded and FAILED with something else than is desired. */
  lemma RoundConvergesIff(s0: Sys, installed: seq<MlModel>, run: seq<Label>)
    requires Reachable(s0) && Quiescent(s0)
    requires SucceedingRun(Apply(s0, List(installed)), run)
    requires ValidRun(Apply(s0, List(installed)), run) && Quiescent(After(Apply(s0, List(installed)), run))
    ensures After(Apply(s0, List(installed)), run).sh.models == Goal(s0.sh, LatestVersions(installed))
            <==> NoneBlocked(s0.sh, LatestVersions(installed))
  {
    RoundReaches(s0, installed, run);
    ReachableInv(s0);
    ReachedIsGoalIff(s0.sh, LatestVersions(installed));
  }

  lemma ReachedIsGoalIff(sh: Shared, desired: map<string, MlModel>)
    requires DictionariesAgree(sh)
    ensures Reached(sh, desired) == Goal(sh, desired) <==> NoneBlocked(sh, desired)
  {
    if n :| n in sh.models && Blocked(sh, desired, n) {
      assert Lookup(Reached(sh, desired), n) == Some(sh.models[n]);
      assert Lookup(Goal(sh, desired), n) != Some(sh.models[n]);
    } else {
      forall n ensures Lookup(Reached(sh, desired), n) == Lookup(Goal(sh, desired), n) {
        if n in sh.models && n in sh.states && sh.states[n].state.Failed? {
          assert !Blocked(sh, desired, n);
        }
      }
      SameLookups(Reached(sh, desired), Goal(sh, desired));
    }
  }

  /** The next reconciliation with the same listing finds nothing to do, if and only if nothing was blocked. */
  lemma NextDiffEmptyIff(s0: Sys, installed: seq<MlModel>, run: seq<Label>)
    requires Reachable(s0) && Quiescent(s0)
    requires SucceedingRun(Apply(s0, List(installed)), run)
    requires ValidRun(Apply(s0, List(installed)), run) && Quiescent(After(Apply(s0, List(installed)), run))
    ensures var desired, s := LatestVersions(installed), After(Apply(s0, List(installed)), run);
            Empty(Diff(s.sh.models, desired, s.sh.states)) <==> NoneBlocked(s0.sh, desired)
  {
    ReachableInv(s0);
    RoundBegins(s0, installed);
    var s1 := Apply(s0, List(installed));
    var desired := LatestVersions(installed);
    RunAdvances(s0.sh, desired, s1, run);
    var s := After(s1, run);
    hide Inv, InRound, Reached, LatestVersions, Apply, SucceedingRun, Diff, Blocked;
    forall n ensures n in AllNames(Diff(s.sh.models, desired, s.sh.states)) <==> Blocked(s0.sh, desired, n) {
      NextDiffAt(s0, desired, s, n);
    }
    var d := Diff(s.sh.models, desired, s.sh.states);
    if Empty(d) {
      assert AllNames(d) == {};
    } else {
      var n :| n in AllNames(d);
      assert Blocked(s0.sh, desired, n);
      BlockedIsLoaded(s0.sh, desired, n);
    }
  }

  lemma BlockedIsLoaded(sh: Shared, desired: map<string, MlModel>, n: string)
    requires Blocked(sh, desired, n)
    ensures n in sh.models
  {
  }

  lemma NextDiffAt(s0: Sys, desired: map<string, MlModel>, s: Sys, n: string)
    requires Inv(s0) && Quiescent(s0) && InRound(s0.sh, desired, s) && Quiescent(s)
    ensures n in AllNames(Diff(s.sh.models, desired, s.sh.states)) <==> Blocked(s0.sh, desired, n)
  {
    RoundReachesAt(s0, desired, s, n);
    assert n in s0.sh.models ==> n in s0.sh.states;
    hide Inv, InRound;
    var d := Diff(s.sh.models, desired, s.sh.states);
    assert n in d.toUnload <==> Lookup(s.sh.models, n).Some? && n !in desired;
    assert n in d.toReload <==> Lookup(s.sh.models, n).Some? && n in desired && Lookup(s.sh.models, n) != Some(desired[n]);
    assert n in d.toLoad <==> Lookup(s.sh.models, n).None? && n in desired && Attempt(desired[n], Lookup(s.sh.states, n));
    assert GivenUp(s0.sh, desired, n) ==> !Attempt(desired[n], Lookup(s.sh.states, n));
  }
}
