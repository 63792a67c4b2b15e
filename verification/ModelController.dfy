// The lock-guarded dictionaries of the model controller and the sections of code that hold the lock
// (model_controller_base.py), and the guard of the assets manager (model_assets_manager_base.py).
module ModelController {
  import opened Results
  import opened MlModels

  // ---------- What the dictionaries hold ----------

  /** _models and _model_states, both guarded by _lock. */
  datatype Shared = Shared(models: map<string, MlModel>, states: map<string, ModelAndState>)

  datatype TaskKind = Unload | Load | Reload

  /** The state a name is put in while a task of this kind is outstanding. */
  function BusyState(kind: TaskKind): ModelState {
    match kind
    case Unload => Unloading
    case Load => Loading
    case Reload => Reloading
  }

  predicate IsBusy(state: ModelState) {
    state.Loading? || state.Reloading? || state.Unloading?
  }

  /** A call of _submit_task: the task function, the name and the proto it gets. */
  datatype Work = Work(kind: TaskKind, name: string, proto: MlModel)

  // ---------- The diff ----------

  datatype ReconciliationDiff = ReconciliationDiff(toLoad: set<string>, toUnload: set<string>, toReload: set<string>)

  /** A name to load that is not loaded is attempted unless it failed with this very proto. */
  predicate Attempt(desired: MlModel, status: Option<ModelAndState>) {
    status.None? || !status.value.state.Failed? || status.value.proto != Some(desired)
  }

  function Diff(current: map<string, MlModel>, desired: map<string, MlModel>,
                currentStates: map<string, ModelAndState>): ReconciliationDiff
  {
    ReconciliationDiff(
      (set n | n in desired && n !in current && Attempt(desired[n], Lookup(currentStates, n))),
      current.Keys - desired.Keys,
      (set n | n in current && n in desired && current[n] != desired[n]))
  }

  predicate Empty(d: ReconciliationDiff) {
    d.toLoad == {} && d.toUnload == {} && d.toReload == {}
  }

  // ---------- Marking ----------

  /** The three parts of a diff of these two dictionaries are disjoint and looked up where they exist. */
  predicate WellFormed(d: ReconciliationDiff, current: map<string, MlModel>, desired: map<string, MlModel>) {
    && d.toUnload <= current.Keys - desired.Keys
    && d.toLoad <= desired.Keys - current.Keys
    && d.toReload <= current.Keys * desired.Keys
  }

  /** The state _execute_reconciliation goes by: the recorded one, else READY if the snapshot has the name. */
  function EffectiveState(status: Option<ModelAndState>, inSnapshot: bool): Option<ModelState> {
    if status.Some? then Some(status.value.state)
    else if inSnapshot then Some(Ready)
    else None
  }

  /** The task _execute_reconciliation decides on for a name, from a snapshot and the state found under the lock. */
  function Decide(d: ReconciliationDiff, current: map<string, MlModel>, desired: map<string, MlModel>,
                  n: string, status: Option<ModelAndState>): Option<Work>
    requires WellFormed(d, current, desired)
  {
    var state := EffectiveState(status, n in current);
    if n in d.toUnload then
      if state == Some(Ready) then Some(Work(Unload, n, current[n])) else None
    else if n in d.toLoad then
      if state == None || state == Some(Failed) then Some(Work(Load, n, desired[n])) else None
    else if n in d.toReload then
      if state == Some(Ready) then Some(Work(Reload, n, desired[n])) else None
    else
      None
  }

  function MarkedEntry(w: Work): ModelAndState {
    ModelAndState(BusyState(w.kind), Some(w.proto))
  }

  /** _model_states after marking the names of these works. */
  function Mark(states: map<string, ModelAndState>, works: seq<Work>): map<string, ModelAndState> {
    if works == [] then states
    else Mark(states, works[..|works| - 1])[works[|works| - 1].name := MarkedEntry(works[|works| - 1])]
  }

  predicate DistinctNames(works: seq<Work>) {
    forall i, j :: 0 <= i < j < |works| ==> works[i].name != works[j].name
  }

  /** These works are, in some order and without repetition, the decisions for the names in `names`. */
  ghost predicate Decided(works: seq<Work>, d: ReconciliationDiff, current: map<string, MlModel>,
                          desired: map<string, MlModel>, states: map<string, ModelAndState>, names: set<string>)
    requires WellFormed(d, current, desired)
  {
    && DistinctNames(works)
    && (forall w :: w in works ==> w.name in names && Decide(d, current, desired, w.name, Lookup(states, w.name)) == Some(w))
    && (forall n :: n in names && Decide(d, current, desired, n, Lookup(states, n)).Some? ==>
          Decide(d, current, desired, n, Lookup(states, n)).value in works)
  }

  lemma {:induction false} MarkAt(states: map<string, ModelAndState>, works: seq<Work>, n: string)
    requires DistinctNames(works)
    ensures forall w :: w in works && w.name == n ==> Lookup(Mark(states, works), n) == Some(MarkedEntry(w))
    ensures (forall w :: w in works ==> w.name != n) ==> Lookup(Mark(states, works), n) == Lookup(states, n)
  {
    if works != [] {
      var last := |works| - 1;
      MarkAt(states, works[..last], n);
      assert works == works[..last] + [works[last]];
      forall w | w in works && w.name == n ensures Lookup(Mark(states, works), n) == Some(MarkedEntry(w)) {
        if works[last].name == n {
          assert w == works[last];
        } else {
          assert w in works[..last];
        }
      }
    }
  }

  // ---------- Recording outcomes ----------

  /** The final section of a task: what it writes to the dictionaries under the lock. */
  function Record(sh: Shared, w: Work, ok: bool): Shared {
    if !ok then
      sh.(states := sh.states[w.name := ModelAndState(Failed, Some(w.proto))])
    else if w.kind.Unload? then
      Shared(sh.models - {w.name}, sh.states - {w.name})
    else
      Shared(sh.models[w.name := w.proto], sh.states[w.name := ModelAndState(Ready, Some(w.proto))])
  }

  /** The model_states property: READY for every loaded model, overridden by the recorded states. */
  function MergedStates(sh: Shared): map<string, ModelAndState> {
    (map n | n in sh.models :: ModelAndState(Ready, Some(sh.models[n]))) + sh.states
  }

  // ---------- The asset call of a task ----------

  datatype AssetCall = Create(model: MlModel) | Update(loaded: MlModel, model: MlModel) | Delete(model: MlModel)

  /** _load_model: which call of the assets manager replaces `loaded` by `desired`, if one is needed. */
  function AssetCallFor(loaded: Option<MlModel>, desired: MlModel): Option<AssetCall> {
    match loaded
    case None => Some(Create(desired))
    case Some(prior) =>
      if prior.data != desired.data || prior.version != desired.version then Some(Update(prior, desired)) else None
  }

  // ---------- The executor and the futures in flight ----------

  /** _executor (None, or the serial number of the pool), how many pools were made, and _in_flight_futures. */
  datatype Pool = Pool(executor: Option<nat>, made: nat, inFlight: set<nat>)

  /** Make a new executor if there is none. */
  function EnsureExecutor(p: Pool): Pool {
    if p.executor.None? then p.(executor := Some(p.made), made := p.made + 1) else p
  }

  // ---------- The class ----------

  class Controller {
    var models: map<string, MlModel>
    var states: map<string, ModelAndState>
    var executor: Option<nat>
    var executorsMade: nat
    var inFlight: set<nat>

    function View(): Shared
      reads this
    {
      Shared(models, states)
    }

    function PoolView(): Pool
      reads this
    {
      Pool(executor, executorsMade, inFlight)
    }

    constructor ()
      ensures View() == Shared(map[], map[])
      ensures PoolView() == EnsureExecutor(Pool(None, 0, {}))
    {
      models, states := map[], map[];
      executor, executorsMade, inFlight := None, 0, {};
      new;
      Start();
    }

    /** start */
    method Start()
      modifies this`executor, this`executorsMade
      ensures PoolView() == EnsureExecutor(old(PoolView()))
    {
      if executor.None? {
        executor, executorsMade := Some(executorsMade), executorsMade + 1;
      }
    }

    /** _submit_task: the executor that gets the task, made on demand. */
    method SubmitTask(future: nat) returns (target: nat)
      modifies this`executor, this`executorsMade, this`inFlight
      ensures PoolView() == EnsureExecutor(old(PoolView())).(inFlight := old(inFlight) + {future})
      ensures executor == Some(target)
      ensures target == if old(executor).Some? then old(executor).value else old(executorsMade)
      ensures old(executor).None? ==> executorsMade == old(executorsMade) + 1
    {
      if executor.None? {
        executor, executorsMade := Some(executorsMade), executorsMade + 1;
      }
      target := executor.value;
      inFlight := inFlight + {future};
    }

    /** _on_future_done */
    method OnFutureDone(future: nat)
      modifies this`inFlight
      ensures inFlight == old(inFlight) - {future}
    {
      inFlight := inFlight - {future};
    }

    /** The locked part of stop: take the executor away; it is shut down afterwards. */
    method TakeExecutor() returns (toStop: Option<nat>)
      modifies this`executor
      ensures toStop == old(executor) && executor == None
    {
      toStop := executor;
      executor := None;
    }

    /** model_states: the recorded state of every name that has one, and READY for the loaded names that have none. */
    method ModelStates() returns (r: map<string, ModelAndState>)
      ensures r.Keys == models.Keys + states.Keys
      ensures forall n :: n in states ==> r[n] == states[n]
      ensures forall n :: n in models && n !in states ==> r[n] == ModelAndState(Ready, Some(models[n]))
      ensures r == MergedStates(View())
    {
      r := map n | n in models :: ModelAndState(Ready, Some(models[n]));
      r := r + states;
    }

    /** The end of _async_unload_task: pop both entries, or record the failure. */
    method FinishUnload(name: string, proto: MlModel, ok: bool)
      modifies this`models, this`states
      ensures View() == Record(old(View()), Work(Unload, name, proto), ok)
      ensures ok ==> name !in models && name !in states
      ensures !ok ==> models == old(models) && Lookup(states, name) == Some(ModelAndState(Failed, Some(proto)))
      ensures forall n :: n != name ==> Lookup(models, n) == Lookup(old(models), n) && Lookup(states, n) == Lookup(old(states), n)
    {
      if ok {
        models := models - {name};
        states := states - {name};
      } else {
        states := states[name := ModelAndState(Failed, Some(proto))];
      }
    }

    /** The end of _async_load_task. */
    method FinishLoad(name: string, proto: MlModel, ok: bool)
      modifies this`models, this`states
      ensures View() == Record(old(View()), Work(Load, name, proto), ok)
      ensures ok ==> Lookup(models, name) == Some(proto) && Lookup(states, name) == Some(ModelAndState(Ready, Some(proto)))
      ensures !ok ==> models == old(models) && Lookup(states, name) == Some(ModelAndState(Failed, Some(proto)))
      ensures forall n :: n != name ==> Lookup(models, n) == Lookup(old(models), n) && Lookup(states, n) == Lookup(old(states), n)
    {
      if ok {
        models := models[name := proto];
        states := states[name := ModelAndState(Ready, Some(proto))];
      } else {
        states := states[name := ModelAndState(Failed, Some(proto))];
      }
    }

    /** The end of _async_reload_task. */
    method FinishReload(name: string, proto: MlModel, ok: bool)
      modifies this`models, this`states
      ensures View() == Record(old(View()), Work(Reload, name, proto), ok)
      ensures ok ==> Lookup(models, name) == Some(proto) && Lookup(states, name) == Some(ModelAndState(Ready, Some(proto)))
      ensures !ok ==> models == old(models) && Lookup(states, name) == Some(ModelAndState(Failed, Some(proto)))
      ensures forall n :: n != name ==> Lookup(models, n) == Lookup(old(models), n) && Lookup(states, n) == Lookup(old(states), n)
    {
      if ok {
        models := models[name := proto];
        states := states[name := ModelAndState(Ready, Some(proto))];
      } else {
        states := states[name := ModelAndState(Failed, Some(proto))];
      }
    }

    /** _get_reconciliation_diff */
    method GetReconciliationDiff(current: map<string, MlModel>, desired: map<string, MlModel>,
                                 currentStates: map<string, ModelAndState>) returns (d: ReconciliationDiff)
      ensures d == Diff(current, desired, currentStates)
    {
      var toUnload := current.Keys - desired.Keys;
      var candidates := desired.Keys - current.Keys;
      var toLoad := {};
      while candidates != {}
        invariant candidates <= desired.Keys - current.Keys
        invariant toLoad == set n | n in desired && n !in current && n !in candidates
                                    && Attempt(desired[n], Lookup(currentStates, n))
      {
        var n :| n in candidates;
        var status := Lookup(currentStates, n);
        if status.None? || !status.value.state.Failed? {
          toLoad := toLoad + {n};
        } else if status.value.proto != Some(desired[n]) {
          toLoad := toLoad + {n};
        }
        candidates := candidates - {n};
      }
      var toReload := {};
      var common := current.Keys * desired.Keys;
      while common != {}
        invariant common <= current.Keys * desired.Keys
        invariant toReload == set n | n in current && n in desired && n !in common && current[n] != desired[n]
      {
        var n :| n in common;
        if current[n] != desired[n] {
          toReload := toReload + {n};
        }
        common := common - {n};
      }
      d := ReconciliationDiff(toLoad, toUnload, toReload);
    }

    /** The unloads of _execute_reconciliation: names of the diff found READY under the lock. */
    method MarkUnloads(d: ReconciliationDiff, current: map<string, MlModel>, ghost desired: map<string, MlModel>)
      returns (unloads: seq<Work>)
      requires WellFormed(d, current, desired)
      modifies this`states
      ensures models == old(models) && states == Mark(old(states), unloads)
      ensures Decided(unloads, d, current, desired, old(states), d.toUnload)
      ensures forall w :: w in unloads ==> w.kind.Unload?
    {
      hide Decided, Mark, Decide;
      unloads := [];
      NothingDecided(d, current, desired, states);
      var rest := d.toUnload;
      assert d.toUnload - rest == {};
      while rest != {}
        invariant rest <= d.toUnload && models == old(models) && states == Mark(old(states), unloads)
        invariant Decided(unloads, d, current, desired, old(states), d.toUnload - rest)
        invariant forall w :: w in unloads ==> w.kind.Unload?
      {
        var n :| n in rest;
        ghost var r := DecideNext(unloads, n, d, current, desired, old(states), d.toUnload - rest);
        if EffectiveState(Lookup(states, n), n in current) == Some(Ready) {
          var w := Work(Unload, n, current[n]);
          unloads := unloads + [w];
          states := states[n := MarkedEntry(w)];
        } else {
          assert unloads + r == unloads;
        }
        assert d.toUnload - (rest - {n}) == d.toUnload - rest + {n};
        rest := rest - {n};
      }
      assert d.toUnload - rest == d.toUnload;
    }

    /** The loads: names of the diff that have no state or FAILED. */
    method MarkLoads(d: ReconciliationDiff, current: map<string, MlModel>, desired: map<string, MlModel>,
                     ghost before: map<string, ModelAndState>, ghost works: seq<Work>) returns (loads: seq<Work>)
      requires WellFormed(d, current, desired)
      requires states == Mark(before, works) && Decided(works, d, current, desired, before, d.toUnload)
      modifies this`states
      ensures models == old(models) && states == Mark(before, works + loads)
      ensures Decided(works + loads, d, current, desired, before, d.toUnload + d.toLoad)
      ensures forall w :: w in loads ==> w.kind.Load?
    {
      hide Decided, Mark, Decide;
      loads := [];
      assert works + loads == works;
      var rest := d.toLoad;
      assert d.toUnload + (d.toLoad - rest) == d.toUnload;
      while rest != {}
        invariant rest <= d.toLoad && models == old(models) && states == Mark(before, works + loads)
        invariant Decided(works + loads, d, current, desired, before, d.toUnload + (d.toLoad - rest))
        invariant forall w :: w in loads ==> w.kind.Load?
      {
        var n :| n in rest;
        ghost var r := DecideNext(works + loads, n, d, current, desired, before, d.toUnload + (d.toLoad - rest));
        var state := EffectiveState(Lookup(states, n), n in current);
        if state == None || state == Some(Failed) {
          var w := Work(Load, n, desired[n]);
          assert works + loads + [w] == works + (loads + [w]);
          loads := loads + [w];
          states := states[n := MarkedEntry(w)];
        } else {
          assert works + loads + r == works + loads;
        }
        assert d.toUnload + (d.toLoad - (rest - {n})) == d.toUnload + (d.toLoad - rest) + {n};
        rest := rest - {n};
      }
      assert d.toUnload + (d.toLoad - rest) == d.toUnload + d.toLoad;
    }

    /** The reloads: names of the diff found READY under the lock. */
    method MarkReloads(d: ReconciliationDiff, current: map<string, MlModel>, desired: map<string, MlModel>,
                       ghost before: map<string, ModelAndState>, ghost works: seq<Work>) returns (reloads: seq<Work>)
      requires WellFormed(d, current, desired)
      requires states == Mark(before, works) && Decided(works, d, current, desired, before, d.toUnload + d.toLoad)
      modifies this`states
      ensures models == old(models) && states == Mark(before, works + reloads)
      ensures Decided(works + reloads, d, current, desired, before, d.toUnload + d.toLoad + d.toReload)
      ensures forall w :: w in reloads ==> w.kind.Reload?
    {
      hide Decided, Mark, Decide;
      reloads := [];
      assert works + reloads == works;
      var rest := d.toReload;
      ghost var others := d.toUnload + d.toLoad;
      assert others + (d.toReload - rest) == others;
      while rest != {}
        invariant rest <= d.toReload && models == old(models) && states == Mark(before, works + reloads)
        invariant Decided(works + reloads, d, current, desired, before, others + (d.toReload - rest))
        invariant forall w :: w in reloads ==> w.kind.Reload?
      {
        var n :| n in rest;
        ghost var r := DecideNext(works + reloads, n, d, current, desired, before, others + (d.toReload - rest));
        if EffectiveState(Lookup(states, n), n in current) == Some(Ready) {
          var w := Work(Reload, n, desired[n]);
          assert works + reloads + [w] == works + (reloads + [w]);
          reloads := reloads + [w];
          states := states[n := MarkedEntry(w)];
        } else {
          assert works + reloads + r == works + reloads;
        }
        assert others + (d.toReload - (rest - {n})) == others + (d.toReload - rest) + {n};
        rest := rest - {n};
      }
      assert others + (d.toReload - rest) == others + d.toReload;
    }

    /**
     * The locked part of _execute_reconciliation: re-check every name of the diff against the states found now,
     * mark the ones to act on, and return the tasks to submit: unloads, then loads, then reloads.
     */
    method MarkForReconciliation(d: ReconciliationDiff, current: map<string, MlModel>, desired: map<string, MlModel>)
      returns (unloads: seq<Work>, loads: seq<Work>, reloads: seq<Work>)
      requires WellFormed(d, current, desired)
      modifies this`states
      ensures Decided(unloads + loads + reloads, d, current, desired, old(states), d.toUnload + d.toLoad + d.toReload)
      ensures View() == Shared(old(models), Mark(old(states), unloads + loads + reloads))
      ensures forall w :: w in unloads ==> w.kind.Unload?
      ensures forall w :: w in loads ==> w.kind.Load?
      ensures forall w :: w in reloads ==> w.kind.Reload?
    {
      hide Decided, Mark, Decide;
      unloads := MarkUnloads(d, current, desired);
      loads := MarkLoads(d, current, desired, old(states), unloads);
      reloads := MarkReloads(d, current, desired, old(states), unloads + loads);
    }
  }

  lemma NothingDecided(d: ReconciliationDiff, current: map<string, MlModel>, desired: map<string, MlModel>,
                       states: map<string, ModelAndState>)
    requires WellFormed(d, current, desired)
    ensures Decided([], d, current, desired, states, {})
    ensures Mark(states, []) == states
  {
  }

  lemma DecidedMore(works: seq<Work>, n: string, d: ReconciliationDiff, current: map<string, MlModel>,
                    desired: map<string, MlModel>, states: map<string, ModelAndState>, names: set<string>)
    requires WellFormed(d, current, desired)
    requires Decided(works, d, current, desired, states, names) && n !in names
    ensures var decision := Decide(d, current, desired, n, Lookup(states, n));
            Decided(if decision.Some? then works + [decision.value] else works, d, current, desired, states, names + {n})
  {
    DecideKeepsName(d, current, desired, n, Lookup(states, n));
    hide Decide;
    var decision := Decide(d, current, desired, n, Lookup(states, n));
    if decision.Some? {
      forall x ensures x in works + [decision.value] <==> x in works || x == decision.value {
        assert (works + [decision.value])[|works|] == decision.value;
      }
    }
  }

  lemma DecideKeepsName(d: ReconciliationDiff, current: map<string, MlModel>, desired: map<string, MlModel>,
                        n: string, status: Option<ModelAndState>)
    requires WellFormed(d, current, desired)
    ensures var decision := Decide(d, current, desired, n, status); decision.Some? ==> decision.value.name == n
  {
  }

  lemma UnmarkedUnchanged(works: seq<Work>, n: string, d: ReconciliationDiff, current: map<string, MlModel>,
                          desired: map<string, MlModel>, states: map<string, ModelAndState>, names: set<string>)
    requires WellFormed(d, current, desired)
    requires Decided(works, d, current, desired, states, names) && n !in names
    ensures Lookup(Mark(states, works), n) == Lookup(states, n)
  {
    hide Decide, Mark;
    MarkAt(states, works, n);
  }

  lemma MarkOneMore(states: map<string, ModelAndState>, works: seq<Work>, w: Work)
    ensures Mark(states, works + [w]) == Mark(states, works)[w.name := MarkedEntry(w)]
  {
    assert (works + [w])[..|works|] == works;
  }

  /** Deciding one more name adds its task, if any, also when decided from the partly marked dictionary. */
  lemma DecideNext(works: seq<Work>, n: string, d: ReconciliationDiff, current: map<string, MlModel>,
                   desired: map<string, MlModel>, states: map<string, ModelAndState>, names: set<string>)
    returns (r: seq<Work>)
    requires WellFormed(d, current, desired)
    requires Decided(works, d, current, desired, states, names) && n !in names
    ensures Decided(works + r, d, current, desired, states, names + {n})
    ensures var after := Mark(states, works);
            var e := EffectiveState(Lookup(after, n), n in current);
            && (n in d.toUnload ==> r == if e == Some(Ready) then [Work(Unload, n, current[n])] else [])
            && (n in d.toLoad ==> r == if e == None || e == Some(Failed) then [Work(Load, n, desired[n])] else [])
            && (n in d.toReload ==> r == if e == Some(Ready) then [Work(Reload, n, desired[n])] else [])
            && (r != [] ==> Mark(states, works + r) == after[n := MarkedEntry(r[0])])
  {
    hide Decided, Mark;
    UnmarkedUnchanged(works, n, d, current, desired, states, names);
    DecidedMore(works, n, d, current, desired, states, names);
    var decision := Decide(d, current, desired, n, Lookup(states, n));
    r := if decision.Some? then [decision.value] else [];
    if decision.Some? {
      MarkOneMore(states, works, decision.value);
    } else {
      assert works + r == works;
    }
  }

  // ---------- The guard of the assets manager ----------

  class ModelOperationGuard {
    var inProgress: set<string>

    constructor ()
      ensures inProgress == {}
    {
      inProgress := {};
    }

    /** Entering exclusive(): raises ConcurrentModelOperationError if the name is taken. */
    method Enter(name: string) returns (raised: bool)
      modifies this
      ensures raised <==> name in old(inProgress)
      ensures inProgress == old(inProgress) + {name}
    {
      if name in inProgress {
        return true;
      }
      inProgress := inProgress + {name};
      return false;
    }

    /** Leaving exclusive(), on success and on error alike. */
    method Exit(name: string)
      modifies this
      ensures inProgress == old(inProgress) - {name}
    {
      inProgress := inProgress - {name};
    }
  }
}
