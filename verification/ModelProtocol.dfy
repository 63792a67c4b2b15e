// All interleavings of reconciliations, worker tasks, start and stop of the model controller.
module ModelProtocol {
  import opened Results
  import opened MlModels
  import opened VersionOrder
  import opened ModelController

  // ---------- States ----------

  /** Where a submitted task is. Only the steps between two phases touch shared data. */
  datatype Phase =
    | Queued
    | AtAssets(call: AssetCall)   // about to call the assets manager
    | InAssets(call: AssetCall)   // inside the guarded call
    | AtBackend                   // about to call the inference backend
    | Finishing(ok: bool)         // about to record the outcome under _lock

  datatype Task = Task(work: Work, phase: Phase)

  /** The thread that holds _reconcile_lock, if any, with its local variables. */
  datatype Reconciler =
    | Idle
    | Listed(desired: map<string, MlModel>)
    | Snapped(current: map<string, MlModel>, currentStates: map<string, ModelAndState>, desired: map<string, MlModel>)
    | Submitting(pending: seq<Work>)

  /** The files of a model: those of one version and its data, or anything since an asset call failed. */
  datatype Files = Complete(version: string, data: int) | Doubtful(since: AssetCall)

  function FilesOf(m: MlModel): Files { Complete(m.version, m.data) }

  /** What the inference backend has loaded for a name: a model, or anything since a call of a task failed. */
  datatype InBackend = Serving(model: MlModel) | Uncertain(since: Work)

  datatype Sys = Sys(
    sh: Shared,
    reconciler: Reconciler,
    tasks: map<nat, Task>,      // submitted and not finished, by future
    nextTask: nat,
    inProgress: set<string>,    // of the guard
    pool: Pool,
    stopping: set<nat>,         // executors taken by stop() and not yet shut down
    closed: set<nat>,           // executors that were shut down
    disk: map<string, Files>,   // written by the asset calls
    backend: map<string, InBackend>)

  ghost const INIT: Sys := Sys(Shared(map[], map[]), Idle, map[], 0, {}, EnsureExecutor(Pool(None, 0, {})), {}, {},
                             map[], map[])

  function Pending(s: Sys): seq<Work> {
    if s.reconciler.Submitting? then s.reconciler.pending else []
  }

  // ---------- Steps ----------

  datatype Label =
    | List(installed: seq<MlModel>)
    | Snapshot
    | NoChange
    | MarkAll(works: seq<Work>)
    | Submit
    | EndReconcile
    | Begin(id: nat)
    | EnterGuard(id: nat)
    | LeaveGuard(id: nat, ok: bool)
    | CallBackend(id: nat, ok: bool)
    | Finish(id: nat)
    | FutureDone(id: nat)
    | Start
    | StopTake
    | StopShutdown(executor: nat)

  /** Unloads come before loads, and loads before reloads. */
  predicate InSubmitOrder(works: seq<Work>) {
    forall i, j :: 0 <= i < j < |works| ==> !(works[i].kind.Load? && works[j].kind.Unload?)
                                            && (works[i].kind.Reload? ==> works[j].kind.Reload?)
  }

  function DiffOf(r: Reconciler): ReconciliationDiff
    requires r.Snapped?
  {
    Diff(r.current, r.desired, r.currentStates)
  }

  function AllNames(d: ReconciliationDiff): set<string> { d.toUnload + d.toLoad + d.toReload }

  ghost predicate Enabled(s: Sys, l: Label) {
    match l
    case List(_) => s.reconciler.Idle?
    case Snapshot => s.reconciler.Listed?
    case NoChange => s.reconciler.Snapped? && Empty(DiffOf(s.reconciler))
    case MarkAll(works) =>
      && s.reconciler.Snapped? && !Empty(DiffOf(s.reconciler))
      && InSubmitOrder(works)
      && Decided(works, DiffOf(s.reconciler), s.reconciler.current, s.reconciler.desired, s.sh.states,
                 AllNames(DiffOf(s.reconciler)))
    case Submit => Pending(s) != []
    case EndReconcile => s.reconciler == Submitting([])
    case Begin(id) => id in s.tasks && s.tasks[id].phase.Queued?
    case EnterGuard(id) => id in s.tasks && s.tasks[id].phase.AtAssets?
    case LeaveGuard(id, _) => id in s.tasks && s.tasks[id].phase.InAssets?
    case CallBackend(id, _) => id in s.tasks && s.tasks[id].phase.AtBackend?
    case Finish(id) => id in s.tasks && s.tasks[id].phase.Finishing?
    case FutureDone(id) => id in s.pool.inFlight && id !in s.tasks
    case Start => true
    case StopTake => true
    case StopShutdown(e) => e in s.stopping
  }

  /** First shared action of a task. A reload reads _models[name] under _lock here. */
  function FirstPhase(w: Work, sh: Shared): Phase {
    match w.kind
    case Unload => AtBackend
    case Load => AtAssets(Create(w.proto))
    case Reload =>
      var call := AssetCallFor(Lookup(sh.models, w.name), w.proto);
      if call.Some? then AtAssets(call.value) else AtBackend
  }

  /** An error of the assets manager fails a load or reload; an unload only logs it. */
  function AfterAssets(w: Work, ok: bool): Phase {
    if w.kind.Unload? then Finishing(true)
    else if ok then AtBackend
    else Finishing(false)
  }

  function AfterBackend(w: Work, ok: bool): Phase {
    if w.kind.Unload? then AtAssets(Delete(w.proto)) else Finishing(ok)
  }

  /**
   * The files after an asset call. A creation fetches all of them and a deletion removes all. An update deletes and
   * fetches what differs between the two versions it gets, so it needs the complete files of the first one.
   */
  function DiskAfter(disk: map<string, Files>, call: AssetCall, ok: bool): map<string, Files> {
    var name := call.model.name;
    if !ok then disk[name := Doubtful(call)]
    else
      match call
      case Create(model) => disk[name := FilesOf(model)]
      case Update(loaded, model) =>
        disk[name := if Lookup(disk, name) == Some(FilesOf(loaded)) then FilesOf(model) else Doubtful(call)]
      case Delete(_) => disk - {name}
  }

  /** The backend after _load_model_impl or _unload_model_impl. */
  function BackendAfter(backend: map<string, InBackend>, w: Work, ok: bool): map<string, InBackend> {
    if !ok then backend[w.proto.name := Uncertain(w)]
    else if w.kind.Unload? then backend - {w.proto.name}
    else backend[w.proto.name := Serving(w.proto)]
  }

  function Moved(s: Sys, id: nat, phase: Phase): Sys
    requires id in s.tasks
  {
    s.(tasks := s.tasks[id := s.tasks[id].(phase := phase)])
  }

  function Apply(s: Sys, l: Label): Sys
    requires Enabled(s, l)
  {
    match l
    case List(installed) => s.(reconciler := Listed(LatestVersions(installed)))
    case Snapshot => s.(reconciler := Snapped(s.sh.models, s.sh.states, s.reconciler.desired))
    case NoChange => s.(reconciler := Idle)
    case MarkAll(works) =>
      s.(sh := s.sh.(states := Mark(s.sh.states, works)), reconciler := Submitting(works))
    case Submit =>
      s.(reconciler := Submitting(Pending(s)[1..]),
         tasks := s.tasks[s.nextTask := Task(Pending(s)[0], Queued)],
         nextTask := s.nextTask + 1,
         pool := EnsureExecutor(s.pool).(inFlight := s.pool.inFlight + {s.nextTask}))
    case EndReconcile => s.(reconciler := Idle)
    case Begin(id) => Moved(s, id, FirstPhase(s.tasks[id].work, s.sh))
    case EnterGuard(id) =>
      var t := s.tasks[id];
      var name := t.phase.call.model.name;
      if name in s.inProgress then
        Moved(s, id, AfterAssets(t.work, false))
      else
        Moved(s, id, InAssets(t.phase.call)).(inProgress := s.inProgress + {name})
    case LeaveGuard(id, ok) =>
      var t := s.tasks[id];
      Moved(s, id, AfterAssets(t.work, ok)).(inProgress := s.inProgress - {t.phase.call.model.name},
                                             disk := DiskAfter(s.disk, t.phase.call, ok))
    case CallBackend(id, ok) =>
      var w := s.tasks[id].work;
      Moved(s, id, AfterBackend(w, ok)).(backend := BackendAfter(s.backend, w, ok))
    case Finish(id) =>
      s.(sh := Record(s.sh, s.tasks[id].work, s.tasks[id].phase.ok), tasks := s.tasks - {id})
    case FutureDone(id) => s.(pool := s.pool.(inFlight := s.pool.inFlight - {id}))
    case Start => s.(pool := EnsureExecutor(s.pool))
    case StopTake =>
      s.(pool := s.pool.(executor := None),
         stopping := if s.pool.executor.Some? then s.stopping + {s.pool.executor.value} else s.stopping)
    case StopShutdown(e) => s.(stopping := s.stopping - {e}, closed := s.closed + {e})
  }

  // ---------- Runs ----------

  ghost predicate ValidRun(s: Sys, run: seq<Label>)
    decreases |run|
  {
    run == [] || (Enabled(s, run[0]) && ValidRun(Apply(s, run[0]), run[1..]))
  }

  ghost function After(s: Sys, run: seq<Label>): Sys
    requires ValidRun(s, run)
    decreases |run|
  {
    if run == [] then s else After(Apply(s, run[0]), run[1..])
  }

  ghost predicate Reachable(s: Sys) {
    exists run :: ValidRun(INIT, run) && After(INIT, run) == s
  }

  // ---------- The invariant ----------

  /** No name has two outstanding tasks, counting those marked and not yet submitted. */
  ghost predicate OneTaskPerName(s: Sys) {
    && (forall i, j :: i in s.tasks && j in s.tasks && s.tasks[i].work.name == s.tasks[j].work.name ==> i == j)
    && DistinctNames(Pending(s))
    && (forall i, w :: i in s.tasks && w in Pending(s) ==> s.tasks[i].work.name != w.name)
  }

  ghost predicate HasTask(s: Sys, n: string) {
    || (exists i :: i in s.tasks && s.tasks[i].work.name == n)
    || (exists w :: w in Pending(s) && w.name == n)
  }

  predicate Busy(s: Sys, n: string) {
    n in s.sh.states && IsBusy(s.sh.states[n].state)
  }

  /** The recorded state of a name with an outstanding task is the one it was marked with, and no other is busy. */
  ghost predicate BusyMatchesTasks(s: Sys) {
    && (forall i :: i in s.tasks ==> Lookup(s.sh.states, s.tasks[i].work.name) == Some(MarkedEntry(s.tasks[i].work)))
    && (forall w :: w in Pending(s) ==> Lookup(s.sh.states, w.name) == Some(MarkedEntry(w)))
    && (forall n :: Busy(s, n) ==> HasTask(s, n))
  }

  predicate KeyedWork(w: Work) { w.proto.name == w.name }

  /** Dictionary keys are the names of the protos everywhere. */
  ghost predicate Keyed(s: Sys) {
    && KeyedByName(s.sh.models)
    && (forall n :: n in s.sh.states && s.sh.states[n].proto.Some? ==> s.sh.states[n].proto.value.name == n)
    && (forall i :: i in s.tasks ==> KeyedWork(s.tasks[i].work))
    && (forall w :: w in Pending(s) ==> KeyedWork(w))
    && (s.reconciler.Listed? || s.reconciler.Snapped? ==> KeyedByName(s.reconciler.desired))
    && (s.reconciler.Snapped? ==> KeyedByName(s.reconciler.current))
  }

  /** How the two dictionaries relate. */
  ghost predicate DictionariesAgree(sh: Shared) {
    && (forall n :: n in sh.models ==> n in sh.states)
    && (forall n :: n in sh.states && sh.states[n].state.Ready? ==> n in sh.models && sh.states[n].proto == Some(sh.models[n]))
    && (forall n :: n in sh.states && sh.states[n].state.Loading? ==> n !in sh.models)
  }

  /** What became loaded since the snapshot is READY, so the stale snapshot is never used to load it. */
  ghost predicate SnapshotSafe(s: Sys) {
    s.reconciler.Snapped? ==>
      forall n :: n in s.sh.models && n !in s.reconciler.current ==>
        n in s.sh.states && s.sh.states[n].state.Ready?
  }

  /** The asset call of a task fits its work, and the version it replaces is the loaded one. */
  predicate CallFits(sh: Shared, w: Work, call: AssetCall) {
    && call.model == w.proto
    && match call
       case Create(_) => !w.kind.Unload? && w.name !in sh.models
       case Update(loaded, _) => w.kind.Reload? && Lookup(sh.models, w.name) == Some(loaded)
       case Delete(_) => w.kind.Unload?
  }

  ghost predicate PhasesFit(s: Sys) {
    forall i :: i in s.tasks ==>
      var t := s.tasks[i];
      && (t.phase.AtAssets? || t.phase.InAssets? ==> CallFits(s.sh, t.work, t.phase.call))
      && (t.phase.Finishing? && t.work.kind.Unload? ==> t.phase.ok)
  }

  /** The guard holds exactly the names of the tasks inside an asset call. */
  ghost predicate GuardFits(s: Sys) {
    && (forall i :: i in s.tasks && s.tasks[i].phase.InAssets? ==> s.tasks[i].work.name in s.inProgress)
    && (forall n :: n in s.inProgress ==>
          exists i :: i in s.tasks && s.tasks[i].phase.InAssets? && s.tasks[i].work.name == n)
  }

  /** Every unfinished submitted task is in flight, and the current executor was never stopped. */
  ghost predicate PoolFits(s: Sys) {
    && (forall i :: i in s.tasks ==> i in s.pool.inFlight)
    && (forall i :: i in s.pool.inFlight ==> i < s.nextTask)
    && (forall e :: e in s.stopping || e in s.closed ==> e < s.pool.made && s.pool.executor != Some(e))
    && (s.pool.executor.Some? ==> s.pool.executor.value < s.pool.made)
  }

  ghost predicate Inv(s: Sys) {
    && OneTaskPerName(s)
    && BusyMatchesTasks(s)
    && Keyed(s)
    && DictionariesAgree(s.sh)
    && SnapshotSafe(s)
    && PhasesFit(s)
    && GuardFits(s)
    && PoolFits(s)
  }
}
