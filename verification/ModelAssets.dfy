// What the model controller's calls are for: the files on disk and the models in the inference backend.
module ModelAssets {
  import opened Results
  import opened MlModels
  import opened VersionOrder
  import opened ModelController
  import opened ModelProtocol
  import opened ModelInvariants
  import opened ModelSafety

  /** What there is for a name outside of the controller. */
  datatype Outside = Outside(files: Option<Files>, served: Option<InBackend>)

  function At(s: Sys, n: string): Outside {
    Outside(Lookup(s.disk, n), Lookup(s.backend, n))
  }

  predicate HasFiles(o: Outside, m: MlModel) { o.files == Some(FilesOf(m)) }

  predicate Serves(o: Outside, m: MlModel) { o.served == Some(Serving(m)) }

  /** No files, or what a failed deletion left. */
  predicate NoFiles(o: Outside) { o.files.None? || (o.files.value.Doubtful? && o.files.value.since.Delete?) }

  predicate NotServed(o: Outside) { o.served.None? || (o.served.value.Uncertain? && o.served.value.since.kind.Unload?) }

  /** Has the task called the assets manager, or decided not to? */
  predicate FilesDone(w: Work, phase: Phase) {
    if w.kind.Unload? then phase.Finishing? else phase.AtBackend? || phase.Finishing?
  }

  predicate BackendDone(w: Work, phase: Phase) {
    phase.Finishing? || (w.kind.Unload? && (phase.AtAssets? || phase.InAssets?))
  }

  predicate HasFailed(phase: Phase) { phase.Finishing? && !phase.ok }

  predicate FilesFit(loaded: Option<MlModel>, w: Work, phase: Phase, o: Outside) {
    if FilesDone(w, phase) then
      if w.kind.Unload? then NoFiles(o) else HasFailed(phase) || HasFiles(o, w.proto)
    else
      loaded.Some? ==> HasFiles(o, loaded.value)
  }

  predicate ServedFits(loaded: Option<MlModel>, w: Work, phase: Phase, o: Outside) {
    if BackendDone(w, phase) then
      if w.kind.Unload? then NotServed(o) else HasFailed(phase) || Serves(o, w.proto)
    else
      loaded.Some? ==> Serves(o, loaded.value)
  }

  /** What a task in this phase finds for its name. */
  predicate TaskFits(loaded: Option<MlModel>, w: Work, phase: Phase, o: Outside) {
    FilesFit(loaded, w, phase, o) && ServedFits(loaded, w, phase, o)
  }

  predicate ReadyFits(sh: Shared, n: string, o: Outside) {
    && (n in sh.states && sh.states[n].state.Ready? && n in sh.models ==> HasFiles(o, sh.models[n]) && Serves(o, sh.models[n]))
    && (n !in sh.states ==> NoFiles(o) && NotServed(o))
  }

  ghost predicate OutsideFits(s: Sys) {
    && (forall i :: i in s.tasks ==>
          var t := s.tasks[i]; TaskFits(Lookup(s.sh.models, t.work.name), t.work, t.phase, At(s, t.work.name)))
    && (forall w :: w in Pending(s) ==> TaskFits(Lookup(s.sh.models, w.name), w, Queued, At(s, w.name)))
    && (forall n :: ReadyFits(s.sh, n, At(s, n)))
  }

  // ---------- Marking and submitting ----------

  /** A name that gets a task is READY, or it is not loaded. */
  lemma MarkedWasReady(s: Sys, w: Work)
    requires Inv(s) && s.reconciler.Snapped?
    requires Decide(DiffOf(s.reconciler), s.reconciler.current, s.reconciler.desired, w.name,
                    Lookup(s.sh.states, w.name)) == Some(w)
    ensures w.name in s.sh.models ==> w.name in s.sh.states && s.sh.states[w.name].state.Ready?
  {
    hide OneTaskPerName, PhasesFit, GuardFits, PoolFits, BusyMatchesTasks, Keyed;
  }

  lemma ReadyIsFit(s: Sys, w: Work)
    requires ReadyFits(s.sh, w.name, At(s, w.name))
    requires w.name in s.sh.models ==> w.name in s.sh.states && s.sh.states[w.name].state.Ready?
    ensures TaskFits(Lookup(s.sh.models, w.name), w, Queued, At(s, w.name))
  {
  }

  lemma MarkedReady(sh: Shared, states: map<string, ModelAndState>, works: seq<Work>, n: string, o: Outside)
    requires ReadyFits(sh, n, o)
    requires forall w :: w in works ==> Lookup(states, w.name) == Some(MarkedEntry(w))
    requires (forall w :: w in works ==> w.name != n) ==> Lookup(states, n) == Lookup(sh.states, n)
    ensures ReadyFits(sh.(states := states), n, o)
  {
    hide NoFiles, NotServed, HasFiles, Serves;
    if w :| w in works && w.name == n {
      assert Lookup(states, n) == Some(MarkedEntry(w));
    }
  }

  lemma ReadyAt(s: Sys, n: string)
    requires OutsideFits(s)
    ensures ReadyFits(s.sh, n, At(s, n))
  {
  }

  lemma MarkKeepsOutside(s: Sys, works: seq<Work>)
    requires Inv(s) && OutsideFits(s) && Enabled(s, MarkAll(works))
    ensures OutsideFits(Apply(s, MarkAll(works)))
  {
    var s' := Apply(s, MarkAll(works));
    MarkEntries(s, works);
    forall w | w in works ensures TaskFits(Lookup(s.sh.models, w.name), w, Queued, At(s, w.name)) {
      hide Mark, Empty, Decide, Inv, OutsideFits, TaskFits;
      MarkedWasReady(s, w);
      ReadyAt(s, w.name);
      ReadyIsFit(s, w);
    }
    assert s'.sh == s.sh.(states := s'.sh.states);
    hide Inv, Enabled, Apply, TaskFits, ReadyFits, MarkedEntry;
    forall n ensures At(s', n) == At(s, n) && ReadyFits(s'.sh, n, At(s', n)) {
      MarkedReady(s.sh, s'.sh.states, works, n, At(s, n));
    }
  }

  lemma SubmitKeepsOutside(s: Sys)
    requires Inv(s) && OutsideFits(s) && Enabled(s, Submit)
    ensures OutsideFits(Apply(s, Submit))
  {
    SubmitShifts(s);
    var s' := Apply(s, Submit);
    assert s'.disk == s.disk && s'.backend == s.backend;
    hide Inv, Enabled, Apply, TaskFits, ReadyFits, Pending;
    assert forall n :: At(s', n) == At(s, n);
  }

  // ---------- Steps of a task ----------

  /** A task moves, and what is outside changes at most for its name. */
  lemma OneTaskMoves(s: Sys, s': Sys, id: nat, phase: Phase)
    requires OneTaskPerName(s) && BusyMatchesTasks(s) && OutsideFits(s) && id in s.tasks
    requires s'.sh == s.sh && Pending(s') == Pending(s)
    requires s'.tasks == s.tasks[id := s.tasks[id].(phase := phase)]
    requires forall n :: n != s.tasks[id].work.name ==> At(s', n) == At(s, n)
    requires var w := s.tasks[id].work; TaskFits(Lookup(s.sh.models, w.name), w, phase, At(s', w.name))
    ensures OutsideFits(s')
  {
    var w := s.tasks[id].work;
    assert Lookup(s.sh.states, w.name) == Some(MarkedEntry(w));
    assert ReadyFits(s'.sh, w.name, At(s', w.name));
    hide TaskFits, ReadyFits, Pending, At, DistinctNames, BusyMatchesTasks;
  }

  lemma TaskAt(s: Sys, id: nat)
    requires OutsideFits(s) && id in s.tasks
    ensures var t := s.tasks[id]; TaskFits(Lookup(s.sh.models, t.work.name), t.work, t.phase, At(s, t.work.name))
  {
  }

  lemma BeginFits(s: Sys, id: nat)
    requires Inv(s) && OutsideFits(s) && Enabled(s, Begin(id))
    ensures var w := s.tasks[id].work;
            TaskFits(Lookup(s.sh.models, w.name), w, FirstPhase(w, s.sh), At(s, w.name))
  {
    var w := s.tasks[id].work;
    TaskAt(s, id);
    assert Lookup(s.sh.states, w.name) == Some(MarkedEntry(w));
    hide OneTaskPerName, Keyed, PhasesFit, GuardFits, PoolFits, OutsideFits, BusyMatchesTasks, SnapshotSafe;
  }

  /** What an asset call that fits its work does to the files of its name. */
  lemma CallMakesFiles(sh: Shared, w: Work, call: AssetCall, ok: bool, o: Outside, o': Outside)
    requires CallFits(sh, w, call) && TaskFits(Lookup(sh.models, w.name), w, InAssets(call), o)
    requires o'.served == o.served
    requires o'.files == if !ok then Some(Doubtful(call))
                         else match call
                           case Create(model) => Some(FilesOf(model))
                           case Update(loaded, model) =>
                             Some(if o.files == Some(FilesOf(loaded)) then FilesOf(model) else Doubtful(call))
                           case Delete(_) => None
    ensures TaskFits(Lookup(sh.models, w.name), w, AfterAssets(w, ok), o')
  {
  }

  lemma AssetsFit(s: Sys, id: nat, ok: bool)
    requires Inv(s) && OutsideFits(s) && Enabled(s, LeaveGuard(id, ok))
    ensures var s', w := Apply(s, LeaveGuard(id, ok)), s.tasks[id].work;
            && TaskFits(Lookup(s.sh.models, w.name), w, AfterAssets(w, ok), At(s', w.name))
            && forall n :: n != w.name ==> At(s', n) == At(s, n)
  {
    TaskAt(s, id);
    CallName(s, id);
    var w, call := s.tasks[id].work, s.tasks[id].phase.call;
    hide Inv, OutsideFits, TaskFits, CallFits, AfterAssets;
    CallMakesFiles(s.sh, w, call, ok, At(s, w.name), At(Apply(s, LeaveGuard(id, ok)), w.name));
  }

  /** What the backend call does to what is served under the name. */
  lemma CallMakesServed(loaded: Option<MlModel>, w: Work, ok: bool, o: Outside, o': Outside)
    requires TaskFits(loaded, w, AtBackend, o) && o'.files == o.files
    requires o'.served == if !ok then Some(Uncertain(w)) else if w.kind.Unload? then None else Some(Serving(w.proto))
    ensures TaskFits(loaded, w, AfterBackend(w, ok), o')
  {
  }

  lemma BackendFits(s: Sys, id: nat, ok: bool)
    requires Inv(s) && OutsideFits(s) && Enabled(s, CallBackend(id, ok))
    ensures var s', w := Apply(s, CallBackend(id, ok)), s.tasks[id].work;
            && TaskFits(Lookup(s.sh.models, w.name), w, AfterBackend(w, ok), At(s', w.name))
            && forall n :: n != w.name ==> At(s', n) == At(s, n)
  {
    TaskAt(s, id);
    var w := s.tasks[id].work;
    assert KeyedWork(w);
    hide Inv, OutsideFits, TaskFits, AfterBackend;
    CallMakesServed(Lookup(s.sh.models, w.name), w, ok, At(s, w.name), At(Apply(s, CallBackend(id, ok)), w.name));
  }

  lemma EnterFits(s: Sys, id: nat)
    requires OutsideFits(s) && Enabled(s, EnterGuard(id))
    ensures var t := s.tasks[id];
            TaskFits(Lookup(s.sh.models, t.work.name), t.work, InAssets(t.phase.call), At(s, t.work.name))
  {
    TaskAt(s, id);
    hide OutsideFits;
  }

  lemma BeginKeepsOutside(s: Sys, id: nat)
    requires Inv(s) && OutsideFits(s) && Enabled(s, Begin(id))
    ensures OutsideFits(Apply(s, Begin(id)))
  {
    BeginFits(s, id);
    hide OutsideFits, TaskFits, FirstPhase, OneTaskPerName, BusyMatchesTasks, PhasesFit, GuardFits, PoolFits, Keyed, SnapshotSafe;
    OneTaskMoves(s, Apply(s, Begin(id)), id, FirstPhase(s.tasks[id].work, s.sh));
  }

  lemma EnterKeepsOutside(s: Sys, id: nat)
    requires Inv(s) && OutsideFits(s) && Enabled(s, EnterGuard(id))
    ensures OutsideFits(Apply(s, EnterGuard(id)))
  {
    GuardNeverRaises(s, id);
    EnterFits(s, id);
    hide OutsideFits, TaskFits, OneTaskPerName, BusyMatchesTasks, PhasesFit, GuardFits, PoolFits, Keyed, SnapshotSafe;
    OneTaskMoves(s, Apply(s, EnterGuard(id)), id, InAssets(s.tasks[id].phase.call));
  }

  lemma LeaveKeepsOutside(s: Sys, id: nat, ok: bool)
    requires Inv(s) && OutsideFits(s) && Enabled(s, LeaveGuard(id, ok))
    ensures OutsideFits(Apply(s, LeaveGuard(id, ok)))
  {
    AssetsFit(s, id, ok);
    hide OutsideFits, TaskFits, AfterAssets, DiskAfter, At;
    hide OneTaskPerName, BusyMatchesTasks, PhasesFit, GuardFits, PoolFits, Keyed, SnapshotSafe;
    OneTaskMoves(s, Apply(s, LeaveGuard(id, ok)), id, AfterAssets(s.tasks[id].work, ok));
  }

  lemma CallKeepsOutside(s: Sys, id: nat, ok: bool)
    requires Inv(s) && OutsideFits(s) && Enabled(s, CallBackend(id, ok))
    ensures OutsideFits(Apply(s, CallBackend(id, ok)))
  {
    BackendFits(s, id, ok);
    hide OutsideFits, TaskFits, AfterBackend, BackendAfter, At;
    hide OneTaskPerName, BusyMatchesTasks, PhasesFit, GuardFits, PoolFits, Keyed, SnapshotSafe;
    OneTaskMoves(s, Apply(s, CallBackend(id, ok)), id, AfterBackend(s.tasks[id].work, ok));
  }

  lemma RecordedFits(sh: Shared, w: Work, phase: Phase, o: Outside)
    requires phase.Finishing? && TaskFits(Lookup(sh.models, w.name), w, phase, o)
    ensures ReadyFits(Record(sh, w, phase.ok), w.name, o)
  {
  }

  lemma SameEntriesFit(sh: Shared, sh': Shared, n: string, o: Outside)
    requires Lookup(sh'.states, n) == Lookup(sh.states, n) && Lookup(sh'.models, n) == Lookup(sh.models, n)
    requires ReadyFits(sh, n, o)
    ensures ReadyFits(sh', n, o)
  {
  }

  lemma FinishKeepsOutside(s: Sys, id: nat)
    requires Inv(s) && OutsideFits(s) && Enabled(s, Finish(id))
    ensures OutsideFits(Apply(s, Finish(id)))
  {
    var s', t := Apply(s, Finish(id)), s.tasks[id];
    FinishLeaves(s, id);
    TaskAt(s, id);
    RecordedFits(s.sh, t.work, t.phase, At(s, t.work.name));
    assert s'.sh == Record(s.sh, t.work, t.phase.ok) && s'.disk == s.disk && s'.backend == s.backend;
    assert Pending(s') == Pending(s);
    assert forall w :: w in Pending(s) ==> w.name != t.work.name;
    hide Inv, Enabled, Apply, TaskFits, ReadyFits, Record, Pending;
    forall n ensures At(s', n) == At(s, n) && ReadyFits(s'.sh, n, At(s', n)) {
      if n != t.work.name {
        SameEntriesFit(s.sh, s'.sh, n, At(s, n));
      }
    }
  }

  // ---------- All steps, all runs ----------

  lemma SameOutside(s: Sys, s': Sys)
    requires OutsideFits(s) && s'.sh == s.sh && s'.tasks == s.tasks && Pending(s') == Pending(s)
    requires s'.disk == s.disk && s'.backend == s.backend
    ensures OutsideFits(s')
  {
    assert forall n :: At(s', n) == At(s, n);
    hide TaskFits, ReadyFits, Pending;
  }

  lemma OtherStepKeepsOutside(s: Sys, l: Label)
    requires OutsideFits(s) && Enabled(s, l) && (IsLocal(l) || l.List?)
    ensures OutsideFits(Apply(s, l))
  {
    var s' := Apply(s, l);
    hide OutsideFits, LatestVersions, DiffOf, Empty;
    SameOutside(s, s');
  }

  lemma StepKeepsOutside(s: Sys, l: Label)
    requires Inv(s) && OutsideFits(s) && Enabled(s, l)
    ensures OutsideFits(Apply(s, l))
  {
    hide Inv, OutsideFits, Enabled, Apply;
    match l
    case MarkAll(works) => MarkKeepsOutside(s, works);
    case Submit => SubmitKeepsOutside(s);
    case Begin(id) => BeginKeepsOutside(s, id);
    case EnterGuard(id) => EnterKeepsOutside(s, id);
    case LeaveGuard(id, ok) => LeaveKeepsOutside(s, id, ok);
    case CallBackend(id, ok) => CallKeepsOutside(s, id, ok);
    case Finish(id) => FinishKeepsOutside(s, id);
    case _ => OtherStepKeepsOutside(s, l);
  }

  lemma {:induction false} RunKeepsOutside(s: Sys, run: seq<Label>)
    requires Inv(s) && OutsideFits(s) && ValidRun(s, run)
    ensures OutsideFits(After(s, run))
    decreases |run|
  {
    hide Inv, OutsideFits, Enabled, Apply;
    if run != [] {
      StepKeepsInv(s, run[0]);
      StepKeepsOutside(s, run[0]);
      RunKeepsOutside(Apply(s, run[0]), run[1..]);
    }
  }

  lemma ReachableOutside(s: Sys)
    requires Reachable(s)
    ensures Inv(s) && OutsideFits(s)
  {
    ReachableInv(s);
    InitInv();
    assert OutsideFits(INIT);
    hide OutsideFits, Inv;
    var run :| ValidRun(INIT, run) && After(INIT, run) == s;
    RunKeepsOutside(INIT, run);
  }

  // ---------- What that means ----------

  /** A READY model has its files on disk, complete and of its own version and data, and the backend serves it. */
  lemma ReadyIsServed(s: Sys, n: string)
    requires Reachable(s) && n in s.sh.states && s.sh.states[n].state.Ready?
    ensures n in s.sh.models
    ensures Lookup(s.disk, n) == Some(Complete(s.sh.models[n].version, s.sh.models[n].data))
    ensures Lookup(s.backend, n) == Some(Serving(s.sh.models[n]))
  {
    ReachableOutside(s);
    assert n in s.sh.models;
    hide Inv;
    ReadyAt(s, n);
  }

  /** Nothing is left of a name without a state, unless the last deletion or unloading of it failed. */
  lemma UnloadedIsGone(s: Sys, n: string)
    requires Reachable(s) && n !in s.sh.states
    ensures n in s.disk ==> s.disk[n].Doubtful? && s.disk[n].since.Delete?
    ensures n in s.backend ==> s.backend[n].Uncertain? && s.backend[n].since.kind.Unload?
  {
    ReachableOutside(s);
    hide Inv;
    ReadyAt(s, n);
  }

  /** The backend loads a model only with all files of that version and data on disk, and unloads it before they go. */
  lemma BackendHasFiles(s: Sys, id: nat)
    requires Reachable(s) && id in s.tasks && s.tasks[id].phase.AtBackend?
    ensures var w := s.tasks[id].work;
            && (!w.kind.Unload? ==> Lookup(s.disk, w.name) == Some(Complete(w.proto.version, w.proto.data)))
            && (w.kind.Unload? && w.name in s.sh.models ==>
                  Lookup(s.disk, w.name) == Some(Complete(s.sh.models[w.name].version, s.sh.models[w.name].data)))
  {
    ReachableOutside(s);
    hide Inv;
    TaskAt(s, id);
    hide OutsideFits;
  }

  /** A load or reload calls the assets manager exactly if the disk may lack what the new model needs. */
  lemma AssetCallIffNeeded(s: Sys, id: nat)
    requires Reachable(s) && Enabled(s, Begin(id)) && !s.tasks[id].work.kind.Unload?
    ensures var w, phase := s.tasks[id].work, Apply(s, Begin(id)).tasks[id].phase;
            && (phase.AtAssets? <==> !phase.AtBackend?)
            && (phase.AtBackend? <==> w.name in s.sh.models
                                      && Lookup(s.disk, w.name) == Some(Complete(w.proto.version, w.proto.data)))
            && (w.name in s.sh.models ==>
                  (phase.AtBackend? <==> s.sh.models[w.name].version == w.proto.version
                                         && s.sh.models[w.name].data == w.proto.data))
  {
    ReachableOutside(s);
    var w := s.tasks[id].work;
    assert Lookup(s.sh.states, w.name) == Some(MarkedEntry(w));
    assert w.kind.Load? ==> w.name !in s.sh.models;
    hide Inv;
    TaskAt(s, id);
    hide OutsideFits;
  }
}
