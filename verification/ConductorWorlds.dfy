// How the conductor pauses the world updater while it rewrites the belief world (conductor/conductor.cc).
module ConductorWorlds {
  import opened Results
  import opened Retry
  import opened WorldComposition
  import opened PauseDiscipline
  import opened ConductorTraces

  /** warning: whether the edit world's status is set, because updates or scene objects were skipped. */
  datatype ExecutionContext = ExecutionContext(mode: OperationMode, edit: WorldId, warning: bool)

  /** A resume that fails is reported instead of the outcome of the work it follows. */
  function WithResume(work: StatusCode, resume: StatusCode): StatusCode {
    if resume.OkCode? then work else resume
  }

  /** What StartSimulation returns for these answers. */
  ghost predicate IsSimulationStatus(a: StartAnswers, maxAttempts: int, status: StatusCode) {
    exists calls, wasCancelled ::
      && Stops(TransientCodes(a.simulation), a.simCancelled, maxAttempts, calls, wasCancelled)
      && status == if wasCancelled then Cancelled else a.simulation[calls - 1]
  }

  /** What CreateInitWorld returns for these answers, after this many attempts. */
  ghost predicate IsComposed(a: StartAnswers, maxAttempts: int, attempts: nat, composed: Result<UpdateResult, StatusCode>) {
    exists results, wasCancelled ::
      && |results| == attempts
      && RetriedAs(a.compositions, a.cancelled, maxAttempts, results, wasCancelled)
      && composed == if wasCancelled then Err(Cancelled) else results[|results| - 1]
  }

  /** Everything a reset of the simulation does reported success, and so did the reset itself. */
  predicate SimulationReported(sim: SimulationReset) {
    sim.lost.None? && sim.ready && sim.work.OkCode? && (sim.connected ==> sim.pause.code.OkCode? && sim.resume.code.OkCode?)
  }

  /**
   * What a reset of the simulation reports, unless its answer is lost: success only if everything did, else the code of
   * what failed, or Aborted if both the stop and the restart of the updater did. If it is not ready it touches nothing.
   */
  lemma SimulationReports(sim: SimulationReset)
    requires SoundSimulation(sim)
    ensures SimulationCode(sim).OkCode? <==> SimulationReported(sim)
    ensures !sim.ready || !sim.connected ==> SimulationEvents(sim) == []
    ensures sim.lost.None? ==>
              && (!sim.ready ==> SimulationCode(sim) == FailedPrecondition)
              && (sim.ready && !sim.connected ==> SimulationCode(sim) == sim.work)
              && (sim.ready && sim.connected && !sim.pause.code.OkCode? && !sim.resume.code.OkCode? ==>
                    SimulationCode(sim) == Aborted)
              && (sim.ready && sim.connected && sim.pause.code.OkCode? && !sim.work.OkCode? && sim.resume.code.OkCode? ==>
                    SimulationCode(sim) == sim.work)
              && (sim.ready && sim.connected && sim.pause.code.OkCode? && sim.work.OkCode? ==>
                    SimulationCode(sim) == sim.resume.code)
  {
  }

  lemma ResetWorkSucceeds(worlds: map<WorldId, Content>, mode: OperationMode, src: WorldId, a: ResetAnswers)
    requires SoundReset(a)
    ensures ResetWork(worlds, mode, src, a).OkCode?
            <==> !a.stopBeforeClone && a.clone.OkCode? && src in worlds && (mode.Simulation? ==> SimulationReported(a.sim))
  {
  }

  class Conductor {
    const service: WorldService
    const belief: WorldId
    var context: Option<ExecutionContext>
    var updaterPaused: bool
    ghost var log: seq<Event>

    constructor (service: WorldService, belief: WorldId)
      ensures this.service == service && this.belief == belief
      ensures Valid() && log == [] && context.None?
    {
      this.service := service;
      this.belief := belief;
      context := None;
      updaterPaused := false;
      log := [];
    }

    /** The log is honest and the updater's state is the one it leads to. */
    ghost predicate Consistent()
      reads this
    {
      AllHonest(log) && updaterPaused == PausedAfter(log)
    }

    /** Holds whenever no call is in progress, that is, whenever mu_ is free: no resume is owed. */
    ghost predicate Valid()
      reads this
    {
      Consistent() && PhaseAfter(log) == Free
    }

    /** The belief world has been cloned into only while the updater was held. */
    ghost predicate Guarded()
      reads this
    {
      ClonedOnlyWhileHeld(log, belief)
    }

    method PauseWorldUpdater(stopRequested: bool, reply: Reply) returns (code: StatusCode)
      requires Sound(reply) && Valid()
      modifies this`updaterPaused, this`log
      ensures Consistent()
      ensures code == if stopRequested then Cancelled else reply.code
      ensures log == if stopRequested then old(log) else old(log) + [Pause(reply.code, reply.landed)]
      ensures PhaseAfter(log) == if code.OkCode? then Held else Free
    {
      if stopRequested {
        return Cancelled;
      }
      Snoc(log, Pause(reply.code, reply.landed));
      updaterPaused := reply.landed || updaterPaused;
      log := log + [Pause(reply.code, reply.landed)];
      return reply.code;
    }

    /** Resumes regardless of cancellation. */
    method ResumeWorldUpdater(reply: Reply) returns (code: StatusCode)
      requires Sound(reply) && Consistent() && PhaseAfter(log) == Held
      modifies this`updaterPaused, this`log
      ensures Valid() && code == reply.code
      ensures log == old(log) + [Resume(reply.code, reply.landed)]
    {
      Snoc(log, Resume(reply.code, reply.landed));
      updaterPaused := !reply.landed && updaterPaused;
      log := log + [Resume(reply.code, reply.landed)];
      return reply.code;
    }

    /** What other clients of the updater do, between the conductor's calls or meanwhile. */
    method OtherClients(events: seq<Event>)
      requires Consistent() && AllOther(events)
      modifies this`updaterPaused, this`log
      ensures Consistent() && log == old(log) + events && PhaseAfter(log) == old(PhaseAfter(log))
    {
      hide AllHonest, PhaseAfter, PausedAfter;
      assert log == log + [];
      for k := 0 to |events|
        invariant Consistent() && log == old(log) + events[..k] && PhaseAfter(log) == old(PhaseAfter(log))
      {
        var e := events[k];
        Snoc(log, e);
        updaterPaused := e.OtherPause?;
        log := log + [e];
        assert log == old(log) + events[..k + 1];
      }
      assert events[..|events|] == events;
    }

    /** Overwrites the belief world, which the caller does while it holds the updater. */
    method CloneIntoBelief(src: WorldId, code: StatusCode) returns (status: StatusCode)
      requires Consistent() && PhaseAfter(log) == Held
      modifies this`log, service
      ensures Consistent() && PhaseAfter(log) == Held
      ensures status == if code.OkCode? && src !in old(service.worlds) then NotFound else code
      ensures if status.OkCode? && src in old(service.worlds)
              then service.worlds == old(service.worlds)[belief := old(service.worlds)[src]]
                   && log == old(log) + [Cloned(belief)]
              else service.worlds == old(service.worlds) && log == old(log)
    {
      status := service.CloneWorld(src, belief, code);
      if status.OkCode? {
        Snoc(log, Cloned(belief));
        log := log + [Cloned(belief)];
      }
    }

    /** The world updater's Reset, which leaves it as paused or running as it is. */
    method ResetUpdater(code: StatusCode) returns (status: StatusCode)
      requires Consistent() && PhaseAfter(log) == Held
      modifies this`log
      ensures Consistent() && PhaseAfter(log) == Held && status == code
      ensures log == old(log) + [UpdaterReset]
    {
      Snoc(log, UpdaterReset);
      log := log + [UpdaterReset];
      return code;
    }

    /**
     * ResetSim: only a simulation has a simulator to reset. Its service is a client of the updater as well: after a reset
     * that succeeds the updater runs, whatever the conductor owes.
     */
    method ResetSim(sim: SimulationReset) returns (code: StatusCode)
      requires Consistent() && SoundSimulation(sim)
      modifies this`updaterPaused, this`log
      ensures Consistent() && PhaseAfter(log) == old(PhaseAfter(log))
      ensures code == if context.None? then Unavailable
                      else if context.value.mode.Simulation? then SimulationCode(sim) else OkCode
      ensures log == if context.Some? && context.value.mode.Simulation? then old(log) + SimulationEvents(sim) else old(log)
      ensures code.OkCode? && context.value.mode.Simulation? && sim.connected ==> !updaterPaused
    {
      if context.None? {
        return Unavailable;
      }
      if context.value.mode.Simulation? {
        OtherClients(SimulationEvents(sim));
        if SimulationCode(sim).OkCode? && sim.connected {
          SimulationResumes(sim);
          assert log[|log| - 1] == OtherResume;
        }
        return SimulationCode(sim);
      }
      return OkCode;
    }

    /** ResetBeliefWorldAndSim between pause and resume. */
    method ResetHeld(src: WorldId, a: ResetAnswers) returns (work: StatusCode)
      requires Consistent() && PhaseAfter(log) == Held && SoundReset(a) && context.Some?
      modifies this`updaterPaused, this`log, service
      ensures Consistent() && PhaseAfter(log) == Held
      ensures log == old(log) + ResetEvents(old(service.worlds), context.value.mode, belief, src, a)
      ensures work == ResetWork(old(service.worlds), context.value.mode, src, a)
      ensures service.worlds ==
              if ResetClones(old(service.worlds), src, a) then old(service.worlds)[belief := old(service.worlds)[src]]
              else old(service.worlds)
    {
      hide AllHonest, PhaseAfter, PausedAfter, SimulationEvents, SimulationCode;
      OtherClients(a.othersBeforeClone);
      work := Cancelled;
      if !a.stopBeforeClone {
        work := CloneIntoBelief(src, a.clone);
        if work.OkCode? {
          work := ResetSim(a.sim);
        }
      }
      OtherClients(a.othersBeforeResume);
    }

    /**
     * ResetBeliefWorldAndSim: the updater is resumed on every path after a pause that succeeded, also when the simulator
     * could not be reset, and the belief world changes only if it is overwritten with the source.
     */
    method ResetBeliefWorldAndSim(src: WorldId, a: ResetAnswers) returns (code: StatusCode)
      requires Valid() && SoundReset(a)
      modifies this`updaterPaused, this`log, service
      ensures log == old(log) + Trace(belief, Call.Reset(old(service.worlds), Mode(), src, a))
      ensures Valid() && Guarded() == old(Guarded())
      ensures code == if context.None? then Unavailable
                      else if a.stopBeforePause then Cancelled
                      else if !a.pause.code.OkCode? then a.pause.code
                      else WithResume(ResetWork(old(service.worlds), context.value.mode, src, a), a.resume.code)
      ensures code.OkCode? <==>
                && context.Some? && !a.stopBeforePause && a.pause.code.OkCode? && a.resume.code.OkCode?
                && !a.stopBeforeClone && a.clone.OkCode? && src in old(service.worlds)
                && (context.value.mode.Simulation? ==> SimulationReported(a.sim))
      ensures context.Some? && !a.stopBeforePause && a.pause.code.OkCode? && !a.resume.code.OkCode? ==> code == a.resume.code
      ensures service.worlds ==
              if context.Some? && !a.stopBeforePause && a.pause.code.OkCode? && ResetClones(old(service.worlds), src, a)
              then old(service.worlds)[belief := old(service.worlds)[src]] else old(service.worlds)
    {
      hide AllHonest, PhaseAfter, PausedAfter, ClonedOnlyWhileHeld, ResetEvents, ResetWork, SoundSimulation;
      CallKeeps(log, belief, Call.Reset(service.worlds, Mode(), src, a));
      if context.Some? {
        ResetWorkSucceeds(service.worlds, context.value.mode, src, a);
      }
      if context.None? {
        return Unavailable;
      }
      code := PauseWorldUpdater(a.stopBeforePause, a.pause);
      if !code.OkCode? {
        return;
      }
      var work := ResetHeld(src, a);
      var resumed := ResumeWorldUpdater(a.resume);
      code := WithResume(work, resumed);
    }

    function Mode(): Option<OperationMode>
      reads this
    {
      if context.Some? then Some(context.value.mode) else None
    }

    /** The edit world can be chosen by a client; the id is changed even if saving it fails. */
    method SetEditWorldID(id: WorldId, save: StatusCode) returns (code: StatusCode)
      requires Valid() && context.Some?
      modifies this`context
      ensures Valid() && context == Some(old(context).value.(edit := id)) && code == save
    {
      context := Some(context.value.(edit := id));
      return save;
    }

    /**
     * RestoreWorld: composes into the edit world with the updater running. That breaks the guard of the belief world
     * exactly if a client made the belief world the edit world.
     */
    method RestoreWorld(id: WorldId, a: Answers, save: StatusCode) returns (code: StatusCode)
      requires Valid() && FreshId(service.worlds, id, a)
      modifies this`context, this`log, service
      ensures Valid() && updaterPaused == old(updaterPaused)
      ensures log == old(log) + Trace(belief, Restore(id, if old(context).Some? && id == old(context).value.edit then [a] else []))
      ensures var composes := old(context).Some? && id == old(context).value.edit;
              && (code.OkCode? <==> composes && Succeeds(a) && save.OkCode?)
              && service.worlds == (if composes then Installed(old(service.worlds), id, a) else old(service.worlds))
              && (Guarded() <==> old(Guarded()) && !(composes && Succeeds(a) && id == belief))
    {
      hide AllHonest, PhaseAfter, PausedAfter, ClonedOnlyWhileHeld;
      if context.None? {
        return Unavailable;
      }
      if id != context.value.edit {
        return InvalidArgument;
      }
      var r := CreateOrUpdateWorld(service, id, a);
      RestoreKeeps(log, a, id, belief);
      log := log + Clones([a], id);
      if r.Err? {
        return Internal;
      }
      context := Some(context.value.(warning := false));
      return save;
    }

    /** The part of CreateWorldsFromSolution between pause and resume. */
    method InstallSolution(r: UpdateResult, a: StartAnswers, policy: RetryPolicy) returns (work: StatusCode)
      requires Consistent() && PhaseAfter(log) == Held && SoundStart(a)
      requires context.Some? && context.value.edit in service.worlds
      requires policy.IsValid() && |a.simulation| == |a.simCancelled| == policy.maxAttempts
      modifies this`log, this`updaterPaused, this`context, service
      ensures Consistent() && PhaseAfter(log) == Held
      ensures log == old(log) + InstallEvents(belief, old(context).value.warning, r, a)
      ensures forall simulation :: IsSimulationStatus(a, policy.maxAttempts, simulation) ==>
                work == InstallWork(old(context).value.warning, r, a, simulation)
      ensures work.OkCode? ==> a.clone.OkCode? && exists k :: 0 <= k < |a.simulation| && a.simulation[k].OkCode?
      ensures work.OkCode? ==> !a.cancelledBeforeReset && a.reset.OkCode?
      ensures work.OkCode? && (SkippedAny(r) || old(context).value.warning) ==> a.saveStatus.OkCode?
      ensures context == Some(old(context).value.(warning := if a.clone.OkCode? then SkippedAny(r) else old(context).value.warning))
      ensures service.worlds ==
              if a.clone.OkCode? then old(service.worlds)[belief := old(service.worlds)[old(context).value.edit]]
              else old(service.worlds)
    {
      hide AllHonest, PhaseAfter, PausedAfter, MaxTicks, TotalSleep, RetryPolicy.GetBackoff, InstallEvents, Stops;
      OtherClients(a.othersBeforeClone);
      work := InstallHeld(r, a, policy);
      OtherClients(a.othersBeforeResume);
      InstallEventsAre(belief, old(context).value.warning, r, a);
    }

    method InstallHeld(r: UpdateResult, a: StartAnswers, policy: RetryPolicy) returns (work: StatusCode)
      requires Consistent() && PhaseAfter(log) == Held
      requires context.Some? && context.value.edit in service.worlds
      requires policy.IsValid() && |a.simulation| == |a.simCancelled| == policy.maxAttempts
      modifies this`log, this`context, service
      ensures Consistent() && PhaseAfter(log) == Held
      ensures log == old(log)
                     + (if a.clone.OkCode? then [Cloned(belief)] else [])
                     + (if ResetsUpdater(old(context).value.warning, r, a) then [UpdaterReset] else [])
      ensures forall simulation :: IsSimulationStatus(a, policy.maxAttempts, simulation) ==>
                work == InstallWork(old(context).value.warning, r, a, simulation)
      ensures work.OkCode? ==> a.clone.OkCode? && exists k :: 0 <= k < |a.simulation| && a.simulation[k].OkCode?
      ensures work.OkCode? ==> !a.cancelledBeforeReset && a.reset.OkCode?
      ensures work.OkCode? && (SkippedAny(r) || old(context).value.warning) ==> a.saveStatus.OkCode?
      ensures context == Some(old(context).value.(warning := if a.clone.OkCode? then SkippedAny(r) else old(context).value.warning))
      ensures service.worlds ==
              if a.clone.OkCode? then old(service.worlds)[belief := old(service.worlds)[old(context).value.edit]]
              else old(service.worlds)
    {
      hide AllHonest, PhaseAfter, PausedAfter, MaxTicks, TotalSleep, RetryPolicy.GetBackoff;
      work := CloneIntoBelief(context.value.edit, a.clone);
      if !work.OkCode? {
        return;
      }
      var skipped := SkippedAny(r);
      if skipped || context.value.warning {
        context := Some(context.value.(warning := skipped));
        if !a.saveStatus.OkCode? {
          return a.saveStatus;
        }
      }
      if a.cancelledBeforeReset {
        return Cancelled;
      }
      work := ResetUpdater(a.reset);
      if !work.OkCode? {
        return;
      }
      var status, calls, wasCancelled, slept := StartSimulation(policy, a.simulation, a.simCancelled);
      SimulationStatusOnce(a, policy.maxAttempts, status, calls, wasCancelled);
      return status;
    }

    /**
     * CreateWorldsFromSolution. On success edit and belief world hold what the last composition composed and the edit
     * world's status tells whether that skipped anything; whatever fails, the updater is not left waiting for a resume,
     * the belief world is what it was or a copy of the edit world, and no other world changes.
     */
    method CreateWorldsFromSolution(a: StartAnswers, policy: RetryPolicy)
      returns (code: StatusCode, ghost attempts: nat, ghost composed: Result<UpdateResult, StatusCode>)
      requires Valid() && SoundStart(a) && context.Some?
      requires policy.IsValid() && |a.compositions| == |a.cancelled| == policy.maxAttempts
      requires |a.simulation| == |a.simCancelled| == policy.maxAttempts
      requires FreshIds(service.worlds, context.value.edit, a.compositions)
      modifies this`context, this`updaterPaused, this`log, service
      ensures attempts <= |a.compositions|
      ensures log == old(log) + Trace(belief, CallOf(old(context).value, a, attempts, composed))
      ensures Valid()
      ensures Guarded() <==> old(Guarded()) && !ComposesInto(CallOf(old(context).value, a, attempts, composed), belief)
      ensures context.Some? && context.value.edit == old(context).value.edit && context.value.mode == old(context).value.mode
      ensures IsComposed(a, policy.maxAttempts, attempts, composed)
      ensures composed.Err? ==> code == composed.error
      ensures composed.Ok? && !a.pause.code.OkCode? ==> code == a.pause.code
      ensures composed.Ok? && a.pause.code.OkCode? ==>
                forall simulation :: IsSimulationStatus(a, policy.maxAttempts, simulation) ==>
                  code == WithResume(InstallWork(old(context).value.warning, composed.value, a, simulation), a.resume.code)
      ensures composed.Ok? && a.pause.code.OkCode? && !a.resume.code.OkCode? ==> code == a.resume.code
      ensures code.OkCode? ==>
                && composed.Ok? && a.pause.code.OkCode? && a.resume.code.OkCode? && a.clone.OkCode? && a.reset.OkCode?
                && !a.cancelledBeforeReset && exists k :: 0 <= k < |a.simulation| && a.simulation[k].OkCode?
      ensures code.OkCode? ==>
                && context.value.edit in service.worlds && belief in service.worlds
                && (exists k :: 0 <= k < |a.compositions| && Succeeds(a.compositions[k])
                      && service.worlds[belief] == service.worlds[context.value.edit] == a.compositions[k].content
                      && (context.value.warning <==> a.compositions[k].errors != []))
      ensures belief in old(service.worlds) && belief != old(context).value.edit ==>
                || Lookup(service.worlds, belief) == Some(old(service.worlds)[belief])
                || Lookup(service.worlds, belief) == Lookup(service.worlds, old(context).value.edit)
      ensures forall other :: other in old(service.worlds) && other != belief && other != old(context).value.edit ==>
                Lookup(service.worlds, other) == Some(old(service.worlds)[other])
    {
      hide AllHonest, PhaseAfter, PausedAfter, ClonedOnlyWhileHeld, MaxTicks, TotalSleep, Stops, RetryPolicy.GetBackoff;
      hide InstalledAll, Succeeds, ResultOf, FreshIds, SoundStart, InstallEvents, Clones, NoneSucceeds;
      var edit := context.value.edit;
      ghost var was := service.worlds;
      var r, results, wasCancelled, slept := CreateInitWorld(service, edit, policy, a.compositions, a.cancelled);
      attempts, composed := |results|, r;
      ghost var made := a.compositions[..attempts];
      SoundReplies(a);
      CallKeeps(log, belief, CallOf(context.value, a, attempts, composed));
      ClonesKeep(log, made, edit, belief);
      log := log + Clones(made, edit);
      forall other | other in was && other != edit ensures Lookup(service.worlds, other) == Some(was[other]) {
        FreshPrefix(was, edit, a.compositions, |results|);
        OthersStay(was, edit, made, other);
      }
      if r.Err? {
        return r.error, attempts, composed;
      }
      LastComposed(was, edit, a.compositions, |results|, results[|results| - 1]);
      code := PauseWorldUpdater(false, a.pause);
      if !code.OkCode? {
        return;
      }
      assert |results| >= 1 && Succeeds(a.compositions[|results| - 1]);
      assert Lookup(service.worlds, edit) == Some(a.compositions[|results| - 1].content);
      var work := InstallSolution(r.value, a, policy);
      var resumed := ResumeWorldUpdater(a.resume);
      code := WithResume(work, resumed);
    }
  }

  /** What CreateWorldsFromSolution is in a list of calls. */
  function CallOf(ec: ExecutionContext, a: StartAnswers, attempts: nat, composed: Result<UpdateResult, StatusCode>): Call
    requires attempts <= |a.compositions|
  {
    Call.Start(ec.edit, a.compositions[..attempts], ec.warning, composed, a)
  }

  lemma SoundReplies(a: StartAnswers)
    requires SoundStart(a)
    ensures Sound(a.pause) && Sound(a.resume)
  {
  }

  lemma InstallEventsAre(belief: WorldId, warning: bool, r: UpdateResult, a: StartAnswers)
    ensures InstallEvents(belief, warning, r, a) ==
            a.othersBeforeClone
            + ((if a.clone.OkCode? then [Cloned(belief)] else []) + (if ResetsUpdater(warning, r, a) then [UpdaterReset] else []))
            + a.othersBeforeResume
  {
  }

  /** The retry loop leaves no choice. */
  lemma SimulationStatusOnce(a: StartAnswers, maxAttempts: int, status: StatusCode, calls: nat, wasCancelled: bool)
    requires Stops(TransientCodes(a.simulation), a.simCancelled, maxAttempts, calls, wasCancelled)
    requires status == if wasCancelled then Cancelled else a.simulation[calls - 1]
    ensures forall other :: IsSimulationStatus(a, maxAttempts, other) ==> other == status
  {
    forall other | IsSimulationStatus(a, maxAttempts, other) ensures other == status {
      var n, w :| Stops(TransientCodes(a.simulation), a.simCancelled, maxAttempts, n, w)
                  && other == if w then Cancelled else a.simulation[n - 1];
      StopsOnce(TransientCodes(a.simulation), a.simCancelled, maxAttempts, calls, wasCancelled, n, w);
    }
  }

  lemma RestoreKeeps(log: seq<Event>, a: Answers, into: WorldId, id: WorldId)
    requires PhaseAfter(log) == Free && AllHonest(log)
    ensures PhaseAfter(log + Clones([a], into)) == Free && AllHonest(log + Clones([a], into))
    ensures PausedAfter(log + Clones([a], into)) == PausedAfter(log)
    ensures ClonedOnlyWhileHeld(log + Clones([a], into), id)
            <==> ClonedOnlyWhileHeld(log, id) && !(into == id && Succeeds(a))
  {
    ClonesKeep(log, [a], into, id);
    assert NoneSucceeds([a]) <==> !Succeeds(a) by {
      assert [a][0] == a;
    }
  }

  lemma FreshPrefix(worlds: map<WorldId, Content>, id: WorldId, answers: seq<Answers>, n: nat)
    requires FreshIds(worlds, id, answers) && n <= |answers|
    ensures FreshIds(worlds, id, answers[..n])
  {
    var prefix := answers[..n];
    assert forall k :: 0 <= k < n ==> prefix[k] == answers[k];
  }

  /** If the last composition succeeded the target holds its content, and something was skipped iff errors were reported. */
  lemma LastComposed(worlds: map<WorldId, Content>, id: WorldId, answers: seq<Answers>, n: nat,
      r: Result<UpdateResult, StatusCode>)
    requires FreshIds(worlds, id, answers) && 1 <= n <= |answers| && ResultOf(answers[n - 1], r) && r.Ok?
    ensures Succeeds(answers[n - 1])
    ensures Lookup(InstalledAll(worlds, id, answers[..n]), id) == Some(answers[n - 1].content)
    ensures answers[n - 1].errors != [] <==> r.value.skippedUpdates != [] || r.value.skippedSceneObjects != []
  {
    var made := answers[..n];
    FreshPrefix(worlds, id, answers, n);
    LastSuccessStays(worlds, id, made, n - 1);
    var result := r.value;
    SplitIsLossless(answers[n - 1].errors, result.skippedUpdates, result.skippedSceneObjects,
      result.skippedUpdates, result.skippedSceneObjects);
  }
}
