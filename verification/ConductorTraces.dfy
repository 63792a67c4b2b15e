// The conductor's calls that pause the world updater, as the events they log (conductor/conductor.cc), over any list of
// calls with other clients of the updater in between and meanwhile.
module ConductorTraces {
  import opened Results
  import opened Retry
  import opened WorldComposition
  import opened PauseDiscipline

  datatype OperationMode = Simulation | RealHardware

  /** What a world updater call reports and whether it had its effect; a success always had. */
  datatype Reply = Reply(code: StatusCode, landed: bool)

  predicate Sound(r: Reply) {
    r.code.OkCode? ==> r.landed
  }

  /**
   * ResetSimulation of the simulation service: if it is ready it pauses the updater, resets its world and simulator and
   * always resumes the updater, both through a connection it may be configured without. Its answer may be lost.
   */
  datatype SimulationReset = SimulationReset(
    ready: bool, connected: bool, pause: Reply, work: StatusCode, resume: Reply, lost: Option<StatusCode>)

  /** What the services answer while the solution's worlds are created, and what other clients do to the updater. */
  datatype StartAnswers = StartAnswers(
    compositions: seq<Answers>, cancelled: seq<bool>, pause: Reply, othersBeforeClone: seq<Event>, clone: StatusCode,
    saveStatus: StatusCode, cancelledBeforeReset: bool, reset: StatusCode, simulation: seq<StatusCode>,
    simCancelled: seq<bool>, othersBeforeResume: seq<Event>, resume: Reply)

  /** The same while the belief world is reset, and whether a stop has been requested by then. */
  datatype ResetAnswers = ResetAnswers(
    stopBeforePause: bool, pause: Reply, othersBeforeClone: seq<Event>, stopBeforeClone: bool, clone: StatusCode,
    sim: SimulationReset, othersBeforeResume: seq<Event>, resume: Reply)

  ghost predicate AllOther(events: seq<Event>) {
    forall k :: 0 <= k < |events| ==> IsOther(events[k])
  }

  ghost predicate SoundSimulation(s: SimulationReset) {
    Sound(s.pause) && Sound(s.resume) && (s.lost.Some? ==> !s.lost.value.OkCode?)
  }

  ghost predicate SoundStart(a: StartAnswers) {
    Sound(a.pause) && Sound(a.resume) && AllOther(a.othersBeforeClone) && AllOther(a.othersBeforeResume)
  }

  ghost predicate SoundReset(a: ResetAnswers) {
    && Sound(a.pause) && Sound(a.resume) && SoundSimulation(a.sim)
    && AllOther(a.othersBeforeClone) && AllOther(a.othersBeforeResume)
  }

  // ---------- Resetting the simulation ----------

  /** What the updater sees of it. */
  function SimulationEvents(s: SimulationReset): seq<Event> {
    if s.ready && s.connected then
      (if s.pause.landed then [OtherPause] else []) + (if s.resume.landed then [OtherResume] else [])
    else []
  }

  function SimulationCode(s: SimulationReset): StatusCode {
    if s.lost.Some? then s.lost.value
    else if !s.ready then FailedPrecondition
    else
      var stop := if s.connected && !s.pause.code.OkCode? then s.pause.code else s.work;
      var restart := if s.connected then s.resume.code else OkCode;
      if !stop.OkCode? && !restart.OkCode? then Aborted
      else if !stop.OkCode? then stop
      else restart
  }

  /** A simulation reset that reports success has paused and resumed the updater. */
  lemma SimulationResumes(s: SimulationReset)
    requires SoundSimulation(s) && SimulationCode(s).OkCode? && s.connected
    ensures SimulationEvents(s) == [OtherPause, OtherResume]
  {
  }

  // ---------- Traces ----------

  /** A pause and, if it succeeded, the work under it and the resume. */
  function Section(pause: Reply, work: seq<Event>, resume: Reply): seq<Event> {
    [Pause(pause.code, pause.landed)] + if pause.code.OkCode? then work + [Resume(resume.code, resume.landed)] else []
  }

  /** The belief world is overwritten with the source. */
  predicate ResetClones(worlds: map<WorldId, Content>, src: WorldId, a: ResetAnswers) {
    !a.stopBeforeClone && a.clone.OkCode? && src in worlds
  }

  /** ResetBeliefWorldAndSim between pause and resume. */
  function ResetEvents(worlds: map<WorldId, Content>, mode: OperationMode, belief: WorldId, src: WorldId, a: ResetAnswers): seq<Event> {
    a.othersBeforeClone
    + (if ResetClones(worlds, src, a) then
         [Cloned(belief)] + if mode.Simulation? then SimulationEvents(a.sim) else []
       else [])
    + a.othersBeforeResume
  }

  /** Its status. */
  function ResetWork(worlds: map<WorldId, Content>, mode: OperationMode, src: WorldId, a: ResetAnswers): StatusCode {
    if a.stopBeforeClone then Cancelled
    else if !a.clone.OkCode? then a.clone
    else if src !in worlds then NotFound
    else if mode.Simulation? then SimulationCode(a.sim)
    else OkCode
  }

  predicate SkippedAny(r: UpdateResult) {
    r.skippedUpdates != [] || r.skippedSceneObjects != []
  }

  /** The updater is reset once the edit world's status has been saved, unless the call has been cancelled. */
  predicate ResetsUpdater(warning: bool, r: UpdateResult, a: StartAnswers) {
    a.clone.OkCode? && (SkippedAny(r) || warning ==> a.saveStatus.OkCode?) && !a.cancelledBeforeReset
  }

  /** CreateWorldsFromSolution between pause and resume, where the edit world exists. */
  function InstallEvents(belief: WorldId, warning: bool, r: UpdateResult, a: StartAnswers): seq<Event> {
    a.othersBeforeClone
    + (if a.clone.OkCode? then [Cloned(belief)] + if ResetsUpdater(warning, r, a) then [UpdaterReset] else [] else [])
    + a.othersBeforeResume
  }

  /** Its status, given what starting the simulation would return. */
  function InstallWork(warning: bool, r: UpdateResult, a: StartAnswers, simulation: StatusCode): StatusCode {
    if !a.clone.OkCode? then a.clone
    else if (SkippedAny(r) || warning) && !a.saveStatus.OkCode? then a.saveStatus
    else if a.cancelledBeforeReset then Cancelled
    else if !a.reset.OkCode? then a.reset
    else simulation
  }

  // ---------- Lists of calls ----------

  /** A call and what it meets, or other clients between two calls. `made` are the compositions the call makes. */
  datatype Call =
    | Others(events: seq<Event>)
    | Reset(worlds: map<WorldId, Content>, mode: Option<OperationMode>, src: WorldId, resetAnswers: ResetAnswers)
    | Start(edit: WorldId, made: seq<Answers>, warning: bool, composed: Result<UpdateResult, StatusCode>, startAnswers: StartAnswers)
    | Restore(edit: WorldId, made: seq<Answers>)

  function Trace(belief: WorldId, c: Call): seq<Event> {
    match c
    case Others(events) => events
    case Reset(worlds, mode, src, a) =>
      if mode.None? || a.stopBeforePause then []
      else Section(a.pause, ResetEvents(worlds, mode.value, belief, src, a), a.resume)
    case Start(edit, made, warning, composed, a) =>
      Clones(made, edit)
      + if composed.Err? then [] else Section(a.pause, InstallEvents(belief, warning, composed.value, a), a.resume)
    case Restore(edit, made) => Clones(made, edit)
  }

  ghost predicate SoundCall(c: Call) {
    match c
    case Others(events) => AllOther(events)
    case Reset(_, _, _, a) => SoundReset(a)
    case Start(_, _, _, _, a) => SoundStart(a)
    case Restore(_, _) => true
  }

  /** The call composes a world into this id. */
  ghost predicate ComposesInto(c: Call, id: WorldId) {
    (c.Start? || c.Restore?) && c.edit == id && !NoneSucceeds(c.made)
  }

  function LogOf(belief: WorldId, calls: seq<Call>): seq<Event> {
    if calls == [] then [] else LogOf(belief, calls[..|calls| - 1]) + Trace(belief, calls[|calls| - 1])
  }

  /** A pause, the work and the resume owe nothing in the end, and clone only while held. */
  lemma SectionKeeps(log: seq<Event>, pause: Reply, work: seq<Event>, resume: Reply, id: WorldId)
    requires AllHonest(log) && PhaseAfter(log) == Free && Sound(pause) && Sound(resume) && Within(Held, work)
    ensures AllHonest(log + Section(pause, work, resume)) && PhaseAfter(log + Section(pause, work, resume)) == Free
    ensures ClonedOnlyWhileHeld(log + Section(pause, work, resume), id) <==> ClonedOnlyWhileHeld(log, id)
  {
    hide AllHonest, PhaseAfter, ClonedOnlyWhileHeld, Within;
    var first, last := Pause(pause.code, pause.landed), Resume(resume.code, resume.landed);
    Snoc(log, first);
    GuardSnoc(log, first, id);
    if pause.code.OkCode? {
      WithinKeeps(log + [first], work, id);
      Snoc(log + [first] + work, last);
      GuardSnoc(log + [first] + work, last, id);
      assert log + Section(pause, work, resume) == log + [first] + work + [last];
    } else {
      assert log + Section(pause, work, resume) == log + [first];
    }
  }

  lemma WorkIsWithin(events: seq<Event>)
    requires forall k :: 0 <= k < |events| ==> Quiet(events[k])
    ensures Within(Held, events)
  {
  }

  /** Each call leaves nothing owed, whatever fails, and breaks the guard exactly if it composes into the guarded id. */
  lemma CallKeeps(log: seq<Event>, belief: WorldId, c: Call)
    requires AllHonest(log) && PhaseAfter(log) == Free && SoundCall(c)
    ensures AllHonest(log + Trace(belief, c)) && PhaseAfter(log + Trace(belief, c)) == Free
    ensures ClonedOnlyWhileHeld(log + Trace(belief, c), belief)
            <==> ClonedOnlyWhileHeld(log, belief) && !ComposesInto(c, belief)
  {
    hide AllHonest, PhaseAfter, ClonedOnlyWhileHeld, Section, Clones, NoneSucceeds;
    match c
    case Others(events) =>
      WithinKeeps(log, events, belief);
    case Reset(worlds, mode, src, a) =>
      if mode.None? || a.stopBeforePause {
        assert log + [] == log;
      } else {
        WorkIsWithin(ResetEvents(worlds, mode.value, belief, src, a));
        SectionKeeps(log, a.pause, ResetEvents(worlds, mode.value, belief, src, a), a.resume, belief);
      }
    case Start(edit, made, warning, composed, a) =>
      ClonesKeep(log, made, edit, belief);
      if composed.Err? {
        assert log + Trace(belief, c) == log + Clones(made, edit);
      } else {
        var work := InstallEvents(belief, warning, composed.value, a);
        WorkIsWithin(work);
        SectionKeeps(log + Clones(made, edit), a.pause, work, a.resume, belief);
        assert log + Trace(belief, c) == log + Clones(made, edit) + Section(a.pause, work, a.resume);
      }
    case Restore(edit, made) =>
      ClonesKeep(log, made, edit, belief);
  }

  /**
   * After any list of calls, and so after each call of a list, no resume is owed; the belief world has been cloned into
   * only while the conductor held the updater if and only if no call composed into an edit world that is the belief world.
   */
  lemma {:induction false} AnyCallsKeep(belief: WorldId, calls: seq<Call>)
    requires forall k :: 0 <= k < |calls| ==> SoundCall(calls[k])
    ensures AllHonest(LogOf(belief, calls)) && PhaseAfter(LogOf(belief, calls)) == Free
    ensures ClonedOnlyWhileHeld(LogOf(belief, calls), belief)
            <==> forall k :: 0 <= k < |calls| ==> !ComposesInto(calls[k], belief)
  {
    hide AllHonest, PhaseAfter, ClonedOnlyWhileHeld, Trace, ComposesInto, SoundCall;
    if calls == [] {
      NothingLogged(belief);
    } else {
      var n := |calls| - 1;
      var init := calls[..n];
      assert forall k :: 0 <= k < n ==> init[k] == calls[k];
      AnyCallsKeep(belief, init);
      CallKeeps(LogOf(belief, init), belief, calls[n]);
    }
  }

  lemma NothingLogged(id: WorldId)
    ensures AllHonest([]) && PhaseAfter([]) == Free && ClonedOnlyWhileHeld([], id)
  {
  }

  // ---------- What the clone meets ----------

  /** The last of these events, if any, left the updater paused. */
  predicate EndsPaused(events: seq<Event>) {
    events == [] || events[|events| - 1].OtherPause?
  }

  lemma {:induction false} OthersAfterPause(log: seq<Event>, others: seq<Event>)
    requires AllOther(others) && PausedAfter(log)
    ensures PausedAfter(log + others) <==> EndsPaused(others)
  {
    if others == [] {
      assert log + others == log;
    } else {
      assert (log + others)[..|log + others| - 1] == log + others[..|others| - 1];
      OthersAfterPause(log, others[..|others| - 1]);
    }
  }

  /**
   * The clone of a reset comes before its simulation reset: the updater is paused at that moment if and only if no client
   * but the conductor resumed it last since the pause.
   */
  lemma ResetClonesWhilePausedIff(log: seq<Event>, worlds: map<WorldId, Content>, mode: OperationMode, belief: WorldId,
      src: WorldId, a: ResetAnswers)
    requires SoundReset(a) && !a.stopBeforePause && a.pause.code.OkCode? && ResetClones(worlds, src, a)
    ensures var all, n := log + Trace(belief, Reset(worlds, Some(mode), src, a)), |log| + 1 + |a.othersBeforeClone|;
            && n < |all| && all[n] == Cloned(belief)
            && (PausedAfter(all[..n]) <==> EndsPaused(a.othersBeforeClone))
  {
    var all := log + Trace(belief, Reset(worlds, Some(mode), src, a));
    var n := |log| + 1 + |a.othersBeforeClone|;
    ClonesAfterOthers(log, all, a.pause, a.othersBeforeClone, all[n..]);
  }

  function AfterClone(warning: bool, r: UpdateResult, a: StartAnswers): seq<Event> {
    (if ResetsUpdater(warning, r, a) then [UpdaterReset] else []) + a.othersBeforeResume
  }

  /** The same of the clone when the solution's worlds are created; n is its place. */
  lemma StartClonesWhilePausedIff(log: seq<Event>, belief: WorldId, edit: WorldId, made: seq<Answers>, warning: bool,
      r: UpdateResult, a: StartAnswers) returns (n: nat)
    requires SoundStart(a) && a.pause.code.OkCode? && a.clone.OkCode?
    ensures n == |log + Clones(made, edit)| + 1 + |a.othersBeforeClone|
    ensures n < |log + Trace(belief, Start(edit, made, warning, Ok(r), a))|
    ensures (log + Trace(belief, Start(edit, made, warning, Ok(r), a)))[n] == Cloned(belief)
    ensures PausedAfter((log + Trace(belief, Start(edit, made, warning, Ok(r), a)))[..n]) <==> EndsPaused(a.othersBeforeClone)
  {
    hide Clones, PausedAfter, EndsPaused, Section, Trace, AfterClone;
    StartTrace(log, belief, edit, made, warning, r, a);
    SectionClonesWhilePaused(log + Clones(made, edit), a.pause, a.othersBeforeClone, belief, AfterClone(warning, r, a), a.resume);
    n := |log + Clones(made, edit)| + 1 + |a.othersBeforeClone|;
  }

  lemma StartTrace(log: seq<Event>, belief: WorldId, edit: WorldId, made: seq<Answers>, warning: bool, r: UpdateResult, a: StartAnswers)
    requires a.clone.OkCode?
    ensures log + Trace(belief, Start(edit, made, warning, Ok(r), a)) ==
            log + Clones(made, edit)
            + Section(a.pause, a.othersBeforeClone + ([Cloned(belief)] + AfterClone(warning, r, a)), a.resume)
  {
    InstallEventsCloned(belief, warning, r, a);
    hide Clones, InstallEvents, Section, ResetsUpdater;
    Regroup(a.othersBeforeClone, [Cloned(belief)], if ResetsUpdater(warning, r, a) then [UpdaterReset] else [], a.othersBeforeResume);
    Associate(log, Clones(made, edit), Section(a.pause, InstallEvents(belief, warning, r, a), a.resume));
  }

  lemma InstallEventsCloned(belief: WorldId, warning: bool, r: UpdateResult, a: StartAnswers)
    requires a.clone.OkCode?
    ensures InstallEvents(belief, warning, r, a) ==
            a.othersBeforeClone + ([Cloned(belief)] + if ResetsUpdater(warning, r, a) then [UpdaterReset] else [])
            + a.othersBeforeResume
  {
  }

  lemma Regroup(a: seq<Event>, b: seq<Event>, c: seq<Event>, d: seq<Event>)
    ensures a + (b + c) + d == a + (b + (c + d))
  {
  }

  lemma Associate(a: seq<Event>, b: seq<Event>, c: seq<Event>)
    ensures a + (b + c) == a + b + c
  {
  }

  lemma SectionClonesWhilePaused(log: seq<Event>, pause: Reply, others: seq<Event>, belief: WorldId, more: seq<Event>, resume: Reply)
    requires Sound(pause) && pause.code.OkCode? && AllOther(others)
    ensures var all, n := log + Section(pause, others + ([Cloned(belief)] + more), resume), |log| + 1 + |others|;
            n < |all| && all[n] == Cloned(belief) && (PausedAfter(all[..n]) <==> EndsPaused(others))
  {
    hide PausedAfter, EndsPaused;
    var all := log + Section(pause, others + ([Cloned(belief)] + more), resume);
    ClonesAfterOthers(log, all, pause, others, all[|log| + 1 + |others|..]);
  }

  lemma ClonesAfterOthers(log: seq<Event>, all: seq<Event>, pause: Reply, others: seq<Event>, rest: seq<Event>)
    requires Sound(pause) && pause.code.OkCode? && AllOther(others)
    requires all == log + [Pause(pause.code, pause.landed)] + others + rest
    ensures PausedAfter(all[..|log| + 1 + |others|]) <==> EndsPaused(others)
  {
    var paused := log + [Pause(pause.code, pause.landed)];
    assert paused[..|log|] == log;
    assert all[..|log| + 1 + |others|] == paused + others;
    OthersAfterPause(paused, others);
  }

  /**
   * A simulation reset that succeeds leaves the updater running although the conductor still owes its resume; if no other
   * client pauses it then, the reset ends with the updater running even if that resume never lands.
   */
  lemma SimulationResetResumes(log: seq<Event>, worlds: map<WorldId, Content>, belief: WorldId, src: WorldId, a: ResetAnswers)
    requires AllHonest(log) && PhaseAfter(log) == Free && SoundReset(a)
    requires !a.stopBeforePause && a.pause.code.OkCode? && ResetClones(worlds, src, a)
    requires SimulationCode(a.sim).OkCode? && a.sim.connected && a.othersBeforeResume == []
    ensures var all := log + Trace(belief, Reset(worlds, Some(Simulation), src, a));
            && PhaseAfter(all[..|all| - 1]) == Held && !PausedAfter(all[..|all| - 1])
            && PhaseAfter(all) == Free && !PausedAfter(all)
  {
    SimulationResumes(a.sim);
    var all := log + Trace(belief, Reset(worlds, Some(Simulation), src, a));
    var n := |all| - 1;
    assert all[n - 1] == OtherResume && all[n].Resume?;
    assert all[..n][..n - 1] == all[..n - 1];
    PhaseStep(all, n - 1);
    PhaseStep(all, n);
    assert all[..n + 1] == all;
    CallKeeps(log, belief, Reset(worlds, Some(Simulation), src, a));
  }
}
