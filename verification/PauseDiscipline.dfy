// What happens to the world updater and to worlds, as a log of the conductor's calls and those of other clients, and the
// discipline the conductor's calls follow.
module PauseDiscipline {
  import opened Results
  import opened WorldComposition

  /**
   * A pause or resume of the conductor has the code it reported and whether the updater acted on it (a call that reports
   * success did; one that timed out may have). Other clients are the simulation service, which pauses and resumes while
   * it resets, and the executive; only calls of theirs that the updater acts on are logged.
   */
  datatype Event =
    | Pause(code: StatusCode, landed: bool)
    | Resume(code: StatusCode, landed: bool)
    | OtherPause
    | OtherResume
    | UpdaterReset
    | Cloned(into: WorldId)

  predicate Honest(e: Event) {
    (e.Pause? || e.Resume?) && e.code.OkCode? ==> e.landed
  }

  predicate IsOther(e: Event) {
    e.OtherPause? || e.OtherResume?
  }

  /** Not a pause or resume of the conductor's. */
  predicate Quiet(e: Event) {
    !e.Pause? && !e.Resume?
  }

  /** Between calls nobody owes a resume; after a pause that reported success exactly one is owed. */
  datatype Phase = Free | Held | Broken

  function Next(phase: Phase, e: Event): Phase {
    match e
    case Pause(code, _) => if !phase.Free? then Broken else if code.OkCode? then Held else Free
    case Resume(_, _) => if phase.Held? then Free else Broken
    case UpdaterReset => if phase.Held? then Held else Broken
    case _ => phase
  }

  function PhaseAfter(log: seq<Event>): Phase {
    if log == [] then Free else Next(PhaseAfter(log[..|log| - 1]), log[|log| - 1])
  }

  predicate SetsPaused(e: Event) {
    (e.Pause? && e.landed) || e.OtherPause?
  }

  predicate ClearsPaused(e: Event) {
    (e.Resume? && e.landed) || e.OtherResume?
  }

  function PausedNext(paused: bool, e: Event): bool {
    SetsPaused(e) || (paused && !ClearsPaused(e))
  }

  /** The updater's flag: pausing a paused updater or resuming a running one does nothing, whoever asks. */
  function PausedAfter(log: seq<Event>): bool {
    log != [] && PausedNext(PausedAfter(log[..|log| - 1]), log[|log| - 1])
  }

  predicate IsPaused(e: Event) {
    e.Pause? && e.code.OkCode?
  }

  predicate MissedResume(e: Event) {
    e.Resume? && !e.landed
  }

  predicate LatePause(e: Event) {
    e.Pause? && !e.code.OkCode? && e.landed
  }

  ghost predicate AllHonest(log: seq<Event>) {
    forall k :: 0 <= k < |log| ==> Honest(log[k])
  }

  // ---------- What the discipline means ----------

  lemma {:induction false} PrefixNotBroken(log: seq<Event>, n: nat)
    requires PhaseAfter(log) != Broken && n <= |log|
    ensures PhaseAfter(log[..n]) != Broken
    decreases |log|
  {
    if n < |log| {
      PrefixNotBroken(log[..|log| - 1], n);
      assert log[..|log| - 1][..n] == log[..n];
    } else {
      assert log[..n] == log;
    }
  }

  lemma PhaseStep(log: seq<Event>, n: nat)
    requires n < |log|
    ensures PhaseAfter(log[..n + 1]) == Next(PhaseAfter(log[..n]), log[n])
    ensures PausedAfter(log[..n + 1]) == PausedNext(PausedAfter(log[..n]), log[n])
  {
    assert log[..n + 1][..n] == log[..n];
  }

  /** While a resume is owed, the pause it is owed for is the conductor's last pause or resume. */
  lemma {:induction false} HeldSince(log: seq<Event>, n: nat) returns (p: nat)
    requires n <= |log| && PhaseAfter(log[..n]) == Held
    ensures p < n && IsPaused(log[p]) && PhaseAfter(log[..p]) == Free
    ensures forall k :: p < k < n ==> Quiet(log[k])
    decreases n
  {
    PhaseStep(log, n - 1);
    if Quiet(log[n - 1]) {
      p := HeldSince(log, n - 1);
    } else {
      p := n - 1;
    }
  }

  /** The updater is reset only while its resume is owed. */
  lemma ResetOnlyWhileHeld(log: seq<Event>, k: nat)
    requires PhaseAfter(log) != Broken && k < |log| && log[k].UpdaterReset?
    ensures PhaseAfter(log[..k]) == Held
  {
    PrefixNotBroken(log, k + 1);
    PhaseStep(log, k);
  }

  /** Each pause that succeeded is followed by exactly one resume before the conductor pauses or resumes again. */
  lemma {:induction false} EachPauseResumed(log: seq<Event>, p: nat) returns (r: nat)
    requires PhaseAfter(log) == Free && p < |log| && IsPaused(log[p])
    ensures p < r < |log| && log[r].Resume?
    ensures forall k :: p < k < r ==> Quiet(log[k])
  {
    assert log[..|log|] == log;
    PrefixNotBroken(log, p + 1);
    PhaseStep(log, p);
    r := p + 1;
    while r < |log| && Quiet(log[r])
      invariant p < r <= |log| && PhaseAfter(log[..r]) == Held
      invariant forall k :: p < k < r ==> Quiet(log[k])
    {
      PhaseStep(log, r);
      r := r + 1;
    }
    assert r < |log|;
    PrefixNotBroken(log, r + 1);
    PhaseStep(log, r);
  }

  /** No resume lacks its own pause: the conductor's last pause or resume before it is a pause that succeeded. */
  lemma EachResumeOwed(log: seq<Event>, r: nat) returns (p: nat)
    requires PhaseAfter(log) != Broken && r < |log| && log[r].Resume?
    ensures p < r && IsPaused(log[p])
    ensures forall k :: p < k < r ==> Quiet(log[k])
  {
    PrefixNotBroken(log, r + 1);
    PhaseStep(log, r);
    p := HeldSince(log, r);
  }

  function Pauses(log: seq<Event>): nat {
    if log == [] then 0 else Pauses(log[..|log| - 1]) + if IsPaused(log[|log| - 1]) then 1 else 0
  }

  function Resumes(log: seq<Event>): nat {
    if log == [] then 0 else Resumes(log[..|log| - 1]) + if log[|log| - 1].Resume? then 1 else 0
  }

  /** Successful pauses and resumes balance: they are equally many whenever nothing is owed. */
  lemma {:induction false} PausesBalance(log: seq<Event>)
    requires PhaseAfter(log) != Broken
    ensures Pauses(log) == Resumes(log) + if PhaseAfter(log).Held? then 1 else 0
  {
    if log != [] {
      PrefixNotBroken(log, |log| - 1);
      PausesBalance(log[..|log| - 1]);
    }
  }

  // ---------- Who else pauses and resumes ----------

  /** Between p and n another client has resumed the updater, and none has paused it since. */
  ghost predicate ResumedByOthers(log: seq<Event>, p: int, n: nat)
    requires n <= |log|
  {
    exists k :: 0 <= k < n && p < k && log[k].OtherResume? && forall j :: k < j < n ==> !log[j].OtherPause?
  }

  lemma ResumedStep(log: seq<Event>, p: int, n: nat)
    requires n < |log| && -1 <= p < n
    ensures ResumedByOthers(log, p, n + 1) <==> log[n].OtherResume? || (ResumedByOthers(log, p, n) && !log[n].OtherPause?)
  {
    if ResumedByOthers(log, p, n) && !log[n].OtherPause? {
      var k :| 0 <= k < n && p < k && log[k].OtherResume? && forall j :: k < j < n ==> !log[j].OtherPause?;
      assert forall j :: k < j < n + 1 ==> !log[j].OtherPause?;
    }
  }

  lemma {:induction false} PausedSince(log: seq<Event>, p: nat, n: nat)
    requires p < n <= |log| && SetsPaused(log[p]) && forall k :: p < k < n ==> Quiet(log[k])
    ensures PausedAfter(log[..n]) <==> !ResumedByOthers(log, p, n)
    decreases n
  {
    PhaseStep(log, n - 1);
    if n - 1 > p {
      PausedSince(log, p, n - 1);
      ResumedStep(log, p, n - 1);
    }
  }

  /**
   * While a resume is owed the updater is paused if and only if no other client has resumed it since the conductor's
   * pause without another pausing it again.
   */
  lemma HeldIsPausedIff(log: seq<Event>, n: nat) returns (p: nat)
    requires AllHonest(log) && n <= |log| && PhaseAfter(log[..n]) == Held
    ensures p < n && IsPaused(log[p]) && forall k :: p < k < n ==> Quiet(log[k])
    ensures PausedAfter(log[..n]) <==> !ResumedByOthers(log, p, n)
  {
    p := HeldSince(log, n);
    assert Honest(log[p]);
    PausedSince(log, p, n);
  }

  /** In particular, until the first resume of another client. */
  lemma HeldIsPaused(log: seq<Event>, n: nat) returns (p: nat)
    requires AllHonest(log) && n <= |log| && PhaseAfter(log[..n]) == Held
    ensures p < n && IsPaused(log[p]) && forall k :: p < k < n ==> Quiet(log[k])
    ensures (forall k :: p < k < n ==> !log[k].OtherResume?) ==> PausedAfter(log[..n])
  {
    p := HeldIsPausedIff(log, n);
  }

  /**
   * A pause that the updater is left with: another client's, one of the conductor's that landed but reported an error, or
   * one that succeeded but whose own resume did not land.
   */
  ghost predicate LeftPaused(log: seq<Event>, k: nat)
    requires k < |log|
  {
    || log[k].OtherPause?
    || LatePause(log[k])
    || (IsPaused(log[k])
        && exists r :: k < r < |log| && MissedResume(log[r]) && forall j :: k < j < r ==> Quiet(log[j]))
  }

  ghost predicate NoResumeLandsAfter(log: seq<Event>, k: nat, n: nat)
    requires n <= |log|
  {
    forall j :: k < j < n ==> !ClearsPaused(log[j])
  }

  lemma {:induction false} PausedFrom(log: seq<Event>, k: nat, n: nat)
    requires k < n <= |log| && SetsPaused(log[k]) && NoResumeLandsAfter(log, k, n)
    ensures PausedAfter(log[..n])
    decreases n
  {
    PhaseStep(log, n - 1);
    if k < n - 1 {
      PausedFrom(log, k, n - 1);
    }
  }

  lemma {:induction false} LastPause(log: seq<Event>, n: nat) returns (k: nat)
    requires n <= |log| && PausedAfter(log[..n])
    ensures k < n && SetsPaused(log[k]) && NoResumeLandsAfter(log, k, n)
    decreases n
  {
    PhaseStep(log, n - 1);
    k := n - 1;
    if !SetsPaused(log[n - 1]) {
      k := LastPause(log, n - 1);
    }
  }

  /**
   * Nothing owed, the updater is paused if and only if some call left it paused and no resume, by whomever, landed since.
   * So the conductor leaves it paused only by a call that failed.
   */
  lemma PausedOnlyByFailedCall(log: seq<Event>)
    requires PhaseAfter(log) == Free && AllHonest(log)
    ensures PausedAfter(log) <==> exists k :: 0 <= k < |log| && LeftPaused(log, k) && NoResumeLandsAfter(log, k, |log|)
  {
    assert log[..|log|] == log;
    if PausedAfter(log) {
      var k := LastPause(log, |log|);
      if IsPaused(log[k]) {
        var r := EachPauseResumed(log, k);
        assert MissedResume(log[r]);
      }
      assert LeftPaused(log, k);
    }
    if k :| 0 <= k < |log| && LeftPaused(log, k) && NoResumeLandsAfter(log, k, |log|) {
      assert Honest(log[k]);
      PausedFrom(log, k, |log|);
    }
  }

  // ---------- Guarding a world ----------

  /** Worlds are cloned into this id only between a pause that succeeded and its resume. */
  ghost predicate ClonedOnlyWhileHeld(log: seq<Event>, id: WorldId) {
    forall n :: 0 <= n < |log| && log[n] == Cloned(id) ==> PhaseAfter(log[..n]) == Held
  }

  /**
   * Under the guard the world is cloned into while the updater is paused if and only if no other client has resumed it
   * between the conductor's pause and the clone without another pausing it again.
   */
  lemma ClonedWhilePausedIff(log: seq<Event>, id: WorldId, n: nat) returns (p: nat)
    requires AllHonest(log) && ClonedOnlyWhileHeld(log, id) && n < |log| && log[n] == Cloned(id)
    ensures p < n && IsPaused(log[p]) && forall k :: p < k < n ==> Quiet(log[k])
    ensures PausedAfter(log[..n]) <==> !ResumedByOthers(log, p, n)
  {
    p := HeldIsPausedIff(log, n);
  }

  /** One more event keeps the guard unless it clones into the id while nothing is held. */
  lemma GuardSnoc(log: seq<Event>, e: Event, id: WorldId)
    ensures ClonedOnlyWhileHeld(log + [e], id)
            <==> ClonedOnlyWhileHeld(log, id) && (e == Cloned(id) ==> PhaseAfter(log) == Held)
  {
    var longer := log + [e];
    assert longer[|log|] == e && longer[..|log|] == log;
    forall n | 0 <= n < |log| ensures longer[..n] == log[..n] && longer[n] == log[n] {
    }
  }

  lemma Snoc(log: seq<Event>, e: Event)
    requires AllHonest(log) && Honest(e)
    ensures AllHonest(log + [e])
    ensures PhaseAfter(log + [e]) == Next(PhaseAfter(log), e)
    ensures PausedAfter(log + [e]) == PausedNext(PausedAfter(log), e)
  {
    assert (log + [e])[..|log|] == log;
  }

  /** Events that may happen in a phase without ending it. */
  ghost predicate Within(phase: Phase, events: seq<Event>) {
    forall k :: 0 <= k < |events| ==> IsOther(events[k]) || (phase == Held && Quiet(events[k]))
  }

  /** Other clients change neither what is owed nor the guard; nor do the conductor's other calls while it holds. */
  lemma {:induction false} WithinKeeps(log: seq<Event>, events: seq<Event>, id: WorldId)
    requires AllHonest(log) && Within(PhaseAfter(log), events)
    ensures AllHonest(log + events) && PhaseAfter(log + events) == PhaseAfter(log)
    ensures ClonedOnlyWhileHeld(log + events, id) <==> ClonedOnlyWhileHeld(log, id)
  {
    hide AllHonest, PhaseAfter, ClonedOnlyWhileHeld;
    if events == [] {
      assert log + events == log;
    } else {
      var n := |events| - 1;
      var e := events[n];
      WithinKeeps(log, events[..n], id);
      assert log + events == log + events[..n] + [e];
      Snoc(log + events[..n], e);
      GuardSnoc(log + events[..n], e, id);
    }
  }

  ghost predicate NoneSucceeds(answers: seq<Answers>) {
    forall k :: 0 <= k < |answers| ==> !Succeeds(answers[k])
  }

  /** The worlds that successful compositions cloned into their target. */
  function Clones(answers: seq<Answers>, id: WorldId): seq<Event> {
    if answers == [] then []
    else Clones(answers[..|answers| - 1], id) + if Succeeds(answers[|answers| - 1]) then [Cloned(id)] else []
  }

  /** Compositions leave the updater alone, and break the guard of an id exactly if one succeeds into that id. */
  lemma {:induction false} ClonesKeep(log: seq<Event>, answers: seq<Answers>, into: WorldId, id: WorldId)
    requires PhaseAfter(log) == Free && AllHonest(log)
    ensures PhaseAfter(log + Clones(answers, into)) == Free && AllHonest(log + Clones(answers, into))
    ensures PausedAfter(log + Clones(answers, into)) == PausedAfter(log)
    ensures ClonedOnlyWhileHeld(log + Clones(answers, into), id)
            <==> ClonedOnlyWhileHeld(log, id) && (into == id ==> NoneSucceeds(answers))
  {
    hide AllHonest, PhaseAfter, PausedAfter, ClonedOnlyWhileHeld, Succeeds, NoneSucceeds;
    if answers == [] {
      assert log + Clones(answers, into) == log;
      NoneSucceedsSnoc(answers);
    } else {
      var n := |answers| - 1;
      ClonesKeep(log, answers[..n], into, id);
      NoneSucceedsSnoc(answers);
      var before := log + Clones(answers[..n], into);
      if Succeeds(answers[n]) {
        assert log + Clones(answers, into) == before + [Cloned(into)];
        Snoc(before, Cloned(into));
        GuardSnoc(before, Cloned(into), id);
      } else {
        assert log + Clones(answers, into) == before;
      }
    }
  }

  lemma NoneSucceedsSnoc(answers: seq<Answers>)
    ensures answers == [] ==> NoneSucceeds(answers)
    ensures answers != [] ==>
              (NoneSucceeds(answers) <==> NoneSucceeds(answers[..|answers| - 1]) && !Succeeds(answers[|answers| - 1]))
  {
    hide Succeeds;
    if answers != [] {
      var init := answers[..|answers| - 1];
      forall k | 0 <= k < |init| ensures init[k] == answers[k] {
      }
    }
  }
}
