// Composing a world from the resource set (conductor/world.cc) and retrying that (CreateInitWorld in conductor.cc).
module WorldComposition {
  import opened Results
  import opened Retry

  type WorldId = string

  /** What a world holds; contents are only ever copied, so numbers stand for them. */
  type Content = nat

  datatype Problem = ProblemUpdate(update: string) | ProblemResourceName(name: string) | ProblemNotSet

  datatype CompositionError = CompositionError(problem: Problem, code: StatusCode)

  datatype Skipped = Skipped(what: string, error: StatusCode)

  /** UpdateWorldFromResourceSetResult */
  datatype UpdateResult = UpdateResult(skippedUpdates: seq<Skipped>, skippedSceneObjects: seq<Skipped>)

  /** What the remote side answers to one call of CreateOrUpdateWorld. */
  datatype Answers = Answers(
    fetch: StatusCode, content: Content,
    create: StatusCode, tempId: WorldId, errors: seq<CompositionError>,
    clone: StatusCode, delete: StatusCode)

  /** HasTransientSkippedErrors */
  predicate HasTransientSkipped(r: UpdateResult) {
    || (exists k :: 0 <= k < |r.skippedUpdates| && IsTransient(r.skippedUpdates[k].error))
    || (exists k :: 0 <= k < |r.skippedSceneObjects| && IsTransient(r.skippedSceneObjects[k].error))
  }

  // ---------- The world service ----------

  /** The object world service: its worlds by id. A call that reports an error has no effect. */
  class WorldService {
    var worlds: map<WorldId, Content>

    constructor ()
      ensures worlds == map[]
    {
      worlds := map[];
    }

    method CreateWorldFromResourceSetData(content: Content, id: WorldId, code: StatusCode)
      modifies this
      ensures worlds == if code.OkCode? && id != "" then old(worlds)[id := content] else old(worlds)
    {
      if code.OkCode? && id != "" {
        worlds := worlds[id := content];
      }
    }

    method CloneWorld(id: WorldId, clonedId: WorldId, code: StatusCode) returns (status: StatusCode)
      modifies this
      ensures status == if code.OkCode? && id !in old(worlds) then NotFound else code
      ensures worlds == if status.OkCode? && id in old(worlds) then old(worlds)[clonedId := old(worlds)[id]] else old(worlds)
    {
      if !code.OkCode? {
        return code;
      }
      if id !in worlds {
        return NotFound;
      }
      worlds := worlds[clonedId := worlds[id]];
      return OkCode;
    }

    method DeleteWorld(id: WorldId, code: StatusCode)
      modifies this
      ensures worlds == if code.OkCode? then old(worlds) - {id} else old(worlds)
    {
      if code.OkCode? {
        worlds := worlds - {id};
      }
    }
  }

  // ---------- Composing once ----------

  /** The two lists hold the composition errors, each in its list and in the order they were reported. */
  ghost predicate Split(errors: seq<CompositionError>, updates: seq<Skipped>, objects: seq<Skipped>) {
    if errors == [] then updates == [] && objects == []
    else
      var e := errors[|errors| - 1];
      match e.problem
      case ProblemUpdate(update) =>
        && updates != [] && updates[|updates| - 1] == Skipped(update, e.code)
        && Split(errors[..|errors| - 1], updates[..|updates| - 1], objects)
      case ProblemResourceName(name) =>
        && objects != [] && objects[|objects| - 1] == Skipped(name, e.code)
        && Split(errors[..|errors| - 1], updates, objects[..|objects| - 1])
      case ProblemNotSet => false
  }

  predicate ProblemsSet(errors: seq<CompositionError>) {
    forall k :: 0 <= k < |errors| ==> !errors[k].problem.ProblemNotSet?
  }

  /** Every composition error is in exactly one list, none is lost, and the lists are determined. */
  lemma {:induction false} SplitIsLossless(
      errors: seq<CompositionError>, updates: seq<Skipped>, objects: seq<Skipped>, us: seq<Skipped>, os: seq<Skipped>)
    requires Split(errors, updates, objects) && Split(errors, us, os)
    ensures us == updates && os == objects
    ensures |errors| == |updates| + |objects| && ProblemsSet(errors)
  {
    if errors != [] {
      var n := |errors| - 1;
      match errors[n].problem
      case ProblemUpdate(_) =>
        SplitIsLossless(errors[..n], updates[..|updates| - 1], objects, us[..|us| - 1], os);
        assert updates == updates[..|updates| - 1] + [updates[|updates| - 1]];
        assert us == us[..|us| - 1] + [us[|us| - 1]];
        ProblemsSetSnoc(errors);
      case ProblemResourceName(_) =>
        SplitIsLossless(errors[..n], updates, objects[..|objects| - 1], us, os[..|os| - 1]);
        assert objects == objects[..|objects| - 1] + [objects[|objects| - 1]];
        assert os == os[..|os| - 1] + [os[|os| - 1]];
        ProblemsSetSnoc(errors);
    }
  }

  lemma ProblemsSetSnoc(errors: seq<CompositionError>)
    requires errors != []
    ensures ProblemsSet(errors)
            <==> ProblemsSet(errors[..|errors| - 1]) && !errors[|errors| - 1].problem.ProblemNotSet?
  {
    var init := errors[..|errors| - 1];
    if ProblemsSet(init) && !errors[|errors| - 1].problem.ProblemNotSet? {
      forall k | 0 <= k < |errors| ensures !errors[k].problem.ProblemNotSet? {
        if k < |init| {
          assert init[k] == errors[k];
        }
      }
    }
    if ProblemsSet(errors) {
      forall k | 0 <= k < |init| ensures !init[k].problem.ProblemNotSet? {
        assert init[k] == errors[k];
      }
    }
  }

  /** The order inside each list is that of the errors: later errors append, and what was skipped before stays. */
  lemma {:induction false} SplitPrefix(errors: seq<CompositionError>, updates: seq<Skipped>, objects: seq<Skipped>, n: nat)
    requires Split(errors, updates, objects) && n <= |errors|
    ensures exists u: nat, o: nat :: u <= |updates| && o <= |objects| && Split(errors[..n], updates[..u], objects[..o])
    decreases |errors|
  {
    if n == |errors| {
      assert errors[..n] == errors && updates[..|updates|] == updates && objects[..|objects|] == objects;
    } else {
      var m := |errors| - 1;
      assert errors[..m][..n] == errors[..n];
      match errors[m].problem
      case ProblemUpdate(_) =>
        var us := updates[..|updates| - 1];
        SplitPrefix(errors[..m], us, objects, n);
        var u: nat, o: nat :| u <= |us| && o <= |objects| && Split(errors[..m][..n], us[..u], objects[..o]);
        assert us[..u] == updates[..u];
      case ProblemResourceName(_) =>
        var os := objects[..|objects| - 1];
        SplitPrefix(errors[..m], updates, os, n);
        var u: nat, o: nat :| u <= |updates| && o <= |os| && Split(errors[..m][..n], updates[..u], os[..o]);
        assert os[..o] == objects[..o];
    }
  }

  /** The errors before k that are about updates, and those about resources. */
  ghost function UpdatesBefore(errors: seq<CompositionError>, k: nat): set<nat>
    requires k <= |errors|
  {
    set i: nat | i < k && errors[i].problem.ProblemUpdate?
  }

  ghost function ObjectsBefore(errors: seq<CompositionError>, k: nat): set<nat>
    requires k <= |errors|
  {
    set i: nat | i < k && errors[i].problem.ProblemResourceName?
  }

  lemma BeforeSnoc(errors: seq<CompositionError>, k: nat)
    requires k < |errors|
    ensures UpdatesBefore(errors, k + 1)
            == if errors[k].problem.ProblemUpdate? then UpdatesBefore(errors, k) + {k} else UpdatesBefore(errors, k)
    ensures ObjectsBefore(errors, k + 1)
            == if errors[k].problem.ProblemResourceName? then ObjectsBefore(errors, k) + {k} else ObjectsBefore(errors, k)
  {
  }

  lemma BeforeInPrefix(errors: seq<CompositionError>, n: nat, k: nat)
    requires k <= n <= |errors|
    ensures UpdatesBefore(errors[..n], k) == UpdatesBefore(errors, k)
    ensures ObjectsBefore(errors[..n], k) == ObjectsBefore(errors, k)
  {
  }

  lemma {:induction false} SplitCounts(errors: seq<CompositionError>, updates: seq<Skipped>, objects: seq<Skipped>)
    requires Split(errors, updates, objects)
    ensures |updates| == |UpdatesBefore(errors, |errors|)| && |objects| == |ObjectsBefore(errors, |errors|)|
  {
    if errors != [] {
      var n := |errors| - 1;
      BeforeSnoc(errors, n);
      BeforeInPrefix(errors, n, n);
      match errors[n].problem
      case ProblemUpdate(_) => SplitCounts(errors[..n], updates[..|updates| - 1], objects);
      case ProblemResourceName(_) => SplitCounts(errors[..n], updates, objects[..|objects| - 1]);
    }
  }

  /**
   * skippedUpdates holds the errors about updates and skippedSceneObjects those about resources, each with its code and
   * at the place that the number of such errors before it gives, and nothing else.
   */
  lemma {:induction false} SplitContents(errors: seq<CompositionError>, updates: seq<Skipped>, objects: seq<Skipped>, k: nat)
    requires Split(errors, updates, objects) && k < |errors|
    ensures |updates| == |UpdatesBefore(errors, |errors|)| && |objects| == |ObjectsBefore(errors, |errors|)|
    ensures match errors[k].problem
            case ProblemUpdate(update) =>
              |UpdatesBefore(errors, k)| < |updates| && updates[|UpdatesBefore(errors, k)|] == Skipped(update, errors[k].code)
            case ProblemResourceName(name) =>
              |ObjectsBefore(errors, k)| < |objects| && objects[|ObjectsBefore(errors, k)|] == Skipped(name, errors[k].code)
            case ProblemNotSet => false
    decreases |errors|
  {
    SplitCounts(errors, updates, objects);
    var n := |errors| - 1;
    var us := if errors[n].problem.ProblemUpdate? then updates[..|updates| - 1] else updates;
    var os := if errors[n].problem.ProblemResourceName? then objects[..|objects| - 1] else objects;
    BeforeInPrefix(errors, n, if k < n then k else n);
    if k < n {
      SplitContents(errors[..n], us, os, k);
    } else {
      SplitCounts(errors[..n], us, os);
    }
  }

  predicate RetryCode(code: StatusCode) { code in {Unavailable, DeadlineExceeded, ResourceExhausted, Aborted} }

  predicate SomeError(errors: seq<CompositionError>) { exists k :: 0 <= k < |errors| && RetryCode(errors[k].code) }

  predicate SomeSkipped(skipped: seq<Skipped>) { exists k :: 0 <= k < |skipped| && RetryCode(skipped[k].error) }

  lemma SomeErrorSnoc(errors: seq<CompositionError>)
    requires errors != []
    ensures SomeError(errors) <==> SomeError(errors[..|errors| - 1]) || RetryCode(errors[|errors| - 1].code)
  {
    hide RetryCode;
    var init := errors[..|errors| - 1];
    assert forall k :: 0 <= k < |init| ==> init[k] == errors[k];
  }

  lemma SomeSkippedSnoc(skipped: seq<Skipped>)
    requires skipped != []
    ensures SomeSkipped(skipped) <==> SomeSkipped(skipped[..|skipped| - 1]) || RetryCode(skipped[|skipped| - 1].error)
  {
    hide RetryCode;
    var init := skipped[..|skipped| - 1];
    assert forall k :: 0 <= k < |init| ==> init[k] == skipped[k];
  }

  lemma {:induction false} SkippedCodes(errors: seq<CompositionError>, updates: seq<Skipped>, objects: seq<Skipped>)
    requires Split(errors, updates, objects)
    ensures SomeError(errors) <==> SomeSkipped(updates) || SomeSkipped(objects)
  {
    hide RetryCode;
    if errors != [] {
      SomeErrorSnoc(errors);
      hide SomeError, SomeSkipped;
      var n := |errors| - 1;
      match errors[n].problem
      case ProblemUpdate(_) =>
        SkippedCodes(errors[..n], updates[..|updates| - 1], objects);
        SomeSkippedSnoc(updates);
      case ProblemResourceName(_) =>
        SkippedCodes(errors[..n], updates, objects[..|objects| - 1]);
        SomeSkippedSnoc(objects);
    }
  }

  /** The temporary world exists: it was created under an id. */
  predicate Created(a: Answers) {
    a.fetch.OkCode? && a.create.OkCode? && a.tempId != ""
  }

  predicate Succeeds(a: Answers) {
    Created(a) && ProblemsSet(a.errors) && a.clone.OkCode?
  }

  /** A temporary world that could not be deleted. */
  function Leftover(a: Answers): map<WorldId, Content> {
    if Created(a) && !a.delete.OkCode? then map[a.tempId := a.content] else map[]
  }

  /** The worlds after one composition into `id`. */
  function Installed(worlds: map<WorldId, Content>, id: WorldId, a: Answers): map<WorldId, Content> {
    (if Succeeds(a) then worlds[id := a.content] else worlds) + Leftover(a)
  }

  /** The service's promise: the id of a created world is not in use. */
  predicate FreshId(worlds: map<WorldId, Content>, id: WorldId, a: Answers) {
    Created(a) ==> a.tempId !in worlds && a.tempId != id
  }

  ghost predicate ResultOf(a: Answers, r: Result<UpdateResult, StatusCode>) {
    if Succeeds(a) then r.Ok? && Split(a.errors, r.value.skippedUpdates, r.value.skippedSceneObjects)
    else
      && r.Err? && !r.error.OkCode?
      && r.error ==
         if !a.fetch.OkCode? then a.fetch
         else if !a.create.OkCode? then a.create
         else if a.tempId == "" || !ProblemsSet(a.errors) then Internal
         else a.clone
  }

  lemma ErrorsAreErrors(a: Answers, r: Result<UpdateResult, StatusCode>)
    requires ResultOf(a, r)
    ensures r.Err? ==> !r.error.OkCode?
  {
  }

  /** The loop over the composition errors. */
  method SplitErrors(errors: seq<CompositionError>) returns (r: Result<UpdateResult, StatusCode>)
    ensures if ProblemsSet(errors) then r.Ok? && Split(errors, r.value.skippedUpdates, r.value.skippedSceneObjects)
            else r == Err(Internal)
  {
    var updates, objects := [], [];
    var k := 0;
    while k < |errors|
      invariant 0 <= k <= |errors|
      invariant Split(errors[..k], updates, objects) && ProblemsSet(errors[..k])
    {
      ghost var done := errors[..k + 1];
      assert done[..k] == errors[..k] && done[|done| - 1] == errors[k];
      ProblemsSetSnoc(done);
      match errors[k].problem {
        case ProblemUpdate(update) =>
          ghost var before := updates;
          updates := updates + [Skipped(update, errors[k].code)];
          assert updates[..|updates| - 1] == before;
        case ProblemResourceName(name) =>
          ghost var before := objects;
          objects := objects + [Skipped(name, errors[k].code)];
          assert objects[..|objects| - 1] == before;
        case ProblemNotSet =>
          return Err(Internal);
      }
      k := k + 1;
    }
    assert errors[..|errors|] == errors;
    return Ok(UpdateResult(updates, objects));
  }

  /** The part of CreateOrUpdateWorld between creating the temporary world and its cleanup. */
  method InstallFrom(service: WorldService, worldId: WorldId, a: Answers) returns (r: Result<UpdateResult, StatusCode>)
    requires Created(a) && a.tempId in service.worlds
    modifies service
    ensures ResultOf(a, r)
    ensures service.worlds ==
            if Succeeds(a) then old(service.worlds)[worldId := old(service.worlds)[a.tempId]] else old(service.worlds)
  {
    r := SplitErrors(a.errors);
    if r.Ok? {
      var status := service.CloneWorld(a.tempId, worldId, a.clone);
      if !status.OkCode? {
        r := Err(status);
      }
    }
  }

  /**
   * CreateOrUpdateWorld. On every exit path the store changes at most at worldId: success installs the composed
   * content there, an error keeps the old one; only a temporary world whose deletion fails is left over.
   */
  method CreateOrUpdateWorld(service: WorldService, worldId: WorldId, a: Answers)
    returns (r: Result<UpdateResult, StatusCode>)
    requires FreshId(service.worlds, worldId, a)
    modifies service
    ensures ResultOf(a, r)
    ensures service.worlds == Installed(old(service.worlds), worldId, a)
  {
    if !a.fetch.OkCode? {
      return Err(a.fetch);
    }
    service.CreateWorldFromResourceSetData(a.content, a.tempId, a.create);
    if !a.create.OkCode? {
      return Err(a.create);
    }
    if a.tempId == "" {
      return Err(Internal);
    }
    r := InstallFrom(service, worldId, a);
    service.DeleteWorld(a.tempId, a.delete);
  }

  /** With a working cleanup nothing but the target differs afterwards, whatever failed. */
  lemma OnlyTheTargetChanges(worlds: map<WorldId, Content>, id: WorldId, a: Answers, other: WorldId)
    requires FreshId(worlds, id, a)
    ensures other != id && (a.delete.OkCode? || other != a.tempId) ==>
              Lookup(Installed(worlds, id, a), other) == Lookup(worlds, other)
    ensures Lookup(Installed(worlds, id, a), id) == if Succeeds(a) then Some(a.content) else Lookup(worlds, id)
  {
  }

  // ---------- Composing with retries ----------

  /** The worlds after the first n compositions into `id`. */
  function InstalledAll(worlds: map<WorldId, Content>, id: WorldId, answers: seq<Answers>): map<WorldId, Content> {
    if answers == [] then worlds
    else Installed(InstalledAll(worlds, id, answers[..|answers| - 1]), id, answers[|answers| - 1])
  }

  /** Created worlds get unused ids, each its own. */
  ghost predicate FreshIds(worlds: map<WorldId, Content>, id: WorldId, answers: seq<Answers>) {
    && (forall k :: 0 <= k < |answers| ==> FreshId(worlds, id, answers[k]))
    && (forall j, k :: 0 <= j < k < |answers| && Created(answers[j]) && Created(answers[k]) ==>
          answers[j].tempId != answers[k].tempId)
  }

  lemma {:induction false} FreshAgain(worlds: map<WorldId, Content>, id: WorldId, answers: seq<Answers>, n: nat, k: nat)
    requires FreshIds(worlds, id, answers) && n <= k < |answers|
    ensures FreshId(InstalledAll(worlds, id, answers[..n]), id, answers[k])
    decreases n
  {
    if n > 0 {
      FreshAgain(worlds, id, answers, n - 1, k);
      assert answers[..n][..n - 1] == answers[..n - 1];
      assert answers[..n][n - 1] == answers[n - 1];
    }
  }

  /** Composition k is the last that succeeded; none did if k is -1. */
  ghost predicate IsLastSuccess(answers: seq<Answers>, k: int) {
    && -1 <= k < |answers|
    && (k >= 0 ==> Succeeds(answers[k]))
    && (forall j :: k < j < |answers| ==> !Succeeds(answers[j]))
  }

  /** The target holds what the last successful composition composed, even if later ones failed. */
  lemma {:induction false} LastSuccessStays(worlds: map<WorldId, Content>, id: WorldId, answers: seq<Answers>, k: int)
    requires FreshIds(worlds, id, answers) && IsLastSuccess(answers, k)
    ensures Lookup(InstalledAll(worlds, id, answers), id) == if k < 0 then Lookup(worlds, id) else Some(answers[k].content)
  {
    if answers != [] {
      var n := |answers| - 1;
      var init := answers[..n];
      FreshAgain(worlds, id, answers, n, n);
      OnlyTheTargetChanges(InstalledAll(worlds, id, init), id, answers[n], id);
      if k < n {
        assert FreshIds(worlds, id, init);
        LastSuccessStays(worlds, id, init, k);
      }
    }
  }

  /** No other world that existed before changes, however many attempts were made and whatever could not be deleted. */
  lemma {:induction false} OthersStay(worlds: map<WorldId, Content>, id: WorldId, answers: seq<Answers>, other: WorldId)
    requires FreshIds(worlds, id, answers) && other != id && other in worlds
    ensures Lookup(InstalledAll(worlds, id, answers), other) == Some(worlds[other])
  {
    if answers != [] {
      var n := |answers| - 1;
      assert FreshIds(worlds, id, answers[..n]);
      OthersStay(worlds, id, answers[..n], other);
      FreshAgain(worlds, id, answers, n, n);
    }
  }

  predicate ComposeRetryable(r: Result<UpdateResult, StatusCode>) {
    match r
    case Ok(result) => HasTransientSkipped(result)
    case Err(code) => IsTransient(code)
  }

  /** A composition is tried again after one of four codes: of the call that failed, or of any error it skipped. */
  lemma RetriedForCodes(a: Answers, r: Result<UpdateResult, StatusCode>)
    requires ResultOf(a, r)
    ensures ComposeRetryable(r) <==> if Succeeds(a) then SomeError(a.errors) else RetryCode(r.error)
  {
    if Succeeds(a) {
      SkippedCodes(a.errors, r.value.skippedUpdates, r.value.skippedSceneObjects);
      SkippedTransient(r.value);
      hide RetryCode, IsTransient, Split, SomeSkipped, HasTransientSkipped;
    }
  }

  lemma SkippedTransient(r: UpdateResult)
    ensures HasTransientSkipped(r) <==> SomeSkipped(r.skippedUpdates) || SomeSkipped(r.skippedSceneObjects)
  {
    assert forall code :: RetryCode(code) <==> IsTransient(code);
    hide RetryCode, IsTransient;
  }

  /** The loop made these calls, with these results, and no more: it stopped where it should. */
  ghost predicate RetriedAs(answers: seq<Answers>, cancelled: seq<bool>, maxAttempts: int,
      results: seq<Result<UpdateResult, StatusCode>>, wasCancelled: bool)
  {
    && |results| <= |answers|
    && (forall k :: 0 <= k < |results| ==> ResultOf(answers[k], results[k]))
    && Stops(seq(|results|, k requires 0 <= k < |results| => ComposeRetryable(results[k])), cancelled,
             maxAttempts, |results|, wasCancelled)
  }

  /**
   * CreateInitWorld: answers[k] are what call k + 1 of CreateOrUpdateWorld meets, cancelled[k] whether the context is
   * cancelled when the loop looks after it.
   */
  method CreateInitWorld(service: WorldService, worldId: WorldId, policy: RetryPolicy,
      answers: seq<Answers>, cancelled: seq<bool>)
    returns (r: Result<UpdateResult, StatusCode>, ghost results: seq<Result<UpdateResult, StatusCode>>,
      ghost wasCancelled: bool, slept: nat)
    requires policy.IsValid() && |answers| == |cancelled| == policy.maxAttempts
    requires FreshIds(service.worlds, worldId, answers)
    modifies service
    ensures 1 <= |results| <= |answers| && (r.Err? ==> !r.error.OkCode?)
    ensures RetriedAs(answers, cancelled, policy.maxAttempts, results, wasCancelled)
    ensures r == if wasCancelled then Err(Cancelled) else results[|results| - 1]
    ensures service.worlds == InstalledAll(old(service.worlds), worldId, answers[..|results|])
    ensures slept == TotalSleep(policy, |results|) <= (policy.maxAttempts - 1) * policy.maxBackoff.ticks
  {
    hide MaxTicks, TotalSleep, RetryPolicy.GetBackoff, Installed, ResultOf, ComposeRetryable;
    var attempt := 1;
    slept, results := 0, [];
    ghost var was := service.worlds;
    NoSleepYet(policy);
    while true
      invariant 1 <= attempt <= policy.maxAttempts && slept == TotalSleep(policy, attempt)
      invariant |results| == attempt - 1
      invariant forall k :: 0 <= k < attempt - 1 ==>
                  ResultOf(answers[k], results[k]) && ComposeRetryable(results[k]) && !cancelled[k]
      invariant service.worlds == InstalledAll(was, worldId, answers[..attempt - 1])
      decreases policy.maxAttempts - attempt
    {
      FreshAgain(was, worldId, answers, attempt - 1, attempt - 1);
      assert answers[..attempt][..attempt - 1] == answers[..attempt - 1];
      r := CreateOrUpdateWorld(service, worldId, answers[attempt - 1]);
      ErrorsAreErrors(answers[attempt - 1], r);
      results := results + [r];
      var retryable := ComposeRetryable(r);
      SleepWithin(policy, attempt);
      if !retryable || attempt >= policy.maxAttempts {
        return r, results, false, slept;
      }
      var goOn, pause := BackoffBeforeRetry(policy, attempt + 1, cancelled[attempt - 1]);
      if !goOn {
        return Err(Cancelled), results, true, slept;
      }
      SleepStep(policy, attempt);
      slept := slept + pause;
      attempt := attempt + 1;
    }
  }
}
