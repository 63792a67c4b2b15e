// SyncCachedFunction.Call (assets/syncutils.go): concurrent calls over a shared map of once-functions.
module SyncCache {
  import opened Results

  type CallId = nat
  type Key = string

  /** What the underlying function does when it is run: return a value and an error, or panic. */
  datatype Outcome = Returned(value: nat, error: Option<string>) | Panicked

  /** Each call builds a once-function of its own; `once` is the call whose function it got from the map. */
  datatype Phase =
    | Started
    | Loaded(once: CallId)
    | Running(once: CallId)
    | Finished(outcome: Outcome)

  datatype Call = Call(key: Key, phase: Phase)

  datatype Once = NotRun | InProgress | Done(outcome: Outcome)

  /** runs: the once-functions that have run or are running the underlying function, oldest first. */
  datatype Sys = Sys(calls: map<CallId, Call>, stored: map<Key, CallId>, onces: map<CallId, Once>, runs: seq<CallId>)

  const INIT := Sys(map[], map[], map[], [])

  datatype Label =
    | Invoke(call: CallId, key: Key)        // builds the closure for the caller's context and the key
    | LoadOrStore(call: CallId)
    | EnterOnce(call: CallId)               // the first to enter runs the function, the others wait for it
    | FinishRun(call: CallId, outcome: Outcome)

  predicate Enabled(s: Sys, l: Label) {
    match l
    case Invoke(c, _) => c !in s.calls
    case LoadOrStore(c) => c in s.calls && s.calls[c].phase.Started?
    case EnterOnce(c) =>
      && c in s.calls && s.calls[c].phase.Loaded?
      && s.calls[c].phase.once in s.onces && !s.onces[s.calls[c].phase.once].InProgress?
    case FinishRun(c, _) => c in s.calls && s.calls[c].phase.Running?
  }

  function At(s: Sys, c: CallId, phase: Phase): Sys
    requires c in s.calls
  {
    s.(calls := s.calls[c := s.calls[c].(phase := phase)])
  }

  function Apply(s: Sys, l: Label): Sys
    requires Enabled(s, l)
  {
    match l
    case Invoke(c, key) => s.(calls := s.calls[c := Call(key, Started)], onces := s.onces[c := NotRun])
    case LoadOrStore(c) =>
      var key := s.calls[c].key;
      if key in s.stored then At(s, c, Loaded(s.stored[key]))
      else At(s, c, Loaded(c)).(stored := s.stored[key := c])
    case EnterOnce(c) =>
      var once := s.calls[c].phase.once;
      (match s.onces[once]
       case NotRun => At(s, c, Running(once)).(onces := s.onces[once := InProgress], runs := s.runs + [once])
       case Done(outcome) => At(s, c, Finished(outcome))
       case InProgress => s)
    case FinishRun(c, outcome) =>
      At(s, c, Finished(outcome)).(onces := s.onces[s.calls[c].phase.once := Done(outcome)])
  }

  ghost predicate ValidRun(s: Sys, run: seq<Label>)
    decreases |run|
  {
    run == [] || (Enabled(s, run[0]) && ValidRun(Apply(s, run[0]), run[1..]))
  }

  ghost function After(s: Sys, run: seq<Label>): Sys
    requires ValidRun(s, run)
    decreases |run|
  {
    if run == [] then s else After(Apply(s, run[0]), run[1..])
  }

  ghost predicate Reachable(s: Sys) {
    exists run :: ValidRun(INIT, run) && After(INIT, run) == s
  }

  // ---------- The invariant ----------

  /** The map holds, for a key, the function of a call for that key. */
  ghost predicate StoredFits(s: Sys) {
    && (forall k :: k in s.stored ==> s.stored[k] in s.calls && s.calls[s.stored[k]].key == k)
    && (forall c :: c in s.calls <==> c in s.onces)
  }

  /** A call past the map uses its key's function, and has the outcome of that function if it is finished. */
  ghost predicate CallFits(s: Sys, c: CallId)
    requires c in s.calls
  {
    var key := s.calls[c].key;
    match s.calls[c].phase
    case Started => true
    case Loaded(once) => Lookup(s.stored, key) == Some(once)
    case Running(once) => Lookup(s.stored, key) == Some(once) && Lookup(s.onces, once) == Some(InProgress)
    case Finished(outcome) => key in s.stored && Lookup(s.onces, s.stored[key]) == Some(Done(outcome))
  }

  ghost predicate CallsFit(s: Sys) {
    forall c :: c in s.calls ==> CallFits(s, c)
  }

  predicate Runs(s: Sys, c: CallId, o: CallId) {
    c in s.calls && s.calls[c].phase == Running(o)
  }

  /** A function in progress is run by exactly one call. */
  ghost predicate RunnersFit(s: Sys) {
    && (forall c, d, o :: Runs(s, c, o) && Runs(s, d, o) ==> c == d)
    && (forall o :: o in s.onces && s.onces[o].InProgress? ==> exists c :: Runs(s, c, o))
  }

  /** Only functions in the map have been run, each once. */
  ghost predicate RunsFit(s: Sys) {
    && (forall k :: 0 <= k < |s.runs| ==> IsStored(s, s.runs[k]))
    && (forall o :: o in s.onces && !s.onces[o].NotRun? <==> o in s.runs)
    && (forall j, k :: 0 <= j < k < |s.runs| ==> s.runs[j] != s.runs[k])
  }

  predicate IsStored(s: Sys, o: CallId) {
    o in s.calls && Lookup(s.stored, s.calls[o].key) == Some(o)
  }

  ghost predicate Inv(s: Sys) {
    StoredFits(s) && CallsFit(s) && RunnersFit(s) && RunsFit(s)
  }

  /** Steps that leave the once-functions alone and start and end no run. */
  lemma QuietStep(s: Sys, t: Sys)
    requires RunnersFit(s) && RunsFit(s) && t.runs == s.runs
    requires forall c, o :: Runs(t, c, o) <==> Runs(s, c, o)
    requires forall o :: o in s.onces ==> o in t.onces && t.onces[o] == s.onces[o]
    requires forall o :: o in t.onces && o !in s.onces ==> t.onces[o].NotRun?
    requires forall o :: IsStored(s, o) ==> IsStored(t, o)
    ensures RunnersFit(t) && RunsFit(t)
  {
    forall o | o in t.onces && t.onces[o].InProgress? ensures exists c :: Runs(t, c, o) {
      var c :| Runs(s, c, o);
      assert Runs(t, c, o);
    }
  }

  lemma InvokeKeepsInv(s: Sys, c: CallId, key: Key)
    requires Inv(s) && c !in s.calls
    ensures Inv(Apply(s, Invoke(c, key)))
  {
    hide RunnersFit, RunsFit;
    var t := Apply(s, Invoke(c, key));
    forall d | d in t.calls ensures CallFits(t, d) {
      assert d != c ==> CallFits(s, d);
    }
    QuietStep(s, t);
  }

  lemma LoadKeepsInv(s: Sys, c: CallId)
    requires Inv(s) && c in s.calls && s.calls[c].phase.Started?
    ensures Inv(Apply(s, LoadOrStore(c)))
  {
    hide RunnersFit, RunsFit;
    var t := Apply(s, LoadOrStore(c));
    forall d | d in t.calls ensures CallFits(t, d) {
      assert CallFits(s, d);
    }
    QuietStep(s, t);
  }

  lemma EnterDoneKeepsInv(s: Sys, c: CallId)
    requires Inv(s) && Enabled(s, EnterOnce(c)) && s.onces[s.calls[c].phase.once].Done?
    ensures Inv(Apply(s, EnterOnce(c)))
  {
    hide RunnersFit, RunsFit;
    var t := Apply(s, EnterOnce(c));
    forall d | d in t.calls ensures CallFits(t, d) {
      assert CallFits(s, d);
    }
    QuietStep(s, t);
  }

  lemma EnterRunKeepsCalls(s: Sys, c: CallId)
    requires StoredFits(s) && CallsFit(s) && Enabled(s, EnterOnce(c)) && s.onces[s.calls[c].phase.once].NotRun?
    ensures StoredFits(Apply(s, EnterOnce(c))) && CallsFit(Apply(s, EnterOnce(c)))
  {
    var t := Apply(s, EnterOnce(c));
    assert CallFits(s, c);
    forall d | d in t.calls ensures CallFits(t, d) {
      assert CallFits(s, d);
    }
  }

  lemma EnterRunKeepsRuns(s: Sys, c: CallId)
    requires CallsFit(s) && RunnersFit(s) && RunsFit(s)
    requires Enabled(s, EnterOnce(c)) && s.onces[s.calls[c].phase.once].NotRun?
    requires IsStored(s, s.calls[c].phase.once)
    ensures RunnersFit(Apply(s, EnterOnce(c))) && RunsFit(Apply(s, EnterOnce(c)))
  {
    var t := Apply(s, EnterOnce(c));
    var once := s.calls[c].phase.once;
    assert Runs(t, c, once);
    forall d, o | Runs(t, d, o) ensures d == c || (Runs(s, d, o) && o != once) {
      assert d != c ==> CallFits(s, d);
    }
    forall o | o in t.onces && t.onces[o].InProgress? ensures exists d :: Runs(t, d, o) {
      if o != once {
        var d :| Runs(s, d, o);
        assert Runs(t, d, o);
      }
    }
    forall k | 0 <= k < |t.runs| ensures IsStored(t, t.runs[k]) {
      assert k < |s.runs| ==> t.runs[k] == s.runs[k] && IsStored(s, s.runs[k]);
    }
    assert forall k :: 0 <= k < |s.runs| ==> s.runs[k] != once;
  }

  lemma EnterKeepsInv(s: Sys, c: CallId)
    requires Inv(s) && Enabled(s, EnterOnce(c))
    ensures Inv(Apply(s, EnterOnce(c)))
  {
    hide StoredFits, CallsFit, RunnersFit, RunsFit;
    if s.onces[s.calls[c].phase.once].Done? {
      EnterDoneKeepsInv(s, c);
    } else {
      LoadedIsStored(s, c);
      EnterRunKeepsCalls(s, c);
      EnterRunKeepsRuns(s, c);
    }
  }

  lemma LoadedIsStored(s: Sys, c: CallId)
    requires StoredFits(s) && CallsFit(s) && c in s.calls && (s.calls[c].phase.Loaded? || s.calls[c].phase.Running?)
    ensures IsStored(s, s.calls[c].phase.once)
  {
    assert CallFits(s, c);
  }

  lemma FinishKeepsInv(s: Sys, c: CallId, outcome: Outcome)
    requires Inv(s) && c in s.calls && s.calls[c].phase.Running?
    ensures Inv(Apply(s, FinishRun(c, outcome)))
  {
    FinishKeepsCalls(s, c, outcome);
    FinishKeepsRuns(s, c, outcome);
  }

  lemma FinishKeepsCalls(s: Sys, c: CallId, outcome: Outcome)
    requires StoredFits(s) && CallsFit(s) && RunnersFit(s) && c in s.calls && s.calls[c].phase.Running?
    ensures StoredFits(Apply(s, FinishRun(c, outcome))) && CallsFit(Apply(s, FinishRun(c, outcome)))
  {
    var t := Apply(s, FinishRun(c, outcome));
    var once := s.calls[c].phase.once;
    assert CallFits(s, c) && Runs(s, c, once);
    forall d | d in t.calls ensures CallFits(t, d) {
      assert CallFits(s, d);
      assert d != c ==> !Runs(s, d, once);
    }
  }

  lemma FinishKeepsRuns(s: Sys, c: CallId, outcome: Outcome)
    requires CallsFit(s) && RunnersFit(s) && RunsFit(s) && c in s.calls && s.calls[c].phase.Running?
    ensures RunnersFit(Apply(s, FinishRun(c, outcome))) && RunsFit(Apply(s, FinishRun(c, outcome)))
  {
    var t := Apply(s, FinishRun(c, outcome));
    assert CallFits(s, c);
    forall d, o | Runs(t, d, o) ensures Runs(s, d, o) {
    }
    forall o | o in t.onces && t.onces[o].InProgress? ensures exists d :: Runs(t, d, o) {
      var d :| Runs(s, d, o);
      assert Runs(t, d, o);
    }
    forall k | 0 <= k < |t.runs| ensures IsStored(t, t.runs[k]) {
      assert IsStored(s, s.runs[k]);
    }
  }

  lemma {:induction false} RunKeepsInv(s: Sys, run: seq<Label>)
    requires Inv(s) && ValidRun(s, run)
    ensures Inv(After(s, run))
    decreases |run|
  {
    hide Inv;
    if run != [] {
      match run[0] {
        case Invoke(c, key) => InvokeKeepsInv(s, c, key);
        case LoadOrStore(c) => LoadKeepsInv(s, c);
        case EnterOnce(c) => EnterKeepsInv(s, c);
        case FinishRun(c, outcome) => FinishKeepsInv(s, c, outcome);
      }
      RunKeepsInv(Apply(s, run[0]), run[1..]);
    }
  }

  lemma ReachableInv(s: Sys)
    requires Reachable(s)
    ensures Inv(s)
  {
    var run :| ValidRun(INIT, run) && After(INIT, run) == s;
    RunKeepsInv(INIT, run);
  }

  // ---------- What callers see ----------

  /** The function runs at most once per key, although each call builds a closure that would run it. */
  lemma OneRunPerKey(s: Sys, j: nat, k: nat)
    requires Reachable(s) && j < k < |s.runs|
    ensures s.runs[j] in s.calls && s.runs[k] in s.calls
    ensures s.calls[s.runs[j]].key != s.calls[s.runs[k]].key
  {
    ReachableInv(s);
    assert IsStored(s, s.runs[j]) && IsStored(s, s.runs[k]);
  }

  /** All finished calls for a key have the same value and error, or all panicked, and they come from one run for it. */
  lemma SameOutcome(s: Sys, c: CallId, d: CallId) returns (r: nat)
    requires Reachable(s) && c in s.calls && d in s.calls && s.calls[c].key == s.calls[d].key
    requires s.calls[c].phase.Finished? && s.calls[d].phase.Finished?
    ensures s.calls[c].phase == s.calls[d].phase
    ensures r < |s.runs| && s.runs[r] in s.calls && s.calls[s.runs[r]].key == s.calls[c].key
    ensures Lookup(s.onces, s.runs[r]) == Some(Done(s.calls[c].phase.outcome))
  {
    ReachableInv(s);
    assert CallFits(s, c) && CallFits(s, d);
    var o := s.stored[s.calls[c].key];
    assert o in s.runs;
    r :| 0 <= r < |s.runs| && s.runs[r] == o;
  }

  /** A finished call never changes: a cached error is returned to all later callers too. */
  lemma {:induction false} OutcomeStays(s: Sys, run: seq<Label>, c: CallId)
    requires ValidRun(s, run) && c in s.calls && s.calls[c].phase.Finished?
    ensures c in After(s, run).calls && After(s, run).calls[c] == s.calls[c]
    decreases |run|
  {
    if run != [] {
      OutcomeStays(Apply(s, run[0]), run[1..], c);
    }
  }

  /** What the run of the function for a key returned is what every call for the key gets, then and later. */
  lemma RunDecides(s: Sys, c: CallId, outcome: Outcome, run: seq<Label>, d: CallId)
    requires Reachable(s) && Enabled(s, FinishRun(c, outcome)) && ValidRun(Apply(s, FinishRun(c, outcome)), run)
    requires var t := After(Apply(s, FinishRun(c, outcome)), run);
             d in t.calls && t.calls[d].key == s.calls[c].key && t.calls[d].phase.Finished?
    ensures After(Apply(s, FinishRun(c, outcome)), run).calls[d].phase.outcome == outcome
  {
    var t := Apply(s, FinishRun(c, outcome));
    ReachableInv(s);
    FinishKeepsInv(s, c, outcome);
    RunKeepsInv(t, run);
    OutcomeStays(t, run, c);
    assert CallFits(After(t, run), c) && CallFits(After(t, run), d);
  }

  /** No call waits for ever: if nothing is running the function, every call that has not finished can go on. */
  lemma NobodyStuck(s: Sys, c: CallId)
    requires Reachable(s) && c in s.calls && !s.calls[c].phase.Finished?
    ensures Enabled(s, LoadOrStore(c)) || Enabled(s, EnterOnce(c))
            || exists d: CallId :: d in s.calls && s.calls[d].key == s.calls[c].key && s.calls[d].phase.Running?
  {
    ReachableInv(s);
    assert CallFits(s, c);
    if s.calls[c].phase.Loaded? && s.onces[s.calls[c].phase.once].InProgress? {
      var d :| Runs(s, d, s.calls[c].phase.once);
      assert CallFits(s, d);
      LoadedIsStored(s, c);
      LoadedIsStored(s, d);
    } else if s.calls[c].phase.Running? {
      assert Runs(s, c, s.calls[c].phase.once);
    }
  }
}
