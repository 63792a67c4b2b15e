// The save scene monitor's scan (conductor/save_scene_monitor.cc) as steps between which the resource set, the worlds
// and the deployment may change. mu_ serialises the scans, so one is in progress at a time.
module SaveMonitor {
  import opened Results
  import opened WorldComposition

  /** The resource set's history: revision r is named by a token and composes to a content. */
  datatype History = History(token: nat -> string, content: nat -> Content)

  /** Tokens are not empty and never reused. */
  ghost predicate NamesRevisions(h: History) {
    && (forall r: nat :: h.token(r) != "")
    && (forall r: nat, q: nat :: h.token(r) == h.token(q) ==> r == q)
  }

  /** What a scan has done so far. `at` is the revision whose token it read. */
  datatype Phase =
    | Idle
    | Started
    | TokenRead(at: nat)
    | Rebuilding(at: nat)
    | Fetched(at: nat, fetched: nat)
    | Comparing(at: nat, kept: bool)

  /** A completed scan: the revision whose token it read, whether it kept the cached world, and the two contents compared. */
  datatype Report = Report(at: nat, kept: bool, composed: Content, world: Content, saved: bool)

  /** composed: the content of the composed world with the revision it was fetched at, if the world exists. */
  datatype Sys = Sys(
    revision: nat, composed: Option<nat>, world: Option<Content>,
    opWorldExists: bool, lastToken: string, phase: Phase, reports: seq<Report>)

  datatype Label =
    | ChangeSet                       // the resource set is edited
    | EditWorld(world: Option<Content>) // the operating world is created, changed or deleted
    | DeleteComposed                  // worlds are reset while the monitor runs
    | StartScan(worldFound: bool)     // op_world_exists_, or GetWorld on the operating world
    | ReadToken                       // GetCurrentResourceSet
    | CheckComposed                   // GetWorld on the composed world
    | Fetch                           // CreateOrUpdateWorld reads the resource set
    | Install(reported: bool)         // CreateOrUpdateWorld clones; it may have, yet report an error
    | Compare                         // CompareWorlds
    | Fail                            // any call fails without effect and the scan returns

  /** A composed world may survive from an earlier run of the conductor. */
  ghost predicate Starts(s: Sys) {
    && (s.composed.Some? ==> s.composed.value <= s.revision)
    && !s.opWorldExists && s.lastToken == "" && s.phase.Idle? && s.reports == []
  }

  predicate Enabled(s: Sys, l: Label) {
    match l
    case ChangeSet => true
    case EditWorld(_) => true
    case DeleteComposed => true
    case StartScan(found) => s.phase.Idle? && (!s.opWorldExists ==> found == s.world.Some?)
    case ReadToken => s.phase.Started?
    case CheckComposed => s.phase.TokenRead?
    case Fetch => s.phase.Rebuilding?
    case Install(_) => s.phase.Fetched?
    case Compare => s.phase.Comparing?
    case Fail => !s.phase.Idle?
  }

  function Apply(h: History, s: Sys, l: Label): Sys
    requires Enabled(s, l)
  {
    match l
    case ChangeSet => s.(revision := s.revision + 1)
    case EditWorld(world) => s.(world := world)
    case DeleteComposed => s.(composed := None)
    case StartScan(found) => if s.opWorldExists || found then s.(opWorldExists := true, phase := Started) else s
    case ReadToken => s.(phase := TokenRead(s.revision))
    case CheckComposed =>
      if s.composed.None? || h.token(s.phase.at) != s.lastToken then s.(phase := Rebuilding(s.phase.at))
      else s.(phase := Comparing(s.phase.at, true))
    case Fetch => s.(phase := Fetched(s.phase.at, s.revision))
    case Install(reported) =>
      var installed := s.(composed := Some(s.phase.fetched));
      if reported then installed.(lastToken := h.token(s.phase.at), phase := Comparing(s.phase.at, false))
      else installed.(phase := Idle)
    case Compare =>
      if s.composed.None? || s.world.None? then s.(phase := Idle)
      else
        var composed, world := h.content(s.composed.value), s.world.value;
        s.(phase := Idle, reports := s.reports + [Report(s.phase.at, s.phase.kept, composed, world, composed == world)])
    case Fail => s.(phase := Idle)
  }

  ghost predicate ValidRun(h: History, s: Sys, run: seq<Label>)
    decreases |run|
  {
    run == [] || (Enabled(s, run[0]) && ValidRun(h, Apply(h, s, run[0]), run[1..]))
  }

  ghost function After(h: History, s: Sys, run: seq<Label>): Sys
    requires ValidRun(h, s, run)
    decreases |run|
  {
    if run == [] then s else After(h, Apply(h, s, run[0]), run[1..])
  }

  ghost predicate Reachable(h: History, s: Sys) {
    exists start, run :: Starts(start) && ValidRun(h, start, run) && After(h, start, run) == s
  }

  // ---------- The invariant ----------

  /** The revision the cache is labelled with, and the composed world is no older than it. */
  ghost predicate Labelled(h: History, s: Sys, last: nat) {
    && last <= s.revision
    && s.lastToken == h.token(last)
    && (s.composed.Some? ==> last <= s.composed.value)
  }

  ghost predicate CacheFits(h: History, s: Sys) {
    s.lastToken == "" || exists last: nat :: Labelled(h, s, last)
  }

  /** Revisions never run ahead of the set, and until this scan installs a world none is newer than the token it read. */
  ghost predicate PhaseFits(h: History, s: Sys) {
    && (s.composed.Some? ==> s.composed.value <= s.revision)
    && (match s.phase
        case Idle => true
        case Started => true
        case TokenRead(at) => at <= s.revision && (s.composed.Some? ==> s.composed.value <= at) && LabelBefore(h, s, at)
        case Rebuilding(at) => at <= s.revision && LabelBefore(h, s, at)
        case Fetched(at, fetched) => at <= fetched <= s.revision && LabelBefore(h, s, at)
        case Comparing(at, kept) =>
          && at <= s.revision && s.lastToken == h.token(at)
          && (s.composed.Some? ==> if kept then s.composed.value == at else at <= s.composed.value))
  }

  /** The cache was labelled before this scan read its token. */
  ghost predicate LabelBefore(h: History, s: Sys, at: nat) {
    s.lastToken == "" || exists last: nat :: last <= at && Labelled(h, s, last)
  }

  /** A kept world is the set at exactly the revision read; a rebuilt one is that or a later one that has existed. */
  ghost predicate Truthful(h: History, s: Sys, r: Report) {
    && r.at <= s.revision
    && (if r.kept then r.composed == h.content(r.at) else exists q: nat :: r.at <= q <= s.revision && r.composed == h.content(q))
    && (r.saved <==> r.world == r.composed)
  }

  ghost predicate ReportsFit(h: History, s: Sys) {
    forall k :: 0 <= k < |s.reports| ==> Truthful(h, s, s.reports[k])
  }

  ghost predicate Inv(h: History, s: Sys) {
    CacheFits(h, s) && PhaseFits(h, s) && ReportsFit(h, s)
  }

  // ---------- Preservation ----------

  lemma LabelKept(h: History, s: Sys, t: Sys, last: nat)
    requires Labelled(h, s, last)
    requires t.lastToken == s.lastToken && s.revision <= t.revision
    requires t.composed.Some? ==> t.composed == s.composed || last <= t.composed.value
    ensures Labelled(h, t, last)
  {
  }

  lemma CacheKept(h: History, s: Sys, t: Sys)
    requires t.lastToken == s.lastToken && s.revision <= t.revision && (t.composed.Some? ==> t.composed == s.composed)
    ensures CacheFits(h, s) ==> CacheFits(h, t)
    ensures forall at: nat :: LabelBefore(h, s, at) ==> LabelBefore(h, t, at)
  {
    if CacheFits(h, s) && s.lastToken != "" {
      var last: nat :| Labelled(h, s, last);
      LabelKept(h, s, t, last);
    }
    forall at: nat | LabelBefore(h, s, at) ensures LabelBefore(h, t, at) {
      if s.lastToken != "" {
        var last: nat :| last <= at && Labelled(h, s, last);
        LabelKept(h, s, t, last);
      }
    }
  }

  lemma ReportsKept(h: History, s: Sys, t: Sys)
    requires ReportsFit(h, s) && s.revision <= t.revision && t.reports == s.reports
    ensures ReportsFit(h, t)
  {
    forall k | 0 <= k < |t.reports| ensures Truthful(h, t, t.reports[k]) {
      var r := s.reports[k];
      assert Truthful(h, s, r);
    }
  }

  /** Steps that neither install nor report. */
  lemma QuietStepKeepsInv(h: History, s: Sys, l: Label)
    requires NamesRevisions(h) && Inv(h, s) && Enabled(s, l) && !l.Install? && !l.Compare?
    ensures Inv(h, Apply(h, s, l))
  {
    hide CacheFits, LabelBefore, ReportsFit;
    var t := Apply(h, s, l);
    CacheKept(h, s, t);
    ReportsKept(h, s, t);
    match l {
      case ReadToken => CacheIsBeforeNow(h, s);
      case CheckComposed =>
        if t.phase.Comparing? {
          KeptIsCurrent(h, s);
        }
      case _ =>
    }
  }

  lemma CacheIsBeforeNow(h: History, s: Sys)
    requires CacheFits(h, s)
    ensures LabelBefore(h, s, s.revision)
  {
    if s.lastToken != "" {
      var last: nat :| Labelled(h, s, last);
      assert last <= s.revision;
    }
  }

  /** The decision to keep: the token read names the cached label, so the composed world is exactly that revision. */
  lemma KeptIsCurrent(h: History, s: Sys)
    requires NamesRevisions(h) && PhaseFits(h, s) && s.phase.TokenRead?
    requires s.composed.Some? && h.token(s.phase.at) == s.lastToken
    ensures s.composed.value == s.phase.at
  {
    var last: nat :| last <= s.phase.at && Labelled(h, s, last);
    assert h.token(last) == h.token(s.phase.at);
  }

  lemma InstallKeepsInv(h: History, s: Sys, reported: bool)
    requires NamesRevisions(h) && Inv(h, s) && s.phase.Fetched?
    ensures Inv(h, Apply(h, s, Install(reported)))
  {
    var t := Apply(h, s, Install(reported));
    ReportsKept(h, s, t);
    if reported {
      assert Labelled(h, t, s.phase.at);
    } else if s.lastToken != "" {
      var last: nat :| last <= s.phase.at && Labelled(h, s, last);
      LabelKept(h, s, t, last);
    }
  }

  lemma CompareKeepsInv(h: History, s: Sys)
    requires Inv(h, s) && s.phase.Comparing?
    ensures Inv(h, Apply(h, s, Compare))
  {
    var t := Apply(h, s, Compare);
    CacheKept(h, s, t);
    var before := t.(reports := s.reports);
    ReportsKept(h, s, before);
    if s.composed.Some? && s.world.Some? {
      forall k | 0 <= k < |t.reports| ensures Truthful(h, t, t.reports[k]) {
        if k < |s.reports| {
          assert Truthful(h, before, s.reports[k]);
        } else {
          assert t.reports[k].composed == h.content(s.composed.value);
        }
      }
    }
  }

  lemma {:induction false} RunKeepsInv(h: History, s: Sys, run: seq<Label>)
    requires NamesRevisions(h) && Inv(h, s) && ValidRun(h, s, run)
    ensures Inv(h, After(h, s, run))
    decreases |run|
  {
    hide Inv, NamesRevisions;
    if run != [] {
      match run[0] {
        case Install(reported) => InstallKeepsInv(h, s, reported);
        case Compare => CompareKeepsInv(h, s);
        case _ => QuietStepKeepsInv(h, s, run[0]);
      }
      RunKeepsInv(h, Apply(h, s, run[0]), run[1..]);
    }
  }

  lemma ReachableInv(h: History, s: Sys)
    requires NamesRevisions(h) && Reachable(h, s)
    ensures Inv(h, s)
  {
    var start, run :| Starts(start) && ValidRun(h, start, run) && After(h, start, run) == s;
    RunKeepsInv(h, start, run);
  }

  // ---------- What scans report ----------

  /**
   * Whatever changes between its steps, a scan that keeps its cached world compares with the set at exactly the revision
   * it read, one that rebuilds compares with that or a later revision, and SAVED means equal to what was compared.
   */
  lemma ReportsAreTruthful(h: History, s: Sys, k: nat)
    requires NamesRevisions(h) && Reachable(h, s) && k < |s.reports|
    ensures var r := s.reports[k];
            && r.at <= s.revision
            && (r.kept ==> r.composed == h.content(r.at))
            && (!r.kept ==> exists q: nat :: r.at <= q <= s.revision && r.composed == h.content(q))
            && (r.saved <==> r.world == r.composed)
  {
    ReachableInv(h, s);
    assert Truthful(h, s, s.reports[k]);
  }

  /**
   * A composed world left over from an earlier run of the conductor is never trusted: until a rebuild succeeds no scan
   * reports anything.
   */
  lemma {:induction false} LeftoverNeverTrusted(h: History, s: Sys, run: seq<Label>)
    requires NamesRevisions(h) && ValidRun(h, s, run) && Install(true) !in run
    requires s.lastToken == "" && !s.phase.Comparing?
    ensures After(h, s, run).reports == s.reports
    decreases |run|
  {
    if run != [] {
      assert run[0] in run;
      LeftoverNeverTrusted(h, Apply(h, s, run[0]), run[1..]);
    }
  }

  /**
   * A cached world composed after its token was read may be newer than its label says; the label then names a revision
   * that is past, so every later scan rebuilds.
   */
  lemma MislabelledIsRebuilt(h: History, s: Sys, last: nat)
    requires NamesRevisions(h) && Reachable(h, s) && s.phase.TokenRead?
    requires Labelled(h, s, last) && s.composed.Some? && s.composed.value != last
    ensures Apply(h, s, CheckComposed).phase == Rebuilding(s.phase.at)
  {
    ReachableInv(h, s);
    if h.token(s.phase.at) == s.lastToken {
      KeptIsCurrent(h, s);
    }
  }

  /** The composed world is kept if and only if it was labelled with exactly the revision whose token was read. */
  lemma KeptIff(h: History, s: Sys)
    requires NamesRevisions(h) && Reachable(h, s) && s.phase.TokenRead?
    ensures Apply(h, s, CheckComposed).phase ==
            if s.composed.Some? && Labelled(h, s, s.phase.at) then Comparing(s.phase.at, true) else Rebuilding(s.phase.at)
  {
    ReachableInv(h, s);
    if s.composed.Some? && h.token(s.phase.at) == s.lastToken {
      KeptIsCurrent(h, s);
    }
  }

  /** Of a resource set that stays as it is, only the first scan composes a world: the next one keeps it, and both report. */
  lemma NextScanKeeps(h: History, s: Sys) returns (run: seq<Label>)
    requires NamesRevisions(h) && Reachable(h, s) && s.phase.Comparing? && s.phase.at == s.revision
    requires s.composed.Some? && s.world.Some?
    ensures run == [Compare, StartScan(true), ReadToken, CheckComposed, Compare] && ValidRun(h, s, run)
    ensures var composed, world, t := h.content(s.revision), s.world.value, After(h, s, run);
            && t.reports == s.reports
                           + [Report(s.revision, s.phase.kept, composed, world, world == composed),
                              Report(s.revision, true, composed, world, world == composed)]
            && t.phase.Idle? && t.composed == s.composed
  {
    ReachableInv(h, s);
    hide Inv, CacheFits, ReportsFit;
    run := [Compare, StartScan(true), ReadToken, CheckComposed, Compare];
    FiveSteps(h, s, run);
  }

  /** The scan after a comparison, one step after the other. */
  lemma FiveSteps(h: History, s: Sys, run: seq<Label>)
    requires |run| == 5 && Enabled(s, run[0])
    requires var a := Apply(h, s, run[0]);
             && Enabled(a, run[1]) && var b := Apply(h, a, run[1]);
             && Enabled(b, run[2]) && var c := Apply(h, b, run[2]);
             && Enabled(c, run[3]) && var d := Apply(h, c, run[3]);
             && Enabled(d, run[4])
    ensures ValidRun(h, s, run)
    ensures var a := Apply(h, s, run[0]);
            var b := Apply(h, a, run[1]);
            var c := Apply(h, b, run[2]);
            var d := Apply(h, c, run[3]);
            After(h, s, run) == Apply(h, d, run[4])
  {
    var a := Apply(h, s, run[0]);
    var b := Apply(h, a, run[1]);
    var c := Apply(h, b, run[2]);
    var d := Apply(h, c, run[3]);
    hide Apply, Enabled;
    assert run[1..][1..] == run[2..] && run[2..][1..] == run[3..] && run[3..][1..] == run[4..] && run[4..][1..] == [];
    var e := Apply(h, d, run[4]);
    assert ValidRun(h, e, []) && After(h, e, []) == e;
    assert ValidRun(h, d, run[4..]) && After(h, d, run[4..]) == e;
    assert ValidRun(h, c, run[3..]) && After(h, c, run[3..]) == e;
    assert ValidRun(h, b, run[2..]) && After(h, b, run[2..]) == e;
    assert ValidRun(h, a, run[1..]) && After(h, a, run[1..]) == e;
  }

  predicate FromOutside(l: Label) { l.ChangeSet? || l.EditWorld? || l.DeleteComposed? }

  /** A rebuild installs the set as it was when it was fetched, whatever changes before it is installed. */
  lemma {:induction false} InstallsWhatWasFetched(h: History, s: Sys, fetched: nat, run: seq<Label>, reported: bool)
    requires s.phase.Fetched? && s.phase.fetched == fetched && ValidRun(h, s, run)
    requires forall k :: 0 <= k < |run| ==> FromOutside(run[k])
    ensures var t := After(h, s, run);
            Enabled(t, Install(reported)) && Apply(h, t, Install(reported)).composed == Some(fetched)
    decreases |run|
  {
    if run != [] {
      assert FromOutside(run[0]);
      assert forall k :: 0 <= k < |run[1..]| ==> run[1..][k] == run[k + 1];
      InstallsWhatWasFetched(h, Apply(h, s, run[0]), fetched, run[1..], reported);
    }
  }

  /** It fetches the set as it is then, which can be newer than the token read. */
  lemma FetchesCurrent(h: History, s: Sys, run: seq<Label>, reported: bool)
    requires Enabled(s, Fetch) && ValidRun(h, Apply(h, s, Fetch), run)
    requires forall k :: 0 <= k < |run| ==> FromOutside(run[k])
    ensures var t := After(h, Apply(h, s, Fetch), run);
            Enabled(t, Install(reported)) && Apply(h, t, Install(reported)).composed == Some(s.revision)
  {
    InstallsWhatWasFetched(h, Apply(h, s, Fetch), s.revision, run, reported);
  }

  /** A composed world that is deleted before the scan looks for it is rebuilt, and one deleted later is not reported on. */
  lemma DeletedIsNotReported(h: History, s: Sys)
    requires s.phase.TokenRead? || s.phase.Comparing?
    ensures var t := Apply(h, s, DeleteComposed);
            && (s.phase.TokenRead? ==> Apply(h, t, CheckComposed).phase == Rebuilding(s.phase.at))
            && (s.phase.Comparing? ==> Apply(h, t, Compare).phase == Idle && Apply(h, t, Compare).reports == s.reports)
  {
  }

  /** While the operating world has never been found, no scan looks at anything else. */
  lemma {:induction false} NoScanWithoutWorld(h: History, s: Sys, run: seq<Label>)
    requires ValidRun(h, s, run) && !s.opWorldExists && s.phase.Idle? && s.world.None?
    requires forall k :: 0 <= k < |run| ==> !run[k].EditWorld?
    ensures After(h, s, run).phase.Idle? && !After(h, s, run).opWorldExists
    decreases |run|
  {
    if run != [] {
      assert !run[0].EditWorld?;
      assert forall k :: 0 <= k < |run[1..]| ==> run[1..][k] == run[k + 1];
      NoScanWithoutWorld(h, Apply(h, s, run[0]), run[1..]);
    }
  }
}
