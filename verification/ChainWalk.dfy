// Building the kinematic chain between two entities (world/kinematics_builder.cc) over the attachment tree.
module ChainWalk {
  import opened Results
  import opened AttachmentForest
  import opened EntityIds

  // ---------- Ancestors ----------

  /** c is the lowest entity at or above both. */
  ghost predicate IsLowest(f: Forest, c: EntityId, a: EntityId, b: EntityId)
    requires f.Valid()
  {
    && IsAncestor(f, c, a) && IsAncestor(f, c, b)
    && (forall x :: IsAncestor(f, x, a) && IsAncestor(f, x, b) ==> IsAncestor(f, x, c))
  }

  lemma SameHeight(f: Forest, x: EntityId, a: EntityId)
    requires f.Valid() && IsAncestor(f, x, a) && IsAncestor(f, a, x)
    ensures x == a
  {
    if x != a {
      AncestorHigher(f, x, a);
      AncestorHigher(f, a, x);
    }
  }

  lemma IsLowestAntisymmetric(f: Forest, c: EntityId, a: EntityId, b: EntityId)
    requires f.Valid() && IsLowest(f, c, a, b)
    ensures c == a <==> IsAncestor(f, a, b)
  {
    if IsAncestor(f, a, b) && c != a {
      assert IsAncestor(f, a, a);
      SameHeight(f, a, c);
    }
  }

  /** The lookup of a common ancestor fails for an invalid handle, or for one that is not attached unless it need not climb. */
  predicate LookupFails(f: Forest, a: EntityId, b: EntityId) {
    || a == INVALID || b == INVALID
    || (a != ROOT && b != ROOT && a != b && (!f.Attached(a) || !f.Attached(b)))
  }

  function LookupError(a: EntityId, b: EntityId): StatusCode {
    if a == INVALID || b == INVALID then InvalidArgument else NotFound
  }

  /** a is the common ancestor found of a and b. */
  ghost predicate IsAbove(f: Forest, a: EntityId, b: EntityId)
    requires f.Valid()
  {
    a == ROOT || IsAncestor(f, a, b)
  }

  /** World::FindCommonAncestor: marks the way from a to the root, then climbs from b until it meets a mark. */
  method FindCommonAncestor(f: Forest, a: EntityId, b: EntityId) returns (r: Result<EntityId, StatusCode>)
    requires f.Valid()
    ensures r.Err? <==> LookupFails(f, a, b)
    ensures r.Err? ==> r.error == LookupError(a, b)
    ensures r.Ok? && f.Attached(a) && f.Attached(b) ==> IsLowest(f, r.value, a, b)
    ensures r.Ok? ==> (r.value == a <==> IsAbove(f, a, b))
  {
    if a == INVALID || b == INVALID {
      return Err(InvalidArgument);
    }
    if a == ROOT || b == ROOT {
      RootIsLowest(f, a, b);
      return Ok(ROOT);
    }
    if a == b {
      return Ok(a);
    }
    var marked := {a};
    var e := a;
    forall x | IsAncestor(f, x, a) && IsAncestor(f, a, x) ensures x == a {
      SameHeight(f, x, a);
    }
    while e != ROOT
      invariant (e == a || f.Attached(e)) && IsAncestor(f, e, a)
      invariant e != a ==> f.Attached(a)
      invariant !IsAncestor(f, b, a) || IsAncestor(f, b, e)
      invariant forall x :: x in marked <==> IsAncestor(f, x, a) && IsAncestor(f, e, x)
      decreases Height(f, e)
    {
      if e == b {
        IsLowestAntisymmetric(f, b, a, b);
        return Ok(e);
      }
      if e !in f.parent {
        return Err(NotFound);
      }
      MarkParent(f, e, a);
      e := f.parent[e];
      marked := marked + {e};
    }
    if b !in f.parent {
      return Err(NotFound);
    }
    RootAboveAll(f, b);
    RootAboveAll(f, a);
    e := b;
    while e !in marked
      invariant f.Attached(e) && IsAncestor(f, e, b)
      invariant forall x :: x in marked && IsAncestor(f, x, b) ==> IsAncestor(f, x, e)
      decreases Height(f, e)
    {
      ParentBelowMarks(f, e, b);
      e := f.parent[e];
    }
    forall x | IsAncestor(f, x, a) && IsAncestor(f, x, b) ensures IsAncestor(f, x, e) {
      AncestorAttached(f, x, a);
      RootAboveAll(f, x);
    }
    IsLowestAntisymmetric(f, e, a, b);
    return Ok(e);
  }

  lemma RootIsLowest(f: Forest, a: EntityId, b: EntityId)
    requires f.Valid() && (a == ROOT || b == ROOT)
    ensures f.Attached(a) && f.Attached(b) ==> IsLowest(f, ROOT, a, b)
    ensures ROOT == a <==> IsAbove(f, a, b)
  {
    if f.Attached(a) && f.Attached(b) {
      RootAboveAll(f, a);
      RootAboveAll(f, b);
    }
    assert forall x :: IsAncestor(f, x, ROOT) <==> x == ROOT;
  }

  lemma {:induction false} AncestorAttached(f: Forest, x: EntityId, a: EntityId)
    requires f.Valid() && f.Attached(a) && IsAncestor(f, x, a)
    ensures f.Attached(x)
  {
    if x != a {
      AncestorHigher(f, x, a);
    }
  }

  /** Above e on the way from a there is the parent of e, and nothing else before it. */
  lemma MarkParent(f: Forest, e: EntityId, a: EntityId)
    requires f.Valid() && e in f.parent && IsAncestor(f, e, a)
    ensures IsAncestor(f, f.parent[e], a)
    ensures forall x :: IsAncestor(f, x, a) && IsAncestor(f, f.parent[e], x)
                        <==> x == f.parent[e] || (IsAncestor(f, x, a) && IsAncestor(f, e, x))
  {
    var p := f.parent[e];
    assert IsAncestor(f, p, p) && IsAncestor(f, p, e);
    AncestorTransitive(f, p, e, a);
    forall x | IsAncestor(f, x, a) && IsAncestor(f, p, x) && x != p ensures IsAncestor(f, e, x) {
      AncestorsComparable(f, e, x, a);
      if IsAncestor(f, x, e) && x != e {
        assert IsAncestor(f, x, p);
        AncestorHigher(f, x, p);
        AncestorHigher(f, p, x);
      }
    }
    forall x | IsAncestor(f, e, x) ensures IsAncestor(f, p, x) {
      AncestorTransitive(f, p, e, x);
    }
  }

  lemma ParentBelowMarks(f: Forest, e: EntityId, b: EntityId)
    requires f.Valid() && f.Attached(e) && IsAncestor(f, e, b)
    ensures e in f.parent ==> IsAncestor(f, f.parent[e], b)
    ensures e in f.parent ==> forall x :: IsAncestor(f, x, e) && x != e ==> IsAncestor(f, x, f.parent[e])
  {
    if e in f.parent {
      assert IsAncestor(f, f.parent[e], f.parent[e]) && IsAncestor(f, f.parent[e], e);
      AncestorTransitive(f, f.parent[e], e, b);
    }
  }

  /** id is the first candidate at or above the element. */
  ghost predicate IsFirstAbove(f: Forest, candidates: seq<EntityId>, element: EntityId, id: EntityId)
    requires f.Valid()
  {
    exists k :: 0 <= k < |candidates| && candidates[k] == id && IsAncestor(f, id, element)
                && forall j :: 0 <= j < k ==> !IsAncestor(f, candidates[j], element)
  }

  ghost predicate NoneAbove(f: Forest, candidates: seq<EntityId>, element: EntityId)
    requires f.Valid()
  {
    forall k :: 0 <= k < |candidates| ==> !IsAncestor(f, candidates[k], element)
  }

  /** The candidates before k are looked up and are not above the element. */
  ghost predicate PassedOver(f: Forest, candidates: seq<EntityId>, element: EntityId, k: nat)
    requires f.Valid() && k <= |candidates|
  {
    forall j :: 0 <= j < k ==> !LookupFails(f, candidates[j], element) && !IsAbove(f, candidates[j], element)
  }

  /** FindAncestor: the first candidate that decides, by being above the element or by failing, does. */
  method FindAncestor(f: Forest, candidates: seq<EntityId>, element: EntityId) returns (r: Result<EntityId, StatusCode>)
    requires f.Valid()
    ensures r.Ok? ==>
              exists k :: 0 <= k < |candidates| && PassedOver(f, candidates, element, k)
                          && !LookupFails(f, candidates[k], element) && IsAbove(f, candidates[k], element) && candidates[k] == r.value
    ensures r.Err? ==>
              || (r.error == NotFound && PassedOver(f, candidates, element, |candidates|))
              || (exists k :: 0 <= k < |candidates| && PassedOver(f, candidates, element, k)
                              && LookupFails(f, candidates[k], element) && r.error == LookupError(candidates[k], element))
    ensures f.Attached(element) && AllAttached(f, candidates) ==>
              && (r.Ok? ==> IsFirstAbove(f, candidates, element, r.value))
              && (r.Err? <==> NoneAbove(f, candidates, element)) && (r.Err? ==> r.error == NotFound)
  {
    hide IsAncestor;
    for k := 0 to |candidates|
      invariant PassedOver(f, candidates, element, k)
      invariant f.Attached(element) && AllAttached(f, candidates) ==>
                  forall j :: 0 <= j < k ==> !IsAncestor(f, candidates[j], element)
    {
      var id := candidates[k];
      if f.Attached(element) && f.Attached(id) {
        AboveIsAncestor(f, id, element);
      }
      var common := FindCommonAncestor(f, id, element);
      if common.Err? {
        return Err(common.error);
      }
      if common.value != id {
        continue;
      }
      return Ok(id);
    }
    return Err(NotFound);
  }

  predicate AllAttached(f: Forest, ids: seq<EntityId>) {
    forall k :: 0 <= k < |ids| ==> f.Attached(ids[k])
  }

  lemma AboveIsAncestor(f: Forest, id: EntityId, element: EntityId)
    requires f.Valid() && f.Attached(id) && f.Attached(element)
    ensures IsAbove(f, id, element) <==> IsAncestor(f, id, element)
    ensures !LookupFails(f, id, element)
  {
    RootAboveAll(f, element);
  }

  // ---------- The way down ----------

  /** The entities from a down to e. */
  ghost function PathDown(f: Forest, a: EntityId, e: EntityId): seq<EntityId>
    requires f.Valid() && IsAncestor(f, a, e)
    decreases Height(f, e)
  {
    if a == e then [e] else PathDown(f, a, f.parent[e]) + [e]
  }

  lemma {:induction false} PathEnds(f: Forest, a: EntityId, e: EntityId)
    requires f.Valid() && IsAncestor(f, a, e)
    ensures |PathDown(f, a, e)| >= 1 && PathDown(f, a, e)[0] == a
    ensures PathDown(f, a, e)[|PathDown(f, a, e)| - 1] == e
    decreases Height(f, e)
  {
    if a != e {
      PathEnds(f, a, f.parent[e]);
    }
  }

  /** Each entity on the way but the first is a child of the one before it. */
  lemma {:induction false} PathSteps(f: Forest, a: EntityId, e: EntityId, k: nat)
    requires f.Valid() && IsAncestor(f, a, e) && 0 < k < |PathDown(f, a, e)|
    ensures IsChild(f, PathDown(f, a, e)[k], PathDown(f, a, e)[k - 1])
    decreases Height(f, e)
  {
    PathEnds(f, a, f.parent[e]);
    if k < |PathDown(f, a, e)| - 1 {
      PathSteps(f, a, f.parent[e], k);
    }
  }

  lemma PathOneDown(f: Forest, a: EntityId, e: EntityId, c: EntityId)
    requires f.Valid() && IsAncestor(f, a, e) && IsChild(f, c, e)
    ensures IsAncestor(f, a, c) && PathDown(f, a, c) == PathDown(f, a, e) + [c]
  {
    if a == c {
      if e != a {
        AncestorHigher(f, a, e);
      }
    }
  }

  /** The way down to an entity continues to whatever is below it. */
  lemma {:induction false} PathPrefix(f: Forest, a: EntityId, c: EntityId, e: EntityId)
    requires f.Valid() && IsAncestor(f, a, c) && IsAncestor(f, c, e)
    ensures IsAncestor(f, a, e) && PathDown(f, a, c) <= PathDown(f, a, e)
    decreases Height(f, e)
  {
    if c != e {
      PathPrefix(f, a, c, f.parent[e]);
      PathOneDown(f, a, f.parent[e], e);
    }
  }

  // ---------- Walking one robot ----------

  datatype Robot = Robot(links: seq<EntityId>, joints: seq<EntityId>, tips: seq<EntityId>)

  /** A link or joint of the skeleton with the index of the element it hangs on. */
  datatype Element = Element(entity: EntityId, parent: Option<nat>, isJoint: bool)

  predicate IsPart(robot: Robot, e: EntityId) {
    e in robot.links || e in robot.joints
  }

  /** The entities of a way that are links or joints of the robot; the others are passed over. */
  function Parts(robot: Robot, path: seq<EntityId>): seq<EntityId> {
    if path == [] then []
    else Parts(robot, path[..|path| - 1]) + if IsPart(robot, path[|path| - 1]) then [path[|path| - 1]] else []
  }

  /** The elements added for these parts: each hangs on the one before it, the first on the given element. */
  ghost predicate IsChain(robot: Robot, parts: seq<EntityId>, added: seq<Element>, first: nat, parent: Option<nat>) {
    && |added| == |parts|
    && (forall k :: 0 <= k < |parts| ==>
          added[k] == Element(parts[k], if k == 0 then parent else Some(first + k - 1), parts[k] !in robot.links))
  }

  /** No part of the way fails to be added, and a joint does not become the root of the skeleton. */
  ghost predicate Buildable(robot: Robot, path: seq<EntityId>, parent: Option<nat>, broken: set<EntityId>) {
    var parts := Parts(robot, path);
    && (forall k :: 0 <= k < |parts| ==> parts[k] !in broken)
    && (parts != [] && parent.None? ==> parts[0] in robot.links)
  }

  /** The robot has a tip above the chain's tip, its base is above that, and the way between them can be built. */
  ghost predicate Walkable(f: Forest, robot: Robot, base: EntityId, tip: EntityId, parent: Option<nat>, broken: set<EntityId>)
    requires f.Valid()
  {
    exists t :: IsFirstAbove(f, robot.tips, tip, t) && IsAncestor(f, base, t)
                && Buildable(robot, PathDown(f, base, t), parent, broken)
  }

  lemma FirstAboveUnique(f: Forest, candidates: seq<EntityId>, element: EntityId, s: EntityId, t: EntityId)
    requires f.Valid() && IsFirstAbove(f, candidates, element, s) && IsFirstAbove(f, candidates, element, t)
    ensures s == t
  {
  }

  lemma {:induction false} PartsPrefix(robot: Robot, path: seq<EntityId>, longer: seq<EntityId>)
    requires path <= longer
    ensures Parts(robot, path) <= Parts(robot, longer)
  {
    if |path| < |longer| {
      PartsPrefix(robot, path, longer[..|longer| - 1]);
    } else {
      assert path == longer;
    }
  }

  /** A way that cannot be built does not get better further down. */
  lemma UnbuildableStays(robot: Robot, path: seq<EntityId>, longer: seq<EntityId>, parent: Option<nat>, broken: set<EntityId>)
    requires path <= longer && Buildable(robot, longer, parent, broken)
    ensures Buildable(robot, path, parent, broken)
  {
    PartsPrefix(robot, path, longer);
    var parts, all := Parts(robot, path), Parts(robot, longer);
    assert forall k :: 0 <= k < |parts| ==> parts[k] == all[k];
  }

  /** AddKinematicLink or AddKinematicJoint, which refuses to root a skeleton at a joint; `broken` stands for their other errors. */
  method AddElement(skeleton: seq<Element>, e: EntityId, parent: Option<nat>, isJoint: bool, broken: set<EntityId>)
    returns (r: Result<seq<Element>, StatusCode>)
    ensures r == if isJoint && parent.None? then Err(InvalidArgument)
                 else if e in broken then Err(Internal)
                 else Ok(skeleton + [Element(e, parent, isJoint)])
  {
    if isJoint && parent.None? {
      return Err(InvalidArgument);
    }
    if e in broken {
      return Err(Internal);
    }
    return Ok(skeleton + [Element(e, parent, isJoint)]);
  }

  /** One entity of the walk: added if it is a link, else if it is a joint, else passed over. */
  method VisitEntity(robot: Robot, e: EntityId, skeleton: seq<Element>, parent: Option<nat>, ids: map<EntityId, nat>,
      broken: set<EntityId>)
    returns (code: StatusCode, grown: seq<Element>, next: Option<nat>, newIds: map<EntityId, nat>)
    ensures code.OkCode? <==> (IsPart(robot, e) ==> e !in broken && (parent.None? ==> e in robot.links))
    ensures code.OkCode? ==>
              if IsPart(robot, e) then
                && grown == skeleton + [Element(e, parent, e !in robot.links)]
                && next == Some(|skeleton|) && newIds == ids[e := |skeleton|]
              else grown == skeleton && next == parent && newIds == ids
  {
    code, grown, next, newIds := OkCode, skeleton, parent, ids;
    if IsPart(robot, e) {
      var added := AddElement(skeleton, e, parent, e !in robot.links, broken);
      if added.Err? {
        code := added.error;
        return;
      }
      grown, next, newIds := added.value, Some(|skeleton|), ids[e := |skeleton|];
    }
  }

  /** What has been built when the walk has visited these entities. */
  ghost predicate Built(robot: Robot, visited: seq<EntityId>, start: seq<Element>, startParent: Option<nat>, broken: set<EntityId>,
      skeleton: seq<Element>, parent: Option<nat>, ids: map<EntityId, nat>)
  {
    && start <= skeleton
    && IsChain(robot, Parts(robot, visited), skeleton[|start|..], |start|, startParent)
    && Buildable(robot, visited, startParent, broken)
    && parent == (if Parts(robot, visited) == [] then startParent else Some(|skeleton| - 1))
    && (forall e :: e in ids ==> ids[e] < |skeleton| && skeleton[ids[e]].entity == e)
    && (forall e :: e in Parts(robot, visited) ==> e in ids)
  }

  lemma BuiltOneMore(robot: Robot, visited: seq<EntityId>, e: EntityId, start: seq<Element>, startParent: Option<nat>,
      broken: set<EntityId>, skeleton: seq<Element>, parent: Option<nat>, ids: map<EntityId, nat>)
    requires Built(robot, visited, start, startParent, broken, skeleton, parent, ids)
    requires IsPart(robot, e) && e !in broken && (parent.None? ==> e in robot.links)
    ensures Built(robot, visited + [e], start, startParent, broken,
                  skeleton + [Element(e, parent, e !in robot.links)], Some(|skeleton|), ids[e := |skeleton|])
  {
    assert (visited + [e])[..|visited|] == visited;
    var grown := skeleton + [Element(e, parent, e !in robot.links)];
    assert grown[|start|..] == skeleton[|start|..] + [grown[|skeleton|]];
  }

  lemma BuiltPassedOver(robot: Robot, visited: seq<EntityId>, e: EntityId, start: seq<Element>, startParent: Option<nat>,
      broken: set<EntityId>, skeleton: seq<Element>, parent: Option<nat>, ids: map<EntityId, nat>)
    requires Built(robot, visited, start, startParent, broken, skeleton, parent, ids) && !IsPart(robot, e)
    ensures Built(robot, visited + [e], start, startParent, broken, skeleton, parent, ids)
  {
    assert (visited + [e])[..|visited|] == visited;
  }

  /** The links and joints of a way are in its parts, and nothing else is. */
  lemma {:induction false} PartsAre(robot: Robot, path: seq<EntityId>)
    ensures forall e :: e in Parts(robot, path) <==> e in path && (e in robot.links || e in robot.joints)
  {
    if path != [] {
      var last := |path| - 1;
      assert path == path[..last] + [path[last]];
      PartsAre(robot, path[..last]);
    }
  }

  lemma BuiltFromParts(robot: Robot, visited: seq<EntityId>, start: seq<Element>, startParent: Option<nat>, broken: set<EntityId>,
      skeleton: seq<Element>, parent: Option<nat>, ids: map<EntityId, nat>)
    requires Built(robot, visited, start, startParent, broken, skeleton, parent, ids)
    ensures forall e :: e in visited && (e in robot.links || e in robot.joints) ==>
              e in ids && ids[e] < |skeleton| && skeleton[ids[e]].entity == e
    ensures forall k :: |start| <= k < |skeleton| ==>
              && skeleton[k].entity in visited
              && (skeleton[k].isJoint <==> skeleton[k].entity !in robot.links)
              && (skeleton[k].isJoint ==> skeleton[k].entity in robot.joints)
              && skeleton[k].parent == if k == |start| then startParent else Some(k - 1)
  {
    PartsAre(robot, visited);
    hide Parts, Buildable;
    var parts, added := Parts(robot, visited), skeleton[|start|..];
    forall k | |start| <= k < |skeleton|
      ensures skeleton[k].entity in parts && (skeleton[k].isJoint <==> skeleton[k].entity !in robot.links)
    {
      assert skeleton[k] == added[k - |start|];
    }
  }

  lemma NotBuildable(robot: Robot, visited: seq<EntityId>, e: EntityId, start: seq<Element>, startParent: Option<nat>,
      broken: set<EntityId>, skeleton: seq<Element>, parent: Option<nat>, ids: map<EntityId, nat>)
    requires Built(robot, visited, start, startParent, broken, skeleton, parent, ids)
    requires IsPart(robot, e) && (e in broken || (parent.None? && e !in robot.links))
    ensures !Buildable(robot, visited + [e], startParent, broken)
  {
    assert (visited + [e])[..|visited|] == visited;
    var parts := Parts(robot, visited + [e]);
    assert parts[|parts| - 1] == e;
  }

  /** On the way to the chain's tip the next entity is also on the way to the robot's tip, until that is reached. */
  lemma StaysOnTheWay(f: Forest, cur: EntityId, t: EntityId, tip: EntityId, next: EntityId)
    requires f.Valid() && IsAncestor(f, cur, t) && cur != t && IsAncestor(f, t, tip)
    requires IsChild(f, next, cur) && IsAncestor(f, next, tip)
    ensures IsAncestor(f, next, t)
  {
    var c := ChildToward(f, cur, t);
    AncestorTransitive(f, c, t, tip);
    ChildTowardUnique(f, cur, tip, c, next);
  }

  /** No child leads to the tip: then the robot's tip is not below either. */
  lemma DeadEnd(f: Forest, cur: EntityId, t: EntityId, tip: EntityId, children: seq<EntityId>)
    requires f.Valid() && IsAncestor(f, t, tip) && cur != t
    requires forall c :: c in children <==> IsChild(f, c, cur)
    requires NoneAbove(f, children, tip)
    ensures !IsAncestor(f, cur, t)
  {
    if IsAncestor(f, cur, t) {
      var c := ChildToward(f, cur, t);
      AncestorTransitive(f, c, t, tip);
    }
  }

  /**
   * The walk through one robot of a chain, from its base link towards the chain's tip. It terminates for every base and
   * tip and succeeds exactly if the way from the base down to the robot's tip exists and can be built; it then has
   * visited exactly that way and added its links and joints, each hanging on the one added before.
   */
  method WalkRobot(f: Forest, robot: Robot, base: EntityId, tip: EntityId, start: seq<Element>, startParent: Option<nat>,
      startIds: map<EntityId, nat>, broken: set<EntityId>)
    returns (code: StatusCode, robotTip: EntityId, visited: seq<EntityId>, skeleton: seq<Element>, parent: Option<nat>,
      ids: map<EntityId, nat>)
    requires f.Valid() && f.Attached(base) && f.Attached(tip)
    requires forall k :: 0 <= k < |robot.tips| ==> f.Attached(robot.tips[k])
    requires forall e :: e in startIds ==> startIds[e] < |start| && start[startIds[e]].entity == e
    ensures code.OkCode? <==> Walkable(f, robot, base, tip, startParent, broken)
    ensures code.OkCode? ==>
              && IsFirstAbove(f, robot.tips, tip, robotTip)
              && IsAncestor(f, base, robotTip) && visited == PathDown(f, base, robotTip)
              && Built(robot, visited, start, startParent, broken, skeleton, parent, ids)
    ensures code.OkCode? ==>
              forall e :: e in visited && (e in robot.links || e in robot.joints) ==>
                e in ids && ids[e] < |skeleton| && skeleton[ids[e]].entity == e
    ensures code.OkCode? ==>
              forall k :: |start| <= k < |skeleton| ==>
                && skeleton[k].entity in visited
                && (skeleton[k].isJoint <==> skeleton[k].entity !in robot.links)
                && (skeleton[k].isJoint ==> skeleton[k].entity in robot.joints)
                && skeleton[k].parent == if k == |start| then startParent else Some(k - 1)
  {
    hide Buildable, IsChain, Built, IsFirstAbove, NoneAbove, PathDown, IsAncestor, Forest.Valid, Height;
    skeleton, parent, ids, visited, robotTip := start, startParent, startIds, [], INVALID;
    var found := FindAncestor(f, robot.tips, tip);
    if found.Err? {
      NoTip(f, robot, base, tip, startParent, broken);
      return found.error, robotTip, visited, skeleton, parent, ids;
    }
    robotTip := found.value;
    FirstIsAbove(f, robot.tips, tip, robotTip);
    BuiltNothing(robot, start, startParent, startIds, broken);
    var cur := base;
    AncestorSelf(f, base);
    while true
      invariant f.Attached(cur) && IsAncestor(f, base, cur) && (cur == base || IsAncestor(f, cur, tip))
      invariant IsAncestor(f, base, robotTip) ==> IsAncestor(f, cur, robotTip)
      invariant visited + [cur] == PathDown(f, base, cur)
      invariant Built(robot, visited, start, startParent, broken, skeleton, parent, ids)
      decreases Height(f, tip) - Height(f, cur)
    {
      var grown, next, newIds;
      code, grown, next, newIds := VisitEntity(robot, cur, skeleton, parent, ids, broken);
      if !code.OkCode? {
        NotBuildable(robot, visited, cur, start, startParent, broken, skeleton, parent, ids);
        Unwalkable(f, robot, base, cur, robotTip, tip, startParent, broken);
        return;
      }
      if IsPart(robot, cur) {
        BuiltOneMore(robot, visited, cur, start, startParent, broken, skeleton, parent, ids);
      } else {
        BuiltPassedOver(robot, visited, cur, start, startParent, broken, skeleton, parent, ids);
      }
      skeleton, parent, ids, visited := grown, next, newIds, visited + [cur];
      if cur == robotTip {
        BuiltFromParts(robot, visited, start, startParent, broken, skeleton, parent, ids);
        BuiltIsWalkable(f, robot, base, robotTip, tip, start, startParent, broken, skeleton, parent, ids);
        return;
      }
      var children := GetChildrenOf(f.parent, cur);
      ChildrenAttached(f, cur, children);
      var toward := FindAncestor(f, children, tip);
      if toward.Err? {
        DeadEnd(f, cur, robotTip, tip, children);
        OffTheWay(f, robot, base, robotTip, tip, startParent, broken);
        return toward.error, robotTip, visited, skeleton, parent, ids;
      }
      OneStepDown(f, base, cur, robotTip, tip, children, toward.value);
      cur := toward.value;
    }
  }

  lemma AncestorSelf(f: Forest, e: EntityId)
    requires f.Valid()
    ensures IsAncestor(f, e, e) && PathDown(f, e, e) == [] + [e]
  {
  }

  lemma BuiltNothing(robot: Robot, start: seq<Element>, startParent: Option<nat>, startIds: map<EntityId, nat>, broken: set<EntityId>)
    requires forall e :: e in startIds ==> startIds[e] < |start| && start[startIds[e]].entity == e
    ensures Built(robot, [], start, startParent, broken, start, startParent, startIds)
  {
    assert start[|start|..] == [];
  }

  lemma FirstIsAbove(f: Forest, tips: seq<EntityId>, tip: EntityId, t: EntityId)
    requires f.Valid() && IsFirstAbove(f, tips, tip, t)
    ensures IsAncestor(f, t, tip)
  {
  }

  lemma ChildrenAttached(f: Forest, cur: EntityId, children: seq<EntityId>)
    requires f.Valid() && forall c :: c in children <==> c in f.parent && f.parent[c] == cur
    ensures forall k :: 0 <= k < |children| ==> f.Attached(children[k])
    ensures forall c :: c in children <==> IsChild(f, c, cur)
  {
    forall k | 0 <= k < |children| ensures f.Attached(children[k]) {
      assert children[k] in children;
    }
  }

  lemma NoTip(f: Forest, robot: Robot, base: EntityId, tip: EntityId, parent: Option<nat>, broken: set<EntityId>)
    requires f.Valid() && NoneAbove(f, robot.tips, tip)
    ensures !Walkable(f, robot, base, tip, parent, broken)
  {
    hide Buildable, PathDown;
  }

  lemma OffTheWay(f: Forest, robot: Robot, base: EntityId, t: EntityId, tip: EntityId, parent: Option<nat>, broken: set<EntityId>)
    requires f.Valid() && IsFirstAbove(f, robot.tips, tip, t) && !IsAncestor(f, base, t)
    ensures !Walkable(f, robot, base, tip, parent, broken)
  {
    hide Buildable, PathDown, IsAncestor;
  }

  lemma Unwalkable(f: Forest, robot: Robot, base: EntityId, cur: EntityId, t: EntityId, tip: EntityId,
      parent: Option<nat>, broken: set<EntityId>)
    requires f.Valid() && IsFirstAbove(f, robot.tips, tip, t)
    requires IsAncestor(f, base, cur) && (IsAncestor(f, base, t) ==> IsAncestor(f, cur, t))
    requires !Buildable(robot, PathDown(f, base, cur), parent, broken)
    ensures !Walkable(f, robot, base, tip, parent, broken)
  {
    hide Buildable, PathDown, IsAncestor, IsFirstAbove;
    if Walkable(f, robot, base, tip, parent, broken) {
      var s :| IsFirstAbove(f, robot.tips, tip, s) && IsAncestor(f, base, s)
               && Buildable(robot, PathDown(f, base, s), parent, broken);
      FirstAboveUnique(f, robot.tips, tip, s, t);
      PathPrefix(f, base, cur, t);
      UnbuildableStays(robot, PathDown(f, base, cur), PathDown(f, base, t), parent, broken);
    }
  }

  lemma BuiltIsWalkable(f: Forest, robot: Robot, base: EntityId, t: EntityId, tip: EntityId, start: seq<Element>,
      startParent: Option<nat>, broken: set<EntityId>, skeleton: seq<Element>, parent: Option<nat>, ids: map<EntityId, nat>)
    requires f.Valid() && IsFirstAbove(f, robot.tips, tip, t) && IsAncestor(f, base, t)
    requires Built(robot, PathDown(f, base, t), start, startParent, broken, skeleton, parent, ids)
    ensures Walkable(f, robot, base, tip, startParent, broken)
  {
    hide Buildable, PathDown, IsAncestor, IsFirstAbove, IsChain;
  }

  lemma OneStepDown(f: Forest, base: EntityId, cur: EntityId, t: EntityId, tip: EntityId, children: seq<EntityId>, next: EntityId)
    requires f.Valid() && IsAncestor(f, base, cur) && IsAncestor(f, t, tip) && cur != t
    requires IsAncestor(f, base, t) ==> IsAncestor(f, cur, t)
    requires forall c :: c in children <==> IsChild(f, c, cur)
    requires IsFirstAbove(f, children, tip, next)
    ensures f.Attached(next) && IsAncestor(f, next, tip) && IsAncestor(f, base, next)
    ensures IsAncestor(f, base, t) ==> IsAncestor(f, next, t)
    ensures PathDown(f, base, next) == PathDown(f, base, cur) + [next]
    ensures Height(f, cur) < Height(f, next) <= Height(f, tip)
  {
    var k :| 0 <= k < |children| && children[k] == next && IsAncestor(f, next, tip);
    assert next in children;
    PathOneDown(f, base, cur, next);
    if IsAncestor(f, base, t) {
      StaysOnTheWay(f, cur, t, tip, next);
    }
    if next != tip {
      AncestorHigher(f, next, tip);
    }
  }

  // ---------- Which end is the base ----------

  /** GetRobotIdsInChain between two entities, which this model takes from the world. */
  type RobotsInChain = (EntityId, EntityId) -> Result<seq<nat>, StatusCode>

  datatype Ends = Ends(base: EntityId, tip: EntityId, robots: seq<nat>)

  /** One end is the common ancestor and so the base. */
  predicate EndsDown(base: EntityId, tip: EntityId, robotsIn: RobotsInChain, r: Result<Ends, StatusCode>) {
    match robotsIn(base, tip)
    case Err(e) => r == Err(e)
    case Ok(robots) => r == if robots == [] then Err(InvalidArgument) else Ok(Ends(base, tip, robots))
  }

  /** The ends are on different branches below a: exactly one of the branches must carry robots, and its end is the tip. */
  predicate EndsAcross(a: EntityId, id1: EntityId, id2: EntityId, robotsIn: RobotsInChain, r: Result<Ends, StatusCode>) {
    match (robotsIn(a, id1), robotsIn(a, id2))
    case (Err(e), _) => r == Err(e)
    case (Ok(_), Err(e)) => r == Err(e)
    case (Ok(on1), Ok(on2)) =>
      && (r.Ok? <==> (on1 == []) != (on2 == []))
      && (r.Ok? ==> r.value == if on1 != [] then Ends(id2, id1, on1) else Ends(id1, id2, on2))
      && (r.Err? ==> r.error == if on1 == [] then InvalidArgument else Unimplemented)
  }

  /**
   * The choice of base and tip: the common ancestor if it is one of the two, else the entity on whose branch there is no
   * robot. All robots of the chain are then between the common ancestor and the tip. There is a choice exactly if the
   * robots can be looked up and are all on one branch, and there are any.
   */
  method SelectEnds(f: Forest, id1: EntityId, id2: EntityId, robotsIn: RobotsInChain) returns (r: Result<Ends, StatusCode>)
    requires f.Valid() && (id1 == INVALID || f.Attached(id1)) && (id2 == INVALID || f.Attached(id2))
    ensures id1 == INVALID || id2 == INVALID ==> r == Err(InvalidArgument)
    ensures id1 != INVALID && id2 != INVALID ==>
              exists a :: IsLowest(f, a, id1, id2)
                          && if a == id1 then EndsDown(id1, id2, robotsIn, r)
                             else if a == id2 then EndsDown(id2, id1, robotsIn, r)
                             else EndsAcross(a, id1, id2, robotsIn, r)
  {
    var common := FindCommonAncestor(f, id1, id2);
    if common.Err? {
      return Err(common.error);
    }
    var ancestor := common.value;
    assert IsLowest(f, ancestor, id1, id2);
    var base, tip, robots;
    if id1 == ancestor {
      base, tip := id1, id2;
      var chain := robotsIn(base, tip);
      if chain.Err? {
        return Err(chain.error);
      }
      robots := chain.value;
    } else if id2 == ancestor {
      base, tip := id2, id1;
      var chain := robotsIn(base, tip);
      if chain.Err? {
        return Err(chain.error);
      }
      robots := chain.value;
    } else {
      var chain1 := robotsIn(ancestor, id1);
      if chain1.Err? {
        return Err(chain1.error);
      }
      var chain2 := robotsIn(ancestor, id2);
      if chain2.Err? {
        return Err(chain2.error);
      }
      if chain1.value != [] && chain2.value != [] {
        return Err(Unimplemented);
      } else if chain1.value != [] {
        base, tip, robots := id2, id1, chain1.value;
      } else {
        base, tip, robots := id1, id2, chain2.value;
      }
    }
    if robots == [] {
      return Err(InvalidArgument);
    }
    return Ok(Ends(base, tip, robots));
  }

  /** The common ancestor is determined, so SelectEnds leaves no choice. */
  lemma LowestUnique(f: Forest, c: EntityId, d: EntityId, a: EntityId, b: EntityId)
    requires f.Valid() && IsLowest(f, c, a, b) && IsLowest(f, d, a, b)
    ensures c == d
  {
    SameHeight(f, c, d);
  }
}
