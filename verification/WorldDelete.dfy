// Deleting entities with everything attached below them (world/update_world.cc).
module WorldDelete {
  import opened Results
  import opened AttachmentForest
  import opened EntityIds

  /** The attached entities below any of these, themselves included; never the root. */
  ghost function Under(f: Forest, above: set<EntityId>): set<EntityId>
    requires f.Valid()
  {
    set x | x in f.parent && exists a :: a in above && IsAncestor(f, a, x)
  }

  ghost function Without(f: Forest, gone: set<EntityId>): Forest {
    Forest(f.parent - gone, f.depth)
  }

  /** What is below an entity goes with it, so parents of what remains remain ... */
  lemma PrunedValid(f: Forest, above: set<EntityId>)
    requires f.Valid()
    ensures Without(f, Under(f, above)).Valid()
  {
    var gone := Under(f, above);
    forall e | e in f.parent && f.parent[e] in gone ensures e in gone {
      var a :| a in above && IsAncestor(f, a, f.parent[e]);
      assert IsAncestor(f, a, e);
    }
  }

  /** ... and have the ancestors they had. */
  lemma {:induction false} PrunedAncestors(f: Forest, above: set<EntityId>, a: EntityId, x: EntityId)
    requires f.Valid() && Without(f, Under(f, above)).Valid()
    requires x == ROOT || x in Without(f, Under(f, above)).parent
    ensures IsAncestor(Without(f, Under(f, above)), a, x) <==> IsAncestor(f, a, x)
    decreases Height(f, x)
  {
    if x != ROOT && a != x {
      PrunedAncestors(f, above, a, f.parent[x]);
    }
  }

  /** Pruning twice is pruning once: the order of deletions does not matter. */
  lemma PrunedTwice(f: Forest, above: set<EntityId>, c: EntityId)
    requires f.Valid()
    ensures Without(f, Under(f, above)).Valid()
    ensures Under(f, above) + Under(Without(f, Under(f, above)), {c}) == Under(f, above + {c})
  {
    PrunedValid(f, above);
    var g := Without(f, Under(f, above));
    forall x | x in f.parent
      ensures x in Under(f, above) + Under(g, {c}) <==> x in Under(f, above + {c})
    {
      if x in g.parent {
        PrunedAncestors(f, above, c, x);
        if x in Under(f, above + {c}) {
          var a :| a in above + {c} && IsAncestor(f, a, x);
          assert x !in Under(f, above) ==> a == c;
        }
      } else {
        var a :| a in above && IsAncestor(f, a, x);
        assert a in above + {c};
      }
    }
  }

  /** What is below an entity is the entity and what is below its children. */
  lemma UnderChildren(f: Forest, e: EntityId, children: set<EntityId>)
    requires f.Valid() && forall c :: c in children <==> IsChild(f, c, e)
    ensures Under(f, {e}) == Under(f, children) + if e in f.parent then {e} else {}
    ensures e !in Under(f, children)
  {
    forall x | x in f.parent && x != e ensures x in Under(f, {e}) <==> x in Under(f, children) {
      if IsAncestor(f, e, x) {
        var c := ChildToward(f, e, x);
        assert c in children;
      }
      if c :| c in children && IsAncestor(f, c, x) {
        AncestorTransitive(f, e, c, x);
      }
    }
    if e in Under(f, children) {
      var c :| c in children && IsAncestor(f, c, e);
      AncestorHigher(f, c, e);
    }
  }

  /** An entity that is not attached has nothing below it. */
  lemma DetachedAlone(f: Forest, e: EntityId)
    requires f.Valid() && !f.Attached(e)
    ensures Under(f, {e}) == {} && !HasChild(f, e)
  {
    forall x | x in f.parent ensures !IsAncestor(f, e, x) {
      if IsAncestor(f, e, x) {
        AncestorHigher(f, e, x);
      }
    }
    forall c | c in f.parent ensures f.parent[c] != e {
    }
  }

  ghost predicate HasChild(f: Forest, e: EntityId) {
    exists c :: IsChild(f, c, e)
  }

  /** What deleting these entities removes: them and all that is attached below them, but never the root. */
  ghost function Doomed(f: Forest, matched: set<EntityId>): set<EntityId>
    requires f.Valid()
  {
    Under(f, matched) + (matched - {ROOT})
  }

  class World {
    var entities: set<EntityId>
    var parent: map<EntityId, EntityId>
    ghost const depth: map<EntityId, nat>
    ghost const bound: nat

    constructor (entities: set<EntityId>, parent: map<EntityId, EntityId>,
        ghost depth: map<EntityId, nat>, ghost bound: nat)
      requires Forest(parent, depth).Valid() && (forall e :: e in depth ==> depth[e] < bound)
      requires ROOT in entities && parent.Keys <= entities && INVALID !in entities
      ensures Valid() && this.entities == entities && this.parent == parent
    {
      this.entities, this.parent, this.depth, this.bound := entities, parent, depth, bound;
    }

    ghost function Tree(): Forest
      reads this
    {
      Forest(parent, depth)
    }

    /** In particular the parent of every attached entity is present. */
    ghost predicate Valid()
      reads this
    {
      && Tree().Valid()
      && ROOT in entities && INVALID !in entities && parent.Keys <= entities
      && (forall e :: e in depth ==> depth[e] < bound)
    }

    /** How much deeper the tree can go on below an entity. */
    ghost function Room(e: EntityId): nat
      requires Valid()
      reads this
    {
      bound - Height(Tree(), e)
    }

    method GetChildren(e: EntityId) returns (children: seq<EntityId>)
      requires Valid()
      ensures forall c :: c in children <==> IsChild(Tree(), c, e)
      ensures forall j, k :: 0 <= j < k < |children| ==> children[j] != children[k]
    {
      children := GetChildrenOf(parent, e);
    }

    /** DeleteAttachmentComponent refuses the root and entities with children. */
    method DeleteAttachmentComponent(e: EntityId) returns (code: StatusCode)
      requires Valid()
      modifies this`parent
      ensures Valid()
      ensures code == if e == INVALID || e == ROOT then InvalidArgument
                      else if e !in entities then NotFound
                      else if HasChild(old(Tree()), e) then InvalidArgument
                      else if e !in old(parent) then NotFound
                      else OkCode
      ensures parent == if code.OkCode? then old(parent) - {e} else old(parent)
    {
      if e == INVALID || e == ROOT {
        return InvalidArgument;
      }
      if e !in entities {
        return NotFound;
      }
      var children := GetChildren(e);
      if children != [] {
        assert children[0] in children;
        return InvalidArgument;
      }
      if e !in parent {
        return NotFound;
      }
      forall x | x in parent ensures parent[x] != e {
        assert !IsChild(Tree(), x, e);
      }
      parent := parent - {e};
      return OkCode;
    }

    /** RemoveEntity checks nothing, so nothing may be attached to the entity any more. */
    method RemoveEntity(e: EntityId) returns (code: StatusCode)
      requires Valid() && e != ROOT && e !in parent
      requires !HasChild(Tree(), e)
      modifies this`entities
      ensures Valid()
      ensures code == if e in old(entities) then OkCode else NotFound
      ensures entities == old(entities) - {e}
    {
      if e !in entities {
        return NotFound;
      }
      entities := entities - {e};
      return OkCode;
    }

    /** The loop of DeleteHelper over the children, which are listed before it starts. */
    method DeleteChildren(e: EntityId, children: seq<EntityId>, ghost all: set<EntityId>)
      requires Valid() && all == (set c | c in children)
      requires forall c :: c in all ==> IsChild(Tree(), c, e)
      requires forall j, k :: 0 <= j < k < |children| ==> children[j] != children[k]
      modifies this`entities, this`parent
      decreases Room(e), 0
      ensures Valid()
      ensures parent == old(parent) - Under(old(Tree()), all) && entities == old(entities) - Under(old(Tree()), all)
    {
      hide Under, IsAncestor, Forest.Valid, Height;
      ghost var f, was := Tree(), entities;
      UnderNone(f);
      ghost var done: set<EntityId> := {};
      for k := 0 to |children|
        invariant Valid()
        invariant done == set j | 0 <= j < k :: children[j]
        invariant parent == f.parent - Under(f, done) && entities == was - Under(f, done)
      {
        var c := children[k];
        ChildStillThere(f, done, c, e);
        PrunedTwice(f, done, c);
        ChildBelowItself(Tree(), c);
        DeeperChild(f, Tree(), c, e);
        var r := DeleteHelper(c, true);
        assert r.OkCode?;
        done := done + {c};
      }
      assert done == all;
    }

    /** The part of DeleteHelper for an attached entity: everything below it goes, then its own attachment. */
    method Detach(e: EntityId, removeChildren: bool) returns (code: StatusCode)
      requires Valid() && Tree().Attached(e)
      modifies this`entities, this`parent
      decreases Room(e), 1
      ensures Valid()
      ensures if !removeChildren && HasChild(old(Tree()), e) then
                code == FailedPrecondition && entities == old(entities) && parent == old(parent)
              else
                && code == (if e == ROOT then InvalidArgument else OkCode)
                && parent == old(parent) - Under(old(Tree()), {e})
                && entities == old(entities) - (Under(old(Tree()), {e}) - {e})
    {
      hide Under, IsAncestor, Height, Forest.Valid;
      ghost var f := Tree();
      var children := GetChildren(e);
      ghost var all := set c | c in children;
      if children != [] && !removeChildren {
        assert children[0] in children;
        return FailedPrecondition;
      }
      UnderChildren(f, e, all);
      RootNotUnder(f, {e});
      if removeChildren {
        DeleteChildren(e, children, all);
      } else {
        assert all == {};
        UnderNone(f);
      }
      assert Tree() == Without(f, Under(f, all));
      ChildrenGone(f, all, e);
      code := DeleteAttachmentComponent(e);
    }

    /**
     * DeleteHelper: removes the entity with everything below it, whatever the order of its children. Without
     * removeChildren an entity that has children is refused; the root loses everything below it and is then refused.
     */
    method DeleteHelper(e: EntityId, removeChildren: bool) returns (code: StatusCode)
      requires Valid() && e in entities
      modifies this`entities, this`parent
      decreases Room(e), 2
      ensures Valid()
      ensures code == if !removeChildren && HasChild(old(Tree()), e) then FailedPrecondition
                      else if e == ROOT then InvalidArgument else OkCode
      ensures parent == if code.FailedPrecondition? then old(parent) else old(parent) - Under(old(Tree()), {e})
      ensures entities == if code.FailedPrecondition? then old(entities) else old(entities) - Doomed(old(Tree()), {e})
    {
      hide Under, IsAncestor, Height, Forest.Valid;
      ghost var f := Tree();
      if e == ROOT || e in parent {
        RootNotUnder(f, {e});
        code := Detach(e, removeChildren);
        if !code.OkCode? {
          return;
        }
        NoneBelow(f, e);
        ChildBelowItself(f, e);
      } else {
        DetachedAlone(f, e);
      }
      code := RemoveEntity(e);
    }

    /** Exactly what the entities before k took with them is gone, and entity k still has a child. */
    ghost predicate StoppedAt(f: Forest, was: set<EntityId>, matched: seq<EntityId>, k: nat)
      requires f.Valid() && k < |matched|
      reads this
    {
      && parent == f.parent - Under(f, Found(matched[..k], was))
      && entities == was - Doomed(f, Found(matched[..k], was))
      && HasChild(Tree(), matched[k])
    }

    /**
     * The DeleteEntity update: matched are the entities found, in the unspecified order of a hash set. With
     * removeChildren it removes exactly the matched entities and what is attached below them, in any order, and reports
     * an error only if the root is matched, after removing all that is attached; without, it succeeds exactly if each
     * entity comes after its children, and stops with what came before the first that does not.
     */
    method DeleteEntities(matched: seq<EntityId>, removeChildren: bool) returns (code: StatusCode)
      requires Valid()
      modifies this`entities, this`parent
      ensures Valid()
      ensures removeChildren ==> (code.OkCode? <==> ROOT !in matched) && (code.OkCode? || code.InvalidArgument?)
      ensures !removeChildren ==> (code.OkCode? <==> ROOT !in matched && ChildrenFirst(old(Tree()), matched))
      ensures code.OkCode? ==>
                && parent == old(parent) - Under(old(Tree()), Found(matched, old(entities)))
                && entities == old(entities) - Doomed(old(Tree()), Found(matched, old(entities)))
      ensures code.OkCode? || code.InvalidArgument? || code.FailedPrecondition?
      ensures code.InvalidArgument? ==> parent == map[]
      ensures code.FailedPrecondition? ==> exists k :: 0 <= k < |matched| && StoppedAt(old(Tree()), old(entities), matched, k)
    {
      hide Under, IsAncestor, Height, Forest.Valid, Doomed, Progress, Found, ChildrenFirst;
      ghost var f, was := Tree(), entities;
      NoProgressYet(f, was, matched, removeChildren);
      for k := 0 to |matched|
        invariant Valid() && Progress(f, was, matched, k, removeChildren)
        invariant parent == f.parent - Under(f, Found(matched[..k], was))
        invariant entities == was - Doomed(f, Found(matched[..k], was))
      {
        var e := matched[k];
        if e !in entities {
          SkipStep(f, was, matched, k, removeChildren);
          continue;
        }
        code := DeleteHelper(e, removeChildren);
        if !code.OkCode? {
          if code.FailedPrecondition? {
            RefusedStep(f, was, matched, k);
            assert StoppedAt(f, was, matched, k);
          } else {
            AllUnderRoot(Without(f, Under(f, Found(matched[..k], was))));
          }
          return;
        }
        DeleteStep(f, was, matched, k, removeChildren);
      }
      assert matched[..|matched|] == matched;
      AllDone(f, was, matched, removeChildren);
      return OkCode;
    }
  }

  // ---------- One entity after another ----------

  /** Every attached entity in the list comes after its children, which are then all in it. */
  ghost predicate ChildrenFirst(f: Forest, order: seq<EntityId>) {
    forall k, c :: 0 <= k < |order| && IsChild(f, c, order[k]) ==> c in order[..k]
  }

  function Found(order: seq<EntityId>, entities: set<EntityId>): set<EntityId> {
    set e | e in order && e in entities
  }

  /** What holds before entity k is looked at; nothing but the entities seen is gone if children are kept. */
  ghost predicate Progress(f: Forest, was: set<EntityId>, order: seq<EntityId>, k: nat, removeChildren: bool) {
    && f.Valid() && f.parent.Keys <= was && ROOT in was
    && k <= |order| && ROOT !in order[..k]
    && (!removeChildren ==> Under(f, Found(order[..k], was)) <= Found(order[..k], was) && ChildrenFirst(f, order[..k]))
  }

  lemma NoProgressYet(f: Forest, was: set<EntityId>, order: seq<EntityId>, removeChildren: bool)
    requires f.Valid() && f.parent.Keys <= was && ROOT in was
    ensures Progress(f, was, order, 0, removeChildren)
    ensures Under(f, Found(order[..0], was)) == {} && Doomed(f, Found(order[..0], was)) == {}
  {
    assert Found(order[..0], was) == {};
    UnderNone(f);
  }

  lemma AllDone(f: Forest, was: set<EntityId>, order: seq<EntityId>, removeChildren: bool)
    requires Progress(f, was, order, |order|, removeChildren) && order[..|order|] == order
    ensures ROOT !in order && (!removeChildren ==> ChildrenFirst(f, order))
  {
    hide ChildrenFirst, Under;
  }

  lemma FoundSnoc(order: seq<EntityId>, k: nat, was: set<EntityId>)
    requires k < |order|
    ensures order[..k + 1] == order[..k] + [order[k]]
    ensures Found(order[..k + 1], was) ==
            if order[k] in was then Found(order[..k], was) + {order[k]} else Found(order[..k], was)
  {
    assert order[..k + 1] == order[..k] + [order[k]];
  }

  lemma ChildrenFirstSnoc(f: Forest, order: seq<EntityId>, k: nat)
    requires k < |order|
    ensures ChildrenFirst(f, order[..k + 1])
            <==> ChildrenFirst(f, order[..k]) && forall c :: IsChild(f, c, order[k]) ==> c in order[..k]
    ensures ChildrenFirst(f, order) ==> ChildrenFirst(f, order[..k + 1])
  {
    var longer := order[..k + 1];
    assert longer[k] == order[k] && longer[..k] == order[..k];
    forall j | 0 <= j < k ensures longer[j] == order[..k][j] && longer[..j] == order[..k][..j] == order[..j] {
    }
    forall j | 0 <= j <= k ensures longer[j] == order[j] && longer[..j] == order[..j] {
    }
  }

  /** A second deletion of the same entities adds nothing. */
  lemma UnderAlready(f: Forest, above: set<EntityId>, e: EntityId)
    requires f.Valid() && e in Under(f, above)
    ensures Under(f, above + {e}) == Under(f, above)
  {
    var a :| a in above && IsAncestor(f, a, e);
    forall x | x in f.parent && IsAncestor(f, e, x) ensures x in Under(f, above) {
      AncestorTransitive(f, a, e, x);
    }
    forall x | x in Under(f, above) ensures x in Under(f, above + {e}) {
      var b :| b in above && IsAncestor(f, b, x);
      assert b in above + {e};
    }
  }

  /** The entity went with one that was deleted before. */
  lemma SkipStep(f: Forest, was: set<EntityId>, order: seq<EntityId>, k: nat, removeChildren: bool)
    requires Progress(f, was, order, k, removeChildren) && k < |order|
    requires order[k] !in was - Doomed(f, Found(order[..k], was))
    ensures Progress(f, was, order, k + 1, removeChildren)
    ensures Under(f, Found(order[..k + 1], was)) == Under(f, Found(order[..k], was))
    ensures Doomed(f, Found(order[..k + 1], was)) == Doomed(f, Found(order[..k], was))
  {
    hide Under, IsAncestor, ChildrenFirst;
    var e, done := order[k], Found(order[..k], was);
    RootNotUnder(f, done);
    FoundSnoc(order, k, was);
    ChildrenFirstSnoc(f, order, k);
    if e in was {
      if e in done {
        assert done + {e} == done;
      } else {
        UnderAlready(f, done, e);
      }
    }
    if !removeChildren {
      forall c | IsChild(f, c, e) ensures c in order[..k] {
        SeenChildren(f, was, order, k, c);
      }
    }
  }

  lemma SeenChildren(f: Forest, was: set<EntityId>, order: seq<EntityId>, k: nat, c: EntityId)
    requires Progress(f, was, order, k, false) && k < |order|
    requires order[k] !in was - Doomed(f, Found(order[..k], was)) && IsChild(f, c, order[k])
    ensures c in order[..k]
  {
    hide Under, IsAncestor;
    RootNotUnder(f, Found(order[..k], was));
    assert f.Attached(order[k]);
    assert order[k] in order[..k];
    var j :| 0 <= j < k && order[..k][j] == order[k];
    assert c in order[..k][..j];
  }

  lemma DeleteStep(f: Forest, was: set<EntityId>, order: seq<EntityId>, k: nat, removeChildren: bool)
    requires Progress(f, was, order, k, removeChildren) && k < |order|
    requires order[k] in was && order[k] != ROOT
    requires Without(f, Under(f, Found(order[..k], was))).Valid()
    requires removeChildren || !HasChild(Without(f, Under(f, Found(order[..k], was))), order[k])
    ensures Progress(f, was, order, k + 1, removeChildren)
    ensures var g := Without(f, Under(f, Found(order[..k], was)));
            && Under(f, Found(order[..k], was)) + Under(g, {order[k]}) == Under(f, Found(order[..k + 1], was))
            && Doomed(f, Found(order[..k], was)) + Doomed(g, {order[k]}) == Doomed(f, Found(order[..k + 1], was))
  {
    hide Under, IsAncestor, ChildrenFirst;
    var e, done := order[k], Found(order[..k], was);
    FoundSnoc(order, k, was);
    ChildrenFirstSnoc(f, order, k);
    PrunedTwice(f, done, e);
    if !removeChildren {
      forall c | IsChild(f, c, e) ensures c in done && c in Under(f, done) {
        assert !IsChild(Without(f, Under(f, done)), c, e);
      }
      UnderOnlyItself(f, done, e);
    }
  }

  lemma UnderOnlyItself(f: Forest, done: set<EntityId>, e: EntityId)
    requires f.Valid() && Under(f, done) <= done && forall c :: IsChild(f, c, e) ==> c in Under(f, done)
    ensures Under(f, done + {e}) <= done + {e}
  {
    forall x | x in Under(f, done + {e}) ensures x in done + {e} {
      var a :| a in done + {e} && IsAncestor(f, a, x);
      if a != e {
        assert x in Under(f, done);
      } else if x != e {
        var c := ChildToward(f, e, x);
        var b :| b in done && IsAncestor(f, b, c);
        AncestorTransitive(f, b, c, x);
        assert x in Under(f, done);
      }
    }
  }

  /** Children that are kept and not listed before make the whole list fail. */
  lemma RefusedStep(f: Forest, was: set<EntityId>, order: seq<EntityId>, k: nat)
    requires Progress(f, was, order, k, false) && k < |order|
    requires HasChild(Without(f, Under(f, Found(order[..k], was))), order[k])
    ensures !ChildrenFirst(f, order)
  {
    hide ChildrenFirst;
    ChildrenFirstSnoc(f, order, k);
    var c :| IsChild(Without(f, Under(f, Found(order[..k], was))), c, order[k]);
    assert IsChild(f, c, order[k]) && IsAncestor(f, c, c);
  }

  lemma DeeperChild(f: Forest, g: Forest, c: EntityId, e: EntityId)
    requires f.Valid() && g.Valid() && g.depth == f.depth && IsChild(f, c, e) && c in g.parent
    ensures Height(g, c) > Height(f, e)
  {
  }

  lemma RootNotUnder(f: Forest, above: set<EntityId>)
    requires f.Valid()
    ensures ROOT !in Under(f, above) && ROOT !in f.parent
  {
  }

  lemma AllUnderRoot(f: Forest)
    requires f.Valid()
    ensures Under(f, {ROOT}) == f.parent.Keys
  {
    forall x | x in f.parent ensures x in Under(f, {ROOT}) {
      RootAboveAll(f, x);
    }
  }

  /** Once everything below an entity is gone it has no children. */
  lemma NoneBelow(f: Forest, e: EntityId)
    requires f.Valid()
    ensures !HasChild(Without(f, Under(f, {e})), e)
  {
    forall c | IsChild(f, c, e) ensures c in Under(f, {e}) {
      assert IsAncestor(f, e, c);
    }
  }

  lemma UnderNone(f: Forest)
    requires f.Valid()
    ensures Under(f, {}) == {}
  {
  }

  lemma ChildBelowItself(f: Forest, c: EntityId)
    requires f.Valid() && c in f.parent
    ensures c in Under(f, {c})
  {
    assert IsAncestor(f, c, c);
  }

  /** Deleting siblings does not touch a child. */
  lemma ChildStillThere(f: Forest, done: set<EntityId>, c: EntityId, e: EntityId)
    requires f.Valid() && IsChild(f, c, e) && c !in done && forall d :: d in done ==> IsChild(f, d, e)
    ensures c !in Under(f, done)
  {
    if c in Under(f, done) {
      var d :| d in done && IsAncestor(f, d, c);
      NotBelowSibling(f, d, c);
    }
  }

  lemma ChildrenGone(f: Forest, children: set<EntityId>, e: EntityId)
    requires f.Valid() && forall c :: c in children <==> IsChild(f, c, e)
    ensures !HasChild(Without(f, Under(f, children)), e)
  {
    forall c | IsChild(f, c, e) ensures c in Under(f, children) {
      assert IsAncestor(f, c, c);
    }
  }
}
