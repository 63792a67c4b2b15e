// The attachment tree of a world: every attached entity but the root has an attached parent.
module AttachmentForest {
  import opened EntityIds

  /** depth only witnesses that parent chains are finite. */
  datatype Forest = Forest(parent: map<EntityId, EntityId>, depth: map<EntityId, nat>) {
    predicate Attached(e: EntityId) {
      e == ROOT || e in parent
    }

    ghost predicate Valid() {
      && ROOT !in parent && INVALID !in parent
      && (forall e :: e in parent ==> e in depth && Attached(parent[e]))
      && (forall e :: e in parent && parent[e] in parent ==> depth[parent[e]] < depth[e])
    }
  }

  ghost function Height(f: Forest, e: EntityId): nat
    requires f.Valid()
  {
    if e in f.parent then f.depth[e] + 1 else 0
  }

  /** a is e or above it. */
  ghost predicate IsAncestor(f: Forest, a: EntityId, e: EntityId)
    requires f.Valid()
    decreases Height(f, e)
  {
    a == e || (e in f.parent && IsAncestor(f, a, f.parent[e]))
  }

  lemma {:induction false} AncestorTransitive(f: Forest, a: EntityId, b: EntityId, e: EntityId)
    requires f.Valid() && IsAncestor(f, a, b) && IsAncestor(f, b, e)
    ensures IsAncestor(f, a, e)
    decreases Height(f, e)
  {
    if b != e {
      AncestorTransitive(f, a, b, f.parent[e]);
    }
  }

  /** The ancestors of an entity are a chain. */
  lemma {:induction false} AncestorsComparable(f: Forest, a: EntityId, b: EntityId, e: EntityId)
    requires f.Valid() && IsAncestor(f, a, e) && IsAncestor(f, b, e)
    ensures IsAncestor(f, a, b) || IsAncestor(f, b, a)
    decreases Height(f, e)
  {
    if a != e && b != e {
      AncestorsComparable(f, a, b, f.parent[e]);
    }
  }

  lemma {:induction false} AncestorHigher(f: Forest, a: EntityId, e: EntityId)
    requires f.Valid() && IsAncestor(f, a, e) && a != e
    ensures e in f.parent && f.Attached(a) && Height(f, a) < Height(f, e)
    decreases Height(f, e)
  {
    if a != f.parent[e] {
      AncestorHigher(f, a, f.parent[e]);
    }
  }

  lemma {:induction false} RootAboveAll(f: Forest, e: EntityId)
    requires f.Valid() && f.Attached(e)
    ensures IsAncestor(f, ROOT, e)
    decreases Height(f, e)
  {
    if e != ROOT {
      RootAboveAll(f, f.parent[e]);
    }
  }

  predicate IsChild(f: Forest, c: EntityId, a: EntityId) {
    c in f.parent && f.parent[c] == a
  }

  /** One child of a proper ancestor leads on to the entity ... */
  lemma {:induction false} ChildToward(f: Forest, a: EntityId, e: EntityId) returns (c: EntityId)
    requires f.Valid() && IsAncestor(f, a, e) && a != e
    ensures IsChild(f, c, a) && IsAncestor(f, c, e)
    decreases Height(f, e)
  {
    c := e;
    if f.parent[e] != a {
      c := ChildToward(f, a, f.parent[e]);
    }
  }

  /** ... and no other does. */
  lemma ChildTowardUnique(f: Forest, a: EntityId, e: EntityId, c: EntityId, d: EntityId)
    requires f.Valid() && IsChild(f, c, a) && IsChild(f, d, a) && IsAncestor(f, c, e) && IsAncestor(f, d, e)
    ensures c == d
  {
    AncestorsComparable(f, c, d, e);
    if c != d {
      if IsAncestor(f, c, d) {
        NotBelowSibling(f, c, d);
      } else {
        NotBelowSibling(f, d, c);
      }
    }
  }

  lemma NotBelowSibling(f: Forest, c: EntityId, d: EntityId)
    requires f.Valid() && c in f.parent && d in f.parent && f.parent[c] == f.parent[d] && c != d
    ensures !IsAncestor(f, c, d)
  {
    if IsAncestor(f, c, f.parent[c]) && c != f.parent[c] {
      AncestorHigher(f, c, f.parent[c]);
    }
  }

  /** The children of an entity, in the unspecified order of a hash map. */
  method GetChildrenOf(parent: map<EntityId, EntityId>, a: EntityId) returns (children: seq<EntityId>)
    ensures forall c :: c in children <==> c in parent && parent[c] == a
    ensures forall j, k :: 0 <= j < k < |children| ==> children[j] != children[k]
  {
    children := [];
    var rest := parent.Keys;
    while rest != {}
      invariant rest <= parent.Keys
      invariant forall c :: c in children <==> c in parent && c !in rest && parent[c] == a
      invariant forall j, k :: 0 <= j < k < |children| ==> children[j] != children[k]
      decreases rest
    {
      var c :| c in rest;
      rest := rest - {c};
      if parent[c] == a {
        children := children + [c];
      }
    }
  }
}
