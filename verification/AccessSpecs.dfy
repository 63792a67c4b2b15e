// Reader/writer permissions of the entities of a world (world/world_acl_spec.cc, world/world_entity_acl_spec.cc).
module AccessSpecs {
  import opened EntityIds
  import opened Results

  datatype Permission = Read | Write

  /** WorldEntityACLSpec */
  datatype Access = Access(canRead: bool, canWrite: bool) {
    function AndWith(other: Access): Access {
      Access(canRead && other.canRead, canWrite && other.canWrite)
    }

    function OrWith(other: Access): Access {
      Access(canRead || other.canRead, canWrite || other.canWrite)
    }

    predicate IsCompatible(other: Access) {
      if canWrite && (other.canWrite || other.canRead) then false
      else if canRead && other.canWrite then false
      else true
    }

    function CanNarrowTo(narrow: Access): StatusCode {
      if !canWrite && narrow.canWrite then PermissionDenied
      else if !canRead && narrow.canRead then PermissionDenied
      else OkCode
    }

    predicate Grants(p: Permission) {
      match p case Read => canRead case Write => canWrite
    }
  }

  /** Whoever may write is alone: neither writes what the other reads or writes. */
  ghost predicate Coexist(a: Access, b: Access) {
    && !(a.Grants(Write) && exists p :: b.Grants(p))
    && !(b.Grants(Write) && exists p :: a.Grants(p))
  }

  const NO_ACCESS := Access(false, false)
  const FULL_ACCESS := Access(true, true)

  /** What a WorldACLSpec holds: the permissions set for entities, and the default for all others. */
  datatype Spec = Spec(acls: map<EntityId, Access>, default: Access) {
    /** GetSpecForEntityId */
    function For(e: EntityId): Access {
      if e in acls then acls[e] else default
    }
  }

  // ---------- The calls ----------

  datatype Call =
    | AllowFullAccessFor(ids: set<EntityId>)
    | DenyFullAccessFor(ids: set<EntityId>)
    | AllowReadFor(ids: set<EntityId>)
    | AllowWriteFor(ids: set<EntityId>)
    | DenyReadFor(ids: set<EntityId>)
    | DenyWriteFor(ids: set<EntityId>)
    | SetAccessFor(id: EntityId, acl: Access)
    | ClearAccessFor(ids: set<EntityId>)

  function AppendedWithAnd(s: Spec, ids: set<EntityId>, acl: Access): Spec {
    s.(acls := map e | e in s.acls.Keys + ids :: if e in ids then acl.AndWith(s.For(e)) else s.acls[e])
  }

  function AppendedWithOr(s: Spec, ids: set<EntityId>, acl: Access): Spec {
    s.(acls := map e | e in s.acls.Keys + ids :: if e in ids then acl.OrWith(s.For(e)) else s.acls[e])
  }

  function After(s: Spec, c: Call): Spec {
    match c
    case AllowFullAccessFor(ids) => AppendedWithOr(s, ids, FULL_ACCESS)
    case DenyFullAccessFor(ids) => AppendedWithAnd(s, ids, NO_ACCESS)
    case AllowReadFor(ids) => AppendedWithOr(s, ids, Access(true, false))
    case AllowWriteFor(ids) => AppendedWithOr(s, ids, Access(false, true))
    case DenyReadFor(ids) => AppendedWithAnd(s, ids, Access(false, true))
    case DenyWriteFor(ids) => AppendedWithAnd(s, ids, Access(true, false))
    case SetAccessFor(id, acl) => s.(acls := s.acls[id := acl])
    case ClearAccessFor(ids) => s.(acls := s.acls - ids)
  }

  function AfterAll(s: Spec, calls: seq<Call>): Spec {
    if calls == [] then s else After(AfterAll(s, calls[..|calls| - 1]), calls[|calls| - 1])
  }

  class WorldACLSpec {
    var entityAcls: map<EntityId, Access>
    const defaultAcl: Access

    constructor (defaultAcl: Access)
      ensures Value() == Spec(map[], defaultAcl)
    {
      entityAcls := map[];
      this.defaultAcl := defaultAcl;
    }

    function Value(): Spec
      reads this
    {
      Spec(entityAcls, defaultAcl)
    }

    method AppendEntitySpecsWithAnd(ids: set<EntityId>, acl: Access)
      modifies this
      ensures Value() == AppendedWithAnd(old(Value()), ids, acl)
    {
      var rest := ids;
      while rest != {}
        invariant rest <= ids && Value() == AppendedWithAnd(old(Value()), ids - rest, acl)
        decreases rest
      {
        var e :| e in rest;
        var effective := if e in entityAcls then entityAcls[e] else defaultAcl;
        entityAcls := entityAcls[e := acl.AndWith(effective)];
        rest := rest - {e};
      }
      assert ids - rest == ids;
    }

    method AppendEntitySpecsWithOr(ids: set<EntityId>, acl: Access)
      modifies this
      ensures Value() == AppendedWithOr(old(Value()), ids, acl)
    {
      var rest := ids;
      while rest != {}
        invariant rest <= ids && Value() == AppendedWithOr(old(Value()), ids - rest, acl)
        decreases rest
      {
        var e :| e in rest;
        var effective := if e in entityAcls then entityAcls[e] else defaultAcl;
        entityAcls := entityAcls[e := acl.OrWith(effective)];
        rest := rest - {e};
      }
      assert ids - rest == ids;
    }

    method AllowFullAccessFor(ids: set<EntityId>)
      modifies this
      ensures Value() == After(old(Value()), Call.AllowFullAccessFor(ids))
    {
      AppendEntitySpecsWithOr(ids, FULL_ACCESS);
    }

    method DenyFullAccessFor(ids: set<EntityId>)
      modifies this
      ensures Value() == After(old(Value()), Call.DenyFullAccessFor(ids))
    {
      AppendEntitySpecsWithAnd(ids, NO_ACCESS);
    }

    method AllowReadFor(ids: set<EntityId>)
      modifies this
      ensures Value() == After(old(Value()), Call.AllowReadFor(ids))
    {
      AppendEntitySpecsWithOr(ids, Access(true, false));
    }

    method AllowWriteFor(ids: set<EntityId>)
      modifies this
      ensures Value() == After(old(Value()), Call.AllowWriteFor(ids))
    {
      AppendEntitySpecsWithOr(ids, Access(false, true));
    }

    method DenyReadFor(ids: set<EntityId>)
      modifies this
      ensures Value() == After(old(Value()), Call.DenyReadFor(ids))
    {
      AppendEntitySpecsWithAnd(ids, Access(false, true));
    }

    method DenyWriteFor(ids: set<EntityId>)
      modifies this
      ensures Value() == After(old(Value()), Call.DenyWriteFor(ids))
    {
      AppendEntitySpecsWithAnd(ids, Access(true, false));
    }

    method SetAccessFor(id: EntityId, acl: Access)
      modifies this
      ensures Value() == After(old(Value()), Call.SetAccessFor(id, acl))
    {
      entityAcls := entityAcls[id := acl];
    }

    method ClearAccessFor(ids: set<EntityId>)
      modifies this
      ensures Value() == After(old(Value()), Call.ClearAccessFor(ids))
    {
      var rest := ids;
      while rest != {}
        invariant rest <= ids && entityAcls == old(entityAcls) - (ids - rest)
        decreases rest
      {
        var e :| e in rest;
        entityAcls := entityAcls - {e};
        rest := rest - {e};
      }
      assert ids - rest == ids;
    }

    /** Only entities both specs mention are compared, in the unspecified order of a hash map. */
    method IsCompatibleWith(other: WorldACLSpec) returns (code: StatusCode)
      ensures code == if CompatibleWhereBoth(Value(), other.Value()) then OkCode else PermissionDenied
      ensures code.OkCode? <==> forall e :: e in entityAcls && e in other.entityAcls ==>
                                  Coexist(entityAcls[e], other.entityAcls[e])
    {
      CheckMeans(Value(), other.Value());
      var rest := entityAcls.Keys;
      while rest != {}
        invariant rest <= entityAcls.Keys
        invariant forall e :: e in entityAcls && e !in rest && e in other.entityAcls ==>
                    entityAcls[e].IsCompatible(other.entityAcls[e])
        decreases rest
      {
        var e :| e in rest;
        rest := rest - {e};
        if e !in other.entityAcls {
          continue;
        }
        if !entityAcls[e].IsCompatible(other.entityAcls[e]) {
          return PermissionDenied;
        }
      }
      return OkCode;
    }
  }

  // ---------- The last call that decides ----------

  /** What a call decides about a permission of an entity, if anything. */
  function Verdict(c: Call, default: Access, e: EntityId, p: Permission): Option<bool> {
    match c
    case AllowFullAccessFor(ids) => if e in ids then Some(true) else None
    case DenyFullAccessFor(ids) => if e in ids then Some(false) else None
    case AllowReadFor(ids) => if e in ids && p.Read? then Some(true) else None
    case AllowWriteFor(ids) => if e in ids && p.Write? then Some(true) else None
    case DenyReadFor(ids) => if e in ids && p.Read? then Some(false) else None
    case DenyWriteFor(ids) => if e in ids && p.Write? then Some(false) else None
    case SetAccessFor(id, acl) => if e == id then Some(acl.Grants(p)) else None
    case ClearAccessFor(ids) => if e in ids then Some(default.Grants(p)) else None
  }

  /** Call k is the last that decides the permission; none does if k is -1. */
  ghost predicate IsLastDecider(calls: seq<Call>, default: Access, e: EntityId, p: Permission, k: int) {
    && -1 <= k < |calls|
    && (k >= 0 ==> Verdict(calls[k], default, e, p).Some?)
    && (forall j :: k < j < |calls| ==> Verdict(calls[j], default, e, p).None?)
  }

  lemma OneCallDecides(s: Spec, c: Call, e: EntityId, p: Permission)
    ensures After(s, c).default == s.default
    ensures After(s, c).For(e).Grants(p) ==
            match Verdict(c, s.default, e, p)
            case Some(value) => value
            case None => s.For(e).Grants(p)
  {
  }

  /** The last call that decides a permission of an entity gives its effective value, whatever came before it. */
  lemma {:induction false} LastDeciderWins(s: Spec, calls: seq<Call>, e: EntityId, p: Permission, k: int)
    requires IsLastDecider(calls, s.default, e, p, k)
    ensures AfterAll(s, calls).default == s.default
    ensures AfterAll(s, calls).For(e).Grants(p) ==
            if k < 0 then s.For(e).Grants(p) else Verdict(calls[k], s.default, e, p).value
  {
    hide After, Verdict, Spec.For, Access.Grants;
    if calls != [] {
      var n := |calls| - 1;
      DefaultKept(s, calls[..n]);
      OneCallDecides(AfterAll(s, calls[..n]), calls[n], e, p);
      if k < n {
        assert forall j :: 0 <= j < n ==> calls[..n][j] == calls[j];
        LastDeciderWins(s, calls[..n], e, p, k);
      }
    }
  }

  lemma {:induction false} DefaultKept(s: Spec, calls: seq<Call>)
    ensures AfterAll(s, calls).default == s.default
  {
    if calls != [] {
      DefaultKept(s, calls[..|calls| - 1]);
    }
  }

  // ---------- Compatibility ----------

  /** What IsCompatibleWith checks. */
  ghost predicate CompatibleWhereBoth(s: Spec, t: Spec) {
    forall e :: e in s.acls && e in t.acls ==> s.acls[e].IsCompatible(t.acls[e])
  }

  lemma CompatibleMeans(a: Access, b: Access)
    ensures a.IsCompatible(b) <==> Coexist(a, b)
  {
    assert (exists p :: a.Grants(p)) <==> a.Grants(Read) || a.Grants(Write);
    assert (exists p :: b.Grants(p)) <==> b.Grants(Read) || b.Grants(Write);
  }

  lemma CheckMeans(s: Spec, t: Spec)
    ensures CompatibleWhereBoth(s, t) <==> forall e :: e in s.acls && e in t.acls ==> Coexist(s.acls[e], t.acls[e])
  {
    forall e | e in s.acls && e in t.acls ensures s.acls[e].IsCompatible(t.acls[e]) <==> Coexist(s.acls[e], t.acls[e]) {
      CompatibleMeans(s.acls[e], t.acls[e]);
    }
  }

  /** What it is for: no entity may be written by one spec and read or written by the other. */
  ghost predicate CompatibleEverywhere(s: Spec, t: Spec) {
    forall e: EntityId :: s.For(e).IsCompatible(t.For(e))
  }

  lemma CompatibleSymmetric(s: Spec, t: Spec)
    ensures CompatibleWhereBoth(s, t) <==> CompatibleWhereBoth(t, s)
    ensures CompatibleEverywhere(s, t) <==> CompatibleEverywhere(t, s)
  {
    if CompatibleEverywhere(s, t) {
      forall e: EntityId ensures t.For(e).IsCompatible(s.For(e)) {
        assert s.For(e).IsCompatible(t.For(e));
      }
    }
    if CompatibleEverywhere(t, s) {
      forall e: EntityId ensures s.For(e).IsCompatible(t.For(e)) {
        assert t.For(e).IsCompatible(s.For(e));
      }
    }
  }

  /** The check decides compatibility over all entities if both defaults are NoAccess ... */
  lemma CheckIsPointwise(s: Spec, t: Spec)
    requires s.default == t.default == NO_ACCESS
    ensures CompatibleWhereBoth(s, t) <==> CompatibleEverywhere(s, t)
  {
    if CompatibleEverywhere(s, t) {
      forall e | e in s.acls && e in t.acls ensures s.acls[e].IsCompatible(t.acls[e]) {
        assert s.For(e).IsCompatible(t.For(e));
      }
    }
  }

  ghost predicate CheckDecides(a: Access, b: Access) {
    forall s: Spec, t: Spec :: s.default == a && t.default == b ==> (CompatibleWhereBoth(s, t) <==> CompatibleEverywhere(s, t))
  }

  /** ... and for no other defaults: then it accepts specs that conflict on an entity only one of them mentions. */
  lemma CheckDecidesIff(a: Access, b: Access)
    ensures CheckDecides(a, b) <==> a == NO_ACCESS && b == NO_ACCESS
  {
    if a == NO_ACCESS && b == NO_ACCESS {
      forall s: Spec, t: Spec | s.default == a && t.default == b
        ensures CompatibleWhereBoth(s, t) <==> CompatibleEverywhere(s, t)
      {
        CheckIsPointwise(s, t);
      }
    } else {
      var e: EntityId := 2;
      var s, t := Spec(map[], a), Spec(map[], b);
      if a == NO_ACCESS {
        s := s.(acls := map[e := FULL_ACCESS]);
      } else {
        t := t.(acls := map[e := FULL_ACCESS]);
      }
      assert CompatibleWhereBoth(s, t) && !s.For(e).IsCompatible(t.For(e));
    }
  }

  /**
   * Specs that pass the check pairwise give each entity one exclusive writer or readers only, if their defaults are
   * NoAccess: whoever may write it is the only one with any access.
   */
  lemma OneWriterOrReaders(family: seq<Spec>, e: EntityId, w: nat, other: nat)
    requires forall i :: 0 <= i < |family| ==> family[i].default == NO_ACCESS
    requires forall i, j :: 0 <= i < j < |family| ==> CompatibleWhereBoth(family[i], family[j])
    requires w < |family| && other < |family| && w != other && family[w].For(e).Grants(Write)
    ensures family[other].For(e) == NO_ACCESS
  {
    var i, j := if w < other then w else other, if w < other then other else w;
    CheckIsPointwise(family[i], family[j]);
    assert family[i].For(e).IsCompatible(family[j].For(e));
  }

  ghost predicate PairsPass(family: seq<Spec>) {
    forall i, j :: 0 <= i < j < |family| ==> CompatibleWhereBoth(family[i], family[j])
  }

  ghost predicate HasAccess(a: Access) {
    exists p :: a.Grants(p)
  }

  /** Nobody may write the entity, or only one spec gives any access to it. */
  ghost predicate NoWriterOrAlone(family: seq<Spec>, e: EntityId) {
    || (forall i :: 0 <= i < |family| ==> !family[i].For(e).Grants(Write))
    || (forall i, j :: 0 <= i < j < |family| ==> !(HasAccess(family[i].For(e)) && HasAccess(family[j].For(e))))
  }

  lemma PassedPairCoexists(family: seq<Spec>, i: nat, j: nat, e: EntityId)
    requires forall k :: 0 <= k < |family| ==> family[k].default == NO_ACCESS
    requires PairsPass(family) && i < j < |family|
    ensures Coexist(family[i].For(e), family[j].For(e))
  {
    CheckIsPointwise(family[i], family[j]);
    assert family[i].For(e).IsCompatible(family[j].For(e));
    CompatibleMeans(family[i].For(e), family[j].For(e));
  }

  lemma PassedEntity(family: seq<Spec>, e: EntityId)
    requires forall k :: 0 <= k < |family| ==> family[k].default == NO_ACCESS
    requires PairsPass(family)
    ensures NoWriterOrAlone(family, e)
  {
    hide PairsPass, Spec.For, Access.Grants;
    if w :| 0 <= w < |family| && family[w].For(e).Grants(Write) {
      assert HasAccess(family[w].For(e));
      forall i, j | 0 <= i < j < |family| ensures !(HasAccess(family[i].For(e)) && HasAccess(family[j].For(e))) {
        if i != w && i < w { PassedPairCoexists(family, i, w, e); }
        if i != w && w < i { PassedPairCoexists(family, w, i, e); }
        if j != w && j < w { PassedPairCoexists(family, j, w, e); }
        if j != w && w < j { PassedPairCoexists(family, w, j, e); }
      }
    }
  }

  /** And these are all the families that pass: readers may always share, and a writer may be alone. */
  lemma PairsPassIff(family: seq<Spec>)
    requires forall k :: 0 <= k < |family| ==> family[k].default == NO_ACCESS
    ensures PairsPass(family) <==> forall e: EntityId :: NoWriterOrAlone(family, e)
  {
    if PairsPass(family) {
      forall e: EntityId ensures NoWriterOrAlone(family, e) {
        PassedEntity(family, e);
      }
    }
    if forall e: EntityId :: NoWriterOrAlone(family, e) {
      forall i, j | 0 <= i < j < |family| ensures CompatibleWhereBoth(family[i], family[j]) {
        forall e: EntityId ensures family[i].For(e).IsCompatible(family[j].For(e)) {
          assert NoWriterOrAlone(family, e);
          CompatibleMeans(family[i].For(e), family[j].For(e));
        }
        CheckIsPointwise(family[i], family[j]);
      }
    }
  }

  /**
   * Narrowing is permitted exactly if it takes permissions away only, and then what was compatible stays so.
   */
  lemma NarrowingOnlyTakesAway(a: Access, narrow: Access, other: Access)
    ensures a.CanNarrowTo(narrow).OkCode? <==> forall p :: narrow.Grants(p) ==> a.Grants(p)
    ensures a.CanNarrowTo(narrow).OkCode? && a.IsCompatible(other) ==> narrow.IsCompatible(other)
  {
    assert a.CanNarrowTo(narrow).OkCode? <==>
           (narrow.Grants(Read) ==> a.Grants(Read)) && (narrow.Grants(Write) ==> a.Grants(Write));
  }
}
