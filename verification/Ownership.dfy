/** Ownership records: one authority set per workspace and one registry shared by all. */
module Ownership {
  import opened Paths

  type WorkflowId = string

  /** A local workflow's claim. An empty access list is an opaque claim. */
  datatype Owner = Owner(id: WorkflowId, workspace: Path, acquiredAt: nat, accesses: seq<Access>, partitioned: bool)

  /** Stable claim identity, excluding only acquisition time. */
  predicate SameClaim(a: Owner, b: Owner) {
    a.(acquiredAt := 0) == b.(acquiredAt := 0)
  }

  predicate OwnersConflict(a: Owner, b: Owner) {
    a.accesses == [] || b.accesses == [] || AnyConflict(a.accesses, b.accesses)
  }

  predicate ReadClaim(a: Owner) {
    a.accesses != [] && forall x :: x in a.accesses ==> !x.writes
  }

  /** Two claims that one authority may record side by side. */
  predicate Compatible(a: Owner, b: Owner) {
    (ReadClaim(a) && ReadClaim(b)) || (a.partitioned && b.partitioned && !OwnersConflict(a, b))
  }

  /** Claims are the same when they agree on everything but the time. */
  lemma SameClaimMeans(a: Owner, b: Owner)
    ensures SameClaim(a, b) <==> a.id == b.id && a.workspace == b.workspace && a.accesses == b.accesses && a.partitioned == b.partitioned
  {
  }

  /** Paths of two claims that must not be used at once. */
  ghost predicate Contend(a: Owner, b: Owner) {
    exists x, y :: x in a.accesses && y in b.accesses && (x.writes || y.writes) && (x.path <= y.path || y.path <= x.path)
  }

  /**
    * Claims that may be registered together, and those that one authority may record together, never contend;
    * an opaque claim is alone. The registry asks no more, the authority also that both be reads or both partitioned.
    */
  lemma CompatibleMeans(a: Owner, b: Owner)
    ensures !OwnersConflict(a, b) <==> a.accesses != [] && b.accesses != [] && !Contend(a, b)
    ensures Compatible(a, b) <==>
            && a.accesses != [] && b.accesses != [] && !Contend(a, b)
            && ((a.partitioned && b.partitioned) || forall x :: x in a.accesses + b.accesses ==> !x.writes)
  {
    if a.accesses != [] && b.accesses != [] && AnyConflict(a.accesses, b.accesses) {
      var x, y :| x in a.accesses && y in b.accesses && Conflict(x, y);
    }
    if x, y :| x in a.accesses && y in b.accesses && (x.writes || y.writes) && (x.path <= y.path || y.path <= x.path) {
      assert Conflict(x, y);
    }
    if ReadClaim(a) && ReadClaim(b) {
      assert forall x :: x in a.accesses + b.accesses ==> !x.writes;
    }
    if forall x :: x in a.accesses + b.accesses ==> !x.writes {
      assert forall x :: x in a.accesses || x in b.accesses ==> x in a.accesses + b.accesses;
    }
  }

  type Records = map<WorkflowId, Owner>

  /** Every record sits under its own workflow id; others are malformed. */
  predicate FiledById(records: Records) {
    forall id :: id in records ==> records[id].id == id
  }

  /** What a store transaction would do; `Refused` raises and commits nothing. */
  datatype Acquisition = Refused | Found(current: Owner) | Inserted(records: Records)

  function AuthorityAcquire(records: Records, owner: Owner): Acquisition {
    if owner.id in records then
      if SameClaim(records[owner.id], owner) then Found(records[owner.id]) else Refused
    else if forall id :: id in records ==> Compatible(owner, records[id]) then Inserted(records[owner.id := owner])
    else Refused
  }

  function RegistryAcquire(records: Records, owner: Owner): Acquisition {
    if owner.id in records then
      if records[owner.id] == owner then Found(owner) else Refused
    else if forall id :: id in records ==> !OwnersConflict(owner, records[id]) then Inserted(records[owner.id := owner])
    else Refused
  }

  datatype Removal = NotOurs | Nothing | Removed(records: Records)

  /** An empty authority has nothing to release; one held by others refuses. */
  function AuthorityRelease(records: Records, id: WorkflowId): Removal {
    if records == map[] then Nothing
    else if id in records then Removed(records - {id})
    else NotOurs
  }

  function RegistryRelease(records: Records, id: WorkflowId): Records {
    records - {id}
  }

  /**
    * How a transaction ends: normally, or with an error. An error normally means nothing was
    * committed; when undoing a failed append fails too, the commit may have happened.
    */
  datatype Fault = Healthy | Raised(committed: bool)

  /** The records after a transaction that would write `next`. */
  function Commit(before: Records, next: Records, fault: Fault): Records {
    if fault.Healthy? || fault.committed then next else before
  }

  /** Every error is known to have committed nothing. */
  predicate Known(fault: Fault) {
    fault.Raised? ==> !fault.committed
  }

  // What every transaction keeps.

  /** All claims of an authority may stand side by side. */
  ghost predicate SideBySide(records: Records) {
    forall a, b :: a in records && b in records && a != b ==> Compatible(records[a], records[b])
  }

  /** No two registered claims conflict. */
  ghost predicate Apart(records: Records) {
    forall a, b :: a in records && b in records && a != b ==> !OwnersConflict(records[a], records[b])
  }

  /** A transaction of the owner's adds or removes its own record, or changes nothing. */
  predicate OwnAuthority(records: Records, records': Records, owner: Owner) {
    var claim := AuthorityAcquire(records, owner);
    records' == records || records' == records - {owner.id} || (claim.Inserted? && records' == claim.records)
  }

  predicate OwnRegistry(records: Records, records': Records, owner: Owner) {
    var claim := RegistryAcquire(records, owner);
    records' == records || records' == records - {owner.id} || (claim.Inserted? && records' == claim.records)
  }

  lemma ConflictSymmetric(a: Owner, b: Owner)
    requires OwnersConflict(a, b)
    ensures OwnersConflict(b, a)
  {
    if a.accesses != [] && b.accesses != [] {
      var x, y :| x in a.accesses && y in b.accesses && Conflict(x, y);
      assert Conflict(y, x);
    }
  }

  /** An authority's claims stay compatible, whatever its transactions add or remove. */
  lemma AuthorityStands(records: Records, records': Records, owner: Owner)
    requires SideBySide(records) && OwnAuthority(records, records', owner)
    ensures SideBySide(records')
  {
    if AuthorityAcquire(records, owner).Inserted? {
      forall id | id in records ensures Compatible(records[id], owner) {
        assert Compatible(owner, records[id]);
        if OwnersConflict(records[id], owner) {
          ConflictSymmetric(records[id], owner);
        }
      }
    }
  }

  /** And registered claims stay free of conflicts. */
  lemma RegistryStands(records: Records, records': Records, owner: Owner)
    requires Apart(records) && OwnRegistry(records, records', owner)
    ensures Apart(records')
  {
    if RegistryAcquire(records, owner).Inserted? {
      forall id | id in records ensures !OwnersConflict(records[id], owner) {
        if OwnersConflict(records[id], owner) {
          ConflictSymmetric(records[id], owner);
        }
      }
    }
  }

  /** A held claim of the same id is another one, or one of another id is incompatible. */
  predicate ClaimRefused(records: Records, owner: Owner) {
    if owner.id in records then !SameClaim(records[owner.id], owner)
    else exists id :: id in records && !Compatible(owner, records[id])
  }

  predicate EntryRefused(records: Records, owner: Owner) {
    if owner.id in records then records[owner.id] != owner
    else exists id :: id in records && OwnersConflict(owner, records[id])
  }

  function AuthorityAfter(records: Records, owner: Owner, fault: Fault): Records {
    match AuthorityAcquire(records, owner)
    case Inserted(inserted) => Commit(records, inserted, fault)
    case _ => records
  }

  function RegistryAfter(registry: Records, owner: Owner, fault: Fault): Records {
    match RegistryAcquire(registry, owner)
    case Inserted(records) => Commit(registry, records, fault)
    case _ => registry
  }

  lemma AcquireStands(records: Records, owner: Owner, fault: Fault)
    ensures SideBySide(records) ==> SideBySide(AuthorityAfter(records, owner, fault))
  {
    if SideBySide(records) {
      AuthorityStands(records, AuthorityAfter(records, owner, fault), owner);
    }
  }

  lemma RegisterStands(records: Records, owner: Owner, fault: Fault)
    ensures Apart(records) ==> Apart(RegistryAfter(records, owner, fault))
  {
    if Apart(records) {
      RegistryStands(records, RegistryAfter(records, owner, fault), owner);
    }
  }

  // One workflow's release and acquire, store operation by store operation.

  /** The two stores as one workflow sees them. */
  datatype Stores = Stores(authority: Records, registry: Records)

  ghost predicate AuthorityHas(s: Stores, owner: Owner) {
    owner.id in s.authority && s.authority[owner.id] == owner
  }

  ghost predicate RegistryHas(s: Stores, owner: Owner) {
    owner.id in s.registry && s.registry[owner.id] == owner
  }

  /** Both sides hold the claim. */
  ghost predicate Complete(s: Stores, owner: Owner) {
    AuthorityHas(s, owner) && RegistryHas(s, owner)
  }

  /** The half claim that must never appear: it looks owned but excludes nobody elsewhere. */
  ghost predicate AuthorityOnly(s: Stores, owner: Owner) {
    AuthorityHas(s, owner) && owner.id !in s.registry
  }

  /** What inspecting a claim finds, and what probing its liveness lock does. */
  datatype Liveness = Unowned | Live | Dead | Uncertain

  datatype LockProbe = LockHeld | LockFree | LockUnknown

  /** The ownership records reached through the two stores. */
  class OwnershipRecords {
    var authority: Records
    var registry: Records

    function View(): Stores
      reads this
    {
      Stores(authority, registry)
    }

    constructor (authority: Records, registry: Records)
      ensures View() == Stores(authority, registry)
    {
      this.authority, this.registry := authority, registry;
    }

    /** Look at one held claim after another. */
    method AllCompatible(owner: Owner) returns (compatible: bool)
      ensures compatible <==> forall id :: id in authority ==> Compatible(owner, authority[id])
    {
      var left := authority.Keys;
      while left != {}
        invariant left <= authority.Keys && forall id :: id in authority && id !in left ==> Compatible(owner, authority[id])
        decreases |left|
      {
        var id :| id in left;
        if !Compatible(owner, authority[id]) {
          return false;
        }
        left := left - {id};
      }
      compatible := true;
    }

    /** The same in the registry. */
    method NoneConflicts(owner: Owner) returns (free: bool)
      ensures free <==> forall id :: id in registry ==> !OwnersConflict(owner, registry[id])
    {
      var left := registry.Keys;
      while left != {}
        invariant left <= registry.Keys && forall id :: id in registry && id !in left ==> !OwnersConflict(owner, registry[id])
        decreases |left|
      {
        var id :| id in left;
        if OwnersConflict(owner, registry[id]) {
          return false;
        }
        left := left - {id};
      }
      free := true;
    }

    /**
      * Add a claim to the authority set, once every held claim was found compatible; `raised` when the
      * transaction reports an error.
      */
    method AcquireAuthority(owner: Owner, fault: Fault) returns (raised: bool, added: bool, persisted: Owner)
      modifies this`authority
      ensures raised <==> fault.Raised? || ClaimRefused(old(authority), owner)
      ensures !raised ==> owner.id in authority && SameClaim(authority[owner.id], owner) && persisted == authority[owner.id]
      ensures added <==> !raised && owner.id !in old(authority)
      ensures authority - {owner.id} == old(authority) - {owner.id} && old(authority).Keys <= authority.Keys
      ensures owner.id in old(authority) || (raised && Known(fault)) ==> authority == old(authority)
      ensures SideBySide(old(authority)) ==> SideBySide(authority)
      ensures authority == AuthorityAfter(old(authority), owner, fault)
    {
      raised, added, persisted := fault.Raised?, false, owner;
      if owner.id in authority {
        persisted := authority[owner.id];
        raised := raised || !SameClaim(persisted, owner);
        return;
      }
      var compatible := AllCompatible(owner);
      if !compatible {
        raised := true;
        return;
      }
      AcquireStands(authority, owner, fault);
      if fault.Healthy? || fault.committed {
        authority := authority[owner.id := owner];
      }
      added := !raised;
    }

    /** Take a claim back. An authority held only by others refuses. */
    method ReleaseAuthority(id: WorkflowId, fault: Fault) returns (raised: bool, removed: bool)
      modifies this`authority
      ensures raised <==> fault.Raised? || (old(authority) != map[] && id !in old(authority))
      ensures removed <==> !raised && id in old(authority)
      ensures authority - {id} == old(authority) - {id} && authority.Keys <= old(authority).Keys
      ensures id in authority ==> raised
      ensures raised && Known(fault) ==> authority == old(authority)
      ensures SideBySide(old(authority)) ==> SideBySide(authority)
      ensures
        match AuthorityRelease(old(authority), id)
        case Removed(records) => authority == Commit(old(authority), records, fault)
        case _ => authority == old(authority)
    {
      raised, removed := fault.Raised?, false;
      if authority == map[] {
        return;
      }
      if id !in authority {
        raised := true;
        return;
      }
      if fault.Healthy? || fault.committed {
        authority := authority - {id};
      }
      removed := !raised;
    }

    /** Register a claim, once every registered claim was found free of conflict with it. */
    method AcquireRegistry(owner: Owner, fault: Fault) returns (raised: bool)
      modifies this`registry
      ensures raised <==> fault.Raised? || EntryRefused(old(registry), owner)
      ensures !raised ==> owner.id in registry && registry[owner.id] == owner
      ensures registry - {owner.id} == old(registry) - {owner.id} && old(registry).Keys <= registry.Keys
      ensures owner.id in old(registry) || (raised && Known(fault)) ==> registry == old(registry)
      ensures Apart(old(registry)) ==> Apart(registry)
      ensures registry == RegistryAfter(old(registry), owner, fault)
    {
      raised := fault.Raised?;
      if owner.id in registry {
        raised := raised || registry[owner.id] != owner;
        return;
      }
      var free := NoneConflicts(owner);
      if !free {
        raised := true;
        return;
      }
      RegisterStands(registry, owner, fault);
      if fault.Healthy? || fault.committed {
        registry := registry[owner.id := owner];
      }
    }

    /** Strike an entry, if there is one. */
    method ReleaseRegistry(id: WorkflowId, fault: Fault) returns (raised: bool, removed: bool)
      modifies this`registry
      ensures raised <==> fault.Raised?
      ensures removed <==> !raised && id in old(registry)
      ensures registry - {id} == old(registry) - {id} && registry.Keys <= old(registry).Keys
      ensures id in registry ==> raised
      ensures raised && Known(fault) ==> registry == old(registry)
      ensures Apart(old(registry)) ==> Apart(registry)
      ensures registry == Commit(old(registry), RegistryRelease(old(registry), id), fault)
    {
      raised, removed := fault.Raised?, fault.Healthy? && id in registry;
      if id in registry && (fault.Healthy? || fault.committed) {
        registry := registry - {id};
      }
      assert id !in old(registry) ==> old(registry) - {id} == old(registry);
    }

    /**
      * Remove an authority/registry pair, authority first. The outcome of each of the three store
      * operations is given by a fault; from a complete claim the result is exactly characterised.
      */
    method ReleaseOwnerRecords(owner: Owner, remove: Fault, unregister: Fault, restore: Fault) returns (raised: bool)
      modifies this
      ensures View() == ReleasedStores(old(View()), owner, remove, unregister, restore)
      ensures raised <==>
              || remove.Raised? || (owner.id in old(authority) && unregister.Raised?)
              || (owner.id !in old(authority) && old(authority) != map[])
    {
      var removed;
      raised, removed := ReleaseAuthority(owner.id, remove);
      if !raised && removed {
        var struck;
        raised, struck := ReleaseRegistry(owner.id, unregister);
        if raised {
          var r, a, p := AcquireAuthority(owner, restore);
        }
      }
    }

    /** Claim the authority, then the registry, undoing the first when the second fails. */
    method AcquireRecords(owner: Owner, claim: Fault, register: Fault, rollback: Fault, restore: Fault) returns (raised: bool)
      modifies this
      ensures View() == AcquiredStores(old(View()), owner, claim, register, rollback, restore)
      ensures raised <==> AcquireFails(old(View()), owner, claim, register)
    {
      var added, persisted;
      raised, added, persisted := AcquireAuthority(owner, claim);
      if !raised {
        raised := AcquireRegistry(persisted, register);
        if raised && added {
          var failed, _ := ReleaseAuthority(owner.id, rollback);
          if failed {
            var _ := AcquireRegistry(persisted, restore);
          }
        }
      }
    }

    /**
      * Inspect one workflow's claim. It is dead only with a matching registry entry and a free lock;
      * a claim that stands in the authority alone is uncertain, whatever its lock says.
      */
    method InspectOwnership(id: WorkflowId, readable: bool, probe: LockProbe) returns (liveness: Liveness)
      ensures liveness.Dead? <==> readable && FiledById(authority) && probe.LockFree? && id in authority && Complete(View(), authority[id])
      ensures liveness.Live? <==> readable && FiledById(authority) && probe.LockHeld? && id in authority && Complete(View(), authority[id])
      ensures liveness.Unowned? <==> readable && authority == map[]
      ensures id in authority && AuthorityOnly(View(), authority[id]) ==> liveness.Uncertain?
    {
      if !readable || !FiledById(authority) {
        liveness := Uncertain;
      } else if id !in authority {
        liveness := if authority == map[] then Unowned else Uncertain;
      } else if id !in registry || registry[id] != authority[id] {
        liveness := Uncertain;
      } else {
        liveness := match probe case LockHeld => Live case LockFree => Dead case LockUnknown => Uncertain;
      }
    }

    /** Release a demonstrably dead owner; refuse a live or uncertain one and change nothing. */
    method ReconcileOwnership(id: WorkflowId, readable: bool, probe: LockProbe, remove: Fault, unregister: Fault, restore: Fault)
      returns (raised: bool, liveness: Liveness)
      modifies this
      ensures liveness.Live? || liveness.Uncertain? ==> raised
      ensures !liveness.Dead? ==> View() == old(View())
      ensures liveness.Dead? ==>
                && probe.LockFree? && id in old(authority) && Complete(old(View()), old(authority[id]))
                && View() == ReleasedStores(old(View()), old(authority[id]), remove, unregister, restore)
                && (raised <==> remove.Raised? || unregister.Raised?)
    {
      liveness := InspectOwnership(id, readable, probe);
      raised := !liveness.Unowned?;
      if liveness.Dead? {
        raised := ReleaseOwnerRecords(authority[id], remove, unregister, restore);
      }
    }
  }

  /** The stores after a release whose store operations end as given. */
  function ReleasedStores(s: Stores, owner: Owner, remove: Fault, unregister: Fault, restore: Fault): Stores {
    match AuthorityRelease(s.authority, owner.id)
    case NotOurs => s
    case Nothing => s
    case Removed(records) =>
      var authority := Commit(s.authority, records, remove);
      if remove.Raised? then s.(authority := authority)
      else
        var registry := Commit(s.registry, RegistryRelease(s.registry, owner.id), unregister);
        if unregister.Healthy? then Stores(authority, registry)
        else
          match AuthorityAcquire(authority, owner)
          case Inserted(restored) => Stores(Commit(authority, restored, restore), registry)
          case _ => Stores(authority, registry)
  }

  /** Whether an acquire reports failure: either store refuses or raises. */
  predicate AcquireFails(s: Stores, owner: Owner, claim: Fault, register: Fault) {
    var a := AuthorityAcquire(s.authority, owner);
    a.Refused? || claim.Raised? || register.Raised? || RegistryAcquire(s.registry, if a.Found? then a.current else owner).Refused?
  }

  /** The stores after an acquire whose store operations end as given. */
  function AcquiredStores(s: Stores, owner: Owner, claim: Fault, register: Fault, rollback: Fault, restore: Fault): Stores {
    match AuthorityAcquire(s.authority, owner)
    case Refused => s
    case Found(current) =>
      if claim.Raised? then s else s.(registry := RegistryAfter(s.registry, current, register))
    case Inserted(records) =>
      var authority := Commit(s.authority, records, claim);
      if claim.Raised? then s.(authority := authority)
      else
        var registry := RegistryAfter(s.registry, owner, register);
        if !AcquireFails(s, owner, claim, register) then Stores(authority, registry)
        else
          var back := Commit(authority, authority - {owner.id}, rollback);
          Stores(back, if rollback.Raised? then RegistryAfter(registry, owner, restore) else registry)
  }

  lemma RestoreFits(records: Records, owner: Owner)
    requires owner.id in records && records[owner.id] == owner
    requires forall id :: id in records && id != owner.id ==> Compatible(owner, records[id])
    ensures AuthorityAcquire(records - {owner.id}, owner) == Inserted(records)
  {
    assert (records - {owner.id})[owner.id := owner] == records;
  }

  /**
    * From a complete claim a release ends with both records, neither, or the registry record
    * alone. The authority record alone is left behind exactly when removing the registry entry
    * took effect although it raised, and the authority was then put back.
    */
  lemma ReleaseClosure(s: Stores, owner: Owner, remove: Fault, unregister: Fault, restore: Fault)
    requires Complete(s, owner) && forall id :: id in s.authority && id != owner.id ==> Compatible(owner, s.authority[id])
    ensures
      var after := ReleasedStores(s, owner, remove, unregister, restore);
      && (AuthorityOnly(after, owner) <==> remove.Healthy? && unregister == Raised(true) && restore != Raised(false))
      && (Complete(after, owner) <==> remove == Raised(false) || (remove.Healthy? && unregister == Raised(false) && restore != Raised(false)))
      && (owner.id !in after.authority && owner.id !in after.registry <==>
          remove.Healthy? && (unregister.Healthy? || (unregister == Raised(true) && restore == Raised(false))))
      && (forall id :: id != owner.id ==>
                         (id in after.authority <==> id in s.authority) && (id in after.registry <==> id in s.registry))
  {
    RestoreFits(s.authority, owner);
  }

  /**
    * What a release ends with whenever the authority has the claim, registered or not: the authority record
    * stays exactly when removing it failed, or was undone after removing the registry entry raised; an entry
    * stays exactly when there was one and its removal was not reached or failed. An absent entry is no failure.
    */
  lemma ReleaseOutcome(s: Stores, owner: Owner, remove: Fault, unregister: Fault, restore: Fault)
    requires AuthorityHas(s, owner) && forall id :: id in s.authority && id != owner.id ==> Compatible(owner, s.authority[id])
    ensures
      var after := ReleasedStores(s, owner, remove, unregister, restore);
      && after.authority ==
         (if remove == Raised(false) || (remove.Healthy? && unregister.Raised? && restore != Raised(false)) then s.authority else s.authority - {owner.id})
      && after.registry == (if remove.Raised? || unregister == Raised(false) then s.registry else s.registry - {owner.id})
  {
    RestoreFits(s.authority, owner);
  }

  /** When both removals end well the workflow is in neither store, whatever the registry had. */
  lemma ReleaseClears(s: Stores, owner: Owner, restore: Fault)
    requires owner.id in s.authority
    ensures ReleasedStores(s, owner, Healthy, Healthy, restore) == Stores(s.authority - {owner.id}, s.registry - {owner.id})
  {
  }

  /** From an authority record alone, as a partial release may leave it, releasing again ends with it or with nothing. */
  lemma ReleaseAgain(s: Stores, owner: Owner, remove: Fault, unregister: Fault, restore: Fault)
    requires AuthorityOnly(s, owner) && forall id :: id in s.authority && id != owner.id ==> Compatible(owner, s.authority[id])
    ensures
      var after := ReleasedStores(s, owner, remove, unregister, restore);
      && (AuthorityOnly(after, owner) <==> remove == Raised(false) || (remove.Healthy? && unregister.Raised? && restore != Raised(false)))
      && (!AuthorityOnly(after, owner) ==> owner.id !in after.authority)
      && after.registry == s.registry
  {
    ReleaseOutcome(s, owner, remove, unregister, restore);
    assert s.registry - {owner.id} == s.registry;
  }

  /** Without a record of the workflow in the authority nothing happens. */
  lemma ReleaseNothing(s: Stores, owner: Owner, remove: Fault, unregister: Fault, restore: Fault)
    requires owner.id !in s.authority
    ensures ReleasedStores(s, owner, remove, unregister, restore) == s
  {
  }

  /** With known outcomes no release leaves the authority record alone. */
  lemma ReleaseFailsClosed(s: Stores, owner: Owner, remove: Fault, unregister: Fault, restore: Fault)
    requires Complete(s, owner) && (forall id :: id in s.authority && id != owner.id ==> Compatible(owner, s.authority[id]))
    requires Known(remove) && Known(unregister) && Known(restore)
    ensures !AuthorityOnly(ReleasedStores(s, owner, remove, unregister, restore), owner)
  {
    ReleaseClosure(s, owner, remove, unregister, restore);
  }

  /**
    * A failed acquire of a new claim leaves both stores as they were, exactly unless an error hid
    * a commit or the rollback of its own authority record did not take effect.
    */
  lemma AcquireRestores(s: Stores, owner: Owner, claim: Fault, register: Fault, rollback: Fault, restore: Fault)
    requires AcquireFails(s, owner, claim, register) && AuthorityAcquire(s.authority, owner).Inserted?
    ensures
      var registered := RegistryAcquire(s.registry, owner);
      AcquiredStores(s, owner, claim, register, rollback, restore) == s <==>
      if claim.Raised? then !claim.committed
      else
        && rollback != Raised(false)
        && !(registered.Inserted? && (register == Raised(true) || (rollback == Raised(true) && restore != Raised(false))))
  {
    var records := AuthorityAcquire(s.authority, owner).records;
    assert records - {owner.id} == s.authority;
    assert owner.id !in s.authority;
  }

  /** A failed acquire of a claim that the authority already had leaves both stores as they were, exactly unless an error hid the registration. */
  lemma AcquireFoundRestores(s: Stores, owner: Owner, claim: Fault, register: Fault, rollback: Fault, restore: Fault)
    requires AcquireFails(s, owner, claim, register) && AuthorityAcquire(s.authority, owner).Found?
    ensures
      AcquiredStores(s, owner, claim, register, rollback, restore) == s <==>
      !(claim.Healthy? && register == Raised(true) && RegistryAcquire(s.registry, s.authority[owner.id]).Inserted?)
  {
  }

  /** An acquire that does not fail leaves one and the same claim in both stores, and all others as they were. */
  lemma AcquireCompletes(s: Stores, owner: Owner, claim: Fault, register: Fault, rollback: Fault, restore: Fault)
    requires !AcquireFails(s, owner, claim, register)
    ensures
      var after := AcquiredStores(s, owner, claim, register, rollback, restore);
      && owner.id in after.authority && SameClaim(after.authority[owner.id], owner)
      && (owner.id in s.authority ==> after.authority == s.authority)
      && (owner.id !in s.authority ==> after.authority == s.authority[owner.id := owner])
      && RegistryHas(after, after.authority[owner.id])
      && after.registry - {owner.id} == s.registry - {owner.id}
  {
  }

  /** With known outcomes a failed acquire restores both stores unless its own rollback raised. */
  lemma AcquireFailsClean(s: Stores, owner: Owner, claim: Fault, register: Fault, rollback: Fault, restore: Fault)
    requires AcquireFails(s, owner, claim, register)
    requires Known(claim) && Known(register) && rollback.Healthy?
    ensures AcquiredStores(s, owner, claim, register, rollback, restore) == s
  {
    if AuthorityAcquire(s.authority, owner).Inserted? {
      AcquireRestores(s, owner, claim, register, rollback, restore);
    }
  }
}
