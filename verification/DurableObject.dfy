/**
 * The package Durable Object (src/durable-objects.ts): the stored snapshot is loaded, changed and
 * saved around every registry operation, and `Materialize` is one whole request with no other
 * request in between. `AccessRefinesStorage` connects these cycles to the steps of `Protocol`.
 */
module DurableObject {
  import opened Common
  import opened Branches
  import opened VersionAllocation
  import opened PackageRegistryModel
  import opened RegistryInvariant
  import opened RegistryService
  import opened SnapshotLaws
  import opened ArtifactStore
  import opened Protocol
  import opened ProtocolInvariant

  // ----- one load-mutate-save cycle --------------------------------------------------------

  /** The registry a request sees: the stored one, or a new one if the request may create it. */
  function Loaded(stored: Option<RegistrySnapshot>, name: Option<PackageName>): Result<Registry> {
    match stored
    case None =>
      if name.None? then Err("package state has not been initialized") else Ok(NewRegistry(name.value))
    case Some(snap) =>
      match Restore(snap)
      case Err(message) => Err(message)
      case Ok(s) =>
        if name.Some? && s.name != name.value then Err("package identity does not match Durable Object state")
        else Ok(s)
  }

  /** A request sees only its own package's registry; without one it may create, it sees none. */
  lemma LoadsOwnPackage(stored: Option<RegistrySnapshot>, name: PackageName)
    ensures Loaded(stored, Some(name)).Ok? ==> Loaded(stored, Some(name)).value.name == name
    ensures stored.Some? && Restore(stored.value).Ok? && stored.value.name != name ==>
              Loaded(stored, Some(name)) == Err("package identity does not match Durable Object state")
    ensures Loaded(None, Some(name)) == Ok(NewRegistry(name))
    ensures Loaded(None, None) == Err("package state has not been initialized")
    ensures stored.Some? ==> Loaded(stored, None) == Restore(stored.value)
  {
    if stored.Some? {
      RestoresExactly(stored.value);
    }
  }

  /** Nothing is saved when anything throws, or when no job was granted. */
  ghost predicate Cycle(before: (string, string) -> bool, stored: Option<RegistrySnapshot>, name: Option<PackageName>,
                        op: Op, next: Option<RegistrySnapshot>, reply: Reply)
  {
    match Loaded(stored, name)
    case Err(message) => next == stored && reply == Threw(message)
    case Ok(s) =>
      && reply == Apply(before, s, op).1
      && if reply.Threw? || reply.NothingToLease? then next == stored
         else next.Some? && IsRegistrySnapshot(before, Apply(before, s, op).0, next.value)
  }

  class PackageDurableObject {
    var stored: Option<RegistrySnapshot>

    constructor ()
      ensures stored == None
    {
      stored := None;
    }

    method Load(name: Option<PackageName>) returns (r: Result<PackageRegistry>)
      ensures match Loaded(stored, name)
              case Ok(s) => r.Ok? && fresh(r.value) && fresh(r.value.allocator) && r.value.State() == s
              case Err(message) => r == Err(message)
    {
      if stored.Some? {
        r := PackageRegistry.FromSnapshot(stored.value);
        if r.Ok? && name.Some? && r.value.name != name.value {
          r := Err("package identity does not match Durable Object state");
        }
      } else if name.None? {
        r := Err("package state has not been initialized");
      } else {
        var allocator := new VersionAllocator();
        var registry := new PackageRegistry(name.value, allocator);
        r := Ok(registry);
      }
    }

    method Save(before: (string, string) -> bool, registry: PackageRegistry)
      requires StrictOrder(before)
      modifies this
      ensures stored.Some? && IsRegistrySnapshot(before, registry.State(), stored.value)
      ensures registry.State() == old(registry.State())
    {
      var snap := registry.Snapshot(before);
      stored := Some(snap);
    }

    method RefreshPackage(before: (string, string) -> bool, name: PackageName, d: Discovery) returns (reply: Reply)
      requires StrictOrder(before)
      modifies this
      ensures Cycle(before, old(stored), Some(name), Refresh(d), stored, reply)
    {
      var registry := Load(Some(name));
      if registry.Err? {
        return Threw(registry.error);
      }
      var created := registry.value.Refresh(d);
      if created.Err? {
        return Threw(created.error);
      }
      Save(before, registry.value);
      reply := Reply.Created(created.value);
    }

    method RecoverVersion(before: (string, string) -> bool, version: string, reason: string, recoveredAt: int)
      returns (reply: Reply)
      requires StrictOrder(before)
      modifies this
      ensures Cycle(before, old(stored), None, Recover(version, reason, recoveredAt), stored, reply)
    {
      var registry := Load(None);
      if registry.Err? {
        return Threw(registry.error);
      }
      var job := registry.value.RecoverVersion(version, reason, recoveredAt);
      if job.Err? {
        return Threw(job.error);
      }
      Save(before, registry.value);
      reply := Replaced(job.value);
    }

    method LeaseNext(before: (string, string) -> bool, now: int) returns (reply: Reply)
      requires StrictOrder(before)
      modifies this
      ensures Cycle(before, old(stored), None, Lease(now), stored, reply)
    {
      var registry := Load(None);
      if registry.Err? {
        return Threw(registry.error);
      }
      var job := registry.value.LeaseNext(before, now);
      if job.None? {
        return NothingToLease;
      }
      Save(before, registry.value);
      reply := Granted(job.value);
    }

    method ReleaseLease(before: (string, string) -> bool, version: string) returns (reply: Reply)
      requires StrictOrder(before)
      modifies this
      ensures Cycle(before, old(stored), None, Release(version), stored, reply)
    {
      var registry := Load(None);
      if registry.Err? {
        return Threw(registry.error);
      }
      var released := registry.value.ReleaseLease(version);
      if released.Err? {
        return Threw(released.error);
      }
      Save(before, registry.value);
      reply := Done;
    }

    method Finish(before: (string, string) -> bool, version: string, diagnostic: Option<Diagnostic>) returns (reply: Reply)
      requires StrictOrder(before)
      modifies this
      ensures Cycle(before, old(stored), None, Complete(version, diagnostic), stored, reply)
    {
      var registry := Load(None);
      if registry.Err? {
        return Threw(registry.error);
      }
      var completed: Result<()>;
      if diagnostic.None? {
        completed := registry.value.MarkReady(version);
      } else {
        completed := registry.value.MarkYanked(version, diagnostic.value);
      }
      if completed.Err? {
        return Threw(completed.error);
      }
      Save(before, registry.value);
      reply := Done;
    }

    /** The first access of `#materialize`. */
    method TakeLease(before: (string, string) -> bool, now: int, ghost s: Registry) returns (reply: Reply)
      requires StrictOrder(before) && HoldsRegistry(before, s, stored)
      modifies this
      ensures HoldsRegistry(before, ServiceNext(before, s, Lease(now)), stored)
      ensures reply.Granted? <==> ServiceReply(before, s, Lease(now)).Granted?
      ensures reply.Granted? ==> reply == ServiceReply(before, s, Lease(now))
    {
      reply := LeaseNext(before, now);
      CycleRefines(before, s, old(stored.value), Lease(now), stored, reply);
      ServiceNextValid(before, s, Lease(now));
    }

    /** Its last access: completion with an accepted outcome, else the lease's release. */
    method EndLease(before: (string, string) -> bool, version: string, ended: Option<Option<Diagnostic>>, ghost s: Registry)
      requires StrictOrder(before) && HoldsRegistry(before, s, stored)
      modifies this
      ensures HoldsRegistry(before, ServiceNext(before, s, EndOf(version, ended)), stored)
    {
      var reply: Reply;
      if ended.Some? {
        reply := Finish(before, version, ended.value);
      } else {
        reply := ReleaseLease(before, version);
      }
      CycleRefines(before, s, old(stored.value), EndOf(version, ended), stored, reply);
      ServiceNextValid(before, s, EndOf(version, ended));
    }

    /** One `#materialize` request; `answer` is the container's outcome, if it gave a usable one. */
    method Materialize(env: Environment, bucket: Bucket, now: int, answer: Option<Offer>, ghost s: Registry)
      requires StrictOrder(env.before) && HoldsRegistry(env.before, s, stored)
      modifies this, bucket
      ensures HoldsRegistry(env.before, Materialized(env, s, old(bucket.objects), now, answer).0, stored)
      ensures bucket.objects == Materialized(env, s, old(bucket.objects), now, answer).1
    {
      var lease := TakeLease(env.before, now, s);
      if lease.Granted? {
        var status := BAD_REQUEST;
        if answer.Some? {
          status := PublishArtifactBatch(env.host, bucket, Uploads(env.host, answer.value));
        }
        var ended := if IsOk(status) then Some(answer.value.diagnostic) else None;
        EndLease(env.before, lease.job.version, ended, ServiceNext(env.before, s, Lease(now)));
      }
    }
  }

  /** The stored snapshot is that of a valid registry. */
  ghost predicate HoldsRegistry(before: (string, string) -> bool, s: Registry, stored: Option<RegistrySnapshot>) {
    ValidRegistry(s) && stored.Some? && IsRegistrySnapshot(before, s, stored.value)
  }

  /** How a lease ends: with the outcome of an accepted batch, or without. */
  function EndOf(version: string, ended: Option<Option<Diagnostic>>): Op {
    if ended.Some? then Complete(version, ended.value) else Release(version)
  }

  /** What one undisturbed `#materialize` request does to the registry and the store. */
  ghost function Materialized(env: Environment, s: Registry, store: Store, now: int, answer: Option<Offer>)
    : (Registry, Store)
  {
    var leased := ServiceNext(env.before, s, Lease(now));
    var reply := ServiceReply(env.before, s, Lease(now));
    if !reply.Granted? then (leased, store)
    else
      var (next, status) :=
        if answer.None? then (store, BAD_REQUEST) else BatchStep(env.host, store, Uploads(env.host, answer.value));
      (ServiceNext(env.before, leased,
                   if IsOk(status) then Complete(reply.job.version, answer.value.diagnostic) else Release(reply.job.version)),
       next)
  }

  ghost function BatchStatus(env: Environment, store: Store, answer: Option<Offer>): nat {
    if answer.None? then BAD_REQUEST else BatchStep(env.host, store, Uploads(env.host, answer.value)).1
  }

  ghost predicate HasLease(s: Registry, v: string) {
    v in s.versions && s.versions[v].job.state == Leased
  }

  lemma LeaseTakes(before: (string, string) -> bool, s: Registry, now: int)
    requires Keyed(s.versions) && Leasable(s.versions, s.order, now) != []
    ensures var r := LeaseStep(before, s, now);
            && r.result.Ok? && r.result.value.Some?
            && HasLease(r.state, r.result.value.value.version) && r.state.majors == s.majors
  {
    var v := Least(before, Leasable(s.versions, s.order, now));
    assert s.versions[v].job.version == v;
  }

  lemma GrantedLeases(before: (string, string) -> bool, s: Registry, now: int)
    requires Keyed(s.versions) && SafeRegistry(s) && ServiceReply(before, s, Lease(now)).Granted?
    ensures HasLease(ServiceNext(before, s, Lease(now)), ServiceReply(before, s, Lease(now)).job.version)
    ensures SafeRegistry(ServiceNext(before, s, Lease(now)))
  {
    LeaseTakes(before, s, now);
  }

  lemma LeaseEnds(before: (string, string) -> bool, s: Registry, v: string, diagnostic: Option<Diagnostic>)
    requires SafeRegistry(s) && HasLease(s, v)
    ensures var t := ServiceNext(before, s, Complete(v, diagnostic)); v in Meta(t) && Meta(t)[v] == diagnostic.Some?
    ensures var t := ServiceNext(before, s, Release(v)); v in t.versions && t.versions[v].job.state == Pending
  {
  }

  /**
   * An undisturbed request that leases a job either advertises its version, yanked exactly when
   * the container tombstoned it, or leaves the job pending for the next request.
   */
  lemma MaterializedPublishes(env: Environment, s: Registry, store: Store, now: int, answer: Option<Offer>)
    requires ValidRegistry(s) && SafeRegistry(s) && ServiceReply(env.before, s, Lease(now)).Granted?
    ensures var v := ServiceReply(env.before, s, Lease(now)).job.version;
            var t := Materialized(env, s, store, now, answer).0;
            && v in t.versions
            && (IsOk(BatchStatus(env, store, answer)) ==>
                  answer.Some? && v in Meta(t) && Meta(t)[v] == answer.value.diagnostic.Some?)
            && (!IsOk(BatchStatus(env, store, answer)) ==> t.versions[v].job.state == Pending)
  {
    ValidIsKeyed(s);
    GrantedLeases(env.before, s, now);
    var leased := ServiceNext(env.before, s, Lease(now));
    var v := ServiceReply(env.before, s, Lease(now)).job.version;
    LeaseEnds(env.before, leased, v, if answer.Some? then answer.value.diagnostic else None);
  }

  // ----- cycles and registries -------------------------------------------------------------

  /** A cycle over a stored registry is one operation of the registry kept in memory. */
  lemma CycleRefines(before: (string, string) -> bool, s: Registry, snap: RegistrySnapshot, op: Op,
                     next: Option<RegistrySnapshot>, reply: Reply)
    requires ValidRegistry(s) && IsRegistrySnapshot(before, s, snap)
    requires Cycle(before, Some(snap), if op.Refresh? then Some(s.name) else None, op, next, reply)
    ensures next.Some? && IsRegistrySnapshot(before, ServiceNext(before, s, op), next.value)
    ensures reply.Threw? <==> ServiceReply(before, s, op).Threw?
    ensures !reply.Threw? ==> reply == ServiceReply(before, s, op)
  {
    RestoreSnapshot(before, s, snap);
    assert DurableStep(before, snap, op, next.value, reply);
    DurableStepRefines(before, s, snap, op, next.value, reply);
  }

  /** The stored snapshot, if any, represents the package's registry, if any. */
  ghost predicate Stores(before: (string, string) -> bool, s: System, p: PackageName, stored: Option<RegistrySnapshot>) {
    if p in s.registries then stored.Some? && IsRegistrySnapshot(before, s.registries[p], stored.value)
    else stored == None
  }

  /** Every registry access of the protocol is one cycle of the package's object. */
  lemma AccessRefinesStorage(env: Environment, s: System, p: PackageName, op: Op,
                             stored: Option<RegistrySnapshot>, next: Option<RegistrySnapshot>, reply: Reply)
    requires Invariant(env, s) && Stores(env.before, s, p, stored)
    requires Cycle(env.before, stored, if op.Refresh? then Some(p) else None, op, next, reply)
    ensures Stores(env.before, Access(env, s, p, op), p, next)
    ensures p in s.registries && !reply.Threw? ==> reply == ServiceReply(env.before, s.registries[p], op)
  {
    if p in s.registries {
      NamedAfterPackage(env, s, p);
      CycleRefines(env.before, s.registries[p], stored.value, op, next, reply);
    } else if op.Refresh? {
      NewRegistryValid(p);
    }
  }

  lemma NamedAfterPackage(env: Environment, s: System, p: PackageName)
    requires Invariant(env, s) && p in s.registries
    ensures s.registries[p].name == p && ValidRegistry(s.registries[p])
  {
    assert PackageInvariant(env, s.store, p, s.registries[p]);
  }
}
