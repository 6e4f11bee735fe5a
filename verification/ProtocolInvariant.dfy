/**
 * The invariant of the whole system, kept by every step of every interleaving: each advertised
 * version is backed by a batch that is wholly in the store.
 */
module ProtocolInvariant {
  import opened Common
  import opened PackageRegistryModel
  import opened RegistryInvariant
  import opened RegistryService
  import opened Publication
  import opened ArtifactStore
  import opened Protocol

  // ----- the invariant ---------------------------------------------------------------------

  /** A whole batch for the job is in the store, offered with the job's own outcome. */
  ghost predicate PublishedBy(env: Environment, store: Store, p: PackageName, job: Job, offer: Offer) {
    Whole(env, store, offer) && offer.job == JobFor(p, job) && offer.diagnostic == job.diagnostic
  }

  ghost predicate IsPublished(env: Environment, store: Store, p: PackageName, job: Job) {
    exists offer :: PublishedBy(env, store, p, job, offer)
  }

  ghost predicate AllPublished(env: Environment, store: Store, p: PackageName, s: Registry) {
    forall v :: v in s.versions && IsTerminal(s.versions[v].job.state) ==>
                  IsPublished(env, store, p, s.versions[v].job)
  }

  ghost predicate PackageInvariant(env: Environment, store: Store, p: PackageName, s: Registry) {
    ProxiedPackage(p) && s.name == p && ValidRegistry(s) && AllPublished(env, store, p, s)
  }

  /** The job is one of the package's versions. */
  ghost predicate BoundTo(registries: map<PackageName, Registry>, p: PackageName, job: MaterializationJob) {
    && p in registries
    && job.version in registries[p].versions
    && job == JobFor(p, registries[p].versions[job.version].job)
  }

  ghost predicate WorkerInvariant(env: Environment, registries: map<PackageName, Registry>, store: Store, w: Worker) {
    match w
    case Materializing(p, job) => BoundTo(registries, p, JobFor(p, job))
    case Uploading(p, offer, n) =>
      IsPossible(env, offer) && BoundTo(registries, p, offer.job) && AcceptedUpTo(env.host, store, offer, n)
    case Checking(p, offer, n) =>
      IsPossible(env, offer) && BoundTo(registries, p, offer.job) && AcceptedUpTo(env.host, store, offer, n)
    case Finishing(p, offer) => BoundTo(registries, p, offer.job) && Whole(env, store, offer)
    case Releasing(_, _) => true
    case Stopped => true
  }

  ghost predicate AllPackages(env: Environment, store: Store, registries: map<PackageName, Registry>) {
    forall p :: p in registries ==> PackageInvariant(env, store, p, registries[p])
  }

  ghost predicate AllWorkers(env: Environment, registries: map<PackageName, Registry>, store: Store, workers: seq<Worker>) {
    forall i :: 0 <= i < |workers| ==> WorkerInvariant(env, registries, store, workers[i])
  }

  ghost predicate Invariant(env: Environment, s: System) {
    && StoreInvariant(env, s.store)
    && AllPackages(env, s.store, s.registries)
    && AllWorkers(env, s.registries, s.store, s.workers)
  }

  // ----- what every step keeps -------------------------------------------------------------

  ghost predicate RegistriesGrow(a: map<PackageName, Registry>, b: map<PackageName, Registry>) {
    forall p :: p in a ==> p in b && Persists(a[p], b[p])
  }

  /** Objects, packages and versions stay; published outcomes stay as they are. */
  ghost predicate SystemGrows(s: System, t: System) {
    Grows(s.store, t.store) && RegistriesGrow(s.registries, t.registries)
  }

  lemma GrowsReflexive(s: System)
    ensures SystemGrows(s, s)
  {
  }

  lemma GrowsTransitive(s: System, t: System, u: System)
    requires SystemGrows(s, t) && SystemGrows(t, u)
    ensures SystemGrows(s, u)
  {
    forall p | p in s.registries
      ensures p in u.registries && Persists(s.registries[p], u.registries[p])
    {
      PersistsTransitive(s.registries[p], t.registries[p], u.registries[p]);
    }
  }

  lemma BoundStays(a: map<PackageName, Registry>, b: map<PackageName, Registry>, p: PackageName, job: MaterializationJob)
    requires BoundTo(a, p, job) && RegistriesGrow(a, b)
    ensures BoundTo(b, p, job)
  {
    assert SameIdentity(a[p].versions[job.version], b[p].versions[job.version]);
  }

  lemma WorkerStays(env: Environment, s: System, t: System, w: Worker)
    requires WorkerInvariant(env, s.registries, s.store, w) && SystemGrows(s, t)
    ensures WorkerInvariant(env, t.registries, t.store, w)
  {
    match w
    case Materializing(p, job) => BoundStays(s.registries, t.registries, p, JobFor(p, job));
    case Uploading(p, offer, n) =>
      BoundStays(s.registries, t.registries, p, offer.job);
      AcceptedUpToStays(env.host, s.store, t.store, offer, n);
    case Checking(p, offer, n) =>
      BoundStays(s.registries, t.registries, p, offer.job);
      AcceptedUpToStays(env.host, s.store, t.store, offer, n);
    case Finishing(p, offer) =>
      BoundStays(s.registries, t.registries, p, offer.job);
      AcceptedUpToStays(env.host, s.store, t.store, offer, |offer.files| + 2);
    case _ =>
  }

  lemma PublishedStays(env: Environment, store: Store, next: Store, p: PackageName, job: Job)
    requires IsPublished(env, store, p, job) && Grows(store, next)
    ensures IsPublished(env, next, p, job)
  {
    var offer :| PublishedBy(env, store, p, job, offer);
    AcceptedUpToStays(env.host, store, next, offer, |offer.files| + 2);
    assert PublishedBy(env, next, p, job, offer);
  }

  lemma PackageStays(env: Environment, store: Store, next: Store, p: PackageName, s: Registry)
    requires PackageInvariant(env, store, p, s) && Grows(store, next)
    ensures PackageInvariant(env, next, p, s)
  {
    forall v | v in s.versions && IsTerminal(s.versions[v].job.state)
      ensures IsPublished(env, next, p, s.versions[v].job)
    {
      PublishedStays(env, store, next, p, s.versions[v].job);
    }
  }

  // ----- registry accesses -----------------------------------------------------------------

  /** A version becomes published only by completing it. */
  ghost predicate PublishesOnly(s: Registry, t: Registry, op: Op) {
    forall v :: v in t.versions && IsTerminal(t.versions[v].job.state) ==>
                  (v in s.versions && t.versions[v] == s.versions[v]) || (op.Complete? && v == op.version)
  }

  lemma RefreshPublishesNothing(s: Registry, op: Op)
    requires ValidRegistry(s) && SafeRegistry(s) && ValidOp(op) && op.Refresh?
    requires RefreshStep(s, op.discovery).result.Ok?
    ensures PublishesOnly(s, RefreshStep(s, op.discovery).state, op)
  {
    var r := RefreshStep(s, op.discovery);
    RefreshCreatesExactly(s, op.discovery);
    RefreshValid(s, op.discovery);
    AppendedIsPending(s, r.state, r.result.value, op);
  }

  lemma AppendedIsPending(s: Registry, t: Registry, jobs: seq<Job>, op: Op)
    requires AppendedJobs(s, t, jobs) && OnlyAdds(s, t) && OrderExact(s) && OrderExact(t)
    ensures PublishesOnly(s, t, op)
  {
    assert forall k :: 0 <= k < |s.order| ==> s.order[k] in s.order;
    forall v | v in t.versions && v !in s.versions
      ensures t.versions[v].job.state == Pending
    {
      assert v in t.order;
      var k :| 0 <= k < |t.order| && t.order[k] == v;
      assert NewJob(s, t, t.order[|s.order| + (k - |s.order|)], jobs[k - |s.order|]);
    }
  }

  lemma RecoverPublishesNothing(s: Registry, op: Op)
    requires ValidRegistry(s) && SafeRegistry(s) && op.Recover?
    ensures PublishesOnly(s, RecoverVersionStep(s, op.version, op.reason, op.recoveredAt).state, op)
  {
    RecoverVersionResult(s, op.version, op.reason, op.recoveredAt);
  }

  lemma LeasePublishesNothing(before: (string, string) -> bool, s: Registry, op: Op)
    requires op.Lease?
    ensures PublishesOnly(s, LeaseStep(before, s, op.now).state, op)
  {
  }

  lemma ReleasePublishesNothing(s: Registry, op: Op)
    requires op.Release?
    ensures PublishesOnly(s, ReleaseStep(s, op.version).state, op)
  {
  }

  lemma CompletePublishesOne(s: Registry, op: Op)
    requires op.Complete?
    ensures PublishesOnly(s, CompleteStep(s, op.version, op.diagnostic).state, op)
  {
  }

  lemma ApplyPublishesOnly(before: (string, string) -> bool, s: Registry, op: Op)
    requires ValidRegistry(s) && SafeRegistry(s) && ValidOp(op) && !Apply(before, s, op).1.Threw?
    ensures PublishesOnly(s, Apply(before, s, op).0, op)
  {
    match op
    case Refresh(_) => RefreshPublishesNothing(s, op);
    case Recover(_, _, _) => RecoverPublishesNothing(s, op);
    case Lease(_) => LeasePublishesNothing(before, s, op);
    case Release(_) => ReleasePublishesNothing(s, op);
    case Complete(_, _) => CompletePublishesOne(s, op);
  }

  lemma NextPublishesOnly(before: (string, string) -> bool, s: Registry, op: Op)
    requires ValidRegistry(s) && ValidOp(op)
    ensures PublishesOnly(s, ServiceNext(before, s, op), op)
  {
    if SafeRegistry(s) && !Apply(before, s, op).1.Threw? {
      ApplyPublishesOnly(before, s, op);
    }
  }

  lemma CompleteRecords(s: Registry, v: string, diagnostic: Option<Diagnostic>)
    requires v in s.versions && ValidJob(s.versions[v].job)
    ensures var t := CompleteStep(s, v, diagnostic).state;
            && v in t.versions
            && (t.versions[v] == s.versions[v] || t.versions[v].job.diagnostic == diagnostic)
            && SameIdentity(s.versions[v], t.versions[v])
  {
  }

  /** Completing with an offer's outcome records that outcome, or changes nothing. */
  lemma CompletionRecorded(before: (string, string) -> bool, s: Registry, v: string, diagnostic: Option<Diagnostic>)
    requires v in s.versions && ValidJob(s.versions[v].job)
    ensures var t := ServiceNext(before, s, Complete(v, diagnostic));
            && v in t.versions
            && (t.versions[v] == s.versions[v] || t.versions[v].job.diagnostic == diagnostic)
            && SameIdentity(s.versions[v], t.versions[v])
  {
    CompleteRecords(s, v, diagnostic);
  }
}
