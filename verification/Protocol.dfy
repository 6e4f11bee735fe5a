/**
 * Materialization and publication as a concurrent system (src/durable-objects.ts,
 * src/r2-publication.ts): any number of packages and workers share one object store, and other
 * requests and workers run between any two store or registry accesses of a worker.
 *
 * A registry access is one load-mutate-save cycle of `RegistryService`; a worker's batch is what
 * `Publication` produces for the job it leased, over arbitrary files, so two workers of one
 * version may disagree. Workers may stop anywhere, and a lease may be released by a worker that
 * no longer holds it.
 */
module Protocol {
  import opened Common
  import opened Branches
  import opened PackageRegistryModel
  import opened RegistryService
  import opened Publication
  import opened PublicationLaws
  import opened PackagePaths
  import opened ArtifactKeys
  import opened ArtifactStore
  import Base64

  // ----- state -----------------------------------------------------------------------------

  /** What the materializer answers for a job: `diagnostic` is present when it was tombstoned. */
  datatype Offer =
    Offer(job: MaterializationJob, files: seq<ArtifactFile>, exports: map<string, string>, diagnostic: Option<Diagnostic>)

  /** A `#materialize` request after its lease was granted. */
  datatype Worker =
    | Materializing(package: PackageName, job: Job)
    | Uploading(package: PackageName, offer: Offer, next: nat)
    | Checking(package: PackageName, offer: Offer, next: nat)
    | Finishing(package: PackageName, offer: Offer)
    | Releasing(package: PackageName, version: string)
    | Stopped

  datatype System = System(registries: map<PackageName, Registry>, store: Store, workers: seq<Worker>)

  /** `possible` holds of the outcomes the container may answer with. */
  datatype Environment = Environment(host: Host, before: (string, string) -> bool, possible: Offer -> bool)

  datatype Step =
    | RefreshPackage(package: PackageName, discovery: Discovery)
    | RecoverInPackage(package: PackageName, version: string, reason: string, recoveredAt: int)
    | StartWorker(package: PackageName, now: int)
    | Receive(worker: nat, offer: Offer)
    | Fail(worker: nat)
    | PutNext(worker: nat)
    | HeadNext(worker: nat)
    | Finish(worker: nat)
    | ReleaseHeld(worker: nat)
    | Crash(worker: nat)

  function JobFor(p: PackageName, job: Job): MaterializationJob {
    MaterializationJob(PackageIdentity(p.scope, p.name), job.branch, job.commitSha, job.version)
  }

  function Uploads(host: Host, offer: Offer): (r: seq<Upload>)
    ensures |r| == |offer.files| + 2
  {
    Batch(host, offer.job, offer.files, offer.exports)
  }

  /** What the pipeline may answer with: publishable files at archive paths. */
  ghost predicate ProperFiles(files: seq<ArtifactFile>) {
    Publishable(files) && forall i :: 0 <= i < |files| ==> IsPackagePath(files[i].path)
  }

  ghost predicate ProperOffer(offer: Offer) {
    IsProxyable(offer.job) && ProperFiles(offer.files)
  }

  ghost predicate IsPossible(env: Environment, offer: Offer) {
    ProperOffer(offer) && env.possible(offer)
  }

  predicate ProxiedPackage(p: PackageName) {
    IsScope(p.scope) && IsName(p.name)
  }

  // ----- steps -----------------------------------------------------------------------------

  /** What the environment may supply with a step. */
  ghost predicate ValidStep(env: Environment, s: System, step: Step) {
    match step
    case RefreshPackage(p, d) => ProxiedPackage(p) && UniqueNames(d.branches)
    case Receive(i, offer) =>
      i < |s.workers| && s.workers[i].Materializing? ==>
        ProperFiles(offer.files) && env.possible(offer) && offer.job == JobFor(s.workers[i].package, s.workers[i].job)
    case _ => true
  }

  ghost function WithRegistry(s: System, p: PackageName, registry: Registry): System {
    s.(registries := s.registries[p := registry])
  }

  function WithWorker(s: System, i: nat, w: Worker): System
    requires i < |s.workers|
  {
    s.(workers := s.workers[i := w])
  }

  function Current(s: System, p: PackageName): Registry {
    if p in s.registries then s.registries[p] else NewRegistry(p)
  }

  /** A request that loads the registry, applies one operation and stores the result. */
  ghost function Access(env: Environment, s: System, p: PackageName, op: Op): System {
    if p !in s.registries && (!op.Refresh? || ServiceReply(env.before, NewRegistry(p), op).Threw?) then s
    else WithRegistry(s, p, ServiceNext(env.before, Current(s, p), op))
  }

  /** One `put` of a worker's next upload. */
  function AfterPut(host: Host, store: Store, p: PackageName, offer: Offer, n: nat): (Store, Worker) {
    var uploads := Uploads(host, offer);
    if n >= |uploads| then (store, Finishing(p, offer))
    else
      match Admit(host, uploads[n])
      case Refused(_) => (store, Releasing(p, offer.job.version))
      case Admitted(key, item) =>
        if key in store then (store, Checking(p, offer, n))
        else (PutIfAbsent(store, key, item), Uploading(p, offer, n + 1))
  }

  /** The `head` after a `put` that found its key taken. */
  function AfterHead(host: Host, store: Store, p: PackageName, offer: Offer, n: nat): Worker {
    var uploads := Uploads(host, offer);
    if n >= |uploads| then Checking(p, offer, n)
    else
      match Admit(host, uploads[n])
      case Refused(_) => Releasing(p, offer.job.version)
      case Admitted(key, item) =>
        if IsOk(HeadStatus(store, key, item.sha256)) then Uploading(p, offer, n + 1)
        else Releasing(p, offer.job.version)
  }

  function PutStep(env: Environment, s: System, i: nat, p: PackageName, offer: Offer, n: nat): System
    requires i < |s.workers|
  {
    var (store, w) := AfterPut(env.host, s.store, p, offer, n);
    WithWorker(s.(store := store), i, w)
  }

  /** A worker's last access, after which it answers its request. */
  ghost function EndStep(env: Environment, s: System, i: nat, p: PackageName, op: Op): System
    requires i < |s.workers|
  {
    WithWorker(Access(env, s, p, op), i, Stopped)
  }

  /** A worker's step, where the worker is ready for it. */
  ghost function WorkerStep(env: Environment, s: System, i: nat, step: Step): System
    requires i < |s.workers|
  {
    match s.workers[i]
    case Materializing(p, job) =>
      if step.Receive? then WithWorker(s, i, Uploading(p, step.offer, 0))
      else if step.Fail? then WithWorker(s, i, Releasing(p, job.version))
      else CrashStep(s, i, step)
    case Uploading(p, offer, n) => if step.PutNext? then PutStep(env, s, i, p, offer, n) else CrashStep(s, i, step)
    case Checking(p, offer, n) =>
      if step.HeadNext? then WithWorker(s, i, AfterHead(env.host, s.store, p, offer, n)) else CrashStep(s, i, step)
    case Finishing(p, offer) =>
      if step.Finish? then EndStep(env, s, i, p, Complete(offer.job.version, offer.diagnostic))
      else CrashStep(s, i, step)
    case Releasing(p, version) =>
      if step.ReleaseHeld? then EndStep(env, s, i, p, Release(version)) else CrashStep(s, i, step)
    case Stopped => s
  }

  function CrashStep(s: System, i: nat, step: Step): System
    requires i < |s.workers|
  {
    if step.Crash? then WithWorker(s, i, Stopped) else s
  }

  /** A lease request; the worker starts only when a job was granted. */
  ghost function StartStep(env: Environment, s: System, p: PackageName, now: int): System {
    var next := Access(env, s, p, Lease(now));
    if p in s.registries && ServiceReply(env.before, s.registries[p], Lease(now)).Granted? then
      next.(workers := next.workers + [Materializing(p, ServiceReply(env.before, s.registries[p], Lease(now)).job)])
    else next
  }

  ghost function Next(env: Environment, s: System, step: Step): System {
    match step
    case RefreshPackage(p, d) => Access(env, s, p, Refresh(d))
    case RecoverInPackage(p, v, reason, at) => Access(env, s, p, Recover(v, reason, at))
    case StartWorker(p, now) => StartStep(env, s, p, now)
    case _ => if step.worker < |s.workers| then WorkerStep(env, s, step.worker, step) else s
  }

  const INITIAL: System := System(map[], map[], [])

  ghost function Run(env: Environment, s: System, steps: seq<Step>): System {
    if steps == [] then s else Next(env, Run(env, s, steps[..|steps| - 1]), steps[|steps| - 1])
  }

  /** Every step of the run is one the environment may take. */
  ghost predicate ValidRun(env: Environment, s: System, steps: seq<Step>) {
    steps == [] || (ValidRun(env, s, steps[..|steps| - 1])
                    && ValidStep(env, Run(env, s, steps[..|steps| - 1]), steps[|steps| - 1]))
  }

  // ----- the store's part of the invariant -------------------------------------------------

  ghost predicate AcceptedUpTo(host: Host, store: Store, offer: Offer, n: nat) {
    n <= |offer.files| + 2 && forall j :: 0 <= j < n ==> Accepted(host, store, Uploads(host, offer)[j])
  }

  /** A whole batch is in the store. */
  ghost predicate Whole(env: Environment, store: Store, offer: Offer) {
    IsPossible(env, offer) && AcceptedUpTo(env.host, store, offer, |offer.files| + 2)
  }

  predicate SameVersion(a: MaterializationJob, b: MaterializationJob) {
    a.package == b.package && a.version == b.version
  }

  function MetadataBytes(host: Host, offer: Offer): Bytes {
    host.metadataJson(MetadataOf(host, offer.job, offer.files, offer.exports))
  }

  /** The stored metadata is exactly that of an offer whose files are all in the store. */
  ghost predicate MetadataBackedBy(env: Environment, store: Store, job: MaterializationJob, offer: Offer)
    requires MetadataKey(job) in store
  {
    && IsPossible(env, offer) && SameVersion(offer.job, job)
    && AcceptedUpTo(env.host, store, offer, |offer.files|)
    && store[MetadataKey(job)].bytes == MetadataBytes(env.host, offer)
  }

  ghost predicate MarkerBackedBy(env: Environment, store: Store, job: MaterializationJob, offer: Offer) {
    Whole(env, store, offer) && SameVersion(offer.job, job)
  }

  ghost predicate MetadataBacked(env: Environment, store: Store, job: MaterializationJob) {
    MetadataKey(job) in store ==> exists offer :: MetadataBackedBy(env, store, job, offer)
  }

  ghost predicate MarkerBacked(env: Environment, store: Store, job: MaterializationJob) {
    ReadyMarkerKey(job) in store ==> exists offer :: MarkerBackedBy(env, store, job, offer)
  }

  ghost predicate StoreInvariant(env: Environment, store: Store) {
    && HashesMatch(env.host, store)
    && (forall job :: IsProxyable(job) ==> MetadataBacked(env, store, job))
    && (forall job :: IsProxyable(job) ==> MarkerBacked(env, store, job))
  }

  lemma AcceptedUpToStays(host: Host, store: Store, next: Store, offer: Offer, n: nat)
    requires AcceptedUpTo(host, store, offer, n) && Grows(store, next)
    ensures AcceptedUpTo(host, next, offer, n)
  {
    forall j | 0 <= j < n
      ensures Accepted(host, next, Uploads(host, offer)[j])
    {
      AcceptedStays(host, store, next, Uploads(host, offer)[j]);
    }
  }

  lemma UploadAdmission(host: Host, key: string, bytes: Bytes)
    requires ArtifactKey(Pathname(key)) == Some(key)
    ensures Admit(host, UploadOf(host, key, bytes))
         == if IsDigest(host.sha256(bytes)) then Admitted(key, StoredObject(bytes, host.sha256(bytes), ContentType(key)))
            else Refused(BAD_REQUEST)
  {
    Base64.DecodeEncode(bytes);
  }

  /** The bytes of an offer's `n`-th upload. */
  function UploadBytes(host: Host, offer: Offer, n: nat): Bytes
    requires n < |offer.files| + 2
  {
    if n < |offer.files| then offer.files[n].bytes
    else if n == |offer.files| then MetadataBytes(host, offer)
    else host.markerJson(ManifestDigest(host, offer.files))
  }

  lemma UploadAt(host: Host, offer: Offer, n: nat)
    requires n < |offer.files| + 2
    ensures Uploads(host, offer)[n]
         == UploadOf(host, PackageKeyPrefix(offer.job) + Suffix(offer.files, n), UploadBytes(host, offer, n))
  {
    BatchKey(host, offer.job, offer.files, offer.exports, n);
  }

  /** The object an offer's `n`-th upload creates where its key is free. */
  function UploadObject(host: Host, offer: Offer, n: nat): StoredObject
    requires n < |offer.files| + 2
  {
    var bytes := UploadBytes(host, offer, n);
    StoredObject(bytes, host.sha256(bytes), ContentType(PackageKeyPrefix(offer.job) + Suffix(offer.files, n)))
  }

  /**
   * The store sees an offer's upload as it was published, under its own key and with its own
   * bytes; every upload is admitted whose digest has the form of one.
   */
  lemma OfferAdmission(host: Host, offer: Offer, n: nat)
    requires ProperOffer(offer) && n < |offer.files| + 2
    ensures var admission := Admit(host, Uploads(host, offer)[n]);
            && Uploads(host, offer)[n].sha256 == host.sha256(UploadBytes(host, offer, n))
            && (admission.Admitted? <==> IsDigest(Uploads(host, offer)[n].sha256))
            && (admission.Admitted? ==>
                  && admission.key == PackageKeyPrefix(offer.job) + Suffix(offer.files, n)
                  && admission.item == UploadObject(host, offer, n))
  {
    BatchKeySurvives(host, offer.job, offer.files, offer.exports, n);
    UploadAt(host, offer, n);
    UploadAdmission(host, PackageKeyPrefix(offer.job) + Suffix(offer.files, n), UploadBytes(host, offer, n));
  }
}
