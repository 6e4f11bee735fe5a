/**
 * Retrying (src/r2-publication.ts): what stands in the store is what the container answered for
 * the registry's own jobs, so where it answers a job always alike, no crash, partial batch or
 * interleaving makes a later worker's upload fail.
 */
module RetriedUploads {
  import opened PackageRegistryModel
  import opened RegistryService
  import opened Publication
  import opened PublicationLaws
  import opened ArtifactKeys
  import opened ArtifactStore
  import opened Protocol
  import opened ProtocolInvariant
  import opened ProtocolSteps
  import opened ProtocolTheorems

  // ----- when an undisturbed worker finishes -----------------------------------------------

  function KeyAt(offer: Offer, n: nat): string
    requires n < |offer.files| + 2
  {
    PackageKeyPrefix(offer.job) + Suffix(offer.files, n)
  }

  /** The upload's digest has the form of one, and its key is free or holds that digest. */
  ghost predicate Open(host: Host, store: Store, offer: Offer, n: nat)
    requires n < |offer.files| + 2
  {
    && IsDigest(Uploads(host, offer)[n].sha256)
    && (KeyAt(offer, n) in store ==> store[KeyAt(offer, n)].sha256 == Uploads(host, offer)[n].sha256)
  }

  ghost predicate AllOpen(host: Host, store: Store, offer: Offer) {
    forall n :: 0 <= n < |offer.files| + 2 ==> Open(host, store, offer, n)
  }

  lemma OpenIsAcceptable(host: Host, store: Store, offer: Offer, n: nat)
    requires ProperOffer(offer) && n < |offer.files| + 2
    ensures Acceptable(host, store, Uploads(host, offer)[n]) <==> Open(host, store, offer, n)
  {
    OfferAdmission(host, offer, n);
  }

  lemma TwoKeysApart(host: Host, offer: Offer, m: nat, n: nat)
    requires ProperOffer(offer) && m < |offer.files| + 2 && n < |offer.files| + 2
    ensures KeyAt(offer, m) == KeyAt(offer, n) <==> m == n
  {
    BatchKeysDistinct(host, offer.job, offer.files, offer.exports, m, n);
    BatchKey(host, offer.job, offer.files, offer.exports, m);
    BatchKey(host, offer.job, offer.files, offer.exports, n);
  }

  lemma OfferKeysApart(host: Host, offer: Offer)
    requires ProperOffer(offer)
    ensures KeysApart(host, Uploads(host, offer))
  {
    var uploads := Uploads(host, offer);
    forall m, n | 0 <= m < n < |uploads| && Admit(host, uploads[m]).Admitted? && Admit(host, uploads[n]).Admitted?
      ensures Admit(host, uploads[m]).key != Admit(host, uploads[n]).key
    {
      OfferAdmission(host, offer, m);
      OfferAdmission(host, offer, n);
      TwoKeysApart(host, offer, m, n);
    }
  }

  lemma AllOpenIsAcceptable(host: Host, store: Store, offer: Offer)
    requires ProperOffer(offer)
    ensures AllAcceptable(host, store, Uploads(host, offer)) <==> AllOpen(host, store, offer)
  {
    forall n | 0 <= n < |offer.files| + 2
      ensures Acceptable(host, store, Uploads(host, offer)[n]) <==> Open(host, store, offer, n)
    {
      OpenIsAcceptable(host, store, offer, n);
    }
  }

  /**
   * Undisturbed, a worker's batch is accepted exactly when each of its keys is free or holds its
   * own digest already.
   */
  lemma AloneFinishes(host: Host, store: Store, p: PackageName, offer: Offer)
    requires ProperOffer(offer)
    ensures Alone(host, store, p, offer, 0).1 == Finishing(p, offer) <==> AllOpen(host, store, offer)
  {
    var uploads := Uploads(host, offer);
    assert uploads[0..] == uploads;
    AloneIsTheBatch(host, store, p, offer, 0);
    OfferKeysApart(host, offer);
    BatchLaw(host, store, uploads);
    AllOpenIsAcceptable(host, store, offer);
  }

  // ----- where stored objects come from ----------------------------------------------------

  /** The object is the `n`-th upload of an outcome the container gave for one of `p`'s jobs. */
  ghost predicate TracedTo(env: Environment, registries: map<PackageName, Registry>, key: string, item: StoredObject,
                           p: PackageName, offer: Offer, n: nat)
  {
    && IsPossible(env, offer) && BoundTo(registries, p, offer.job)
    && n < |offer.files| + 2
    && key == KeyAt(offer, n) && item == UploadObject(env.host, offer, n)
  }

  ghost predicate Traced(env: Environment, registries: map<PackageName, Registry>, key: string, item: StoredObject) {
    exists p, offer, n: nat :: TracedTo(env, registries, key, item, p, offer, n)
  }

  ghost predicate AllTraced(env: Environment, registries: map<PackageName, Registry>, store: Store) {
    forall key :: key in store ==> Traced(env, registries, key, store[key])
  }

  /** The key a worker is about to check is taken. */
  ghost predicate ChecksTaken(env: Environment, store: Store, w: Worker) {
    w.Checking? ==> w.next < |w.offer.files| + 2 && KeyAt(w.offer, w.next) in store
  }

  ghost predicate AllTaken(env: Environment, store: Store, workers: seq<Worker>) {
    forall i :: 0 <= i < |workers| ==> ChecksTaken(env, store, workers[i])
  }

  lemma TracedStays(env: Environment, a: map<PackageName, Registry>, b: map<PackageName, Registry>, store: Store)
    requires AllTraced(env, a, store) && RegistriesGrow(a, b)
    ensures AllTraced(env, b, store)
  {
    forall key | key in store
      ensures Traced(env, b, key, store[key])
    {
      var p, offer, n: nat :| TracedTo(env, a, key, store[key], p, offer, n);
      BoundStays(a, b, p, offer.job);
      assert TracedTo(env, b, key, store[key], p, offer, n);
    }
  }

  /** A put, read through the offer's own keys and objects. */
  lemma PutShape(host: Host, store: Store, p: PackageName, offer: Offer, n: nat)
    requires ProperOffer(offer) && n < |offer.files| + 2
    ensures AfterPut(host, store, p, offer, n)
         == if !IsDigest(Uploads(host, offer)[n].sha256) then (store, Releasing(p, offer.job.version))
            else if KeyAt(offer, n) in store then (store, Checking(p, offer, n))
            else (store[KeyAt(offer, n) := UploadObject(host, offer, n)], Uploading(p, offer, n + 1))
  {
    OfferAdmission(host, offer, n);
  }

  lemma HeadShape(host: Host, store: Store, p: PackageName, offer: Offer, n: nat)
    requires ProperOffer(offer) && n < |offer.files| + 2 && KeyAt(offer, n) in store
    ensures AfterHead(host, store, p, offer, n)
         == if Open(host, store, offer, n) then Uploading(p, offer, n + 1) else Releasing(p, offer.job.version)
  {
    OfferAdmission(host, offer, n);
  }

  lemma CreatedTraced(env: Environment, registries: map<PackageName, Registry>, store: Store, key: string,
                      item: StoredObject)
    requires AllTraced(env, registries, store) && Traced(env, registries, key, item)
    ensures AllTraced(env, registries, store[key := item])
  {
  }

  lemma PutTraced(env: Environment, registries: map<PackageName, Registry>, store: Store, p: PackageName, offer: Offer,
                  n: nat)
    requires AllTraced(env, registries, store) && IsPossible(env, offer) && BoundTo(registries, p, offer.job)
    ensures AllTraced(env, registries, AfterPut(env.host, store, p, offer, n).0)
    ensures ChecksTaken(env, AfterPut(env.host, store, p, offer, n).0, AfterPut(env.host, store, p, offer, n).1)
  {
    if n < |offer.files| + 2 {
      PutShape(env.host, store, p, offer, n);
      assert TracedTo(env, registries, KeyAt(offer, n), UploadObject(env.host, offer, n), p, offer, n);
      CreatedTraced(env, registries, store, KeyAt(offer, n), UploadObject(env.host, offer, n));
    }
  }

  lemma HeadTaken(env: Environment, store: Store, p: PackageName, offer: Offer, n: nat)
    requires ChecksTaken(env, store, Checking(p, offer, n))
    ensures ChecksTaken(env, store, AfterHead(env.host, store, p, offer, n))
  {
  }

  // ----- the invariant over runs -----------------------------------------------------------

  ghost predicate Provenance(env: Environment, s: System) {
    Invariant(env, s) && AllTraced(env, s.registries, s.store) && AllTaken(env, s.store, s.workers)
  }

  /** What one step may do to the store and to a worker's check. */
  ghost predicate StepEffect(env: Environment, s: System, t: System) {
    && AllTraced(env, s.registries, t.store)
    && forall i :: 0 <= i < |t.workers| ==>
                     (i < |s.workers| && t.workers[i] == s.workers[i]) || ChecksTaken(env, t.store, t.workers[i])
  }

  lemma AccessParts(env: Environment, s: System, p: PackageName, op: Op)
    ensures Access(env, s, p, op).store == s.store && Access(env, s, p, op).workers == s.workers
  {
  }

  /** The same store, and the same workers but for one that checks nothing. */
  lemma SameEffect(env: Environment, s: System, t: System)
    requires AllTraced(env, s.registries, s.store) && t.store == s.store
    requires forall i :: 0 <= i < |t.workers| ==>
                           (i < |s.workers| && t.workers[i] == s.workers[i]) || !t.workers[i].Checking?
    ensures StepEffect(env, s, t)
  {
  }

  lemma WorkerEffect(env: Environment, s: System, i: nat, w: Worker)
    requires AllTraced(env, s.registries, s.store) && i < |s.workers| && ChecksTaken(env, s.store, w)
    ensures StepEffect(env, s, WithWorker(s, i, w))
  {
  }

  lemma CrashEffect(env: Environment, s: System, i: nat, step: Step)
    requires AllTraced(env, s.registries, s.store) && i < |s.workers|
    ensures StepEffect(env, s, CrashStep(s, i, step))
  {
    if step.Crash? {
      WorkerEffect(env, s, i, Stopped);
    }
  }

  lemma PutEffect(env: Environment, s: System, i: nat, p: PackageName, offer: Offer, n: nat)
    requires Provenance(env, s) && i < |s.workers| && s.workers[i] == Uploading(p, offer, n)
    ensures StepEffect(env, s, PutStep(env, s, i, p, offer, n))
  {
    WorkerAt(env, s, i);
    PutTraced(env, s.registries, s.store, p, offer, n);
  }

  lemma HeadEffect(env: Environment, s: System, i: nat, p: PackageName, offer: Offer, n: nat)
    requires Provenance(env, s) && i < |s.workers| && s.workers[i] == Checking(p, offer, n)
    ensures StepEffect(env, s, WithWorker(s, i, AfterHead(env.host, s.store, p, offer, n)))
  {
    assert ChecksTaken(env, s.store, s.workers[i]);
    HeadTaken(env, s.store, p, offer, n);
    WorkerEffect(env, s, i, AfterHead(env.host, s.store, p, offer, n));
  }

  lemma EndEffect(env: Environment, s: System, i: nat, p: PackageName, op: Op)
    requires AllTraced(env, s.registries, s.store) && i < |s.workers|
    ensures StepEffect(env, s, EndStep(env, s, i, p, op))
  {
    AccessParts(env, s, p, op);
    SameEffect(env, s, EndStep(env, s, i, p, op));
  }

  lemma AccessEffect(env: Environment, s: System, p: PackageName, op: Op)
    requires AllTraced(env, s.registries, s.store)
    ensures StepEffect(env, s, Access(env, s, p, op))
  {
    AccessParts(env, s, p, op);
    SameEffect(env, s, Access(env, s, p, op));
  }

  lemma StartEffect(env: Environment, s: System, p: PackageName, now: int)
    requires AllTraced(env, s.registries, s.store)
    ensures StepEffect(env, s, StartStep(env, s, p, now))
  {
    AccessParts(env, s, p, Lease(now));
    SameEffect(env, s, StartStep(env, s, p, now));
  }

  lemma PublishingEffect(env: Environment, s: System, i: nat, step: Step)
    requires Provenance(env, s) && i < |s.workers| && (s.workers[i].Uploading? || s.workers[i].Checking?)
    ensures StepEffect(env, s, WorkerStep(env, s, i, step))
  {
    var w := s.workers[i];
    if w.Uploading? && step.PutNext? {
      PutEffect(env, s, i, w.package, w.offer, w.next);
    } else if w.Checking? && step.HeadNext? {
      HeadEffect(env, s, i, w.package, w.offer, w.next);
    } else {
      CrashEffect(env, s, i, step);
    }
  }

  lemma ReceivingEffect(env: Environment, s: System, i: nat, step: Step)
    requires Provenance(env, s) && i < |s.workers| && s.workers[i].Materializing?
    ensures StepEffect(env, s, WorkerStep(env, s, i, step))
  {
    var w := s.workers[i];
    if step.Receive? {
      WorkerEffect(env, s, i, Uploading(w.package, step.offer, 0));
    } else if step.Fail? {
      WorkerEffect(env, s, i, Releasing(w.package, w.job.version));
    } else {
      CrashEffect(env, s, i, step);
    }
  }

  lemma EndingEffect(env: Environment, s: System, i: nat, step: Step)
    requires Provenance(env, s) && i < |s.workers|
    requires s.workers[i].Finishing? || s.workers[i].Releasing? || s.workers[i].Stopped?
    ensures StepEffect(env, s, WorkerStep(env, s, i, step))
  {
    var w := s.workers[i];
    if w.Finishing? && step.Finish? {
      EndEffect(env, s, i, w.package, Complete(w.offer.job.version, w.offer.diagnostic));
    } else if w.Releasing? && step.ReleaseHeld? {
      EndEffect(env, s, i, w.package, Release(w.version));
    } else if w.Stopped? {
      SameEffect(env, s, s);
    } else {
      CrashEffect(env, s, i, step);
    }
  }

  lemma WorkerStepEffect(env: Environment, s: System, i: nat, step: Step)
    requires Provenance(env, s) && i < |s.workers|
    ensures StepEffect(env, s, WorkerStep(env, s, i, step))
  {
    var w := s.workers[i];
    if w.Materializing? {
      ReceivingEffect(env, s, i, step);
    } else if w.Uploading? || w.Checking? {
      PublishingEffect(env, s, i, step);
    } else {
      EndingEffect(env, s, i, step);
    }
  }

  predicate IsWorkerStep(step: Step) {
    !step.RefreshPackage? && !step.RecoverInPackage? && !step.StartWorker?
  }

  lemma NextOfWorker(env: Environment, s: System, step: Step)
    requires IsWorkerStep(step)
    ensures Next(env, s, step) == if step.worker < |s.workers| then WorkerStep(env, s, step.worker, step) else s
  {
  }

  lemma NextEffect(env: Environment, s: System, step: Step)
    requires Provenance(env, s)
    ensures StepEffect(env, s, Next(env, s, step))
  {
    if IsWorkerStep(step) {
      NextOfWorker(env, s, step);
      if step.worker < |s.workers| {
        WorkerStepEffect(env, s, step.worker, step);
      } else {
        SameEffect(env, s, s);
      }
    } else {
      RequestEffect(env, s, step);
    }
  }

  lemma RequestEffect(env: Environment, s: System, step: Step)
    requires AllTraced(env, s.registries, s.store) && !IsWorkerStep(step)
    ensures StepEffect(env, s, Next(env, s, step))
  {
    if step.RefreshPackage? {
      AccessEffect(env, s, step.package, Refresh(step.discovery));
    } else if step.RecoverInPackage? {
      AccessEffect(env, s, step.package, Recover(step.version, step.reason, step.recoveredAt));
    } else {
      StartEffect(env, s, step.package, step.now);
    }
  }

  lemma TakenStays(env: Environment, s: System, t: System)
    requires AllTaken(env, s.store, s.workers) && Grows(s.store, t.store) && StepEffect(env, s, t)
    ensures AllTaken(env, t.store, t.workers)
  {
    forall i | 0 <= i < |t.workers|
      ensures ChecksTaken(env, t.store, t.workers[i])
    {
      if i < |s.workers| && t.workers[i] == s.workers[i] {
        assert ChecksTaken(env, s.store, s.workers[i]);
      }
    }
  }

  lemma StepProvenance(env: Environment, s: System, step: Step)
    requires Provenance(env, s) && ValidStep(env, s, step)
    ensures Provenance(env, Next(env, s, step))
  {
    var t := Next(env, s, step);
    StepKeeps(env, s, step);
    NextEffect(env, s, step);
    TracedStays(env, s.registries, t.registries, t.store);
    TakenStays(env, s, t);
  }

  lemma {:induction false} RunProvenance(env: Environment, steps: seq<Step>)
    requires ValidRun(env, INITIAL, steps)
    ensures Provenance(env, Run(env, INITIAL, steps))
  {
    if steps == [] {
      InitialInvariant(env);
    } else {
      var front := steps[..|steps| - 1];
      RunProvenance(env, front);
      StepProvenance(env, Run(env, INITIAL, front), steps[|steps| - 1]);
    }
  }

  /**
   * In every reachable state each stored object is, byte for byte, an upload of an outcome the
   * container gave for the registry's own job of that version. Nothing else gets in.
   */
  lemma StoredIsTraced(env: Environment, steps: seq<Step>, key: string)
    returns (p: PackageName, offer: Offer, n: nat)
    requires ValidRun(env, INITIAL, steps) && key in Run(env, INITIAL, steps).store
    ensures var s := Run(env, INITIAL, steps); TracedTo(env, s.registries, key, s.store[key], p, offer, n)
  {
    var s := Run(env, INITIAL, steps);
    RunProvenance(env, steps);
    assert Traced(env, s.registries, key, s.store[key]);
    p, offer, n :| TracedTo(env, s.registries, key, s.store[key], p, offer, n);
  }

  // ----- a container that answers a job always alike ---------------------------------------

  /** SHA-256 digests have the form of one; and a job's possible outcomes are one batch. */
  ghost predicate Deterministic(env: Environment) {
    && (forall b :: IsDigest(env.host.sha256(b)))
    && forall x, y :: IsPossible(env, x) && IsPossible(env, y) && x.job == y.job ==>
                        Uploads(env.host, x) == Uploads(env.host, y)
  }

  lemma BoundJobsAgree(registries: map<PackageName, Registry>, p: PackageName, q: PackageName, a: MaterializationJob,
                       b: MaterializationJob)
    requires BoundTo(registries, p, a) && BoundTo(registries, q, b) && SameVersion(a, b)
    ensures a == b
  {
    assert a.package == PackageIdentity(p.scope, p.name) && b.package == PackageIdentity(q.scope, q.name);
    assert p == q;
  }

  lemma SameUpload(env: Environment, x: Offer, m: nat, y: Offer, n: nat)
    requires Deterministic(env) && IsPossible(env, x) && IsPossible(env, y) && x.job == y.job
    requires m < |x.files| + 2 && n < |y.files| + 2 && KeyAt(x, m) == KeyAt(y, n)
    ensures Uploads(env.host, x)[m] == Uploads(env.host, y)[n]
  {
    BatchKey(env.host, x.job, x.files, x.exports, m);
    BatchKey(env.host, y.job, y.files, y.exports, n);
    assert |Uploads(env.host, x)| == |Uploads(env.host, y)|;
    BatchKeysDistinct(env.host, y.job, y.files, y.exports, m, n);
  }

  lemma TracedIsOpen(env: Environment, s: System, p: PackageName, offer: Offer, n: nat)
    requires Deterministic(env) && AllTraced(env, s.registries, s.store)
    requires IsPossible(env, offer) && BoundTo(s.registries, p, offer.job) && n < |offer.files| + 2
    ensures Open(env.host, s.store, offer, n)
  {
    var key := KeyAt(offer, n);
    OfferAdmission(env.host, offer, n);
    if key in s.store {
      assert Traced(env, s.registries, key, s.store[key]);
      var q, other, m: nat :| TracedTo(env, s.registries, key, s.store[key], q, other, m);
      SameKeySameVersion(other, m, offer, n);
      BoundJobsAgree(s.registries, q, p, other.job, offer.job);
      SameUpload(env, other, m, offer, n);
      OfferAdmission(env.host, other, m);
    }
  }

  lemma SameKeySameVersion(x: Offer, m: nat, y: Offer, n: nat)
    requires ProperOffer(x) && ProperOffer(y)
    requires m < |x.files| + 2 && n < |y.files| + 2 && KeyAt(x, m) == KeyAt(y, n)
    ensures SameVersion(x.job, y.job)
  {
    ProxyableHasNoSlash(x.job);
    ProxyableHasNoSlash(y.job);
    KeySpacesDisjoint(x.job, Suffix(x.files, m), y.job, Suffix(y.files, n));
  }

  /**
   * A retried batch succeeds: where a job's outcomes are one batch, from every reachable state,
   * after any crashes, failed and partial batches of other workers of the version, an undisturbed
   * worker's batch is accepted.
   */
  lemma RetrySucceeds(env: Environment, steps: seq<Step>, p: PackageName, offer: Offer)
    requires Deterministic(env) && ValidRun(env, INITIAL, steps)
    requires IsPossible(env, offer) && BoundTo(Run(env, INITIAL, steps).registries, p, offer.job)
    ensures Alone(env.host, Run(env, INITIAL, steps).store, p, offer, 0).1 == Finishing(p, offer)
  {
    var s := Run(env, INITIAL, steps);
    RunProvenance(env, steps);
    forall n | 0 <= n < |offer.files| + 2
      ensures Open(env.host, s.store, offer, n)
    {
      TracedIsOpen(env, s, p, offer, n);
    }
    AloneFinishes(env.host, s.store, p, offer);
  }

  // ----- under any interleaving ------------------------------------------------------------

  /** The worker's next put or head moves it on. */
  ghost predicate MovesOn(w: Worker, next: Worker) {
    match w
    case Uploading(p, offer, n) =>
      if n < |offer.files| + 2 then next == Uploading(p, offer, n + 1) || next == Checking(p, offer, n)
      else next == Finishing(p, offer)
    case Checking(p, offer, n) => next == Uploading(p, offer, n + 1)
    case _ => true
  }

  lemma OpenPutMovesOn(host: Host, store: Store, p: PackageName, offer: Offer, n: nat)
    requires ProperOffer(offer) && n < |offer.files| + 2 && Open(host, store, offer, n)
    ensures MovesOn(Uploading(p, offer, n), AfterPut(host, store, p, offer, n).1)
  {
    PutShape(host, store, p, offer, n);
  }

  lemma OpenHeadMovesOn(host: Host, store: Store, p: PackageName, offer: Offer, n: nat)
    requires ProperOffer(offer) && n < |offer.files| + 2 && Open(host, store, offer, n) && KeyAt(offer, n) in store
    ensures MovesOn(Checking(p, offer, n), AfterHead(host, store, p, offer, n))
  {
    HeadShape(host, store, p, offer, n);
  }

  /** The step takes the worker on. */
  ghost predicate TakesOn(env: Environment, s: System, step: Step, i: nat) {
    var t := Next(env, s, step);
    i < |s.workers| && i < |t.workers| && MovesOn(s.workers[i], t.workers[i])
  }

  lemma PutIsNext(env: Environment, s: System, i: nat)
    requires i < |s.workers| && s.workers[i].Uploading?
    ensures var w := s.workers[i];
            Next(env, s, PutNext(i)) == PutStep(env, s, i, w.package, w.offer, w.next)
  {
    NextOfWorker(env, s, PutNext(i));
  }

  lemma HeadIsNext(env: Environment, s: System, i: nat)
    requires i < |s.workers| && s.workers[i].Checking?
    ensures var w := s.workers[i];
            Next(env, s, HeadNext(i)) == WithWorker(s, i, AfterHead(env.host, s.store, w.package, w.offer, w.next))
  {
    NextOfWorker(env, s, HeadNext(i));
    HeadOfWorker(env, s, i);
  }

  lemma HeadOfWorker(env: Environment, s: System, i: nat)
    requires i < |s.workers| && s.workers[i].Checking?
    ensures var w, t := s.workers[i], WorkerStep(env, s, i, HeadNext(i));
            t == WithWorker(s, i, AfterHead(env.host, s.store, w.package, w.offer, w.next))
  {
  }

  lemma PutMovesOn(env: Environment, s: System, i: nat)
    requires Deterministic(env) && Provenance(env, s) && i < |s.workers| && s.workers[i].Uploading?
    ensures var w := s.workers[i]; MovesOn(w, AfterPut(env.host, s.store, w.package, w.offer, w.next).1)
  {
    var w := s.workers[i];
    WorkerAt(env, s, i);
    if w.next < |w.offer.files| + 2 {
      TracedIsOpen(env, s, w.package, w.offer, w.next);
      OpenPutMovesOn(env.host, s.store, w.package, w.offer, w.next);
    }
  }

  lemma HeadMovesOn(env: Environment, s: System, i: nat)
    requires Deterministic(env) && Provenance(env, s) && i < |s.workers| && s.workers[i].Checking?
    ensures var w := s.workers[i]; MovesOn(w, AfterHead(env.host, s.store, w.package, w.offer, w.next))
  {
    var w := s.workers[i];
    WorkerAt(env, s, i);
    assert ChecksTaken(env, s.store, w);
    TracedIsOpen(env, s, w.package, w.offer, w.next);
    OpenHeadMovesOn(env.host, s.store, w.package, w.offer, w.next);
  }

  /**
   * Where a job's outcomes are one batch, every put and every head of every worker moves it on,
   * whatever the other workers and requests did in between.
   */
  lemma UploadsMoveOn(env: Environment, steps: seq<Step>, i: nat)
    requires Deterministic(env) && ValidRun(env, INITIAL, steps) && i < |Run(env, INITIAL, steps).workers|
    ensures var s := Run(env, INITIAL, steps);
            && (s.workers[i].Uploading? ==> TakesOn(env, s, PutNext(i), i))
            && (s.workers[i].Checking? ==> TakesOn(env, s, HeadNext(i), i))
  {
    var s := Run(env, INITIAL, steps);
    RunProvenance(env, steps);
    if s.workers[i].Uploading? {
      PutMovesOn(env, s, i);
      PutIsNext(env, s, i);
    } else if s.workers[i].Checking? {
      HeadMovesOn(env, s, i);
      HeadIsNext(env, s, i);
    }
  }

  /** The worker is releasing its lease. */
  ghost predicate ReleasingAt(s: System, i: nat) {
    i < |s.workers| && s.workers[i].Releasing?
  }

  /** What may bring a worker to release its lease. */
  ghost predicate Refused(s: System, step: Step, i: nat) {
    && i < |s.workers|
    && (|| (s.workers[i].Materializing? && step == Fail(i))
        || (s.workers[i].Uploading? && step == PutNext(i))
        || (s.workers[i].Checking? && step == HeadNext(i)))
  }

  lemma ReleasingFromWorker(env: Environment, s: System, i: nat, step: Step, j: nat)
    requires i < |s.workers| && ReleasingAt(WorkerStep(env, s, i, step), j)
    requires IsWorkerStep(step) && step.worker == i
    ensures ReleasingAt(s, j) || Refused(s, step, j)
  {
    match s.workers[i]
    case Finishing(p, offer) => AccessParts(env, s, p, Complete(offer.job.version, offer.diagnostic));
    case Releasing(p, version) => AccessParts(env, s, p, Release(version));
    case _ =>
  }

  lemma ReleasingFromRequest(env: Environment, s: System, step: Step, j: nat)
    requires !IsWorkerStep(step) && ReleasingAt(Next(env, s, step), j)
    ensures ReleasingAt(s, j)
  {
    if step.RefreshPackage? {
      AccessParts(env, s, step.package, Refresh(step.discovery));
    } else if step.RecoverInPackage? {
      AccessParts(env, s, step.package, Recover(step.version, step.reason, step.recoveredAt));
    } else {
      AccessParts(env, s, step.package, Lease(step.now));
    }
  }

  lemma ReleasingFrom(env: Environment, s: System, step: Step, j: nat)
    requires ReleasingAt(Next(env, s, step), j)
    ensures ReleasingAt(s, j) || Refused(s, step, j)
  {
    if !IsWorkerStep(step) {
      ReleasingFromRequest(env, s, step, j);
    } else {
      NextOfWorker(env, s, step);
      if step.worker < |s.workers| {
        ReleasingFromWorker(env, s, step.worker, step, j);
      }
    }
  }

  /** So only the container's own failure ever makes a worker release its lease. */
  lemma OnlyFailureReleases(env: Environment, steps: seq<Step>, step: Step, i: nat)
    requires Deterministic(env) && ValidRun(env, INITIAL, steps)
    requires ReleasingAt(Next(env, Run(env, INITIAL, steps), step), i)
    ensures var s := Run(env, INITIAL, steps);
            ReleasingAt(s, i) || (i < |s.workers| && s.workers[i].Materializing? && step == Fail(i))
  {
    var s := Run(env, INITIAL, steps);
    ReleasingFrom(env, s, step, i);
    if i < |s.workers| {
      UploadsMoveOn(env, steps, i);
    }
  }
}
