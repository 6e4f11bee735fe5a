/**
 * Every step of the system keeps its invariant and undoes nothing; so does every run, whatever
 * the interleaving of requests, workers, crashes, expired leases and stale releases.
 */
module ProtocolSteps {
  import opened Common
  import opened Text
  import opened VersionAllocation
  import opened PackageRegistryModel
  import opened RegistryInvariant
  import opened RegistryService
  import opened Publication
  import opened PublicationLaws
  import opened ArtifactKeys
  import opened ArtifactStore
  import opened Protocol
  import opened ProtocolStore
  import opened ProtocolInvariant

  // ----- changing one part of the system ---------------------------------------------------

  lemma WorkersStay(env: Environment, s: System, t: System)
    requires AllWorkers(env, s.registries, s.store, s.workers) && SystemGrows(s, t)
    ensures AllWorkers(env, t.registries, t.store, s.workers)
  {
    forall i | 0 <= i < |s.workers|
      ensures WorkerInvariant(env, t.registries, t.store, s.workers[i])
    {
      WorkerStays(env, s, t, s.workers[i]);
    }
  }

  lemma PackagesStay(env: Environment, store: Store, next: Store, registries: map<PackageName, Registry>)
    requires AllPackages(env, store, registries) && Grows(store, next)
    ensures AllPackages(env, next, registries)
  {
    forall p | p in registries
      ensures PackageInvariant(env, next, p, registries[p])
    {
      PackageStays(env, store, next, p, registries[p]);
    }
  }

  lemma SetStore(env: Environment, s: System, next: Store)
    requires Invariant(env, s) && Grows(s.store, next) && StoreInvariant(env, next)
    ensures Invariant(env, s.(store := next)) && SystemGrows(s, s.(store := next))
  {
    PackagesStay(env, s.store, next, s.registries);
    WorkersStay(env, s, s.(store := next));
  }

  lemma OnlyWorkersChanged(env: Environment, s: System, workers: seq<Worker>)
    requires Invariant(env, s) && AllWorkers(env, s.registries, s.store, workers)
    ensures Invariant(env, s.(workers := workers)) && SystemGrows(s, s.(workers := workers))
  {
    GrowsReflexive(s);
  }

  lemma WorkerReplaced(env: Environment, registries: map<PackageName, Registry>, store: Store, workers: seq<Worker>,
                       i: nat, w: Worker)
    requires AllWorkers(env, registries, store, workers) && i < |workers|
    requires WorkerInvariant(env, registries, store, w)
    ensures AllWorkers(env, registries, store, workers[i := w])
  {
    var updated := workers[i := w];
    forall j | 0 <= j < |updated|
      ensures WorkerInvariant(env, registries, store, updated[j])
    {
      if j != i {
        assert WorkerInvariant(env, registries, store, workers[j]);
      }
    }
  }

  lemma WorkerAdded(env: Environment, registries: map<PackageName, Registry>, store: Store, workers: seq<Worker>, w: Worker)
    requires AllWorkers(env, registries, store, workers) && WorkerInvariant(env, registries, store, w)
    ensures AllWorkers(env, registries, store, workers + [w])
  {
    var longer := workers + [w];
    forall j | 0 <= j < |longer|
      ensures WorkerInvariant(env, registries, store, longer[j])
    {
      if j < |workers| {
        assert WorkerInvariant(env, registries, store, workers[j]);
      }
    }
  }

  lemma SetWorker(env: Environment, s: System, i: nat, w: Worker)
    requires Invariant(env, s) && i < |s.workers| && WorkerInvariant(env, s.registries, s.store, w)
    ensures Invariant(env, WithWorker(s, i, w)) && SystemGrows(s, WithWorker(s, i, w))
  {
    WorkerReplaced(env, s.registries, s.store, s.workers, i, w);
    OnlyWorkersChanged(env, s, s.workers[i := w]);
  }

  lemma AddWorker(env: Environment, s: System, w: Worker)
    requires Invariant(env, s) && WorkerInvariant(env, s.registries, s.store, w)
    ensures var t := s.(workers := s.workers + [w]); Invariant(env, t) && SystemGrows(s, t)
  {
    WorkerAdded(env, s.registries, s.store, s.workers, w);
    OnlyWorkersChanged(env, s, s.workers + [w]);
  }

  lemma SetRegistry(env: Environment, s: System, p: PackageName, r: Registry)
    requires Invariant(env, s) && PackageInvariant(env, s.store, p, r)
    requires p in s.registries ==> Persists(s.registries[p], r)
    ensures Invariant(env, WithRegistry(s, p, r)) && SystemGrows(s, WithRegistry(s, p, r))
  {
    WorkersStay(env, s, WithRegistry(s, p, r));
  }

  // ----- registry accesses -----------------------------------------------------------------

  /** If the operation completes a version, a worker holds the whole batch with that outcome. */
  ghost predicate CompletionBacked(env: Environment, store: Store, p: PackageName, s: Registry, op: Op) {
    op.Complete? ==>
      && op.version in s.versions
      && exists offer :: Whole(env, store, offer) && offer.job == JobFor(p, s.versions[op.version].job)
                         && offer.diagnostic == op.diagnostic
  }

  lemma CompletedIsPublished(env: Environment, store: Store, p: PackageName, s: Registry, op: Op)
    requires ValidRegistry(s) && AllPublished(env, store, p, s) && op.Complete?
    requires CompletionBacked(env, store, p, s, op)
    ensures var t := ServiceNext(env.before, s, op);
            op.version in t.versions && IsTerminal(t.versions[op.version].job.state) ==>
              IsPublished(env, store, p, t.versions[op.version].job)
  {
    var v := op.version;
    ValidJobAt(s, v);
    CompletionRecorded(env.before, s, v, op.diagnostic);
    var t := ServiceNext(env.before, s, op);
    if t.versions[v] != s.versions[v] {
      var offer :| Whole(env, store, offer) && offer.job == JobFor(p, s.versions[v].job)
                   && offer.diagnostic == op.diagnostic;
      assert PublishedBy(env, store, p, t.versions[v].job, offer);
    }
  }

  lemma AccessedPackage(env: Environment, store: Store, p: PackageName, s: Registry, op: Op)
    requires PackageInvariant(env, store, p, s) && ValidOp(op)
    requires CompletionBacked(env, store, p, s, op)
    ensures PackageInvariant(env, store, p, ServiceNext(env.before, s, op))
    ensures Persists(s, ServiceNext(env.before, s, op))
  {
    var t := ServiceNext(env.before, s, op);
    ServiceNextValid(env.before, s, op);
    NextPublishesOnly(env.before, s, op);
    forall v | v in t.versions && IsTerminal(t.versions[v].job.state)
      ensures IsPublished(env, store, p, t.versions[v].job)
    {
      if !(v in s.versions && t.versions[v] == s.versions[v]) {
        CompletedIsPublished(env, store, p, s, op);
      }
    }
  }

  lemma NewPackage(env: Environment, store: Store, p: PackageName)
    requires ProxiedPackage(p)
    ensures PackageInvariant(env, store, p, NewRegistry(p))
  {
    NewRegistryValid(p);
  }

  lemma AccessStored(env: Environment, s: System, p: PackageName, op: Op)
    requires Invariant(env, s) && ValidOp(op) && p in s.registries
    requires CompletionBacked(env, s.store, p, s.registries[p], op)
    ensures Access(env, s, p, op) == WithRegistry(s, p, ServiceNext(env.before, s.registries[p], op))
    ensures Invariant(env, WithRegistry(s, p, ServiceNext(env.before, s.registries[p], op)))
    ensures SystemGrows(s, WithRegistry(s, p, ServiceNext(env.before, s.registries[p], op)))
  {
    AccessedPackage(env, s.store, p, s.registries[p], op);
    SetRegistry(env, s, p, ServiceNext(env.before, s.registries[p], op));
  }

  lemma AccessCreates(env: Environment, s: System, p: PackageName, op: Op)
    requires Invariant(env, s) && ValidOp(op) && p !in s.registries && op.Refresh? && ProxiedPackage(p)
    ensures Invariant(env, WithRegistry(s, p, ServiceNext(env.before, NewRegistry(p), op)))
    ensures SystemGrows(s, WithRegistry(s, p, ServiceNext(env.before, NewRegistry(p), op)))
  {
    NewPackage(env, s.store, p);
    AccessedPackage(env, s.store, p, NewRegistry(p), op);
    SetRegistry(env, s, p, ServiceNext(env.before, NewRegistry(p), op));
  }

  lemma AccessKeeps(env: Environment, s: System, p: PackageName, op: Op)
    requires Invariant(env, s) && ValidOp(op)
    requires op.Refresh? ==> ProxiedPackage(p)
    requires p in s.registries ==> CompletionBacked(env, s.store, p, s.registries[p], op)
    ensures Invariant(env, Access(env, s, p, op)) && SystemGrows(s, Access(env, s, p, op))
    ensures Access(env, s, p, op).workers == s.workers && Access(env, s, p, op).store == s.store
  {
    if p in s.registries {
      AccessStored(env, s, p, op);
    } else if op.Refresh? && !ServiceReply(env.before, NewRegistry(p), op).Threw? {
      AccessCreates(env, s, p, op);
    } else {
      assert Access(env, s, p, op) == s;
      GrowsReflexive(s);
    }
  }

  // ----- leased jobs -----------------------------------------------------------------------

  lemma DigitsAreText(major: string, sequence: string)
    requires major != "" && AllDigits(major) && sequence != "" && AllDigits(sequence)
    ensures IsVersionText(major + ".1." + sequence)
  {
    var pieces := [major, "1", sequence];
    JoinFirst("1", [sequence], '.');
    JoinFirst(major, ["1", sequence], '.');
    assert ["1"] + [sequence] == ["1", sequence] && [major] + ["1", sequence] == pieces;
    assert Join(pieces, '.') == major + ".1." + sequence;
    SplitJoin(pieces, '.');
  }

  lemma VersionIsText(major: nat, sequence: nat)
    ensures IsVersionText(RenderVersion(major, sequence))
  {
    DecimalCanonical(major);
    DecimalCanonical(sequence);
    DigitsAreText(Decimal(major), Decimal(sequence));
  }

  /** Every version of a proxied package makes a job whose keys survive transport. */
  lemma VersionIsProxyable(p: PackageName, s: Registry, v: string)
    requires ProxiedPackage(p) && ValidRegistry(s) && v in s.versions
    ensures IsProxyable(JobFor(p, s.versions[v].job))
  {
    var x := s.versions[v].assignment;
    assert ValidRecord(s.majors, s.versions[v], v);
    assert ValidRow(x.major, s.majors[x.major], KeyOf(x));
    VersionIsText(x.major, x.sequence);
  }

  lemma GrantedIsBound(env: Environment, s: System, p: PackageName, now: int)
    requires p in s.registries && Keyed(s.registries[p].versions)
    requires ServiceReply(env.before, s.registries[p], Lease(now)).Granted?
    ensures var job := ServiceReply(env.before, s.registries[p], Lease(now)).job;
            BoundTo(Access(env, s, p, Lease(now)).registries, p, JobFor(p, job))
  {
    var r := s.registries[p];
    GrantIsLease(env.before, r, now);
    LeaseRecords(env.before, r, now);
    assert Access(env, s, p, Lease(now)) == WithRegistry(s, p, ServiceNext(env.before, r, Lease(now)));
  }

  lemma GrantIsLease(before: (string, string) -> bool, r: Registry, now: int)
    requires ServiceReply(before, r, Lease(now)).Granted?
    ensures LeaseStep(before, r, now)
         == Outcome(ServiceNext(before, r, Lease(now)), Ok(Some(ServiceReply(before, r, Lease(now)).job)))
  {
  }

  lemma LeaseRecords(before: (string, string) -> bool, r: Registry, now: int)
    requires Keyed(r.versions)
    ensures var leased := LeaseStep(before, r, now);
            leased.result.Ok? && leased.result.value.Some? ==>
              var job := leased.result.value.value;
              job.version in leased.state.versions && leased.state.versions[job.version].job == job
  {
    var vs := Leasable(r.versions, r.order, now);
    if vs != [] {
      assert r.versions[Least(before, vs)].job.version == Least(before, vs);
    }
  }

  // ----- the steps -------------------------------------------------------------------------

  lemma StartKeeps(env: Environment, s: System, p: PackageName, now: int)
    requires Invariant(env, s)
    ensures Invariant(env, StartStep(env, s, p, now)) && SystemGrows(s, StartStep(env, s, p, now))
  {
    var next := Access(env, s, p, Lease(now));
    AccessKeeps(env, s, p, Lease(now));
    if p in s.registries && ServiceReply(env.before, s.registries[p], Lease(now)).Granted? {
      var job := ServiceReply(env.before, s.registries[p], Lease(now)).job;
      PackageIsValid(env, s, p);
      ValidIsKeyed(s.registries[p]);
      GrantedIsBound(env, s, p, now);
      AddWorker(env, next, Materializing(p, job));
      GrowsTransitive(s, next, StartStep(env, s, p, now));
    }
  }

  lemma PackageIsValid(env: Environment, s: System, p: PackageName)
    requires Invariant(env, s) && p in s.registries
    ensures ValidRegistry(s.registries[p]) && ProxiedPackage(p)
  {
    assert PackageInvariant(env, s.store, p, s.registries[p]);
  }

  lemma WorkerAt(env: Environment, s: System, i: nat)
    requires Invariant(env, s) && i < |s.workers|
    ensures WorkerInvariant(env, s.registries, s.store, s.workers[i])
  {
  }

  lemma BoundIsProxyable(env: Environment, s: System, p: PackageName, job: MaterializationJob)
    requires Invariant(env, s) && BoundTo(s.registries, p, job)
    ensures IsProxyable(job)
  {
    PackageIsValid(env, s, p);
    VersionIsProxyable(p, s.registries[p], job.version);
  }

  lemma ReceiveKeeps(env: Environment, s: System, i: nat, offer: Offer)
    requires Invariant(env, s) && i < |s.workers| && s.workers[i].Materializing?
    requires ProperFiles(offer.files) && env.possible(offer) && offer.job == JobFor(s.workers[i].package, s.workers[i].job)
    ensures var t := WithWorker(s, i, Uploading(s.workers[i].package, offer, 0));
            Invariant(env, t) && SystemGrows(s, t)
  {
    var w := s.workers[i];
    WorkerAt(env, s, i);
    BoundIsProxyable(env, s, w.package, offer.job);
    SetWorker(env, s, i, Uploading(w.package, offer, 0));
  }

  lemma PutKeeps(env: Environment, s: System, i: nat, p: PackageName, offer: Offer, n: nat)
    requires Invariant(env, s) && i < |s.workers| && s.workers[i] == Uploading(p, offer, n)
    ensures Invariant(env, PutStep(env, s, i, p, offer, n)) && SystemGrows(s, PutStep(env, s, i, p, offer, n))
  {
    WorkerAt(env, s, i);
    PutLaw(env, s.store, p, offer, n);
    var (store, w) := AfterPut(env.host, s.store, p, offer, n);
    var t := s.(store := store);
    SetStore(env, s, store);
    BoundStays(s.registries, t.registries, p, offer.job);
    SetWorker(env, t, i, w);
    GrowsTransitive(s, t, WithWorker(t, i, w));
  }

  lemma HeadKeeps(env: Environment, s: System, i: nat, p: PackageName, offer: Offer, n: nat)
    requires Invariant(env, s) && i < |s.workers| && s.workers[i] == Checking(p, offer, n)
    ensures var t := WithWorker(s, i, AfterHead(env.host, s.store, p, offer, n));
            Invariant(env, t) && SystemGrows(s, t)
  {
    WorkerAt(env, s, i);
    HeadLaw(env.host, s.store, p, offer, n);
    SetWorker(env, s, i, AfterHead(env.host, s.store, p, offer, n));
  }

  lemma EndKeeps(env: Environment, s: System, i: nat, p: PackageName, op: Op)
    requires Invariant(env, s) && i < |s.workers| && (op.Complete? || op.Release?)
    requires p in s.registries ==> CompletionBacked(env, s.store, p, s.registries[p], op)
    ensures Invariant(env, EndStep(env, s, i, p, op)) && SystemGrows(s, EndStep(env, s, i, p, op))
  {
    var next := Access(env, s, p, op);
    AccessKeeps(env, s, p, op);
    SetWorker(env, next, i, Stopped);
    GrowsTransitive(s, next, WithWorker(next, i, Stopped));
  }

  lemma FinishIsBacked(env: Environment, s: System, i: nat, p: PackageName, offer: Offer)
    requires Invariant(env, s) && i < |s.workers| && s.workers[i] == Finishing(p, offer)
    ensures p in s.registries
    ensures CompletionBacked(env, s.store, p, s.registries[p], Complete(offer.job.version, offer.diagnostic))
  {
    WorkerAt(env, s, i);
  }

  lemma CrashKeeps(env: Environment, s: System, i: nat, step: Step)
    requires Invariant(env, s) && i < |s.workers|
    ensures Invariant(env, CrashStep(s, i, step)) && SystemGrows(s, CrashStep(s, i, step))
  {
    if step.Crash? {
      SetWorker(env, s, i, Stopped);
    } else {
      GrowsReflexive(s);
    }
  }

  lemma MaterializingKeeps(env: Environment, s: System, i: nat, step: Step)
    requires Invariant(env, s) && i < |s.workers| && ValidStep(env, s, step) && s.workers[i].Materializing?
    requires step.Receive? ==> step.worker == i
    ensures Invariant(env, WorkerStep(env, s, i, step)) && SystemGrows(s, WorkerStep(env, s, i, step))
  {
    if step.Receive? {
      ReceiveKeeps(env, s, i, step.offer);
    } else if step.Fail? {
      SetWorker(env, s, i, Releasing(s.workers[i].package, s.workers[i].job.version));
    } else {
      CrashKeeps(env, s, i, step);
    }
  }

  lemma PublishingKeeps(env: Environment, s: System, i: nat, step: Step)
    requires Invariant(env, s) && i < |s.workers| && (s.workers[i].Uploading? || s.workers[i].Checking?)
    ensures Invariant(env, WorkerStep(env, s, i, step)) && SystemGrows(s, WorkerStep(env, s, i, step))
  {
    var w := s.workers[i];
    if w.Uploading? && step.PutNext? {
      PutKeeps(env, s, i, w.package, w.offer, w.next);
    } else if w.Checking? && step.HeadNext? {
      HeadKeeps(env, s, i, w.package, w.offer, w.next);
    } else {
      CrashKeeps(env, s, i, step);
    }
  }

  lemma EndingKeeps(env: Environment, s: System, i: nat, step: Step)
    requires Invariant(env, s) && i < |s.workers| && (s.workers[i].Finishing? || s.workers[i].Releasing?)
    ensures Invariant(env, WorkerStep(env, s, i, step)) && SystemGrows(s, WorkerStep(env, s, i, step))
  {
    var w := s.workers[i];
    if w.Finishing? && step.Finish? {
      FinishIsBacked(env, s, i, w.package, w.offer);
      EndKeeps(env, s, i, w.package, Complete(w.offer.job.version, w.offer.diagnostic));
    } else if w.Releasing? && step.ReleaseHeld? {
      EndKeeps(env, s, i, w.package, Release(w.version));
    } else {
      CrashKeeps(env, s, i, step);
    }
  }

  lemma WorkerStepKeeps(env: Environment, s: System, i: nat, step: Step)
    requires Invariant(env, s) && i < |s.workers| && ValidStep(env, s, step)
    requires step.Receive? ==> step.worker == i
    ensures Invariant(env, WorkerStep(env, s, i, step)) && SystemGrows(s, WorkerStep(env, s, i, step))
  {
    match s.workers[i]
    case Materializing(_, _) => MaterializingKeeps(env, s, i, step);
    case Uploading(_, _, _) => PublishingKeeps(env, s, i, step);
    case Checking(_, _, _) => PublishingKeeps(env, s, i, step);
    case Finishing(_, _) => EndingKeeps(env, s, i, step);
    case Releasing(_, _) => EndingKeeps(env, s, i, step);
    case Stopped => GrowsReflexive(s);
  }

  /** Every step keeps the invariant, and undoes nothing. */
  lemma StepKeeps(env: Environment, s: System, step: Step)
    requires Invariant(env, s) && ValidStep(env, s, step)
    ensures Invariant(env, Next(env, s, step)) && SystemGrows(s, Next(env, s, step))
  {
    match step
    case RefreshPackage(p, d) => AccessKeeps(env, s, p, Refresh(d));
    case RecoverInPackage(p, v, reason, at) => AccessKeeps(env, s, p, Recover(v, reason, at));
    case StartWorker(p, now) => StartKeeps(env, s, p, now);
    case _ =>
      if step.worker < |s.workers| {
        WorkerStepKeeps(env, s, step.worker, step);
      } else {
        GrowsReflexive(s);
      }
  }

  lemma InitialInvariant(env: Environment)
    ensures Invariant(env, INITIAL)
  {
  }

  /** Every run from any state that satisfies the invariant keeps it, and undoes nothing. */
  lemma {:induction false} RunKeeps(env: Environment, s: System, steps: seq<Step>)
    requires Invariant(env, s) && ValidRun(env, s, steps)
    ensures Invariant(env, Run(env, s, steps)) && SystemGrows(s, Run(env, s, steps))
  {
    if steps == [] {
      GrowsReflexive(s);
    } else {
      var front := steps[..|steps| - 1];
      RunKeeps(env, s, front);
      StepKeeps(env, Run(env, s, front), steps[|steps| - 1]);
      GrowsTransitive(s, Run(env, s, front), Run(env, s, steps));
    }
  }
}
