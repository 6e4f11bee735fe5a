/**
 * That the system gets anywhere: a lease request starts a worker whenever some job is pending or
 * its lease has run out, and from every reachable state the remaining steps that publish a package
 * are there to be taken, whatever crashed before.
 */
module Progress {
  import opened Common
  import opened Branches
  import opened VersionAllocation
  import opened PackageRegistryModel
  import opened RegistryInvariant
  import opened RegistryService
  import opened LeaseDiscipline
  import opened OperationLaws
  import opened Publication
  import opened PublicationLaws
  import opened ArtifactKeys
  import opened ArtifactStore
  import opened Protocol
  import opened ProtocolInvariant
  import opened ProtocolSteps
  import opened ProtocolTheorems
  import opened RetriedUploads

  // ----- starting --------------------------------------------------------------------------

  ghost predicate SomethingClaimable(r: Registry, now: int) {
    exists v :: ClaimableVersion(r, v, now)
  }

  /** The lease of `v` was granted to a new worker, and nothing else happened. */
  ghost predicate Started(s: System, t: System, p: PackageName, v: string, now: int)
    requires p in s.registries
  {
    && p in t.registries && v in t.registries[p].versions
    && var job := t.registries[p].versions[v].job;
    && LeasedInstead(s.registries[p], t.registries[p], v, now, job)
    && t == System(s.registries[p := t.registries[p]], s.store, s.workers + [Materializing(p, job)])
  }

  lemma TargetIsClaimable(before: (string, string) -> bool, r: Registry, now: int)
    requires OrderExact(r)
    ensures LeaseTarget(before, r, now).Some? <==> SomethingClaimable(r, now)
    ensures LeaseTarget(before, r, now).Some? ==> ClaimableVersion(r, LeaseTarget(before, r, now).value, now)
  {
    LeaseShape(before, r, now);
    if v :| ClaimableVersion(r, v, now) {
      assert v in Leasable(r.versions, r.order, now);
    }
    if LeaseTarget(before, r, now).Some? {
      assert ClaimableVersion(r, LeaseTarget(before, r, now).value, now);
    }
  }

  lemma LeaseServed(before: (string, string) -> bool, r: Registry, now: int)
    requires SafeRegistry(r) && OrderExact(r) && Keyed(r.versions)
    ensures var reply, next := ServiceReply(before, r, Lease(now)), ServiceNext(before, r, Lease(now));
            if SomethingClaimable(r, now) then
              exists v :: ClaimableVersion(r, v, now) && v in next.versions && reply == Granted(next.versions[v].job)
                          && LeasedInstead(r, next, v, now, next.versions[v].job)
            else reply == NothingToLease && next == r
  {
    TargetIsClaimable(before, r, now);
    LeaseShape(before, r, now);
    if LeaseTarget(before, r, now).Some? {
      var v := LeaseTarget(before, r, now).value;
      assert LeasedInstead(r, ServiceNext(before, r, Lease(now)), v, now, ServiceNext(before, r, Lease(now)).versions[v].job);
    }
  }

  lemma StartIsLease(env: Environment, s: System, p: PackageName, now: int, reply: Reply, next: Registry)
    requires p in s.registries && reply == ServiceReply(env.before, s.registries[p], Lease(now))
    requires next == ServiceNext(env.before, s.registries[p], Lease(now))
    ensures Next(env, s, StartWorker(p, now)).registries == s.registries[p := next]
    ensures Next(env, s, StartWorker(p, now)).store == s.store
    ensures Next(env, s, StartWorker(p, now)).workers
         == if reply.Granted? then s.workers + [Materializing(p, reply.job)] else s.workers
  {
  }

  /** A package without a registry, or with one that cannot be read back, starts no worker. */
  lemma NothingStarts(env: Environment, s: System, p: PackageName, now: int)
    requires p !in s.registries || !SafeRegistry(s.registries[p])
    ensures Next(env, s, StartWorker(p, now)) == s
  {
    if p in s.registries {
      assert s.registries[p := s.registries[p]] == s.registries;
    }
  }

  /**
   * A lease request on a readable registry starts exactly one worker, for a job that was pending
   * or whose lease had run out, and leases that job; or, where there is none, does nothing.
   */
  lemma StartingStarts(env: Environment, s: System, p: PackageName, now: int)
    requires Invariant(env, s) && p in s.registries && SafeRegistry(s.registries[p])
    ensures var t := Next(env, s, StartWorker(p, now));
            if SomethingClaimable(s.registries[p], now) then
              exists v :: ClaimableVersion(s.registries[p], v, now) && Started(s, t, p, v, now)
            else t == s
  {
    var r := s.registries[p];
    PackageIsValid(env, s, p);
    ValidIsKeyed(r);
    StartedOrNot(env, s, p, now);
  }

  lemma StartedOrNot(env: Environment, s: System, p: PackageName, now: int)
    requires p in s.registries && SafeRegistry(s.registries[p])
    requires OrderExact(s.registries[p]) && Keyed(s.registries[p].versions)
    ensures var t := Next(env, s, StartWorker(p, now));
            if SomethingClaimable(s.registries[p], now) then
              exists v :: ClaimableVersion(s.registries[p], v, now) && Started(s, t, p, v, now)
            else t == s
  {
    var r := s.registries[p];
    LeaseServed(env.before, r, now);
    var reply, next := ServiceReply(env.before, r, Lease(now)), ServiceNext(env.before, r, Lease(now));
    StartIsLease(env, s, p, now, reply, next);
    if SomethingClaimable(r, now) {
      var v :| ClaimableVersion(r, v, now) && v in next.versions
        && reply == Granted(next.versions[v].job)
        && LeasedInstead(r, next, v, now, next.versions[v].job);
      assert Started(s, Next(env, s, StartWorker(p, now)), p, v, now);
    } else {
      assert s.registries[p := r] == s.registries;
    }
  }

  // ----- uploading -------------------------------------------------------------------------

  /** Open keys stay open: nothing is in the way of the offer's batch that was not. */
  ghost predicate KeepsOpen(host: Host, store: Store, next: Store, offer: Offer) {
    AllOpen(host, store, offer) ==> AllOpen(host, next, offer)
  }

  /** Storing an upload of `offer` leaves the keys of offers open that are its own or elsewhere. */
  lemma StoringKeepsOpen(host: Host, store: Store, offer: Offer, n: nat, other: Offer)
    requires ProperOffer(offer) && ProperOffer(other) && n < |offer.files| + 2
    requires other == offer || !SameVersion(other.job, offer.job)
    ensures KeepsOpen(host, store, store[KeyAt(offer, n) := UploadObject(host, offer, n)], other)
  {
    var next := store[KeyAt(offer, n) := UploadObject(host, offer, n)];
    OfferAdmission(host, offer, n);
    if AllOpen(host, store, other) {
      forall m | 0 <= m < |other.files| + 2
        ensures Open(host, next, other, m)
      {
        assert Open(host, store, other, m);
        if KeyAt(other, m) == KeyAt(offer, n) {
          SameKeySameVersion(other, m, offer, n);
          TwoKeysApart(host, offer, m, n);
        }
      }
    }
  }

  /** The offers whose keys the worker's batch leaves open. */
  ghost predicate Beside(offer: Offer, other: Offer) {
    ProperOffer(other) && (other == offer || !SameVersion(other.job, offer.job))
  }

  ghost predicate AllKeptOpen(host: Host, store: Store, next: Store, offer: Offer) {
    forall other :: Beside(offer, other) ==> KeepsOpen(host, store, next, other)
  }

  /** Only the store and worker `i` differ, and the store leaves open what lies beside the offer. */
  ghost predicate Advanced(env: Environment, s: System, t: System, i: nat, w: Worker, offer: Offer) {
    && i < |s.workers| && t.registries == s.registries && t.workers == s.workers[i := w]
    && AllKeptOpen(env.host, s.store, t.store, offer)
  }

  lemma AdvancedTransitive(env: Environment, s: System, t: System, u: System, i: nat, w: Worker, x: Worker, offer: Offer)
    requires Advanced(env, s, t, i, w, offer) && Advanced(env, t, u, i, x, offer)
    ensures Advanced(env, s, u, i, x, offer)
  {
    assert s.workers[i := w][i := x] == s.workers[i := x];
    forall other | Beside(offer, other)
      ensures KeepsOpen(env.host, s.store, u.store, other)
    {
      assert KeepsOpen(env.host, s.store, t.store, other) && KeepsOpen(env.host, t.store, u.store, other);
    }
  }

  /** What the next put of an open upload does. */
  lemma PutOpen(env: Environment, s: System, i: nat, p: PackageName, offer: Offer, n: nat)
    requires i < |s.workers| && s.workers[i] == Uploading(p, offer, n)
    requires ProperOffer(offer) && n < |offer.files| + 2 && Open(env.host, s.store, offer, n)
    ensures var t := Next(env, s, PutNext(i));
            && i < |t.workers|
            && t.workers[i] == (if KeyAt(offer, n) in s.store then Checking(p, offer, n) else Uploading(p, offer, n + 1))
            && KeyAt(offer, n) in t.store
            && Advanced(env, s, t, i, t.workers[i], offer)
  {
    PutIsNext(env, s, i);
    PutShape(env.host, s.store, p, offer, n);
    forall other | Beside(offer, other)
      ensures KeepsOpen(env.host, s.store, AfterPut(env.host, s.store, p, offer, n).0, other)
    {
      StoringKeepsOpen(env.host, s.store, offer, n, other);
    }
  }

  lemma HeadOpen(env: Environment, s: System, i: nat, p: PackageName, offer: Offer, n: nat)
    requires i < |s.workers| && s.workers[i] == Checking(p, offer, n)
    requires ProperOffer(offer) && n < |offer.files| + 2 && Open(env.host, s.store, offer, n)
    requires KeyAt(offer, n) in s.store
    ensures Advanced(env, s, Next(env, s, HeadNext(i)), i, Uploading(p, offer, n + 1), offer)
  {
    HeadIsNext(env, s, i);
    HeadShape(env.host, s.store, p, offer, n);
  }

  lemma {:induction false} ValidRunSplits(env: Environment, s: System, steps: seq<Step>, more: seq<Step>)
    requires ValidRun(env, s, steps) && ValidRun(env, Run(env, s, steps), more)
    ensures ValidRun(env, s, steps + more)
    decreases |more|
  {
    if more == [] {
      assert steps + more == steps;
    } else {
      var front := more[..|more| - 1];
      ValidRunSplits(env, s, steps, front);
      RunSplits(env, s, steps, front);
      LastOfConcatenation(steps, more);
    }
  }

  lemma OneStep(env: Environment, s: System, step: Step)
    ensures Run(env, s, [step]) == Next(env, s, step)
    ensures ValidRun(env, s, [step]) <==> ValidStep(env, s, step)
  {
    assert [step][..0] == [];
  }

  /** A run that one more run can follow. */
  lemma RunThen(env: Environment, s: System, steps: seq<Step>, more: seq<Step>)
    requires ValidRun(env, s, steps) && ValidRun(env, Run(env, s, steps), more)
    ensures ValidRun(env, s, steps + more)
    ensures Run(env, s, steps + more) == Run(env, Run(env, s, steps), more)
  {
    ValidRunSplits(env, s, steps, more);
    RunSplits(env, s, steps, more);
  }

  /** One upload's own steps: a put, and a head where its key was taken. */
  lemma OneUpload(env: Environment, s: System, i: nat, p: PackageName, offer: Offer, n: nat) returns (steps: seq<Step>)
    requires i < |s.workers| && s.workers[i] == Uploading(p, offer, n)
    requires ProperOffer(offer) && n < |offer.files| + 2 && AllOpen(env.host, s.store, offer)
    ensures ValidRun(env, s, steps) && Advanced(env, s, Run(env, s, steps), i, Uploading(p, offer, n + 1), offer)
  {
    assert Open(env.host, s.store, offer, n);
    PutOpen(env, s, i, p, offer, n);
    OneStep(env, s, PutNext(i));
    steps := [PutNext(i)];
    if KeyAt(offer, n) in s.store {
      var t := Next(env, s, PutNext(i));
      assert Beside(offer, offer);
      assert KeepsOpen(env.host, s.store, t.store, offer) && Open(env.host, t.store, offer, n);
      HeadOpen(env, t, i, p, offer, n);
      OneStep(env, t, HeadNext(i));
      RunThen(env, s, steps, [HeadNext(i)]);
      AdvancedTransitive(env, s, t, Next(env, t, HeadNext(i)), i, t.workers[i], Uploading(p, offer, n + 1), offer);
      steps := steps + [HeadNext(i)];
    }
  }

  lemma LastPut(env: Environment, s: System, i: nat, p: PackageName, offer: Offer)
    requires i < |s.workers| && s.workers[i] == Uploading(p, offer, |offer.files| + 2)
    ensures Advanced(env, s, Next(env, s, PutNext(i)), i, Finishing(p, offer), offer)
  {
    PutIsNext(env, s, i);
  }

  /** A worker whose keys are open can take its own steps up to having the whole batch stored. */
  lemma {:induction false} UploadsToTheEnd(env: Environment, s: System, i: nat, p: PackageName, offer: Offer, n: nat)
    returns (steps: seq<Step>)
    requires i < |s.workers| && s.workers[i] == Uploading(p, offer, n)
    requires ProperOffer(offer) && n <= |offer.files| + 2 && AllOpen(env.host, s.store, offer)
    ensures ValidRun(env, s, steps) && Advanced(env, s, Run(env, s, steps), i, Finishing(p, offer), offer)
    decreases |offer.files| + 2 - n
  {
    if n == |offer.files| + 2 {
      LastPut(env, s, i, p, offer);
      OneStep(env, s, PutNext(i));
      steps := [PutNext(i)];
    } else {
      var first := OneUpload(env, s, i, p, offer, n);
      var t := Run(env, s, first);
      assert Beside(offer, offer);
      assert KeepsOpen(env.host, s.store, t.store, offer);
      var rest := UploadsToTheEnd(env, t, i, p, offer, n + 1);
      RunThen(env, s, first, rest);
      AdvancedTransitive(env, s, t, Run(env, t, rest), i, Uploading(p, offer, n + 1), Finishing(p, offer), offer);
      steps := first + rest;
    }
  }

  // ----- publishing one version ------------------------------------------------------------

  /** Receiving the container's outcome starts its upload. */
  lemma ReceiveStarts(env: Environment, s: System, i: nat, p: PackageName, job: Job, offer: Offer)
    requires i < |s.workers| && s.workers[i] == Materializing(p, job)
    ensures Next(env, s, Receive(i, offer)) == s.(workers := s.workers[i := Uploading(p, offer, 0)])
  {
  }

  /** The registry with `v` published, and all else in it as it was. */
  ghost predicate OnePublished(r: Registry, u: Registry, v: string, diagnostic: Option<Diagnostic>) {
    && v in r.versions && u.versions.Keys == r.versions.Keys && u.majors == r.majors
    && (forall w :: w in r.versions && w != v ==> u.versions[w] == r.versions[w])
    && v in Meta(u) && (v in Unpublished(r) ==> Meta(u)[v] == diagnostic.Some?)
  }

  /** The system with `v` of package `p` published, the other packages as they were. */
  ghost predicate Published(env: Environment, s: System, t: System, p: PackageName, v: string, offer: Offer) {
    && p in s.registries && t.registries.Keys == s.registries.Keys
    && (forall q :: q in s.registries && q != p ==> t.registries[q] == s.registries[q])
    && OnePublished(s.registries[p], t.registries[p], v, offer.diagnostic)
    && AllKeptOpen(env.host, s.store, t.store, offer)
  }

  lemma CompletionOne(before: (string, string) -> bool, r: Registry, v: string, diagnostic: Option<Diagnostic>)
    requires SafeRegistry(r) && v in r.versions
    ensures OnePublished(r, ServiceNext(before, r, Complete(v, diagnostic)), v, diagnostic)
  {
    CompletionPublishes(before, r, v, diagnostic);
  }

  lemma FinishIsNext(env: Environment, s: System, i: nat, p: PackageName, offer: Offer)
    requires i < |s.workers| && s.workers[i] == Finishing(p, offer) && p in s.registries
    ensures Next(env, s, Finish(i)).store == s.store
    ensures Next(env, s, Finish(i)).registries
         == s.registries[p := ServiceNext(env.before, s.registries[p], Complete(offer.job.version, offer.diagnostic))]
  {
  }

  lemma FinishPublishes(env: Environment, s: System, i: nat, p: PackageName, offer: Offer)
    requires i < |s.workers| && s.workers[i] == Finishing(p, offer)
    requires p in s.registries && SafeRegistry(s.registries[p]) && offer.job.version in s.registries[p].versions
    ensures Published(env, s, Next(env, s, Finish(i)), p, offer.job.version, offer)
  {
    FinishIsNext(env, s, i, p, offer);
    CompletionOne(env.before, s.registries[p], offer.job.version, offer.diagnostic);
  }

  lemma PublishedAfterAdvance(env: Environment, s: System, t: System, u: System, i: nat, w: Worker, p: PackageName,
                              v: string, offer: Offer)
    requires Advanced(env, s, t, i, w, offer) && Published(env, t, u, p, v, offer)
    ensures Published(env, s, u, p, v, offer)
  {
    forall other | Beside(offer, other)
      ensures KeepsOpen(env.host, s.store, u.store, other)
    {
      assert KeepsOpen(env.host, s.store, t.store, other) && KeepsOpen(env.host, t.store, u.store, other);
    }
  }

  /** A worker waiting for an outcome whose keys are open can publish its version, on its own. */
  lemma PublishesGranted(env: Environment, s: System, i: nat, p: PackageName, job: Job, offer: Offer)
    returns (steps: seq<Step>)
    requires i < |s.workers| && s.workers[i] == Materializing(p, job)
    requires p in s.registries && SafeRegistry(s.registries[p]) && job.version in s.registries[p].versions
    requires IsPossible(env, offer) && offer.job == JobFor(p, job) && AllOpen(env.host, s.store, offer)
    ensures ValidRun(env, s, steps) && Published(env, s, Run(env, s, steps), p, job.version, offer)
  {
    var receive := [Receive(i, offer)];
    ReceiveStarts(env, s, i, p, job, offer);
    OneStep(env, s, Receive(i, offer));
    var a := Next(env, s, Receive(i, offer));
    var uploads := UploadsToTheEnd(env, a, i, p, offer, 0);
    var b := Run(env, a, uploads);
    RunThen(env, s, receive, uploads);
    FinishPublishes(env, b, i, p, offer);
    OneStep(env, b, Finish(i));
    RunThen(env, s, receive + uploads, [Finish(i)]);
    steps := receive + uploads + [Finish(i)];
    PublishedAfterAdvance(env, a, b, Next(env, b, Finish(i)), i, Finishing(p, offer), p, job.version, offer);
    PublishedFromStart(env, s, a, Next(env, b, Finish(i)), p, job.version, offer);
  }

  lemma PublishedFromStart(env: Environment, s: System, a: System, t: System, p: PackageName, v: string, offer: Offer)
    requires a.store == s.store && a.registries == s.registries && Published(env, a, t, p, v, offer)
    ensures Published(env, s, t, p, v, offer)
  {
    forall other | Beside(offer, other)
      ensures KeepsOpen(env.host, s.store, t.store, other)
    {
      assert KeepsOpen(env.host, a.store, t.store, other);
    }
  }

  // ----- publishing them all ---------------------------------------------------------------

  /** The container may answer the version's job with the offer, and nothing is in its way. */
  ghost predicate Offerable(env: Environment, s: System, p: PackageName, v: string, offer: Offer)
    requires p in s.registries && v in s.registries[p].versions
  {
    && IsPossible(env, offer) && offer.job == JobFor(p, s.registries[p].versions[v].job)
    && AllOpen(env.host, s.store, offer)
  }

  ghost predicate AllOfferable(env: Environment, s: System, p: PackageName, offers: string -> Offer)
    requires p in s.registries
  {
    forall v :: v in Unpublished(s.registries[p]) ==> Offerable(env, s, p, v, offers(v))
  }

  /** One version, unpublished before, is now published with its offer's outcome. */
  ghost predicate OneMore(env: Environment, s: System, t: System, p: PackageName, v: string, offers: string -> Offer) {
    p in s.registries && v in Unpublished(s.registries[p]) && Published(env, s, t, p, v, offers(v))
  }

  lemma PublishedAfterLease(env: Environment, s: System, a: System, t: System, p: PackageName, v: string, now: int,
                            offer: Offer)
    requires p in s.registries && Started(s, a, p, v, now) && v in Unpublished(s.registries[p])
    requires Published(env, a, t, p, v, offer)
    ensures Published(env, s, t, p, v, offer)
  {
    assert v in Unpublished(a.registries[p]);
    assert AllKeptOpen(env.host, a.store, t.store, offer) && a.store == s.store;
    forall other | Beside(offer, other)
      ensures KeepsOpen(env.host, s.store, t.store, other)
    {
      assert KeepsOpen(env.host, a.store, t.store, other);
    }
  }

  lemma ClaimableIsUnpublished(r: Registry, v: string, now: int)
    requires ClaimableVersion(r, v, now)
    ensures v in Unpublished(r)
  {
  }

  lemma StartedWorker(s: System, a: System, p: PackageName, v: string, now: int)
    requires p in s.registries && Started(s, a, p, v, now) && Keyed(s.registries[p].versions)
    ensures var job := a.registries[p].versions[v].job;
            && |a.workers| == |s.workers| + 1 && a.workers[|s.workers|] == Materializing(p, job)
            && job.version == v && JobFor(p, job) == JobFor(p, s.registries[p].versions[v].job)
            && a.registries[p].majors == s.registries[p].majors && a.store == s.store
  {
  }

  /** A lease request and the worker's own steps publish one more version. */
  lemma PublishesOneMore(env: Environment, s: System, p: PackageName, offers: string -> Offer, now: int)
    returns (v: string, steps: seq<Step>)
    requires Invariant(env, s) && p in s.registries && SafeRegistry(s.registries[p])
    requires AllOfferable(env, s, p, offers) && SomethingClaimable(s.registries[p], now)
    ensures ValidRun(env, s, steps) && OneMore(env, s, Run(env, s, steps), p, v, offers)
  {
    StartingStarts(env, s, p, now);
    OneStep(env, s, StartWorker(p, now));
    var a := Next(env, s, StartWorker(p, now));
    v :| ClaimableVersion(s.registries[p], v, now) && Started(s, a, p, v, now);
    ClaimableIsUnpublished(s.registries[p], v, now);
    assert Offerable(env, s, p, v, offers(v));
    PackageIsValid(env, s, p);
    ValidIsKeyed(s.registries[p]);
    StartedWorker(s, a, p, v, now);
    var rest := PublishesGranted(env, a, |s.workers|, p, a.registries[p].versions[v].job, offers(v));
    RunThen(env, s, [StartWorker(p, now)], rest);
    steps := [StartWorker(p, now)] + rest;
    PublishedAfterLease(env, s, a, Run(env, a, rest), p, v, now, offers(v));
  }

  lemma OtherVersions(p: PackageName, r: Registry, v: string, w: string, x: Offer, y: Offer)
    requires Keyed(r.versions) && v in r.versions && w in r.versions && v != w && ProperOffer(y)
    requires x.job == JobFor(p, r.versions[v].job) && y.job == JobFor(p, r.versions[w].job)
    ensures Beside(x, y)
  {
  }

  lemma StillOfferable(env: Environment, s: System, t: System, p: PackageName, v: string, offers: string -> Offer)
    requires p in s.registries && Keyed(s.registries[p].versions)
    requires AllOfferable(env, s, p, offers) && OneMore(env, s, t, p, v, offers)
    ensures p in t.registries && AllOfferable(env, t, p, offers)
    ensures Unpublished(t.registries[p]) == Unpublished(s.registries[p]) - {v}
  {
    var r := s.registries[p];
    assert Offerable(env, s, p, v, offers(v));
    forall w | w in Unpublished(t.registries[p])
      ensures w in Unpublished(r) && w != v && Offerable(env, t, p, w, offers(w))
    {
      assert v in Meta(t.registries[p]);
      assert Offerable(env, s, p, w, offers(w));
      OtherVersions(p, r, v, w, offers(v), offers(w));
      assert KeepsOpen(env.host, s.store, t.store, offers(w));
    }
  }

  /** When some job of the version can be claimed. */
  function ClaimTime(job: Job): int {
    if job.leasedAt.Some? then job.leasedAt.value + 120_000 else 0
  }

  /** Every version of the package is advertised, those published now with their offers' outcomes. */
  ghost predicate AllPublishedAs(s: System, t: System, p: PackageName, offers: string -> Offer) {
    && p in s.registries && p in t.registries
    && Meta(t.registries[p]).Keys == s.registries[p].versions.Keys
    && forall v :: v in Unpublished(s.registries[p]) ==>
                     v in Meta(t.registries[p]) && Meta(t.registries[p])[v] == offers(v).diagnostic.Some?
  }

  lemma NoneUnpublished(s: System, p: PackageName, offers: string -> Offer)
    requires p in s.registries && Unpublished(s.registries[p]) == {}
    ensures AllPublishedAs(s, s, p, offers)
  {
    var r := s.registries[p];
    forall v | v in r.versions
      ensures v in Meta(r)
    {
      assert v !in Unpublished(r);
    }
  }

  lemma PublishedStaysAs(env: Environment, s: System, t: System, u: System, p: PackageName, v: string,
                         offers: string -> Offer)
    requires OneMore(env, s, t, p, v, offers) && AllPublishedAs(t, u, p, offers)
    requires Persists(t.registries[p], u.registries[p])
    ensures AllPublishedAs(s, u, p, offers)
  {
    forall w | w in Unpublished(s.registries[p])
      ensures w in Meta(u.registries[p]) && Meta(u.registries[p])[w] == offers(w).diagnostic.Some?
    {
      if w != v {
        assert w in Unpublished(t.registries[p]);
      }
    }
  }

  /** A state to go on from: one version fewer is unpublished. */
  ghost predicate GoesOn(env: Environment, s: System, t: System, p: PackageName, offers: string -> Offer) {
    && p in s.registries && p in t.registries
    && Invariant(env, t) && SafeRegistry(t.registries[p]) && AllOfferable(env, t, p, offers)
    && |Unpublished(t.registries[p])| < |Unpublished(s.registries[p])|
  }

  lemma ElementRemoved<T>(a: set<T>, x: T)
    requires x in a
    ensures |a - {x}| < |a|
  {
  }

  lemma OneMoreIsSafe(env: Environment, s: System, t: System, p: PackageName, v: string, offers: string -> Offer)
    requires p in s.registries && SafeRegistry(s.registries[p]) && OneMore(env, s, t, p, v, offers)
    ensures p in t.registries && SafeRegistry(t.registries[p]) && v in Unpublished(s.registries[p])
  {
  }

  lemma PackageIsKeyed(env: Environment, s: System, p: PackageName)
    requires Invariant(env, s) && p in s.registries
    ensures Keyed(s.registries[p].versions)
  {
    PackageIsValid(env, s, p);
    ValidIsKeyed(s.registries[p]);
  }

  lemma OneMoreGoesOn(env: Environment, s: System, steps: seq<Step>, p: PackageName, v: string, offers: string -> Offer)
    requires Invariant(env, s) && p in s.registries && SafeRegistry(s.registries[p]) && AllOfferable(env, s, p, offers)
    requires ValidRun(env, s, steps) && OneMore(env, s, Run(env, s, steps), p, v, offers)
    ensures GoesOn(env, s, Run(env, s, steps), p, offers)
  {
    var t := Run(env, s, steps);
    PackageIsKeyed(env, s, p);
    OneMoreIsSafe(env, s, t, p, v, offers);
    StillOfferable(env, s, t, p, v, offers);
    ElementRemoved(Unpublished(s.registries[p]), v);
    RunKeeps(env, s, steps);
  }

  lemma SomeClaimTime(r: Registry) returns (now: int)
    requires Unpublished(r) != {}
    ensures SomethingClaimable(r, now)
  {
    var w :| w in Unpublished(r);
    now := ClaimTime(r.versions[w].job);
    assert ClaimableVersion(r, w, now);
  }

  lemma NextVersion(env: Environment, s: System, p: PackageName, offers: string -> Offer)
    returns (v: string, steps: seq<Step>)
    requires Invariant(env, s) && p in s.registries && SafeRegistry(s.registries[p]) && AllOfferable(env, s, p, offers)
    requires Unpublished(s.registries[p]) != {}
    ensures ValidRun(env, s, steps) && OneMore(env, s, Run(env, s, steps), p, v, offers)
  {
    var now := SomeClaimTime(s.registries[p]);
    v, steps := PublishesOneMore(env, s, p, offers, now);
  }

  lemma PublishedByRest(env: Environment, s: System, t: System, rest: seq<Step>, p: PackageName, v: string,
                        offers: string -> Offer)
    requires OneMore(env, s, t, p, v, offers) && p in t.registries && Invariant(env, t) && ValidRun(env, t, rest)
    requires AllPublishedAs(t, Run(env, t, rest), p, offers)
    ensures AllPublishedAs(s, Run(env, t, rest), p, offers)
  {
    RunKeeps(env, t, rest);
    PublishedStaysAs(env, s, t, Run(env, t, rest), p, v, offers);
  }

  /**
   * Nothing is stuck: from every state that satisfies the invariant, as every reachable one does,
   * whatever has crashed or half-finished, where the container can answer each unpublished job with
   * something whose keys are open, a valid run goes on that advertises every version of the
   * package, each with its own outcome.
   */
  lemma {:induction false} EveryVersionCanBePublished(env: Environment, s: System, p: PackageName,
                                                      offers: string -> Offer)
    returns (steps: seq<Step>)
    requires Invariant(env, s) && p in s.registries && SafeRegistry(s.registries[p])
    requires AllOfferable(env, s, p, offers)
    ensures ValidRun(env, s, steps) && AllPublishedAs(s, Run(env, s, steps), p, offers)
    decreases |Unpublished(s.registries[p])|
  {
    if Unpublished(s.registries[p]) == {} {
      NoneUnpublished(s, p, offers);
      steps := [];
    } else {
      var v, first := NextVersion(env, s, p, offers);
      OneMoreGoesOn(env, s, first, p, v, offers);
      var rest := EveryVersionCanBePublished(env, Run(env, s, first), p, offers);
      RunThen(env, s, first, rest);
      PublishedByRest(env, s, Run(env, s, first), rest, p, v, offers);
      steps := first + rest;
    }
  }
}
