/**
 * From GitHub to the client: a discovery of a package's branches can always be carried through to
 * advertised versions of just those commits; and what a failed or crashed worker leaves behind.
 */
module EndToEnd {
  import opened Common
  import opened Branches
  import opened BranchOrder
  import opened HighWater
  import opened VersionAllocation
  import opened PackageRegistryModel
  import opened RegistryInvariant
  import opened RegistryService
  import opened LeaseDiscipline
  import opened OperationLaws
  import opened Publication
  import opened ArtifactKeys
  import opened ArtifactStore
  import opened Protocol
  import opened ProtocolInvariant
  import opened ProtocolSteps
  import opened ProtocolTheorems
  import opened RetriedUploads
  import opened Progress

  // ----- single steps ----------------------------------------------------------------------

  /** The system with what an operation made of the package's registry, unless it threw. */
  function Kept<T>(s: System, p: PackageName, r: Outcome<Registry, T>): System {
    if r.result.Ok? then System(s.registries[p := r.state], s.store, s.workers) else s
  }

  /** A first refresh that succeeds gives the package its registry; one that throws leaves none. */
  lemma FirstRefresh(env: Environment, s: System, p: PackageName, d: Discovery)
    requires p !in s.registries
    ensures Next(env, s, RefreshPackage(p, d)) == Kept(s, p, RefreshStep(NewRegistry(p), d))
  {
  }

  /** A later one on a readable registry changes it, unless it throws. */
  lemma LaterRefresh(env: Environment, s: System, p: PackageName, d: Discovery)
    requires p in s.registries && SafeRegistry(s.registries[p])
    ensures Next(env, s, RefreshPackage(p, d)) == Kept(s, p, RefreshStep(s.registries[p], d))
  {
    assert s.registries[p := s.registries[p]] == s.registries;
  }

  lemma RecoverIsNext(env: Environment, s: System, p: PackageName, v: string, reason: string, at: int)
    requires p in s.registries && SafeRegistry(s.registries[p])
    ensures Next(env, s, RecoverInPackage(p, v, reason, at))
         == Kept(s, p, RecoverVersionStep(s.registries[p], v, reason, at))
  {
    assert s.registries[p := s.registries[p]] == s.registries;
  }

  /** Recovering an advertised version queues its replacement; the version itself stays. */
  lemma RecoveryReaches(env: Environment, s: System, p: PackageName, v: string, reason: string, at: int)
    requires Invariant(env, s) && p in s.registries && SafeRegistry(s.registries[p]) && v in Meta(s.registries[p])
    ensures var t := Next(env, s, RecoverInPackage(p, v, reason, at));
            && p in t.registries && t.store == s.store && t.workers == s.workers
            && exists w :: ReplacedBy(s.registries[p], t.registries[p], v, w, reason, at)
  {
    PackageIsValid(env, s, p);
    RecoverIsNext(env, s, p, v, reason, at);
    RecoveryLaw(s.registries[p], v, reason, at);
  }

  lemma CrashStops(env: Environment, s: System, i: nat)
    requires i < |s.workers|
    ensures Next(env, s, Crash(i)) == s.(workers := s.workers[i := Stopped])
  {
  }

  /** The job without its lease, if it has one. */
  function Requeued(job: Job): Job {
    if job.state == Leased then job.(state := Pending, leasedAt := None) else job
  }

  /** Only `v` differs, by its lease. */
  ghost predicate RequeuedOnly(r: Registry, u: Registry, v: string) {
    && v in r.versions && u.versions.Keys == r.versions.Keys
    && u.versions[v] == r.versions[v].(job := Requeued(r.versions[v].job))
    && (forall w :: w in r.versions && w != v ==> u.versions[w] == r.versions[w])
    && u.(versions := r.versions) == r
  }

  lemma ReleaseRequeues(before: (string, string) -> bool, r: Registry, v: string)
    requires SafeRegistry(r) && v in r.versions
    ensures RequeuedOnly(r, ServiceNext(before, r, Release(v)), v)
  {
  }

  lemma FailIsNext(env: Environment, s: System, i: nat, p: PackageName, job: Job)
    requires i < |s.workers| && s.workers[i] == Materializing(p, job)
    ensures Next(env, s, Fail(i)) == s.(workers := s.workers[i := Releasing(p, job.version)])
  {
  }

  lemma ReleaseIsNext(env: Environment, s: System, i: nat, p: PackageName, v: string)
    requires i < |s.workers| && s.workers[i] == Releasing(p, v) && p in s.registries
    ensures Next(env, s, ReleaseHeld(i)).registries
         == s.registries[p := ServiceNext(env.before, s.registries[p], Release(v))]
    ensures Next(env, s, ReleaseHeld(i)).store == s.store
    ensures Next(env, s, ReleaseHeld(i)).workers == s.workers[i := Stopped]
  {
  }

  /** A worker whose container failed returns its job to the queue, if that is still leased, and stops. */
  lemma FailureRequeues(env: Environment, s: System, i: nat, p: PackageName, job: Job)
    requires i < |s.workers| && s.workers[i] == Materializing(p, job)
    requires p in s.registries && SafeRegistry(s.registries[p]) && job.version in s.registries[p].versions
    ensures var t := Run(env, s, [Fail(i), ReleaseHeld(i)]);
            && p in t.registries && RequeuedOnly(s.registries[p], t.registries[p], job.version)
            && t.store == s.store && t.workers == s.workers[i := Stopped]
  {
    FailIsNext(env, s, i, p, job);
    OneStep(env, s, Fail(i));
    var a := Next(env, s, Fail(i));
    ReleaseIsNext(env, a, i, p, job.version);
    OneStep(env, a, ReleaseHeld(i));
    assert [Fail(i), ReleaseHeld(i)] == [Fail(i)] + [ReleaseHeld(i)];
    RunSplits(env, s, [Fail(i)], [ReleaseHeld(i)]);
    ReleaseRequeues(env.before, s.registries[p], job.version);
    assert s.workers[i := Releasing(p, job.version)][i := Stopped] == s.workers[i := Stopped];
  }

  // ----- a discovery, carried through ------------------------------------------------------

  /** The container can answer every job of the package, with well-formed digests. */
  ghost predicate Answers(env: Environment, p: PackageName, answer: MaterializationJob -> Offer) {
    && (forall b :: IsDigest(env.host.sha256(b)))
    && forall job :: IsProxyable(job) && job.package == PackageIdentity(p.scope, p.name) ==>
                       env.possible(answer(job)) && ProperFiles(answer(job).files) && answer(job).job == job
  }

  lemma FirstMarkIsSafe(u: Registry, bs: seq<Selected>, t: Registry, m: int)
    requires u.majors == map[] && MajorsObserved(u, bs, t) && AllInputsValid(bs)
    ensures ForMajor(t.majors, m).highWater <= MAX_SAFE
  {
    if HasMajor(bs, m) {
      var b :| b in bs && b.major == m;
      assert BranchInputsValid(b);
      assert ForMajor(t.majors, m) == ObservedMajor(u.majors, b);
    }
  }

  lemma NewIsSafe(p: PackageName, d: Discovery)
    requires UniqueNames(d.branches) && RefreshStep(NewRegistry(p), d).result.Ok?
    ensures SafeRegistry(RefreshStep(NewRegistry(p), d).state)
  {
    var s := NewRegistry(p);
    var selection := Select(d, s.branches).value;
    var u := s.(branches := selection.state);
    NewRegistryValid(p);
    SelectionIsSafe(s, d);
    SelectionObserved(u, selection.branches, []);
    var t := RefreshStep(s, d).state;
    forall m | m in t.majors
      ensures t.majors[m].highWater <= MAX_SAFE
    {
      FirstMarkIsSafe(u, selection.branches, t, m);
    }
  }

  lemma OpenAtFirst(env: Environment, p: PackageName, answer: MaterializationJob -> Offer, job: MaterializationJob)
    requires Answers(env, p, answer) && IsProxyable(job) && job.package == PackageIdentity(p.scope, p.name)
    ensures IsPossible(env, answer(job)) && AllOpen(env.host, map[], answer(job))
  {
    var offer := answer(job);
    forall n | 0 <= n < |offer.files| + 2
      ensures Open(env.host, map[], offer, n)
    {
      OfferAdmission(env.host, offer, n);
    }
  }

  lemma FirstVersionsOfferable(env: Environment, s: System, p: PackageName, answer: MaterializationJob -> Offer,
                               offers: string -> Offer)
    requires Answers(env, p, answer) && ProxiedPackage(p) && p in s.registries && ValidRegistry(s.registries[p])
    requires s.store == map[]
    requires forall v :: v in s.registries[p].versions ==> offers(v) == answer(JobFor(p, s.registries[p].versions[v].job))
    ensures AllOfferable(env, s, p, offers)
  {
    forall v | v in Unpublished(s.registries[p])
      ensures Offerable(env, s, p, v, offers(v))
    {
      VersionIsProxyable(p, s.registries[p], v);
      OpenAtFirst(env, p, answer, JobFor(p, s.registries[p].versions[v].job));
    }
  }

  /** The version of the branch's own commit and major is advertised, as the container answers it. */
  ghost predicate AdvertisedFor(t: System, p: PackageName, b: Selected, v: string, answer: MaterializationJob -> Offer) {
    && p in t.registries && v in Meta(t.registries[p])
    && var job := t.registries[p].versions[v].job;
    && job.branch == b.branch && job.commitSha == b.tip.sha && job.major == b.major && job.version == v
    && Meta(t.registries[p])[v] == answer(JobFor(p, job)).diagnostic.Some?
  }

  lemma CreatedIsUnpublished(s: Registry, r: Registry, b: Selected, v: string)
    requires CreatedFor(s, r, b, v)
    ensures v in Unpublished(r) && r.versions[v].job == Job(b.branch, b.tip.sha, b.major, v, Pending, None, None)
  {
  }

  lemma NothingKnownAtFirst(p: PackageName, b: Selected)
    ensures NewCommit(NewRegistry(p), b.major, b.tip.sha)
  {
  }

  lemma RefreshedUnpublished(p: PackageName, d: Discovery, b: Selected) returns (v: string)
    requires UniqueNames(d.branches) && RefreshStep(NewRegistry(p), d).result.Ok?
    requires Select(d, NewRegistry(p).branches).Ok? && b in Select(d, NewRegistry(p).branches).value.branches
    ensures CreatedFor(NewRegistry(p), RefreshStep(NewRegistry(p), d).state, b, v)
  {
    NewRegistryValid(p);
    RefreshLaw(NewRegistry(p), d);
    NothingKnownAtFirst(p, b);
    v :| CreatedFor(NewRegistry(p), RefreshStep(NewRegistry(p), d).state, b, v);
  }

  lemma CarriedThrough(env: Environment, s: System, t: System, p: PackageName, b: Selected, v: string,
                       answer: MaterializationJob -> Offer, offers: string -> Offer)
    requires p in s.registries && v in Unpublished(s.registries[p]) && AllPublishedAs(s, t, p, offers)
    requires Persists(s.registries[p], t.registries[p])
    requires s.registries[p].versions[v].job == Job(b.branch, b.tip.sha, b.major, v, Pending, None, None)
    requires offers(v) == answer(JobFor(p, s.registries[p].versions[v].job))
    ensures AdvertisedFor(t, p, b, v, answer)
  {
    assert SameIdentity(s.registries[p].versions[v], t.registries[p].versions[v]);
  }

  /** The state after the first refresh of the only package. */
  ghost function Refreshed(env: Environment, p: PackageName, d: Discovery): System {
    Next(env, INITIAL, RefreshPackage(p, d))
  }

  lemma RefreshedState(env: Environment, p: PackageName, d: Discovery)
    requires ProxiedPackage(p) && UniqueNames(d.branches) && RefreshStep(NewRegistry(p), d).result.Ok?
    ensures var s, r := Refreshed(env, p, d), RefreshStep(NewRegistry(p), d).state;
            && s == System(map[p := r], map[], []) && Invariant(env, s)
            && SafeRegistry(r) && ValidRegistry(r)
    ensures ValidRun(env, INITIAL, [RefreshPackage(p, d)])
    ensures Run(env, INITIAL, [RefreshPackage(p, d)]) == Refreshed(env, p, d)
  {
    FirstRefresh(env, INITIAL, p, d);
    NewIsSafe(p, d);
    NewRegistryValid(p);
    RefreshValid(NewRegistry(p), d);
    OneStep(env, INITIAL, RefreshPackage(p, d));
    InitialInvariant(env);
    StepKeeps(env, INITIAL, RefreshPackage(p, d));
  }

  /**
   * From nothing: a discovery whose default branch is there and whose selected branches have valid
   * majors, commits and timestamps can be carried through to an advertised version of each
   * selected branch's own commit, ready or yanked as the container answers that very job.
   */
  lemma DiscoveryReachesClients(env: Environment, p: PackageName, d: Discovery, answer: MaterializationJob -> Offer)
    returns (steps: seq<Step>)
    requires ProxiedPackage(p) && UniqueNames(d.branches) && Answers(env, p, answer)
    requires Select(d, BranchState(None)).Ok? && AllInputsValid(Select(d, BranchState(None)).value.branches)
    ensures ValidRun(env, INITIAL, steps)
    ensures forall b :: b in Select(d, BranchState(None)).value.branches ==>
                          exists v :: AdvertisedFor(Run(env, INITIAL, steps), p, b, v, answer)
  {
    NewRegistryValid(p);
    RefreshAcceptsExactly(NewRegistry(p), d);
    RefreshedState(env, p, d);
    var s, r := Refreshed(env, p, d), RefreshStep(NewRegistry(p), d).state;
    var offers := (v: string) => if v in r.versions then answer(JobFor(p, r.versions[v].job))
                                 else answer(JobFor(p, Job("", "", 0, v, Pending, None, None)));
    FirstVersionsOfferable(env, s, p, answer, offers);
    var rest := EveryVersionCanBePublished(env, s, p, offers);
    var t := Run(env, s, rest);
    RunKeeps(env, s, rest);
    RunThen(env, INITIAL, [RefreshPackage(p, d)], rest);
    steps := [RefreshPackage(p, d)] + rest;
    forall b | b in Select(d, BranchState(None)).value.branches
      ensures exists v :: AdvertisedFor(t, p, b, v, answer)
    {
      var v := RefreshedUnpublished(p, d, b);
      CreatedIsUnpublished(NewRegistry(p), r, b, v);
      CarriedThrough(env, s, t, p, b, v, answer, offers);
    }
  }
}
