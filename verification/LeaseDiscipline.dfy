/** Leases over whole runs: how far apart grants are, and how many rounds drain the queue. */
module LeaseDiscipline {
  import opened Common
  import opened VersionAllocation
  import opened PackageRegistryModel
  import opened RegistryInvariant
  import opened RegistryService

  // ----- which job is granted --------------------------------------------------------------

  lemma {:induction false} LeastIsFirst(before: (string, string) -> bool, vs: seq<string>, v: string)
    requires StrictOrder(before) && v in vs
    ensures !before(v, Least(before, vs))
  {
    var front, last := vs[..|vs| - 1], vs[|vs| - 1];
    assert vs == front + [last];
    if |vs| > 1 {
      var least := Least(before, front);
      if v in front {
        LeastIsFirst(before, front, v);
        assert before(last, least) && before(v, last) ==> before(v, least);
      }
    } else {
      assert v == last;
    }
  }

  /** The job is pending, or its lease began at least 120 seconds ago, or at no known time. */
  ghost predicate Claimable(job: Job, now: int) {
    || job.state == Pending
    || (job.state == Leased && (job.leasedAt == None || now - job.leasedAt.value >= 120_000))
  }

  ghost predicate ClaimableVersion(s: Registry, v: string, now: int) {
    v in s.versions && Claimable(s.versions[v].job, now)
  }

  /** `t` is `s` with the job of `v` leased at `now`, and `job` is that job. */
  ghost predicate LeasedInstead(s: Registry, t: Registry, v: string, now: int, job: Job) {
    && v in s.versions && t.versions.Keys == s.versions.Keys
    && job == s.versions[v].job.(state := Leased, leasedAt := Some(now))
    && t.versions[v] == s.versions[v].(job := job)
    && (forall w :: w in s.versions && w != v ==> t.versions[w] == s.versions[w])
    && t.(versions := s.versions) == s
  }

  /**
   * Nothing is granted exactly when no job is pending or expired. Otherwise the grant goes to
   * such a job, first in version order, and changes only that job.
   */
  lemma GrantLaw(before: (string, string) -> bool, s: Registry, now: int)
    requires OrderExact(s) && StrictOrder(before)
    ensures var r := LeaseStep(before, s, now);
            && r.result.Ok?
            && (r.result.value == None <==> forall v :: v in s.versions ==> !ClaimableVersion(s, v, now))
            && (r.result.value == None ==> r.state == s)
            && (r.result.value.Some? ==>
                  exists v :: ClaimableVersion(s, v, now) && LeasedInstead(s, r.state, v, now, r.result.value.value)
                              && forall w :: ClaimableVersion(s, w, now) ==> !before(w, v))
  {
    var vs := Leasable(s.versions, s.order, now);
    forall w | ClaimableVersion(s, w, now)
      ensures w in vs && !before(w, Least(before, vs))
    {
      LeastIsFirst(before, vs, w);
    }
    if vs != [] {
      var v := Least(before, vs);
      assert v in vs;
      assert ClaimableVersion(s, v, now);
    }
  }

  /** An expired lease does not block the queue: if it is the only claim, its job is granted again. */
  lemma ExpiredIsGranted(before: (string, string) -> bool, s: Registry, v: string, t: int, now: int)
    requires OrderExact(s) && StrictOrder(before) && v in s.versions
    requires s.versions[v].job.state == Leased && s.versions[v].job.leasedAt == Some(t) && t + 120_000 <= now
    ensures LeaseStep(before, s, now).result.Ok? && LeaseStep(before, s, now).result.value.Some?
    ensures (forall w :: ClaimableVersion(s, w, now) ==> w == v) ==>
              LeasedInstead(s, LeaseStep(before, s, now).state, v, now, LeaseStep(before, s, now).result.value.value)
  {
    assert ClaimableVersion(s, v, now);
    GrantLaw(before, s, now);
  }

  // ----- grants of one version -------------------------------------------------------------

  /** Leased at `t` and not released, or already published. */
  ghost predicate HeldSince(s: Registry, v: string, t: int) {
    && v in s.versions
    && (IsTerminal(s.versions[v].job.state)
        || (s.versions[v].job.state == Leased && s.versions[v].job.leasedAt == Some(t)))
  }

  ghost predicate Grants(before: (string, string) -> bool, s: Registry, op: Op, v: string) {
    op.Lease? && ServiceReply(before, s, op).Granted? && ServiceReply(before, s, op).job.version == v
  }

  ghost predicate Releases(before: (string, string) -> bool, s: Registry, op: Op, v: string) {
    op == Release(v) && ServiceReply(before, s, op).Done?
  }

  /** The version `leaseNext` picks. */
  function LeaseTarget(before: (string, string) -> bool, s: Registry, now: int): Option<string> {
    var vs := Leasable(s.versions, s.order, now);
    if vs == [] then None else Some(Least(before, vs))
  }

  lemma LeaseShape(before: (string, string) -> bool, s: Registry, now: int)
    ensures match LeaseTarget(before, s, now)
            case None => LeaseStep(before, s, now) == Outcome(s, Ok(None))
            case Some(v) =>
              && v in s.versions && v in s.order && CanLease(s.versions[v].job, now)
              && var job := s.versions[v].job.(state := Leased, leasedAt := Some(now));
              && LeaseStep(before, s, now) == Outcome(SetJob(s, v, job), Ok(Some(job)))
  {
  }

  lemma GrantIsTarget(before: (string, string) -> bool, s: Registry, now: int, v: string)
    requires Keyed(s.versions)
    ensures Grants(before, s, Lease(now), v) <==> SafeRegistry(s) && LeaseTarget(before, s, now) == Some(v)
  {
    LeaseShape(before, s, now);
  }

  lemma GrantTakesLeasable(before: (string, string) -> bool, s: Registry, now: int, v: string)
    requires Keyed(s.versions) && Grants(before, s, Lease(now), v)
    ensures v in s.versions && CanLease(s.versions[v].job, now)
    ensures HeldSince(ServiceNext(before, s, Lease(now)), v, now)
  {
    GrantIsTarget(before, s, now, v);
    LeaseShape(before, s, now);
  }

  lemma HeldDespiteLease(before: (string, string) -> bool, s: Registry, now: int, v: string, t: int)
    requires HeldSince(s, v, t) && LeaseTarget(before, s, now) != Some(v)
    ensures HeldSince(LeaseStep(before, s, now).state, v, t)
  {
    LeaseShape(before, s, now);
  }

  lemma HeldDespiteComplete(s: Registry, w: string, diagnostic: Option<Diagnostic>, v: string, t: int)
    requires HeldSince(s, v, t)
    ensures HeldSince(CompleteStep(s, w, diagnostic).state, v, t)
  {
  }

  lemma HeldDespiteRelease(s: Registry, w: string, v: string, t: int)
    requires HeldSince(s, v, t) && (w == v ==> ReleaseStep(s, w).result.Err?)
    ensures HeldSince(ReleaseStep(s, w).state, v, t)
  {
  }

  lemma HeldDespiteGrowth(s: Registry, r: Registry, v: string, t: int)
    requires HeldSince(s, v, t) && OnlyAdds(s, r)
    ensures HeldSince(r, v, t)
  {
  }

  lemma HeldDespiteAddition(before: (string, string) -> bool, s: Registry, op: Op, v: string, t: int)
    requires ValidRegistry(s) && SafeRegistry(s) && ValidOp(op) && HeldSince(s, v, t) && (op.Refresh? || op.Recover?)
    ensures HeldSince(Apply(before, s, op).0, v, t)
  {
    if op.Refresh? {
      RefreshCreatesExactly(s, op.discovery);
      HeldDespiteGrowth(s, RefreshStep(s, op.discovery).state, v, t);
    } else {
      RecoverLeavesOthers(s, op.version, op.reason, op.recoveredAt);
      HeldDespiteGrowth(s, RecoverVersionStep(s, op.version, op.reason, op.recoveredAt).state, v, t);
    }
  }

  lemma HeldDespiteJobChange(before: (string, string) -> bool, s: Registry, op: Op, v: string, t: int)
    requires Keyed(s.versions) && SafeRegistry(s) && HeldSince(s, v, t) && !op.Refresh? && !op.Recover?
    requires !Grants(before, s, op, v) && !Releases(before, s, op, v)
    ensures HeldSince(Apply(before, s, op).0, v, t)
  {
    match op
    case Complete(w, diagnostic) => HeldDespiteComplete(s, w, diagnostic, v, t);
    case Lease(now) =>
      GrantIsTarget(before, s, now, v);
      HeldDespiteLease(before, s, now, v, t);
    case Release(w) => HeldDespiteRelease(s, w, v, t);
  }

  lemma HeldStays(before: (string, string) -> bool, s: Registry, op: Op, v: string, t: int)
    requires ValidRegistry(s) && ValidOp(op) && HeldSince(s, v, t)
    requires !Grants(before, s, op, v) && !Releases(before, s, op, v)
    ensures HeldSince(ServiceNext(before, s, op), v, t)
  {
    if !SafeRegistry(s) {
      HeldByRefusal(before, s, op, v, t);
    } else if op.Refresh? || op.Recover? {
      HeldDespiteAddition(before, s, op, v, t);
      HeldEitherWay(before, s, op, v, t);
    } else {
      ValidIsKeyed(s);
      HeldDespiteJobChange(before, s, op, v, t);
      HeldEitherWay(before, s, op, v, t);
    }
  }

  lemma HeldByRefusal(before: (string, string) -> bool, s: Registry, op: Op, v: string, t: int)
    requires !SafeRegistry(s) && HeldSince(s, v, t)
    ensures HeldSince(ServiceNext(before, s, op), v, t)
  {
  }

  lemma HeldEitherWay(before: (string, string) -> bool, s: Registry, op: Op, v: string, t: int)
    requires HeldSince(s, v, t) && HeldSince(Apply(before, s, op).0, v, t)
    ensures HeldSince(ServiceNext(before, s, op), v, t)
  {
    assert ServiceNext(before, s, op) == s || ServiceNext(before, s, op) == Apply(before, s, op).0;
  }

  lemma RecoverLeavesOthers(s: Registry, w: string, reason: string, at: int)
    requires ValidMajors(s.majors) && ValidRecords(s) && SafeRegistry(s)
    ensures OnlyAdds(s, RecoverVersionStep(s, w, reason, at).state)
  {
    RecoverVersionResult(s, w, reason, at);
    if CanRecover(s, w) {
      var r := s.versions[w];
      RecordInputsValid(s, w);
      NextRowFresh(s, r.job.major, r.job.commitSha, r.assignment.sequence);
    }
  }

  /** The package's registry before the `k`-th operation of a run. */
  ghost function StateAt(before: (string, string) -> bool, name: PackageName, ops: seq<Op>, k: nat): Registry
    requires k <= |ops|
  {
    RunFrom(before, NewRegistry(name), ops[..k])
  }

  lemma StateAtNext(before: (string, string) -> bool, name: PackageName, ops: seq<Op>, k: nat)
    requires k < |ops| && ValidOps(ops)
    ensures StateAt(before, name, ops, k + 1) == ServiceNext(before, StateAt(before, name, ops, k), ops[k])
    ensures ValidRegistry(StateAt(before, name, ops, k)) && Keyed(StateAt(before, name, ops, k).versions) && ValidOp(ops[k])
  {
    assert ops[..k + 1][..k] == ops[..k];
    assert forall op :: op in ops[..k] ==> op in ops;
    ReachableValid(before, name, ops[..k]);
    ValidIsKeyed(StateAt(before, name, ops, k));
  }

  lemma HeldNext(before: (string, string) -> bool, s: Registry, op: Op, v: string, t: int) returns (u: int)
    requires ValidRegistry(s) && Keyed(s.versions) && ValidOp(op) && HeldSince(s, v, t)
    requires !Releases(before, s, op, v)
    ensures HeldSince(ServiceNext(before, s, op), v, u) && u >= t
  {
    if Grants(before, s, op, v) {
      GrantTakesLeasable(before, s, op.now, v);
      u := op.now;
    } else {
      HeldStays(before, s, op, v, t);
      u := t;
    }
  }

  /** The version is held before the `k`-th operation, since `t` or later. */
  ghost predicate HeldAt(before: (string, string) -> bool, name: PackageName, ops: seq<Op>, k: nat, v: string, t: int)
    requires k <= |ops|
  {
    exists u :: u >= t && HeldSince(StateAt(before, name, ops, k), v, u)
  }

  /** Operation `k` of the run leases `v`. */
  ghost predicate GrantsAt(before: (string, string) -> bool, name: PackageName, ops: seq<Op>, k: nat, v: string)
    requires k < |ops|
  {
    Grants(before, StateAt(before, name, ops, k), ops[k], v)
  }

  /** Operation `k` of the run returns `v` to the queue. */
  ghost predicate ReleasesAt(before: (string, string) -> bool, name: PackageName, ops: seq<Op>, k: nat, v: string)
    requires k < |ops|
  {
    Releases(before, StateAt(before, name, ops, k), ops[k], v)
  }

  lemma GrantHolds(before: (string, string) -> bool, name: PackageName, ops: seq<Op>, k: nat, v: string)
    requires k < |ops| && ValidOps(ops) && GrantsAt(before, name, ops, k, v)
    ensures ops[k].Lease? && HeldAt(before, name, ops, k + 1, v, ops[k].now)
  {
    StateAtNext(before, name, ops, k);
    GrantTakesLeasable(before, StateAt(before, name, ops, k), ops[k].now, v);
  }

  lemma HoldMoves(before: (string, string) -> bool, name: PackageName, ops: seq<Op>, k: nat, v: string, t: int)
    requires k < |ops| && ValidOps(ops)
    requires HeldAt(before, name, ops, k, v, t) && !ReleasesAt(before, name, ops, k, v)
    ensures HeldAt(before, name, ops, k + 1, v, t)
  {
    var u :| u >= t && HeldSince(StateAt(before, name, ops, k), v, u);
    StateAtNext(before, name, ops, k);
    var w := HeldNext(before, StateAt(before, name, ops, k), ops[k], v, u);
  }

  lemma {:induction false} StillHeld(before: (string, string) -> bool, name: PackageName, ops: seq<Op>, i: nat, j: nat, v: string, t: int)
    requires i <= j <= |ops| && ValidOps(ops)
    requires HeldAt(before, name, ops, i, v, t)
    requires forall k :: i <= k < j ==> !ReleasesAt(before, name, ops, k, v)
    ensures HeldAt(before, name, ops, j, v, t)
    decreases j - i
  {
    if i < j {
      HoldMoves(before, name, ops, i, v, t);
      StillHeld(before, name, ops, i + 1, j, v, t);
    }
  }

  lemma GrantAfterHold(before: (string, string) -> bool, name: PackageName, ops: seq<Op>, j: nat, v: string, t: int)
    requires j < |ops| && ValidOps(ops) && HeldAt(before, name, ops, j, v, t) && GrantsAt(before, name, ops, j, v)
    ensures t + 120_000 <= ops[j].now
  {
    StateAtNext(before, name, ops, j);
    GrantTakesLeasable(before, StateAt(before, name, ops, j), ops[j].now, v);
  }

  /**
   * Two grants of one version without an effective release of it between them are at least
   * 120 seconds apart, whatever else happens and however the clock runs.
   */
  lemma GrantsAreApart(before: (string, string) -> bool, name: PackageName, ops: seq<Op>, i: nat, j: nat, v: string)
    requires i < j < |ops| && ValidOps(ops)
    requires GrantsAt(before, name, ops, i, v) && GrantsAt(before, name, ops, j, v)
    requires forall k :: i < k < j ==> !ReleasesAt(before, name, ops, k, v)
    ensures ops[i].Lease? && ops[j].Lease? && ops[i].now + 120_000 <= ops[j].now
  {
    GrantHolds(before, name, ops, i, v);
    StillHeld(before, name, ops, i + 1, j, v, ops[i].now);
    GrantAfterHold(before, name, ops, j, v, ops[i].now);
  }

  /** A published version is never granted again. */
  lemma TerminalIsNeverGranted(before: (string, string) -> bool, s: Registry, ops: seq<Op>, op: Op, v: string)
    requires ValidRegistry(s) && ValidOps(ops) && v in s.versions && IsTerminal(s.versions[v].job.state)
    ensures !Grants(before, RunFrom(before, s, ops), op, v)
  {
    RunValid(before, s, ops);
    var t := RunFrom(before, s, ops);
    ValidIsKeyed(t);
    if Grants(before, t, op, v) {
      GrantTakesLeasable(before, t, op.now, v);
    }
  }

  // ----- draining --------------------------------------------------------------------------

  datatype Round = Round(now: int, diagnostic: Option<Diagnostic>)

  /** The versions not yet published. */
  function Unpublished(s: Registry): set<string> {
    set v | v in s.versions && s.versions[v].job.state != Ready && s.versions[v].job.state != Yanked
  }

  /** Every lease still held will have run out by then. */
  ghost predicate ExpiredBy(s: Registry, now: int) {
    forall v :: v in s.versions && s.versions[v].job.state == Leased ==> Claimable(s.versions[v].job, now)
  }

  ghost predicate AllExpiredBy(s: Registry, rounds: seq<Round>) {
    forall i :: 0 <= i < |rounds| ==> ExpiredBy(s, rounds[i].now)
  }

  /** One lease followed by the completion of the job it granted. */
  function DrainRound(before: (string, string) -> bool, s: Registry, round: Round): Registry {
    var r := LeaseStep(before, s, round.now);
    if r.result.Err? || r.result.value.None? then s
    else CompleteStep(r.state, r.result.value.value.version, round.diagnostic).state
  }

  function Drain(before: (string, string) -> bool, s: Registry, rounds: seq<Round>): Registry
    decreases |rounds|
  {
    if rounds == [] then s else Drain(before, DrainRound(before, s, rounds[0]), rounds[1..])
  }

  /** What draining relies on: records under their own version, each listed. */
  ghost predicate Listed(s: Registry) {
    Keyed(s.versions) && (forall v :: v in s.versions ==> v in s.order)
  }

  lemma UnpublishedIsLeasable(s: Registry, now: int)
    requires Listed(s) && ExpiredBy(s, now)
    ensures forall v :: v in Leasable(s.versions, s.order, now) <==> v in Unpublished(s)
  {
    forall v
      ensures v in Leasable(s.versions, s.order, now) <==> v in Unpublished(s)
    {
      assert v in s.versions ==> (Claimable(s.versions[v].job, now) <==> CanLease(s.versions[v].job, now));
    }
  }

  lemma UnpublishedIsTargeted(before: (string, string) -> bool, s: Registry, now: int)
    requires Listed(s) && ExpiredBy(s, now) && Unpublished(s) != {}
    ensures LeaseTarget(before, s, now).Some? && LeaseTarget(before, s, now).value in Unpublished(s)
  {
    UnpublishedIsLeasable(s, now);
    var p :| p in Unpublished(s);
    assert p in Leasable(s.versions, s.order, now);
  }

  /** `t` is `s` with the version `v` published. */
  ghost predicate PublishedOne(s: Registry, t: Registry, v: string) {
    && v in Unpublished(s)
    && t.versions.Keys == s.versions.Keys && t.order == s.order
    && v !in Unpublished(t) && t.versions[v].job.version == v
    && forall w :: w in s.versions && w != v ==> t.versions[w] == s.versions[w]
  }

  /** One round grants some version and publishes exactly that one. */
  lemma RoundPublishesOne(before: (string, string) -> bool, s: Registry, round: Round) returns (v: string)
    requires Listed(s) && ExpiredBy(s, round.now) && Unpublished(s) != {}
    ensures LeaseStep(before, s, round.now).result.value.Some?
    ensures PublishedOne(s, DrainRound(before, s, round), v)
  {
    UnpublishedIsTargeted(before, s, round.now);
    LeaseShape(before, s, round.now);
    v := LeaseTarget(before, s, round.now).value;
    var job := s.versions[v].job.(state := Leased, leasedAt := Some(round.now));
    assert DrainRound(before, s, round) == CompleteStep(SetJob(s, v, job), v, round.diagnostic).state;
    CompletePublishes(s, v, job, round.diagnostic);
  }

  lemma CompletePublishes(s: Registry, v: string, job: Job, diagnostic: Option<Diagnostic>)
    requires v in Unpublished(s) && job.state == Leased && job.version == v
    ensures PublishedOne(s, CompleteStep(SetJob(s, v, job), v, diagnostic).state, v)
  {
  }

  lemma PublishedDrains(s: Registry, t: Registry, v: string, rounds: seq<Round>)
    requires Listed(s) && AllExpiredBy(s, rounds) && PublishedOne(s, t, v)
    ensures Listed(t) && AllExpiredBy(t, rounds) && Unpublished(t) == Unpublished(s) - {v}
  {
    forall w | w in t.versions
      ensures w in s.versions && t.versions[w].job.version == w
    {
    }
    forall i, w | 0 <= i < |rounds| && w in t.versions && t.versions[w].job.state == Leased
      ensures Claimable(t.versions[w].job, rounds[i].now)
    {
      assert ExpiredBy(s, rounds[i].now);
      assert w != v;
    }
  }

  lemma RoundDrains(before: (string, string) -> bool, s: Registry, rounds: seq<Round>)
    requires Listed(s) && AllExpiredBy(s, rounds) && rounds != [] && Unpublished(s) != {}
    ensures var t := DrainRound(before, s, rounds[0]);
            && Listed(t) && AllExpiredBy(t, rounds[1..])
            && t.versions.Keys == s.versions.Keys
            && |Unpublished(t)| == |Unpublished(s)| - 1
    ensures LeaseStep(before, s, rounds[0].now).result.value.Some?
  {
    assert ExpiredBy(s, rounds[0].now);
    var v := RoundPublishesOne(before, s, rounds[0]);
    var t := DrainRound(before, s, rounds[0]);
    PublishedDrains(s, t, v, rounds);
    assert forall i :: 0 <= i < |rounds[1..]| ==> rounds[1..][i] == rounds[i + 1];
  }

  lemma HasElement(vs: seq<string>)
    requires vs != []
    ensures exists v :: v in vs
  {
    assert vs[0] in vs;
  }

  lemma DrainedIsAdvertised(before: (string, string) -> bool, s: Registry, now: int)
    requires Listed(s) && Unpublished(s) == {}
    ensures Meta(s).Keys == s.versions.Keys
    ensures LeaseStep(before, s, now) == Outcome(s, Ok(None))
  {
    forall v | v in s.versions
      ensures v in Meta(s) && s.versions[v].job.state != Leased
    {
      assert v !in Unpublished(s);
    }
    UnpublishedIsLeasable(s, now);
    var vs := Leasable(s.versions, s.order, now);
    if vs != [] {
      HasElement(vs);
    }
  }

  /** Round `i` of a drain grants a job. */
  ghost predicate GrantsInRound(before: (string, string) -> bool, s: Registry, rounds: seq<Round>, i: nat)
    requires i < |rounds|
  {
    LeaseStep(before, Drain(before, s, rounds[..i]), rounds[i].now).result.value.Some?
  }

  lemma {:induction false} DrainGrants(before: (string, string) -> bool, s: Registry, rounds: seq<Round>, i: nat)
    requires Listed(s) && AllExpiredBy(s, rounds) && i < |rounds| <= |Unpublished(s)|
    ensures GrantsInRound(before, s, rounds, i)
    decreases i
  {
    assert Unpublished(s) != {};
    RoundDrains(before, s, rounds);
    if i > 0 {
      DrainGrants(before, DrainRound(before, s, rounds[0]), rounds[1..], i - 1);
      GrantsLater(before, s, rounds, i);
    } else {
      assert Drain(before, s, rounds[..0]) == s;
    }
  }

  lemma GrantsLater(before: (string, string) -> bool, s: Registry, rounds: seq<Round>, i: nat)
    requires 0 < i < |rounds|
    ensures GrantsInRound(before, s, rounds, i) <==>
            GrantsInRound(before, DrainRound(before, s, rounds[0]), rounds[1..], i - 1)
  {
    assert rounds[..i][0] == rounds[0] && rounds[..i][1..] == rounds[1..][..i - 1];
  }

  lemma {:induction false} DrainEmpties(before: (string, string) -> bool, s: Registry, rounds: seq<Round>)
    requires Listed(s) && AllExpiredBy(s, rounds) && |rounds| == |Unpublished(s)|
    ensures var t := Drain(before, s, rounds);
            Listed(t) && Unpublished(t) == {} && t.versions.Keys == s.versions.Keys
    decreases |rounds|
  {
    if rounds != [] {
      assert Unpublished(s) != {};
      RoundDrains(before, s, rounds);
      DrainEmpties(before, DrainRound(before, s, rounds[0]), rounds[1..]);
    }
  }

  /**
   * With k unpublished jobs, pending or left leased by workers that are gone, lease-then-complete
   * grants a job in each of exactly k rounds, once those leases are 120 seconds old; then nothing
   * can be leased at any time and every version is advertised.
   */
  lemma DrainsInOneRoundEach(before: (string, string) -> bool, s: Registry, rounds: seq<Round>, i: nat, now: int)
    requires ValidRegistry(s) && AllExpiredBy(s, rounds) && |rounds| == |Unpublished(s)|
    ensures i < |rounds| ==> GrantsInRound(before, s, rounds, i)
    ensures Meta(Drain(before, s, rounds)).Keys == s.versions.Keys
    ensures LeaseStep(before, Drain(before, s, rounds), now).result == Ok(None)
  {
    ValidIsKeyed(s);
    assert Listed(s);
    if i < |rounds| {
      DrainGrants(before, s, rounds, i);
    }
    DrainEmpties(before, s, rounds);
    DrainedIsAdvertised(before, Drain(before, s, rounds), now);
  }
}
