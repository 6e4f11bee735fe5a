/**
 * The job state machine of one synthetic package (src/package-registry.ts).
 *
 * The `...Step` functions say what each operation does to a registry's value, and what it returns
 * or throws; the class `PackageRegistry` performs the same steps in place. A JavaScript `Map` is a
 * `map` with the insertion order of its keys beside it.
 */
module PackageRegistryModel {
  import opened Common
  import opened Branches
  import opened VersionAllocation

  datatype PackageName = PackageName(scope: string, name: string)

  datatype JobState = Pending | Leased | Ready | Yanked

  datatype Diagnostic = Diagnostic(id: string, failureClass: string, message: string)

  datatype Job = Job(
    branch: string,
    commitSha: string,
    major: int,
    version: string,
    state: JobState,
    leasedAt: Option<int>,
    diagnostic: Option<Diagnostic>)

  datatype VersionRecord = VersionRecord(job: Job, assignment: Assignment)

  datatype RecoveryAudit = RecoveryAudit(originalVersion: string, replacementVersion: string, reason: string, recoveredAt: int)

  datatype Registry = Registry(
    name: PackageName,
    branches: BranchState,
    majors: Majors,
    versions: map<string, VersionRecord>,
    order: seq<string>,
    recoveries: seq<RecoveryAudit>)

  /** What the Durable Object stores between requests. */
  datatype RegistrySnapshot = RegistrySnapshot(
    name: PackageName,
    branches: BranchState,
    rows: seq<Assignment>,
    versions: seq<VersionRecord>,
    recoveries: Option<seq<RecoveryAudit>>)

  const LEASE_TIMEOUT_MS: int := 120_000

  // ----- what each operation does ----------------------------------------------------------

  function NewRegistry(name: PackageName): Registry {
    Registry(name, BranchState(None), map[], map[], [], [])
  }

  /** `versions.set(record.version, record)`: a new key goes last, an old one keeps its place. */
  function Put(s: Registry, r: VersionRecord): Registry {
    var v := r.job.version;
    s.(versions := s.versions[v := r], order := if v in s.versions then s.order else s.order + [v])
  }

  function PendingRecord(branch: string, commitSha: string, major: int, x: Assignment): VersionRecord {
    VersionRecord(Job(branch, commitSha, major, x.version, Pending, None, None), x)
  }

  /** One selected branch: allocate, and record the version unless it is known. */
  function ObserveBranch(s: Registry, b: Selected): Outcome<Registry, seq<Job>> {
    var outcome := AllocateStep(s.majors, b.major, b.tip.sha, b.tip.committedAt);
    var next := s.(majors := outcome.state);
    match outcome.result
    case Err(message) => Outcome(next, Err(message))
    case Ok(x) =>
      if x.version in s.versions then Outcome(next, Ok([]))
      else
        var r := PendingRecord(b.branch, b.tip.sha, b.major, x);
        Outcome(Put(next, r), Ok([r.job]))
  }

  function ObserveBranches(s: Registry, bs: seq<Selected>, created: seq<Job>): Outcome<Registry, seq<Job>>
    decreases |bs|
  {
    if bs == [] then Outcome(s, Ok(created))
    else
      var first := ObserveBranch(s, bs[0]);
      match first.result
      case Err(message) => Outcome(first.state, Err(message))
      case Ok(jobs) => ObserveBranches(first.state, bs[1..], created + jobs)
  }

  function RefreshStep(s: Registry, d: Discovery): Outcome<Registry, seq<Job>> {
    match Select(d, s.branches)
    case Err(message) => Outcome(s, Err(message))
    case Ok(selection) => ObserveBranches(s.(branches := selection.state), selection.branches, [])
  }

  predicate IsTerminal(state: JobState) {
    state == Ready || state == Yanked
  }

  function RecoverVersionStep(s: Registry, version: string, reason: string, recoveredAt: int): Outcome<Registry, Job> {
    if version !in s.versions || !IsTerminal(s.versions[version].job.state) then
      Outcome(s, Err("version " + version + " cannot be recovered"))
    else
      var r := s.versions[version];
      var recovered := RecoverStep(s.majors, r.job.major, r.job.commitSha, r.assignment.sequence);
      var next := s.(majors := recovered.state);
      match recovered.result
      case Err(message) => Outcome(next, Err(message))
      case Ok(x) =>
        var replacement := PendingRecord(r.job.branch, r.job.commitSha, r.job.major, x);
        var audit := RecoveryAudit(version, x.version, reason, recoveredAt);
        var stored := Put(next, replacement);
        Outcome(stored.(recoveries := stored.recoveries + [audit]), Ok(replacement.job))
  }

  function SetJob(s: Registry, version: string, job: Job): Registry
    requires version in s.versions
  {
    s.(versions := s.versions[version := s.versions[version].(job := job)])
  }

  function StateName(state: JobState): string {
    match state
    case Pending => "pending"
    case Leased => "leased"
    case Ready => "ready"
    case Yanked => "yanked"
  }

  function PendingError(s: Registry, version: string): Option<string> {
    if version !in s.versions then Some("unknown version: " + version)
    else if IsTerminal(s.versions[version].job.state) then
      Some("version " + version + " cannot transition from " + StateName(s.versions[version].job.state))
    else None
  }

  /** Ends a job as `Ready` (no diagnostic) or `Yanked`; terminal jobs refuse. */
  function CompleteStep(s: Registry, version: string, diagnostic: Option<Diagnostic>): Outcome<Registry, ()> {
    match PendingError(s, version)
    case Some(message) => Outcome(s, Err(message))
    case None =>
      var job := s.versions[version].job;
      Outcome(
        SetJob(s, version,
               if diagnostic.None? then job.(state := Ready, leasedAt := None)
               else job.(state := Yanked, leasedAt := None, diagnostic := diagnostic)),
        Ok(()))
  }

  /** A pending job, or a lease that has run out. */
  predicate CanLease(job: Job, now: int) {
    || job.state == Pending
    || (job.state == Leased && (job.leasedAt.None? || job.leasedAt.value + LEASE_TIMEOUT_MS <= now))
  }

  /** The versions that may be leased now, in map order. */
  function Leasable(versions: map<string, VersionRecord>, order: seq<string>, now: int): (vs: seq<string>)
    ensures forall v :: v in vs <==> v in order && v in versions && CanLease(versions[v].job, now)
  {
    if order == [] then []
    else
      assert order == order[..|order| - 1] + [order[|order| - 1]];
      var front, last := Leasable(versions, order[..|order| - 1], now), order[|order| - 1];
      if last in versions && CanLease(versions[last].job, now) then front + [last] else front
  }

  /** The head of a stable sort: the earliest of the least elements. */
  function Least(before: (string, string) -> bool, vs: seq<string>): (v: string)
    requires vs != []
    ensures v in vs
  {
    var last := vs[|vs| - 1];
    if |vs| == 1 then last
    else
      var least := Least(before, vs[..|vs| - 1]);
      if before(last, least) then last else least
  }

  function Earliest(before: (string, string) -> bool, vs: seq<string>): Option<string> {
    if vs == [] then None else Some(Least(before, vs))
  }

  /** One more version in map order: what can be leased, and which of it comes first. */
  lemma LeasableStep(before: (string, string) -> bool, versions: map<string, VersionRecord>, front: seq<string>, v: string, now: int)
    ensures var was := Leasable(versions, front, now);
            var leasable := v in versions && CanLease(versions[v].job, now);
            && Leasable(versions, front + [v], now) == (if leasable then was + [v] else was)
            && Earliest(before, was + [v])
               == (if was == [] || before(v, Earliest(before, was).value) then Some(v) else Earliest(before, was))
  {
    var was := Leasable(versions, front, now);
    assert (front + [v])[..|front|] == front;
    assert (was + [v])[..|was|] == was;
  }

  function LeaseStep(before: (string, string) -> bool, s: Registry, now: int): Outcome<Registry, Option<Job>> {
    var vs := Leasable(s.versions, s.order, now);
    if vs == [] then Outcome(s, Ok(None))
    else
      var v := Least(before, vs);
      var job := s.versions[v].job.(state := Leased, leasedAt := Some(now));
      Outcome(SetJob(s, v, job), Ok(Some(job)))
  }

  function ReleaseStep(s: Registry, version: string): Outcome<Registry, ()> {
    if version !in s.versions then Outcome(s, Err("unknown version: " + version))
    else
      var job := s.versions[version].job;
      if job.state != Leased then Outcome(s, Err("version " + version + " is not leased"))
      else Outcome(SetJob(s, version, job.(state := Pending, leasedAt := None)), Ok(()))
  }

  /** The advertised versions: `true` for a yanked one. */
  function Meta(s: Registry): map<string, bool> {
    map v | v in s.versions && IsTerminal(s.versions[v].job.state) :: s.versions[v].job.state == Yanked
  }

  // ----- storing and reading back ----------------------------------------------------------

  /** The values of the version map in insertion order. */
  function Records(versions: map<string, VersionRecord>, order: seq<string>): seq<VersionRecord> {
    if order == [] then []
    else
      var front, last := Records(versions, order[..|order| - 1]), order[|order| - 1];
      if last in versions then front + [versions[last]] else front
  }

  ghost predicate IsRegistrySnapshot(before: (string, string) -> bool, s: Registry, snap: RegistrySnapshot) {
    && snap.name == s.name
    && snap.branches == s.branches
    && IsSnapshot(before, s.majors, snap.rows)
    && snap.versions == Records(s.versions, s.order)
    && snap.recoveries == Some(s.recoveries)
  }

  function RestoreRecords(s: Registry, records: seq<VersionRecord>): Result<Registry>
    decreases |records|
  {
    if records == [] then Ok(s)
    else if records[0].job.version in s.versions then Err("duplicate version: " + records[0].job.version)
    else RestoreRecords(Put(s, records[0]), records[1..])
  }

  function Restore(snap: RegistrySnapshot): Result<Registry> {
    match RebuildFrom(map[], snap.rows)
    case Err(message) => Err(message)
    case Ok(ms) =>
      match RestoreRecords(Registry(snap.name, snap.branches, ms, map[], [], []), snap.versions)
      case Err(message) => Err(message)
      case Ok(s) => Ok(s.(recoveries := if snap.recoveries.Some? then snap.recoveries.value else []))
  }

  // ----- the class -------------------------------------------------------------------------

  class PackageRegistry {
    const name: PackageName
    const allocator: VersionAllocator
    var versions: map<string, VersionRecord>
    var order: seq<string>
    var recoveries: seq<RecoveryAudit>
    var branches: BranchState

    function State(): Registry
      reads this, allocator
    {
      Registry(name, branches, allocator.majors, versions, order, recoveries)
    }

    constructor (name: PackageName, allocator: VersionAllocator)
      ensures this.allocator == allocator
      ensures State() == NewRegistry(name).(majors := allocator.majors)
    {
      this.name := name;
      this.allocator := allocator;
      versions := map[];
      order := [];
      recoveries := [];
      branches := BranchState(None);
    }

    method Set(r: VersionRecord)
      modifies this
      ensures State() == Put(old(State()), r)
    {
      var v := r.job.version;
      if v !in versions {
        order := order + [v];
      }
      versions := versions[v := r];
    }

    static method FromSnapshot(snap: RegistrySnapshot) returns (r: Result<PackageRegistry>)
      ensures match Restore(snap)
              case Ok(s) => r.Ok? && fresh(r.value) && fresh(r.value.allocator) && r.value.State() == s
              case Err(message) => r == Err(message)
    {
      var rebuilt := VersionAllocator.FromSnapshot(snap.rows);
      if rebuilt.Err? {
        return Err(rebuilt.error);
      }
      var registry := new PackageRegistry(snap.name, rebuilt.value);
      registry.branches := snap.branches;
      ghost var start := registry.State();
      for i := 0 to |snap.versions|
        invariant fresh(registry) && fresh(registry.allocator)
        invariant RestoreRecords(start, snap.versions) == RestoreRecords(registry.State(), snap.versions[i..])
      {
        var record := snap.versions[i];
        assert snap.versions[i..][0] == record && snap.versions[i..][1..] == snap.versions[i + 1..];
        if record.job.version in registry.versions {
          return Err("duplicate version: " + record.job.version);
        }
        registry.Set(record);
      }
      registry.recoveries := if snap.recoveries.Some? then snap.recoveries.value else [];
      return Ok(registry);
    }

    method Snapshot(before: (string, string) -> bool) returns (snap: RegistrySnapshot)
      requires StrictOrder(before)
      ensures IsRegistrySnapshot(before, State(), snap)
    {
      var rows := allocator.Snapshot(before);
      var records: seq<VersionRecord> := [];
      for i := 0 to |order|
        invariant records == Records(versions, order[..i])
      {
        assert order[..i + 1][..i] == order[..i];
        if order[i] in versions {
          records := records + [versions[order[i]]];
        }
      }
      assert order[..|order|] == order;
      snap := RegistrySnapshot(name, branches, rows, records, Some(recoveries));
    }

    method Refresh(d: Discovery) returns (r: Result<seq<Job>>)
      modifies this, allocator
      ensures Outcome(State(), r) == RefreshStep(old(State()), d)
    {
      var selected := SelectBranches(d, branches);
      if selected.Err? {
        return Err(selected.error);
      }
      branches := selected.value.state;
      var bs := selected.value.branches;
      ghost var start := State();
      var created: seq<Job> := [];
      for i := 0 to |bs|
        invariant ObserveBranches(start, bs, []) == ObserveBranches(State(), bs[i..], created)
      {
        var b := bs[i];
        assert bs[i..][0] == b && bs[i..][1..] == bs[i + 1..];
        ghost var was, had := State(), created;
        var outcome := allocator.Allocate(b.major, b.tip.sha, b.tip.committedAt);
        if outcome.Err? {
          return Err(outcome.error);
        }
        var x := outcome.value;
        if x.version !in versions {
          var record := PendingRecord(b.branch, b.tip.sha, b.major, x);
          Set(record);
          created := created + [record.job];
        }
        assert x.version in was.versions ==> had + [] == created;
        assert ObserveBranch(was, b).state == State();
      }
      return Ok(created);
    }

    method RecoverVersion(version: string, reason: string, recoveredAt: int) returns (r: Result<Job>)
      modifies this, allocator
      ensures Outcome(State(), r) == RecoverVersionStep(old(State()), version, reason, recoveredAt)
    {
      if version !in versions || !IsTerminal(versions[version].job.state) {
        return Err("version " + version + " cannot be recovered");
      }
      var record := versions[version];
      var assignment := allocator.Recover(record.job.major, record.job.commitSha, record.assignment.sequence);
      if assignment.Err? {
        return Err(assignment.error);
      }
      var replacement := PendingRecord(record.job.branch, record.job.commitSha, record.job.major, assignment.value);
      Set(replacement);
      recoveries := recoveries + [RecoveryAudit(version, replacement.job.version, reason, recoveredAt)];
      return Ok(replacement.job);
    }

    method UpdateJob(version: string, job: Job)
      requires version in versions
      modifies this
      ensures State() == SetJob(old(State()), version, job)
    {
      versions := versions[version := versions[version].(job := job)];
    }

    method MarkReady(version: string) returns (r: Result<()>)
      modifies this
      ensures Outcome(State(), r) == CompleteStep(old(State()), version, None)
    {
      var refused := PendingError(State(), version);
      if refused.Some? {
        return Err(refused.value);
      }
      var job := versions[version].job;
      job := job.(state := Ready);
      job := job.(leasedAt := None);
      UpdateJob(version, job);
      return Ok(());
    }

    method MarkYanked(version: string, diagnostic: Diagnostic) returns (r: Result<()>)
      modifies this
      ensures Outcome(State(), r) == CompleteStep(old(State()), version, Some(diagnostic))
    {
      var refused := PendingError(State(), version);
      if refused.Some? {
        return Err(refused.value);
      }
      var job := versions[version].job;
      job := job.(state := Yanked);
      job := job.(leasedAt := None);
      job := job.(diagnostic := Some(diagnostic));
      UpdateJob(version, job);
      return Ok(());
    }

    method FirstLeasable(before: (string, string) -> bool, now: int) returns (found: Option<string>)
      ensures found == Earliest(before, Leasable(versions, order, now))
    {
      found := None;
      for i := 0 to |order|
        invariant found == Earliest(before, Leasable(versions, order[..i], now))
      {
        var v := order[i];
        LeasableStep(before, versions, order[..i], v, now);
        assert order[..i + 1] == order[..i] + [v];
        if v in versions && CanLease(versions[v].job, now) {
          if found.None? || before(v, found.value) {
            found := Some(v);
          }
        }
      }
      assert order[..|order|] == order;
    }

    method LeaseNext(before: (string, string) -> bool, now: int) returns (leased: Option<Job>)
      modifies this
      ensures Outcome(State(), Ok(leased)) == LeaseStep(before, old(State()), now)
    {
      var found := FirstLeasable(before, now);
      if found.None? {
        return None;
      }
      var v := found.value;
      var job := versions[v].job;
      job := job.(state := Leased);
      job := job.(leasedAt := Some(now));
      UpdateJob(v, job);
      return Some(job);
    }

    method ReleaseLease(version: string) returns (r: Result<()>)
      modifies this
      ensures Outcome(State(), r) == ReleaseStep(old(State()), version)
    {
      if version !in versions {
        return Err("unknown version: " + version);
      }
      var job := versions[version].job;
      if job.state != Leased {
        return Err("version " + version + " is not leased");
      }
      job := job.(state := Pending);
      job := job.(leasedAt := None);
      UpdateJob(version, job);
      return Ok(());
    }

    /** The published versions, each with its yanked flag; all of them when the order lists them all. */
    method ReadMeta() returns (versionMap: map<string, bool>)
      ensures forall v :: v in versionMap <==> v in order && v in versions && IsTerminal(versions[v].job.state)
      ensures forall v :: v in versionMap ==> versionMap[v] == (versions[v].job.state == Yanked)
      ensures (forall v :: v in versions ==> v in order) ==> versionMap == Meta(State())
    {
      versionMap := map[];
      for i := 0 to |order|
        invariant forall v :: v in versionMap <==> v in order[..i] && v in versions && IsTerminal(versions[v].job.state)
        invariant forall v :: v in versionMap ==> versionMap[v] == (versions[v].job.state == Yanked)
      {
        var v := order[i];
        assert order[..i + 1] == order[..i] + [v];
        if v in versions && IsTerminal(versions[v].job.state) {
          versionMap := versionMap[v := versions[v].job.state == Yanked];
        }
      }
      assert order[..|order|] == order;
    }
  }
}
