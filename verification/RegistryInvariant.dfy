/**
 * The invariant of the package registry and its preservation by every operation: jobs and
 * allocator rows are in bijection, and every recovery is audited exactly once.
 */
module RegistryInvariant {
  import opened Common
  import opened Branches
  import opened VersionAllocation
  import opened PackageRegistryModel

  ghost predicate Held(ms: Majors, x: Assignment) {
    && x.major in ms
    && KeyOf(x) in ms[x.major].assignments
    && ms[x.major].assignments[KeyOf(x)] == x
  }

  ghost predicate ValidJob(job: Job) {
    && (job.state == Leased <==> job.leasedAt.Some?)
    && (job.state == Yanked <==> job.diagnostic.Some?)
  }

  ghost predicate ValidRecord(ms: Majors, r: VersionRecord, v: string) {
    && r.job.version == v
    && r.assignment.version == v
    && r.job.major == r.assignment.major
    && r.job.commitSha == r.assignment.commitSha
    && Held(ms, r.assignment)
    && ValidJob(r.job)
  }

  /** Every version record holds a row of the allocator. */
  ghost predicate ValidRecords(s: Registry) {
    forall v :: v in s.versions ==> ValidRecord(s.majors, s.versions[v], v)
  }

  ghost predicate Recorded(s: Registry, x: Assignment) {
    x.version in s.versions && s.versions[x.version].assignment == x
  }

  /** Every row of the allocator has a version record. */
  ghost predicate RowsRecorded(s: Registry) {
    forall m, k :: m in s.majors && k in s.majors[m].assignments ==> Recorded(s, s.majors[m].assignments[k])
  }

  ghost predicate OrderExact(s: Registry) {
    NoDuplicates(s.order) && forall v :: v in s.order <==> v in s.versions
  }

  ghost predicate NoEmptyMajors(ms: Majors) {
    forall m :: m in ms ==> ms[m].assignments != map[]
  }

  /** The replacement is a later attempt of the original's commit in the original's major. */
  ghost predicate ValidAudit(s: Registry, e: RecoveryAudit) {
    && e.originalVersion in s.versions && e.replacementVersion in s.versions
    && IsTerminal(s.versions[e.originalVersion].job.state)
    && var o, r := s.versions[e.originalVersion].assignment, s.versions[e.replacementVersion].assignment;
    && r.major == o.major && r.commitSha == o.commitSha
    && r.attempt > o.attempt && r.sequence > o.sequence
  }

  ghost predicate Audited(s: Registry, v: string) {
    exists i :: 0 <= i < |s.recoveries| && s.recoveries[i].replacementVersion == v
  }

  ghost predicate AuditsSound(s: Registry) {
    forall i :: 0 <= i < |s.recoveries| ==> ValidAudit(s, s.recoveries[i])
  }

  ghost predicate AuditsDistinct(s: Registry) {
    forall i, j :: 0 <= i < j < |s.recoveries| ==> s.recoveries[i].replacementVersion != s.recoveries[j].replacementVersion
  }

  ghost predicate AuditsComplete(s: Registry) {
    forall v :: v in s.versions && s.versions[v].assignment.attempt > 0 ==> Audited(s, v)
  }

  /** Rows past attempt zero and audit entries are in bijection. */
  ghost predicate ValidAudits(s: Registry) {
    AuditsSound(s) && AuditsDistinct(s) && AuditsComplete(s)
  }

  ghost predicate Bijective(s: Registry) {
    && ValidMajors(s.majors) && NoEmptyMajors(s.majors)
    && ValidRecords(s) && RowsRecorded(s) && OrderExact(s)
  }

  ghost predicate ValidRegistry(s: Registry) {
    Bijective(s) && ValidAudits(s)
  }

  ghost predicate SafeRegistry(s: Registry) {
    SafeMajors(s.majors)
  }

  // ----- what no operation undoes ----------------------------------------------------------

  ghost predicate SameIdentity(r: VersionRecord, q: VersionRecord) {
    && q.assignment == r.assignment
    && q.job.branch == r.job.branch && q.job.commitSha == r.job.commitSha
    && q.job.major == r.job.major && q.job.version == r.job.version
  }

  /** Versions stay, keep their identity, and a published outcome never changes. */
  ghost predicate Persists(s: Registry, t: Registry) {
    && (forall v :: v in s.versions ==> v in t.versions)
    && (forall v :: v in s.versions ==> SameIdentity(s.versions[v], t.versions[v]))
    && (forall v :: v in s.versions && IsTerminal(s.versions[v].job.state) ==> t.versions[v] == s.versions[v])
    && s.recoveries <= t.recoveries
    && s.order <= t.order
    && t.name == s.name
  }

  lemma PersistsTransitive(s: Registry, t: Registry, u: Registry)
    requires Persists(s, t) && Persists(t, u)
    ensures Persists(s, u)
  {
  }

  // ----- a new version ---------------------------------------------------------------------

  /** The row an allocation would append to a major. */
  function NextRow(ms: Majors, m: int, commitSha: string, committedAt: int): Assignment {
    var a := ForMajor(ms, m);
    NextAssignment(a, m, commitSha, committedAt, NextAttempt(a, commitSha))
  }

  function WithRow(ms: Majors, x: Assignment): Majors {
    ms[x.major := Appended(ForMajor(ms, x.major), x)]
  }

  /** A record entered together with its row. */
  function Entered(s: Registry, r: VersionRecord): Registry {
    Put(s.(majors := WithRow(s.majors, r.assignment)), r)
  }

  ghost predicate FreshRow(s: Registry, x: Assignment) {
    KeyOf(x) !in ForMajor(s.majors, x.major).assignments && x.version !in s.versions
  }

  /** A pending record of a row. */
  ghost predicate NewRecord(r: VersionRecord) {
    var x := r.assignment;
    r.job.version == x.version && r.job.major == x.major && r.job.commitSha == x.commitSha
    && r.job.state == Pending && ValidJob(r.job)
  }

  lemma NextRowFits(ms: Majors, m: int, commitSha: string, committedAt: int)
    requires ValidMajors(ms) && ForMajor(ms, m).highWater <= MAX_SAFE
    requires InputError(m, commitSha, committedAt).None?
    ensures var x := NextRow(ms, m, commitSha, committedAt);
            && KeyOf(x) !in ForMajor(ms, m).assignments
            && x.sequence > ForMajor(ms, m).highWater
            && ValidMajors(WithRow(ms, x))
            && (NoEmptyMajors(ms) ==> NoEmptyMajors(WithRow(ms, x)))
  {
    var a, x := ForMajor(ms, m), NextRow(ms, m, commitSha, committedAt);
    assert ValidMajor(m, a);
    AppendValid(m, a, commitSha, committedAt);
    assert WithRow(ms, x) == ms[m := Appended(a, x)];
    assert KeyOf(x) in Appended(a, x).assignments;
  }

  lemma RecordedSequence(s: Registry, v: string)
    requires ValidMajors(s.majors) && ValidRecords(s) && v in s.versions
    ensures var x := s.versions[v].assignment;
            x.major in s.majors && x.sequence <= s.majors[x.major].highWater && v == RenderVersion(x.major, x.sequence)
  {
    var x := s.versions[v].assignment;
    assert ValidRecord(s.majors, s.versions[v], v);
    assert ValidRow(x.major, s.majors[x.major], KeyOf(x));
  }

  lemma NextRowFresh(s: Registry, m: int, commitSha: string, committedAt: int)
    requires ValidMajors(s.majors) && ValidRecords(s)
    requires ForMajor(s.majors, m).highWater <= MAX_SAFE && InputError(m, commitSha, committedAt).None?
    ensures FreshRow(s, NextRow(s.majors, m, commitSha, committedAt))
  {
    NextRowFits(s.majors, m, commitSha, committedAt);
    var x := NextRow(s.majors, m, commitSha, committedAt);
    if x.version in s.versions {
      RecordedSequence(s, x.version);
      var y := s.versions[x.version].assignment;
      VersionInjective(y.major, y.sequence, m, x.sequence);
    }
  }

  lemma EnterKeepsRecords(s: Registry, r: VersionRecord)
    requires ValidRecords(s) && FreshRow(s, r.assignment) && NewRecord(r)
    ensures ValidRecords(Entered(s, r))
  {
    var t := Entered(s, r);
    forall v | v in t.versions
      ensures ValidRecord(t.majors, t.versions[v], v)
    {
      if v != r.job.version {
        assert ValidRecord(s.majors, s.versions[v], v);
      }
    }
  }

  lemma EnterKeepsRows(s: Registry, r: VersionRecord)
    requires RowsRecorded(s) && FreshRow(s, r.assignment) && NewRecord(r)
    ensures RowsRecorded(Entered(s, r))
  {
    var t, x := Entered(s, r), r.assignment;
    forall n, k | n in t.majors && k in t.majors[n].assignments
      ensures Recorded(t, t.majors[n].assignments[k])
    {
      if n != x.major || k != KeyOf(x) {
        assert Recorded(s, s.majors[n].assignments[k]);
      }
    }
  }

  lemma EnterAppends(s: Registry, r: VersionRecord)
    requires OrderExact(s) && r.job.version !in s.versions
    ensures OrderExact(Entered(s, r)) && Persists(s, Entered(s, r)) && OnlyAdds(s, Entered(s, r))
    ensures Entered(s, r).order == s.order + [r.job.version]
  {
  }

  /** Entering the next row of a major with its record keeps jobs and rows in bijection. */
  lemma EnterBijective(s: Registry, m: int, commitSha: string, committedAt: int, r: VersionRecord)
    requires Bijective(s) && ForMajor(s.majors, m).highWater <= MAX_SAFE
    requires InputError(m, commitSha, committedAt).None?
    requires r.assignment == NextRow(s.majors, m, commitSha, committedAt) && NewRecord(r)
    ensures Bijective(Entered(s, r)) && FreshRow(s, r.assignment)
  {
    NextRowFits(s.majors, m, commitSha, committedAt);
    NextRowFresh(s, m, commitSha, committedAt);
    EnterKeepsRecords(s, r);
    EnterKeepsRows(s, r);
    EnterAppends(s, r);
  }

  // ----- refresh ---------------------------------------------------------------------------

  /** A commit the allocator knows in a major. */
  ghost predicate Known(ms: Majors, m: int, commitSha: string) {
    commitSha in ForMajor(ms, m).currentAttempts
  }

  function BranchRecord(ms: Majors, b: Selected): VersionRecord {
    PendingRecord(b.branch, b.tip.sha, b.major, NextRow(ms, b.major, b.tip.sha, b.tip.committedAt))
  }

  ghost predicate BranchInputsValid(b: Selected) {
    InputError(b.major, b.tip.sha, b.tip.committedAt).None?
  }

  /** A known commit is answered from the rows: nothing changes and nothing is created. */
  lemma ObserveKnown(s: Registry, b: Selected)
    requires ValidMajors(s.majors) && RowsRecorded(s)
    requires Known(s.majors, b.major, b.tip.sha) && BranchInputsValid(b)
    ensures ObserveBranch(s, b) == Outcome(s, Ok([]))
  {
    var a := ForMajor(s.majors, b.major);
    assert HasRow(a, b.tip.sha, a.currentAttempts[b.tip.sha]);
    var x := a.assignments[Key(b.tip.sha, a.currentAttempts[b.tip.sha])];
    assert Recorded(s, x);
    assert s.majors[b.major := a] == s.majors;
  }

  /** A new commit enters with attempt zero. */
  lemma ObserveNew(s: Registry, b: Selected)
    requires !Known(s.majors, b.major, b.tip.sha) && BranchInputsValid(b)
    requires FreshRow(s, BranchRecord(s.majors, b).assignment)
    ensures var r := BranchRecord(s.majors, b);
            && NewRecord(r) && r.assignment.attempt == 0 && r.assignment.major == b.major
            && ObserveBranch(s, b) == Outcome(Entered(s, r), Ok([r.job]))
  {
  }

  lemma ObserveInvalid(s: Registry, b: Selected)
    requires !BranchInputsValid(b)
    ensures ObserveBranch(s, b).state == s && ObserveBranch(s, b).result.Err?
  {
  }

  lemma AuditKept(s: Registry, t: Registry, e: RecoveryAudit)
    requires ValidAudit(s, e) && Persists(s, t)
    ensures ValidAudit(t, e)
  {
  }

  lemma FirstAttemptKeepsAudits(s: Registry, r: VersionRecord)
    requires ValidAudits(s) && OrderExact(s) && FreshRow(s, r.assignment) && NewRecord(r) && r.assignment.attempt == 0
    ensures ValidAudits(Entered(s, r))
  {
    var t := Entered(s, r);
    EnterAppends(s, r);
    forall i | 0 <= i < |t.recoveries|
      ensures ValidAudit(t, t.recoveries[i])
    {
      AuditKept(s, t, s.recoveries[i]);
    }
    forall v | v in t.versions && t.versions[v].assignment.attempt > 0
      ensures Audited(t, v)
    {
      assert Audited(s, v);
    }
  }

  /** What one observed branch leaves of the other majors, the branch state and the log. */
  ghost predicate OnlyMajor(s: Registry, t: Registry, m: int) {
    && (forall n :: n != m ==> ForMajor(t.majors, n) == ForMajor(s.majors, n))
    && t.branches == s.branches
    && t.recoveries == s.recoveries
  }

  /** The versions appended to `s.order` in `t` are new, and `jobs` are their jobs, in order. */
  ghost predicate AppendedJobs(s: Registry, t: Registry, jobs: seq<Job>) {
    && s.order <= t.order
    && |jobs| == |t.order| - |s.order|
    && forall i :: 0 <= i < |jobs| ==> NewJob(s, t, t.order[|s.order| + i], jobs[i])
  }

  ghost predicate NewJob(s: Registry, t: Registry, v: string, job: Job) {
    v !in s.versions && v in t.versions && t.versions[v].job == job && job.state == Pending
  }

  /** Versions are only added, with their records untouched afterwards. */
  ghost predicate OnlyAdds(s: Registry, t: Registry) {
    forall v :: v in s.versions ==> v in t.versions && t.versions[v] == s.versions[v]
  }

  /** What observing one branch does besides keeping the invariant. */
  ghost predicate BranchEffect(s: Registry, b: Selected, r: Outcome<Registry, seq<Job>>) {
    && Persists(s, r.state) && OnlyAdds(s, r.state)
    && OnlyMajor(s, r.state, b.major)
    && (r.result.Ok? ==> AppendedJobs(s, r.state, r.result.value) && Known(r.state.majors, b.major, b.tip.sha))
  }

  lemma NoBranchEffect(s: Registry, b: Selected, r: Outcome<Registry, seq<Job>>)
    requires r.state == s && (r.result.Ok? ==> r.result.value == [] && Known(s.majors, b.major, b.tip.sha))
    ensures BranchEffect(s, b, r)
  {
  }

  lemma EnteredBranchEffect(s: Registry, b: Selected, r: VersionRecord)
    requires OrderExact(s) && FreshRow(s, r.assignment) && NewRecord(r)
    requires r.assignment.major == b.major && r.assignment.commitSha == b.tip.sha
    ensures BranchEffect(s, b, Outcome(Entered(s, r), Ok([r.job])))
  {
    EnterAppends(s, r);
    assert NewJob(s, Entered(s, r), Entered(s, r).order[|s.order|], r.job);
  }

  lemma ObserveBranchEffect(s: Registry, b: Selected)
    requires Bijective(s) && ForMajor(s.majors, b.major).highWater <= MAX_SAFE
    ensures BranchEffect(s, b, ObserveBranch(s, b))
    ensures ObserveBranch(s, b).result.Ok? <==> BranchInputsValid(b)
  {
    if !BranchInputsValid(b) {
      ObserveInvalid(s, b);
      NoBranchEffect(s, b, ObserveBranch(s, b));
    } else if Known(s.majors, b.major, b.tip.sha) {
      ObserveKnown(s, b);
      NoBranchEffect(s, b, ObserveBranch(s, b));
    } else {
      NextRowFresh(s, b.major, b.tip.sha, b.tip.committedAt);
      ObserveNew(s, b);
      EnteredBranchEffect(s, b, BranchRecord(s.majors, b));
    }
  }

  lemma ObserveBranchValid(s: Registry, b: Selected)
    requires ValidRegistry(s) && ForMajor(s.majors, b.major).highWater <= MAX_SAFE
    ensures ValidRegistry(ObserveBranch(s, b).state)
  {
    if !BranchInputsValid(b) {
      ObserveInvalid(s, b);
    } else if Known(s.majors, b.major, b.tip.sha) {
      ObserveKnown(s, b);
    } else {
      NextRowFresh(s, b.major, b.tip.sha, b.tip.committedAt);
      ObserveNew(s, b);
      var r := BranchRecord(s.majors, b);
      EnterBijective(s, b.major, b.tip.sha, b.tip.committedAt, r);
      FirstAttemptKeepsAudits(s, r);
    }
  }

  lemma AppendedJobsChain(s: Registry, t: Registry, u: Registry, front: seq<Job>, back: seq<Job>)
    requires AppendedJobs(s, t, front) && AppendedJobs(t, u, back)
    requires OnlyAdds(s, t) && OnlyAdds(t, u)
    ensures AppendedJobs(s, u, front + back)
  {
    var jobs := front + back;
    forall i | 0 <= i < |jobs|
      ensures NewJob(s, u, u.order[|s.order| + i], jobs[i])
    {
      if i < |front| {
        assert NewJob(s, t, t.order[|s.order| + i], front[i]);
      } else {
        assert NewJob(t, u, u.order[|t.order| + (i - |front|)], back[i - |front|]);
      }
    }
  }

  ghost predicate SafeSelection(s: Registry, bs: seq<Selected>) {
    && DistinctMajors(bs)
    && forall b :: b in bs ==> ForMajor(s.majors, b.major).highWater <= MAX_SAFE
  }

  lemma SafeSelectionRest(s: Registry, t: Registry, bs: seq<Selected>)
    requires bs != [] && SafeSelection(s, bs) && OnlyMajor(s, t, bs[0].major)
    ensures SafeSelection(t, bs[1..])
  {
    RestAvoidsFirst(bs);
  }

  lemma {:induction false} ObserveBranchesValid(s: Registry, bs: seq<Selected>, created: seq<Job>)
    requires ValidRegistry(s) && SafeSelection(s, bs)
    ensures ValidRegistry(ObserveBranches(s, bs, created).state)
    decreases |bs|
  {
    if bs != [] {
      var first := ObserveBranch(s, bs[0]);
      ObserveBranchValid(s, bs[0]);
      ObserveBranchEffect(s, bs[0]);
      if first.result.Ok? {
        SafeSelectionRest(s, first.state, bs);
        ObserveBranchesValid(first.state, bs[1..], created + first.result.value);
      }
    }
  }

  /** What observing a selection does besides keeping the invariant. */
  ghost predicate RefreshEffect(s: Registry, r: Outcome<Registry, seq<Job>>, created: seq<Job>) {
    && Persists(s, r.state) && OnlyAdds(s, r.state)
    && r.state.recoveries == s.recoveries
    && (r.result.Ok? ==> created <= r.result.value && AppendedJobs(s, r.state, r.result.value[|created|..]))
  }

  lemma RefreshEffectChain(s: Registry, t: Registry, r: Outcome<Registry, seq<Job>>, created: seq<Job>, more: seq<Job>)
    requires Persists(s, t) && OnlyAdds(s, t) && t.recoveries == s.recoveries && AppendedJobs(s, t, more)
    requires RefreshEffect(t, r, created + more)
    ensures RefreshEffect(s, r, created)
  {
    PersistsTransitive(s, t, r.state);
    if r.result.Ok? {
      var back := r.result.value[|created + more|..];
      assert r.result.value == created + more + back;
      assert r.result.value[|created|..] == more + back;
      AppendedJobsChain(s, t, r.state, more, back);
    }
  }

  lemma {:induction false} ObserveBranchesEffect(s: Registry, bs: seq<Selected>, created: seq<Job>)
    requires ValidRegistry(s) && SafeSelection(s, bs)
    ensures RefreshEffect(s, ObserveBranches(s, bs, created), created)
    ensures ObserveBranches(s, bs, created).state.branches == s.branches
    decreases |bs|
  {
    if bs == [] {
      assert created[|created|..] == [];
    } else {
      var first := ObserveBranch(s, bs[0]);
      ObserveBranchValid(s, bs[0]);
      ObserveBranchEffect(s, bs[0]);
      if first.result.Ok? {
        SafeSelectionRest(s, first.state, bs);
        ObserveBranchesEffect(first.state, bs[1..], created + first.result.value);
        RefreshEffectChain(s, first.state, ObserveBranches(s, bs, created), created, first.result.value);
      }
    }
  }

  lemma AuditsDespiteBranches(s: Registry, state: BranchState)
    requires ValidAudits(s)
    ensures ValidAudits(s.(branches := state))
  {
    var t := s.(branches := state);
    forall i | 0 <= i < |t.recoveries|
      ensures ValidAudit(t, t.recoveries[i])
    {
      assert ValidAudit(s, s.recoveries[i]);
    }
    forall v | v in t.versions && t.versions[v].assignment.attempt > 0
      ensures Audited(t, v)
    {
      assert Audited(s, v);
    }
  }

  lemma RowsDespiteBranches(s: Registry, state: BranchState)
    requires RowsRecorded(s)
    ensures RowsRecorded(s.(branches := state))
  {
    forall m, k | m in s.majors && k in s.majors[m].assignments
      ensures Recorded(s.(branches := state), s.majors[m].assignments[k])
    {
      assert Recorded(s, s.majors[m].assignments[k]);
    }
  }

  lemma SameButBranches(s: Registry, state: BranchState)
    requires ValidRegistry(s)
    ensures ValidRegistry(s.(branches := state))
  {
    AuditsDespiteBranches(s, state);
    RowsDespiteBranches(s, state);
  }

  lemma SelectionIsSafe(s: Registry, d: Discovery)
    requires ValidRegistry(s) && SafeRegistry(s) && UniqueNames(d.branches) && Select(d, s.branches).Ok?
    ensures var t := s.(branches := Select(d, s.branches).value.state);
            ValidRegistry(t) && SafeSelection(t, Select(d, s.branches).value.branches)
  {
    SelectedMajorsDistinct(d, s.branches);
    SameButBranches(s, Select(d, s.branches).value.state);
  }

  /** Refreshing keeps the invariant, whether it succeeds or throws midway. */
  lemma RefreshValid(s: Registry, d: Discovery)
    requires ValidRegistry(s) && SafeRegistry(s) && UniqueNames(d.branches)
    ensures ValidRegistry(RefreshStep(s, d).state)
  {
    if Select(d, s.branches).Ok? {
      var selection := Select(d, s.branches).value;
      SelectionIsSafe(s, d);
      ObserveBranchesValid(s.(branches := selection.state), selection.branches, []);
    }
  }

  /** Refreshing only adds versions, and returns exactly the newly appended ones, each pending. */
  lemma RefreshCreatesExactly(s: Registry, d: Discovery)
    requires ValidRegistry(s) && SafeRegistry(s) && UniqueNames(d.branches)
    ensures RefreshEffect(s, RefreshStep(s, d), [])
  {
    if Select(d, s.branches).Ok? {
      var selection := Select(d, s.branches).value;
      SelectionIsSafe(s, d);
      ObserveBranchesEffect(s.(branches := selection.state), selection.branches, []);
      EffectDespiteBranches(s, s.(branches := selection.state), RefreshStep(s, d));
    }
  }

  lemma EffectDespiteBranches(s: Registry, t: Registry, r: Outcome<Registry, seq<Job>>)
    requires t == s.(branches := t.branches) && RefreshEffect(t, r, [])
    ensures RefreshEffect(s, r, [])
  {
    if r.result.Ok? {
      var jobs := r.result.value[0..];
      assert forall i :: 0 <= i < |jobs| ==> NewJob(t, r.state, r.state.order[|t.order| + i], jobs[i]);
    }
  }

  // ----- recovery --------------------------------------------------------------------------

  /** What a successful recovery of `version` makes of the registry. */
  function Recovered(s: Registry, version: string, reason: string, recoveredAt: int): Registry
    requires version in s.versions
  {
    var r := s.versions[version];
    var x := NextRow(s.majors, r.job.major, r.job.commitSha, r.assignment.sequence);
    var t := Entered(s, PendingRecord(r.job.branch, r.job.commitSha, r.job.major, x));
    t.(recoveries := t.recoveries + [RecoveryAudit(version, x.version, reason, recoveredAt)])
  }

  ghost predicate CanRecover(s: Registry, version: string) {
    version in s.versions && IsTerminal(s.versions[version].job.state)
  }

  lemma RecordInputsValid(s: Registry, version: string)
    requires ValidMajors(s.majors) && ValidRecords(s) && SafeRegistry(s) && version in s.versions
    ensures var r := s.versions[version];
            && InputError(r.job.major, r.job.commitSha, r.assignment.sequence).None?
            && Known(s.majors, r.job.major, r.job.commitSha)
            && ForMajor(s.majors, r.job.major).highWater <= MAX_SAFE
            && r.assignment.attempt < NextAttempt(ForMajor(s.majors, r.job.major), r.job.commitSha)
            && r.assignment.sequence <= ForMajor(s.majors, r.job.major).highWater
  {
    var r := s.versions[version];
    assert ValidRecord(s.majors, r, version);
    assert ValidRow(r.job.major, s.majors[r.job.major], KeyOf(r.assignment));
  }

  /** Recovery succeeds exactly on published versions, and appends the commit's next attempt. */
  lemma RecoverVersionResult(s: Registry, version: string, reason: string, recoveredAt: int)
    requires ValidMajors(s.majors) && ValidRecords(s) && SafeRegistry(s)
    ensures var r := RecoverVersionStep(s, version, reason, recoveredAt);
            && (r.result.Ok? <==> CanRecover(s, version))
            && (r.result.Err? ==> r.state == s)
            && (r.result.Ok? ==> r.state == Recovered(s, version, reason, recoveredAt))
  {
    if CanRecover(s, version) {
      RecordInputsValid(s, version);
    }
  }

  lemma RecoveryKeepsAudits(s: Registry, r: VersionRecord, e: RecoveryAudit)
    requires ValidAudits(s) && OrderExact(s) && FreshRow(s, r.assignment) && NewRecord(r)
    requires CanRecover(s, e.originalVersion) && e.replacementVersion == r.job.version
    requires var o := s.versions[e.originalVersion].assignment;
             && r.assignment.major == o.major && r.assignment.commitSha == o.commitSha
             && r.assignment.attempt > o.attempt && r.assignment.sequence > o.sequence
    ensures ValidAudits(Entered(s, r).(recoveries := s.recoveries + [e]))
  {
    var t := Entered(s, r).(recoveries := s.recoveries + [e]);
    EnterAppends(s, r);
    PersistsDespiteAudit(s, Entered(s, r), e);
    RecoveryKeepsSound(s, t, e);
    forall v | v in t.versions && t.versions[v].assignment.attempt > 0
      ensures Audited(t, v)
    {
      if v == r.job.version {
        assert t.recoveries[|s.recoveries|].replacementVersion == v;
      } else {
        assert Audited(s, v);
        AuditedStays(s, t, v);
      }
    }
  }

  lemma RecoveryKeepsSound(s: Registry, t: Registry, e: RecoveryAudit)
    requires AuditsSound(s) && AuditsDistinct(s) && Persists(s, t) && t.recoveries == s.recoveries + [e]
    requires e.replacementVersion !in s.versions && ValidAudit(t, e)
    ensures AuditsSound(t) && AuditsDistinct(t)
  {
    forall i | 0 <= i < |s.recoveries|
      ensures ValidAudit(t, s.recoveries[i]) && s.recoveries[i].replacementVersion in s.versions
    {
      assert ValidAudit(s, s.recoveries[i]);
      AuditKept(s, t, s.recoveries[i]);
    }
  }

  lemma PersistsDespiteAudit(s: Registry, t: Registry, e: RecoveryAudit)
    requires Persists(s, t) && t.recoveries == s.recoveries
    ensures Persists(s, t.(recoveries := s.recoveries + [e]))
  {
  }

  lemma AuditedStays(s: Registry, t: Registry, v: string)
    requires Audited(s, v) && s.recoveries <= t.recoveries
    ensures Audited(t, v)
  {
    var i :| 0 <= i < |s.recoveries| && s.recoveries[i].replacementVersion == v;
    assert t.recoveries[i].replacementVersion == v;
  }

  lemma RecoverVersionValid(s: Registry, version: string, reason: string, recoveredAt: int)
    requires ValidRegistry(s) && SafeRegistry(s)
    ensures ValidRegistry(RecoverVersionStep(s, version, reason, recoveredAt).state)
    ensures Persists(s, RecoverVersionStep(s, version, reason, recoveredAt).state)
  {
    RecoverVersionResult(s, version, reason, recoveredAt);
    if CanRecover(s, version) {
      var r := s.versions[version];
      RecordInputsValid(s, version);
      assert ValidRecord(s.majors, r, version);
      var m, c, at := r.job.major, r.job.commitSha, r.assignment.sequence;
      var x := NextRow(s.majors, m, c, at);
      var q := PendingRecord(r.job.branch, c, m, x);
      EnterBijective(s, m, c, at, q);
      EnterAppends(s, q);
      NextRowFits(s.majors, m, c, at);
      var e := RecoveryAudit(version, x.version, reason, recoveredAt);
      RecoveryKeepsAudits(s, q, e);
      BijectiveDespiteAudits(Entered(s, q), s.recoveries + [e]);
    }
  }

  lemma BijectiveDespiteAudits(s: Registry, recoveries: seq<RecoveryAudit>)
    requires Bijective(s)
    ensures Bijective(s.(recoveries := recoveries))
  {
    assert forall x :: Recorded(s, x) ==> Recorded(s.(recoveries := recoveries), x);
  }

  // ----- job transitions -------------------------------------------------------------------

  /** A job change that keeps the version's identity and leaves published outcomes alone. */
  ghost predicate JobChange(job: Job, next: Job) {
    && next.branch == job.branch && next.commitSha == job.commitSha
    && next.major == job.major && next.version == job.version
    && !IsTerminal(job.state) && ValidJob(next)
  }

  lemma SetJobPersists(s: Registry, v: string, next: Job)
    requires v in s.versions && JobChange(s.versions[v].job, next)
    ensures Persists(s, SetJob(s, v, next))
  {
  }

  lemma SetJobKeepsRecords(s: Registry, v: string, next: Job)
    requires ValidRecords(s) && v in s.versions && JobChange(s.versions[v].job, next)
    ensures ValidRecords(SetJob(s, v, next))
  {
    var t := SetJob(s, v, next);
    forall w | w in t.versions
      ensures ValidRecord(t.majors, t.versions[w], w)
    {
      assert ValidRecord(s.majors, s.versions[w], w);
    }
  }

  lemma SetJobKeepsRows(s: Registry, v: string, next: Job)
    requires RowsRecorded(s) && v in s.versions
    ensures RowsRecorded(SetJob(s, v, next))
  {
    var t := SetJob(s, v, next);
    forall m, k | m in t.majors && k in t.majors[m].assignments
      ensures Recorded(t, t.majors[m].assignments[k])
    {
      assert Recorded(s, s.majors[m].assignments[k]);
    }
  }

  lemma SetJobBijective(s: Registry, v: string, next: Job)
    requires Bijective(s) && v in s.versions && JobChange(s.versions[v].job, next)
    ensures Bijective(SetJob(s, v, next))
  {
    SetJobKeepsRecords(s, v, next);
    SetJobKeepsRows(s, v, next);
  }

  lemma SetJobValid(s: Registry, v: string, next: Job)
    requires ValidRegistry(s) && v in s.versions && JobChange(s.versions[v].job, next)
    ensures ValidRegistry(SetJob(s, v, next))
  {
    var t := SetJob(s, v, next);
    SetJobPersists(s, v, next);
    SetJobBijective(s, v, next);
    forall i | 0 <= i < |t.recoveries|
      ensures ValidAudit(t, t.recoveries[i])
    {
      AuditKept(s, t, s.recoveries[i]);
    }
    forall w | w in t.versions && t.versions[w].assignment.attempt > 0
      ensures Audited(t, w)
    {
      assert Audited(s, w);
    }
  }

  lemma ValidJobAt(s: Registry, v: string)
    requires ValidRegistry(s) && v in s.versions
    ensures ValidJob(s.versions[v].job) && s.versions[v].job.version == v
  {
    assert ValidRecord(s.majors, s.versions[v], v);
  }

  lemma CompleteValid(s: Registry, v: string, diagnostic: Option<Diagnostic>)
    requires ValidRegistry(s)
    ensures ValidRegistry(CompleteStep(s, v, diagnostic).state) && Persists(s, CompleteStep(s, v, diagnostic).state)
  {
    if PendingError(s, v).None? {
      ValidJobAt(s, v);
      var job := s.versions[v].job;
      var next := if diagnostic.None? then job.(state := Ready, leasedAt := None)
                  else job.(state := Yanked, leasedAt := None, diagnostic := diagnostic);
      SetJobValid(s, v, next);
      SetJobPersists(s, v, next);
    }
  }

  lemma LeaseValid(before: (string, string) -> bool, s: Registry, now: int)
    requires ValidRegistry(s)
    ensures ValidRegistry(LeaseStep(before, s, now).state) && Persists(s, LeaseStep(before, s, now).state)
  {
    var vs := Leasable(s.versions, s.order, now);
    if vs != [] {
      var v := Least(before, vs);
      ValidJobAt(s, v);
      var next := s.versions[v].job.(state := Leased, leasedAt := Some(now));
      SetJobValid(s, v, next);
      SetJobPersists(s, v, next);
    }
  }

  lemma ReleaseValid(s: Registry, v: string)
    requires ValidRegistry(s)
    ensures ValidRegistry(ReleaseStep(s, v).state) && Persists(s, ReleaseStep(s, v).state)
  {
    if v in s.versions && s.versions[v].job.state == Leased {
      ValidJobAt(s, v);
      var next := s.versions[v].job.(state := Pending, leasedAt := None);
      SetJobValid(s, v, next);
      SetJobPersists(s, v, next);
    }
  }
}
