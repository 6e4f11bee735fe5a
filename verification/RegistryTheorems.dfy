/**
 * What the registry guarantees over whole runs: versions name one assignment, recoveries form a
 * forest, and refreshing is stable.
 */
module RegistryTheorems {
  import opened Common
  import opened Text
  import opened Branches
  import opened VersionAllocation
  import opened PackageRegistryModel
  import opened RegistryInvariant
  import opened RegistryService

  // ----- versions name assignments ---------------------------------------------------------

  ghost predicate SameTriple(x: Assignment, y: Assignment) {
    x.major == y.major && x.commitSha == y.commitSha && x.attempt == y.attempt
  }

  /** Within a registry, versions and (major, commit, attempt) triples correspond one to one. */
  lemma VersionsAreTriples(s: Registry, v: string, w: string)
    requires ValidRegistry(s) && v in s.versions && w in s.versions
    ensures SameTriple(s.versions[v].assignment, s.versions[w].assignment) <==> v == w
  {
    assert ValidRecord(s.majors, s.versions[v], v) && ValidRecord(s.majors, s.versions[w], w);
  }

  /** Over time a version never comes to name another triple, whatever operations follow. */
  lemma VersionNamesOneTriple(before: (string, string) -> bool, name: PackageName, ops: seq<Op>, more: seq<Op>, v: string, w: string)
    requires ValidOps(ops + more)
    requires v in RunFrom(before, NewRegistry(name), ops).versions
    requires w in RunFrom(before, NewRegistry(name), ops + more).versions
    ensures var s, t := RunFrom(before, NewRegistry(name), ops), RunFrom(before, NewRegistry(name), ops + more);
            SameTriple(s.versions[v].assignment, t.versions[w].assignment) <==> v == w
  {
    assert forall op :: op in ops || op in more ==> op in ops + more;
    var s := RunFrom(before, NewRegistry(name), ops);
    ReachableValid(before, name, ops);
    RunConcat(before, NewRegistry(name), ops, more);
    RunValid(before, s, more);
    var t := RunFrom(before, s, more);
    assert SameIdentity(s.versions[v], t.versions[v]);
    VersionsAreTriples(t, v, w);
  }

  // ----- recoveries ------------------------------------------------------------------------

  ghost predicate HasTriple(s: Registry, v: string, m: int, c: string, i: int) {
    && v in s.versions
    && s.versions[v].assignment.major == m
    && s.versions[v].assignment.commitSha == c
    && s.versions[v].assignment.attempt == i
  }

  /** The attempts of a known commit are exactly 0..current, one version each. */
  lemma AttemptsAreExact(s: Registry, m: int, c: string, i: int)
    requires ValidRegistry(s)
    ensures (exists v :: HasTriple(s, v, m, c, i)) <==> Known(s.majors, m, c) && 0 <= i <= s.majors[m].currentAttempts[c]
  {
    if Known(s.majors, m, c) && 0 <= i <= s.majors[m].currentAttempts[c] {
      var a := s.majors[m];
      assert HasRow(a, c, i);
      var x := a.assignments[Key(c, i)];
      assert ValidRow(m, a, Key(c, i)) && Recorded(s, x);
      assert HasTriple(s, x.version, m, c, i);
    }
    if exists v :: HasTriple(s, v, m, c, i) {
      var v :| HasTriple(s, v, m, c, i);
      assert ValidRecord(s.majors, s.versions[v], v);
      assert ValidRow(m, s.majors[m], KeyOf(s.versions[v].assignment));
    }
  }

  lemma ApartOrders(a: MajorAllocations, j: string, k: string)
    requires RowsApart(a) && j in a.assignments && k in a.assignments
    requires a.assignments[j].commitSha == a.assignments[k].commitSha
    requires j == KeyOf(a.assignments[j]) && k == KeyOf(a.assignments[k])
    ensures a.assignments[j].attempt < a.assignments[k].attempt <==> a.assignments[j].sequence < a.assignments[k].sequence
  {
    if j != k {
      assert Apart(a.assignments[j], a.assignments[k]) && Apart(a.assignments[k], a.assignments[j]);
    }
  }

  /** Later attempts of a commit have later sequences. */
  lemma AttemptsIncrease(s: Registry, v: string, w: string)
    requires ValidMajors(s.majors) && ValidRecords(s) && v in s.versions && w in s.versions
    requires s.versions[v].assignment.major == s.versions[w].assignment.major
    requires s.versions[v].assignment.commitSha == s.versions[w].assignment.commitSha
    ensures s.versions[v].assignment.attempt < s.versions[w].assignment.attempt
            <==> s.versions[v].assignment.sequence < s.versions[w].assignment.sequence
  {
    var x, y := s.versions[v].assignment, s.versions[w].assignment;
    assert ValidRecord(s.majors, s.versions[v], v) && ValidRecord(s.majors, s.versions[w], w);
    ApartOrders(s.majors[x.major], KeyOf(x), KeyOf(y));
  }

  /** Exactly one audit entry names `v` as its replacement. */
  ghost predicate AuditedOnce(s: Registry, v: string) {
    exists i :: 0 <= i < |s.recoveries| && s.recoveries[i].replacementVersion == v
                && forall j :: 0 <= j < |s.recoveries| && s.recoveries[j].replacementVersion == v ==> j == i
  }

  /**
   * Versions past attempt zero and audit entries correspond one to one: each such version is the
   * replacement of exactly one entry, no other version is, and each entry replaces a version.
   */
  lemma ReplacementsAreAudited(s: Registry, v: string)
    requires ValidRegistry(s)
    ensures v in s.versions && s.versions[v].assignment.attempt > 0 <==> Audited(s, v)
    ensures Audited(s, v) <==> AuditedOnce(s, v)
  {
    if Audited(s, v) {
      var i :| 0 <= i < |s.recoveries| && s.recoveries[i].replacementVersion == v;
      assert ValidAudit(s, s.recoveries[i]);
      var o := s.recoveries[i].originalVersion;
      assert ValidRecord(s.majors, s.versions[o], o);
      var x := s.versions[o].assignment;
      assert ValidRow(x.major, s.majors[x.major], KeyOf(x));
    }
  }

  ghost predicate Replaces(s: Registry, v: string, w: string) {
    exists i :: 0 <= i < |s.recoveries| && s.recoveries[i].originalVersion == v && s.recoveries[i].replacementVersion == w
  }

  /** `w` is a version of the same commit and major as `v`, at least `gap` sequences later. */
  ghost predicate Later(s: Registry, v: string, w: string, gap: nat) {
    && v in s.versions && w in s.versions
    && var x, y := s.versions[v].assignment, s.versions[w].assignment;
    && x.major == y.major && x.commitSha == y.commitSha && x.sequence + gap <= y.sequence
  }

  lemma ReplacesRaises(s: Registry, v: string, w: string)
    requires AuditsSound(s) && Replaces(s, v, w)
    ensures Later(s, v, w, 1)
  {
    var i :| 0 <= i < |s.recoveries| && s.recoveries[i].originalVersion == v && s.recoveries[i].replacementVersion == w;
    assert ValidAudit(s, s.recoveries[i]);
  }

  lemma OriginalUnique(s: Registry, u: string, v: string, w: string)
    requires AuditsDistinct(s) && Replaces(s, u, w) && Replaces(s, v, w)
    ensures u == v
  {
  }

  /** Each version of `path` was recovered into the next. */
  ghost predicate RecoveryPath(s: Registry, path: seq<string>) {
    |path| >= 1 && (|path| >= 2 ==> Replaces(s, path[0], path[1]) && RecoveryPath(s, path[1..]))
  }

  /**
   * Recoveries form an acyclic forest: along any chain of them the major and commit stay and the
   * sequence strictly rises, so no version returns. (`OriginalUnique`: no version has two originals.)
   */
  lemma {:induction false} RecoveriesFormAForest(s: Registry, path: seq<string>)
    requires AuditsSound(s) && RecoveryPath(s, path) && |path| >= 2
    ensures Later(s, path[0], path[|path| - 1], |path| - 1)
    ensures path[0] != path[|path| - 1]
  {
    ReplacesRaises(s, path[0], path[1]);
    if |path| > 2 {
      var rest := path[1..];
      RecoveriesFormAForest(s, rest);
      assert rest[0] == path[1] && rest[|rest| - 1] == path[|path| - 1];
    }
  }

  // ----- refreshing again ------------------------------------------------------------------

  /** Nothing the allocator and the branch state know is forgotten. */
  ghost predicate Remembers(s: Registry, t: Registry) {
    t.branches == s.branches && forall m, c :: Known(s.majors, m, c) ==> Known(t.majors, m, c)
  }

  lemma ApplyRemembers(before: (string, string) -> bool, s: Registry, op: Op)
    requires !op.Refresh?
    ensures Remembers(s, Apply(before, s, op).0)
  {
  }

  lemma {:induction false} RunRemembers(before: (string, string) -> bool, s: Registry, ops: seq<Op>)
    requires forall op :: op in ops ==> !op.Refresh?
    ensures Remembers(s, RunFrom(before, s, ops))
  {
    if ops != [] {
      var front := ops[..|ops| - 1];
      RunRemembers(before, s, front);
      ApplyRemembers(before, RunFrom(before, s, front), ops[|ops| - 1]);
    }
  }

  ghost predicate AllKnown(s: Registry, bs: seq<Selected>) {
    forall b :: b in bs ==> BranchInputsValid(b) && Known(s.majors, b.major, b.tip.sha)
  }

  lemma {:induction false} ObserveAllKnown(s: Registry, bs: seq<Selected>, created: seq<Job>)
    requires ValidMajors(s.majors) && RowsRecorded(s) && AllKnown(s, bs)
    ensures ObserveBranches(s, bs, created) == Outcome(s, Ok(created))
    decreases |bs|
  {
    if bs != [] {
      assert bs[0] in bs;
      ObserveKnown(s, bs[0]);
      assert created + [] == created;
      ObserveAllKnown(s, bs[1..], created);
    }
  }

  lemma {:induction false} ObserveBranchesRemember(s: Registry, bs: seq<Selected>, created: seq<Job>)
    ensures forall m, c :: Known(s.majors, m, c) ==> Known(ObserveBranches(s, bs, created).state.majors, m, c)
    decreases |bs|
  {
    if bs != [] {
      var first := ObserveBranch(s, bs[0]);
      ObserveBranchRemembers(s, bs[0]);
      if first.result.Ok? {
        ObserveBranchesRemember(first.state, bs[1..], created + first.result.value);
      }
    }
  }

  /** A successful observation leaves every selected commit known. */
  lemma {:induction false} ObservedIsKnown(s: Registry, bs: seq<Selected>, created: seq<Job>)
    requires ObserveBranches(s, bs, created).result.Ok?
    ensures AllKnown(ObserveBranches(s, bs, created).state, bs)
    decreases |bs|
  {
    if bs != [] {
      var first := ObserveBranch(s, bs[0]);
      var more := created + first.result.value;
      ObservedBranchIsKnown(s, bs[0]);
      ObserveBranchesRemember(first.state, bs[1..], more);
      ObservedIsKnown(first.state, bs[1..], more);
      KnownFirst(ObserveBranches(s, bs, created).state, bs);
    }
  }

  lemma KnownFirst(s: Registry, bs: seq<Selected>)
    requires bs != [] && AllKnown(s, bs[1..])
    requires BranchInputsValid(bs[0]) && Known(s.majors, bs[0].major, bs[0].tip.sha)
    ensures AllKnown(s, bs)
  {
    assert bs == [bs[0]] + bs[1..];
  }

  lemma ObservedBranchIsKnown(s: Registry, b: Selected)
    requires ObserveBranch(s, b).result.Ok?
    ensures BranchInputsValid(b) && Known(ObserveBranch(s, b).state.majors, b.major, b.tip.sha)
  {
  }

  lemma ObserveBranchRemembers(s: Registry, b: Selected)
    ensures forall m, c :: Known(s.majors, m, c) ==> Known(ObserveBranch(s, b).state.majors, m, c)
  {
  }

  lemma {:induction false} ObservedIdempotent(branches: seq<Branch>, top: Option<int>)
    requires forall b :: b in branches && ReleaseMajor(b.name).Some? ==> top.Some? && ReleaseMajor(b.name).value <= top.value
    ensures Observed(branches, top) == top
  {
    if branches != [] {
      assert branches[|branches| - 1] in branches;
      ObservedIdempotent(branches[..|branches| - 1], top);
    }
  }

  lemma SelectIdempotent(d: Discovery, prior: BranchState)
    requires Select(d, prior).Ok?
    ensures Select(d, Select(d, prior).value.state) == Select(d, prior)
  {
    ObservedIsHighest(d.branches, prior.highest);
    ObservedIdempotent(d.branches, Observed(d.branches, prior.highest));
  }

  /** The registry after a successful refresh and further operations other than refreshes. */
  ghost predicate RefreshedThen(s: Registry, d: Discovery, ops: seq<Op>) {
    && ValidRegistry(s) && SafeRegistry(s) && UniqueNames(d.branches)
    && RefreshStep(s, d).result.Ok?
    && forall op :: op in ops ==> !op.Refresh?
  }

  lemma RefreshedKnows(before: (string, string) -> bool, s: Registry, d: Discovery, ops: seq<Op>)
    requires RefreshedThen(s, d, ops)
    ensures Select(d, s.branches).Ok?
    ensures var t := RunFrom(before, RefreshStep(s, d).state, ops);
            var selection := Select(d, s.branches).value;
            && ValidRegistry(t)
            && t.branches == selection.state
            && AllKnown(t, selection.branches)
  {
    var selection := Select(d, s.branches).value;
    var s1 := s.(branches := selection.state);
    SelectionIsSafe(s, d);
    ObservedIsKnown(s1, selection.branches, []);
    ObserveBranchesEffect(s1, selection.branches, []);
    var t0 := RefreshStep(s, d).state;
    RefreshValid(s, d);
    assert forall op :: op in ops ==> ValidOp(op);
    RunValid(before, t0, ops);
    RunRemembers(before, t0, ops);
  }

  /**
   * Refreshing is stable: after a refresh and any leases, releases, completions and recoveries,
   * the same discovery changes nothing and creates nothing.
   */
  lemma RefreshIsStable(before: (string, string) -> bool, s: Registry, d: Discovery, ops: seq<Op>)
    requires RefreshedThen(s, d, ops)
    ensures var t := RunFrom(before, RefreshStep(s, d).state, ops);
            RefreshStep(t, d) == Outcome(t, Ok([]))
  {
    RefreshedKnows(before, s, d, ops);
    var t := RunFrom(before, RefreshStep(s, d).state, ops);
    var selection := Select(d, s.branches).value;
    SelectIdempotent(d, s.branches);
    ObserveAllKnown(t, selection.branches, []);
    assert t.(branches := selection.state) == t;
  }

  /** The discovery with a release branch for the default branch's current major at its own tip. */
  function WithReleaseOfDefault(d: Discovery, major: nat, tip: CommitTip): Discovery {
    d.(branches := d.branches + [Branch("v" + Decimal(major), tip)])
  }

  lemma SelectWithRelease(d: Discovery, state: BranchState, tip: CommitTip)
    requires UniqueNames(d.branches) && Select(d, state).Ok? && Select(d, state).value.state == state
    requires TipOf(d.branches, d.defaultBranch) == Some(tip) && !CoversSha(Releases(d.branches), tip.sha)
    requires 0 <= DefaultMajor(state.highest) <= MAX_SAFE
    ensures var m := DefaultMajor(state.highest);
            && Select(WithReleaseOfDefault(d, m, tip), state).Ok?
            && var selection := Select(WithReleaseOfDefault(d, m, tip), state).value;
            && selection.state.highest == Some(m)
            && selection.branches == Releases(d.branches) + [Selected("v" + Decimal(m), m, tip)]
            && Select(d, state).value.branches == Releases(d.branches) + [Selected(d.defaultBranch, m, tip)]
  {
    var m := DefaultMajor(state.highest);
    var name := "v" + Decimal(m);
    var e := WithReleaseOfDefault(d, m, tip);
    ReleaseMajorIff(name, m);
    assert e.branches[..|e.branches| - 1] == d.branches;
    var releases := Releases(d.branches);
    if d.defaultBranch == name {
      TipOfEntry(d.branches, name);
      ReleasesExactly(d.branches);
      assert IsRelease(d.branches, Selected(name, m, tip));
    }
    assert Releases(e.branches) == releases + [Selected(name, m, tip)];
    assert Releases(e.branches)[|releases|].tip.sha == tip.sha;
  }

  /**
   * Giving the default branch's current major a release branch at the default's own tip creates
   * nothing either, although the high-water mark rises.
   */
  lemma ReleasingTheDefaultCreatesNothing(before: (string, string) -> bool, s: Registry, d: Discovery, ops: seq<Op>, tip: CommitTip)
    requires RefreshedThen(s, d, ops)
    requires TipOf(d.branches, d.defaultBranch) == Some(tip) && !CoversSha(Releases(d.branches), tip.sha)
    ensures var t := RunFrom(before, RefreshStep(s, d).state, ops);
            var m := DefaultMajor(t.branches.highest);
            && 0 <= m
            && RefreshStep(t, WithReleaseOfDefault(d, m, tip)) == Outcome(t.(branches := BranchState(Some(m))), Ok([]))
  {
    RefreshedKnows(before, s, d, ops);
    var t := RunFrom(before, RefreshStep(s, d).state, ops);
    var selection := Select(d, s.branches).value;
    var m := DefaultMajor(t.branches.highest);
    var own := Selected(d.defaultBranch, m, tip);
    assert selection.branches == Releases(d.branches) + [own];
    assert own in selection.branches;
    assert BranchInputsValid(own);
    SelectIdempotent(d, s.branches);
    SelectWithRelease(d, t.branches, tip);
    var after := Select(WithReleaseOfDefault(d, m, tip), t.branches).value;
    assert after.state == BranchState(Some(m));
    var u := t.(branches := after.state);
    SameButBranches(t, after.state);
    assert AllKnown(u, after.branches);
    ObserveAllKnown(u, after.branches, []);
  }

  // ----- exhausted majors ------------------------------------------------------------------

  lemma MarkIsRecorded(s: Registry, m: int)
    requires ValidMajors(s.majors) && RowsRecorded(s) && ForMajor(s.majors, m).highWater >= 0
    ensures RenderVersion(m, ForMajor(s.majors, m).highWater) in s.versions
  {
    var a := ForMajor(s.majors, m);
    assert ValidMajor(m, a);
    var k :| k in a.assignments && a.assignments[k].sequence == a.highWater;
    assert ValidRow(m, a, k);
    assert Recorded(s, a.assignments[k]);
  }

  /** The major's mark has left the safe range, with its version recorded. */
  ghost predicate ExhaustedAt(s: Registry, m: int) {
    ForMajor(s.majors, m).highWater == MAX_SAFE + 1 && RenderVersion(m, MAX_SAFE + 1) in s.versions
  }

  lemma ExhaustedAllocation(ms: Majors, m: int, commitSha: string, committedAt: int)
    requires ForMajor(ms, m).highWater == MAX_SAFE + 1
    requires InputError(m, commitSha, committedAt).None? && !Known(ms, m, commitSha)
    ensures var r := AllocateStep(ms, m, commitSha, committedAt);
            && r.result.Ok? && r.result.value.version == RenderVersion(m, MAX_SAFE + 1)
            && Known(r.state, m, commitSha)
  {
  }

  /** Observing a commit new to such a major creates no version, for it gets the mark's own. */
  lemma ExhaustedCreatesNothing(s: Registry, b: Selected)
    requires ExhaustedAt(s, b.major) && BranchInputsValid(b) && !Known(s.majors, b.major, b.tip.sha)
    ensures ObserveBranch(s, b).result == Ok([]) && ObserveBranch(s, b).state.versions == s.versions
    ensures Known(ObserveBranch(s, b).state.majors, b.major, b.tip.sha)
  {
    ExhaustedAllocation(s.majors, b.major, b.tip.sha, b.tip.committedAt);
  }

  /** `t` has all versions of `s`, and more of other majors than `m` only. */
  ghost predicate NothingForMajor(s: Registry, t: Registry, m: int) {
    OnlyAdds(s, t) && forall v :: v in t.versions && v !in s.versions ==> t.versions[v].job.major != m
  }

  ghost predicate NoJobFor(jobs: seq<Job>, m: int) {
    forall j :: j in jobs ==> j.major != m
  }

  /** Observing a branch changes no other major, and creates versions of its own major alone. */
  lemma ObserveOther(s: Registry, b: Selected, m: int)
    requires b.major != m
    ensures var r := ObserveBranch(s, b);
            && OnlyMajor(s, r.state, b.major) && NothingForMajor(s, r.state, m)
            && (r.result.Ok? ==> NoJobFor(r.result.value, m))
  {
  }

  lemma {:induction false} ObserveOthers(s: Registry, bs: seq<Selected>, created: seq<Job>, m: int)
    requires (forall b :: b in bs ==> b.major != m) && NoJobFor(created, m)
    ensures var r := ObserveBranches(s, bs, created);
            && ForMajor(r.state.majors, m) == ForMajor(s.majors, m) && NothingForMajor(s, r.state, m)
            && (r.result.Ok? ==> NoJobFor(r.result.value, m))
    decreases |bs|
  {
    if bs != [] {
      var first := ObserveBranch(s, bs[0]);
      ObserveOther(s, bs[0], m);
      if first.result.Ok? {
        ObserveOthers(first.state, bs[1..], created + first.result.value, m);
      }
    }
  }

  lemma {:induction false} ObserveExhausted(s: Registry, bs: seq<Selected>, created: seq<Job>, b: Selected)
    requires DistinctMajors(bs) && b in bs && NoJobFor(created, b.major)
    requires ExhaustedAt(s, b.major) && BranchInputsValid(b) && !Known(s.majors, b.major, b.tip.sha)
    ensures var r := ObserveBranches(s, bs, created);
            && NothingForMajor(s, r.state, b.major)
            && (r.result.Ok? ==> NoJobFor(r.result.value, b.major) && Known(r.state.majors, b.major, b.tip.sha))
    decreases |bs|
  {
    var first := ObserveBranch(s, bs[0]);
    RestAvoidsFirst(bs);
    if b == bs[0] {
      ExhaustedCreatesNothing(s, b);
      assert created + [] == created;
      ObserveOthers(first.state, bs[1..], created, b.major);
    } else {
      assert b in bs[1..];
      ObserveOther(s, bs[0], b.major);
      if first.result.Ok? {
        ObserveExhausted(first.state, bs[1..], created + first.result.value, b);
      }
    }
  }

  lemma RefreshExhausted(s: Registry, d: Discovery, b: Selected)
    requires UniqueNames(d.branches) && ExhaustedAt(s, b.major)
    requires Select(d, s.branches).Ok? && b in Select(d, s.branches).value.branches
    requires BranchInputsValid(b) && !Known(s.majors, b.major, b.tip.sha)
    ensures var r := RefreshStep(s, d);
            && NothingForMajor(s, r.state, b.major)
            && (r.result.Ok? ==> NoJobFor(r.result.value, b.major) && Known(r.state.majors, b.major, b.tip.sha))
  {
    var selection := Select(d, s.branches).value;
    SelectedMajorsDistinct(d, s.branches);
    ObserveExhausted(s.(branches := selection.state), selection.branches, [], b);
  }

  /**
   * Once a major's mark has left the safe range in a registry kept in memory, a refresh that
   * selects a commit new to that major, whatever else it selects, reports no job of that major and
   * adds no version of it, although the allocator then knows the commit.
   */
  lemma ExhaustedRefreshCreatesNothing(s: Registry, d: Discovery, b: Selected)
    requires ValidRegistry(s) && UniqueNames(d.branches)
    requires Select(d, s.branches).Ok? && b in Select(d, s.branches).value.branches
    requires ForMajor(s.majors, b.major).highWater == MAX_SAFE + 1
    requires BranchInputsValid(b) && !Known(s.majors, b.major, b.tip.sha)
    ensures var r := RefreshStep(s, d);
            && NothingForMajor(s, r.state, b.major)
            && (r.result.Ok? ==> NoJobFor(r.result.value, b.major) && Known(r.state.majors, b.major, b.tip.sha))
  {
    MarkIsRecorded(s, b.major);
    RefreshExhausted(s, d, b);
  }

  /** Between requests such a registry is lost: no snapshot of it can be read back. */
  lemma ExhaustedIsUnreadable(before: (string, string) -> bool, s: Registry, snap: RegistrySnapshot, m: int)
    requires ValidRegistry(s) && IsRegistrySnapshot(before, s, snap)
    requires ForMajor(s.majors, m).highWater == MAX_SAFE + 1
    ensures Restore(snap).Err?
  {
    RestoreSnapshot(before, s, snap);
    assert m in s.majors;
  }
}
