/**
 * What refreshing and recovering make of a registry, said of its version records alone: which
 * records appear, with which numbers, and which commits get none.
 */
module OperationLaws {
  import opened Common
  import opened Text
  import opened Branches
  import opened BranchOrder
  import opened HighWater
  import opened VersionAllocation
  import opened PackageRegistryModel
  import opened RegistryInvariant
  import opened RegistryTheorems

  // ----- the allocator seen through the versions -------------------------------------------

  /** `v` is a version of the major with that sequence. */
  ghost predicate InMajor(s: Registry, v: string, m: int, q: int) {
    v in s.versions && s.versions[v].assignment.major == m && s.versions[v].assignment.sequence == q
  }

  ghost predicate ReachesSequence(s: Registry, m: int, q: int) {
    exists v :: InMajor(s, v, m, q)
  }

  /** The commit has no version in the major. */
  ghost predicate NewCommit(s: Registry, m: int, c: string) {
    forall v :: v in s.versions ==> s.versions[v].assignment.major != m || s.versions[v].assignment.commitSha != c
  }

  /** Not before `at`, after every sequence of the major, and no later than that asks for. */
  ghost predicate IsNextSequence(s: Registry, m: int, at: int, q: int) {
    && at <= q
    && (forall v, p :: InMajor(s, v, m, p) ==> p < q)
    && (q == at || ReachesSequence(s, m, q - 1))
  }

  lemma MajorsSequences(s: Registry, v: string, m: int, q: int)
    requires ValidMajors(s.majors) && ValidRecords(s) && InMajor(s, v, m, q)
    ensures m in s.majors && q <= s.majors[m].highWater
  {
    assert ValidRecord(s.majors, s.versions[v], v);
    assert ValidRow(m, s.majors[m], KeyOf(s.versions[v].assignment));
  }

  lemma MarkIsAttained(s: Registry, m: int) returns (v: string)
    requires ValidMajors(s.majors) && RowsRecorded(s) && ForMajor(s.majors, m).highWater >= 0
    ensures InMajor(s, v, m, ForMajor(s.majors, m).highWater)
  {
    var a := s.majors[m];
    assert ValidMajor(m, a);
    var k :| k in a.assignments && a.assignments[k].sequence == a.highWater;
    assert ValidRow(m, a, k) && Recorded(s, a.assignments[k]);
    v := a.assignments[k].version;
  }

  /** The mark is the greatest sequence of the major's versions, or -1 where there are none. */
  ghost predicate MarkIs(s: Registry, m: int, mark: int) {
    && mark >= -1
    && (forall v, p :: InMajor(s, v, m, p) ==> p <= mark)
    && (mark >= 0 ==> ReachesSequence(s, m, mark))
  }

  lemma MarkIsGreatest(s: Registry, m: int)
    requires Bijective(s)
    ensures MarkIs(s, m, ForMajor(s.majors, m).highWater)
  {
    var mark := ForMajor(s.majors, m).highWater;
    assert m in s.majors ==> ValidMajor(m, s.majors[m]);
    forall v, p | InMajor(s, v, m, p)
      ensures p <= mark
    {
      MajorsSequences(s, v, m, p);
    }
    if mark >= 0 {
      var v := MarkIsAttained(s, m);
    }
  }

  lemma NextAfterMark(s: Registry, m: int, at: int, mark: int)
    requires MarkIs(s, m, mark) && 0 <= at && mark <= MAX_SAFE
    ensures IsNextSequence(s, m, at, Max(at, JsSuccessor(mark)))
    ensures at <= mark ==> IsNextSequence(s, m, at + 1, Max(at, JsSuccessor(mark)))
  {
  }

  lemma KnownIsRecorded(s: Registry, m: int, c: string)
    requires ValidRegistry(s)
    ensures Known(s.majors, m, c) <==> !NewCommit(s, m, c)
  {
    AttemptsAreExact(s, m, c, 0);
    if Known(s.majors, m, c) {
      assert HasRow(s.majors[m], c, 0);
      var v :| HasTriple(s, v, m, c, 0);
    }
    if v :| v in s.versions && s.versions[v].assignment.major == m && s.versions[v].assignment.commitSha == c {
      var i := s.versions[v].assignment.attempt;
      assert HasTriple(s, v, m, c, i);
      AttemptsAreExact(s, m, c, i);
    }
  }

  // ----- refreshing ------------------------------------------------------------------------

  /** The record of a selected branch's commit: pending, attempt zero, numbered in its major. */
  ghost predicate IsFirstRecord(s: Registry, b: Selected, v: string, r: VersionRecord) {
    && b.major >= 0
    && r.job == Job(b.branch, b.tip.sha, b.major, v, Pending, None, None)
    && var q := r.assignment.sequence;
    && q >= 0 && v == Decimal(b.major) + ".1." + Decimal(q)
    && r.assignment == Assignment(b.major, q, 0, b.tip.sha, v)
    && IsNextSequence(s, b.major, b.tip.committedAt, q)
  }

  lemma BranchRecordIsFirst(s: Registry, b: Selected)
    requires Bijective(s) && BranchInputsValid(b) && ForMajor(s.majors, b.major).highWater <= MAX_SAFE
    requires !Known(s.majors, b.major, b.tip.sha)
    ensures var r := BranchRecord(s.majors, b); IsFirstRecord(s, b, r.job.version, r)
  {
    MarkIsGreatest(s, b.major);
    NextAfterMark(s, b.major, b.tip.committedAt, ForMajor(s.majors, b.major).highWater);
  }

  /** Refreshing created the record `v` for the selected branch `b`, whose commit was new. */
  ghost predicate CreatedFor(s: Registry, t: Registry, b: Selected, v: string) {
    && NewCommit(s, b.major, b.tip.sha)
    && v !in s.versions && v in t.versions && IsFirstRecord(s, b, v, t.versions[v])
  }

  ghost predicate SameVersions(s: Registry, t: Registry) {
    t.majors == s.majors && t.versions == s.versions
  }

  lemma SameLooks(s: Registry, t: Registry, b: Selected, v: string, r: VersionRecord)
    requires SameVersions(s, t)
    ensures NewCommit(t, b.major, b.tip.sha) <==> NewCommit(s, b.major, b.tip.sha)
    ensures IsFirstRecord(t, b, v, r) <==> IsFirstRecord(s, b, v, r)
  {
    assert forall w, p :: InMajor(t, w, b.major, p) <==> InMajor(s, w, b.major, p);
  }

  lemma NewVersionIsFirst(s: Registry, bs: seq<Selected>, t: Registry, b: Selected, v: string)
    requires ValidRegistry(s) && SafeSelection(s, bs) && AllInputsValid(bs)
    requires VersionsObserved(s, bs, t) && b in bs && NewVersion(s, b, v)
    ensures CreatedFor(s, t, b, v)
  {
    KnownIsRecorded(s, b.major, b.tip.sha);
    BranchRecordIsFirst(s, b);
    NextRowFresh(s, b.major, b.tip.sha, b.tip.committedAt);
  }

  lemma SelectionCreates(s: Registry, bs: seq<Selected>, t: Registry)
    requires ValidRegistry(s) && SafeSelection(s, bs) && AllInputsValid(bs) && VersionsObserved(s, bs, t)
    ensures forall b :: b in bs && NewCommit(s, b.major, b.tip.sha) ==> exists v :: CreatedFor(s, t, b, v)
    ensures forall v :: v in t.versions && v !in s.versions ==> exists b :: b in bs && CreatedFor(s, t, b, v)
  {
    forall b | b in bs && NewCommit(s, b.major, b.tip.sha)
      ensures exists v :: CreatedFor(s, t, b, v)
    {
      KnownIsRecorded(s, b.major, b.tip.sha);
      var v := BranchRecord(s.majors, b).job.version;
      assert NewVersion(s, b, v);
      NewVersionIsFirst(s, bs, t, b, v);
    }
    forall v | v in t.versions && v !in s.versions
      ensures exists b :: b in bs && CreatedFor(s, t, b, v)
    {
      var b :| b in bs && NewVersion(s, b, v);
      NewVersionIsFirst(s, bs, t, b, v);
    }
  }

  lemma CreatedAlike(s: Registry, u: Registry, t: Registry, b: Selected, v: string)
    requires SameVersions(s, u)
    ensures CreatedFor(u, t, b, v) <==> CreatedFor(s, t, b, v)
  {
    if v in t.versions {
      SameLooks(s, u, b, v, t.versions[v]);
    } else {
      assert !CreatedFor(u, t, b, v);
    }
  }

  /**
   * A successful refresh creates a version for each selected branch whose commit the major has
   * not seen, pending, with the branch's own name, commit and major and the major's next sequence,
   * and creates no other version.
   */
  lemma RefreshLaw(s: Registry, d: Discovery)
    requires ValidRegistry(s) && SafeRegistry(s) && UniqueNames(d.branches) && RefreshStep(s, d).result.Ok?
    ensures Select(d, s.branches).Ok?
    ensures var t, bs := RefreshStep(s, d).state, Select(d, s.branches).value.branches;
            && (forall b :: b in bs && NewCommit(s, b.major, b.tip.sha) ==> exists v :: CreatedFor(s, t, b, v))
            && (forall v :: v in t.versions && v !in s.versions ==> exists b :: b in bs && CreatedFor(s, t, b, v))
            && OnlyAdds(s, t)
  {
    var selection := Select(d, s.branches).value;
    var bs, t := selection.branches, RefreshStep(s, d).state;
    var u := s.(branches := selection.state);
    SelectionIsSafe(s, d);
    SelectionObserved(u, bs, []);
    SelectionCreates(u, bs, t);
    forall b, v
      ensures CreatedFor(u, t, b, v) <==> CreatedFor(s, t, b, v)
    {
      CreatedAlike(s, u, t, b, v);
    }
    forall b | b in bs && NewCommit(s, b.major, b.tip.sha)
      ensures NewCommit(u, b.major, b.tip.sha)
    {
    }
  }

  // ----- recovering ------------------------------------------------------------------------

  ghost predicate ReachesAttempt(s: Registry, m: int, c: string, i: int) {
    exists v :: HasTriple(s, v, m, c, i)
  }

  /** One more than the greatest attempt of the commit in the major. */
  ghost predicate IsNextAttempt(s: Registry, m: int, c: string, i: int) {
    && (forall v, j :: HasTriple(s, v, m, c, j) ==> j < i)
    && ReachesAttempt(s, m, c, i - 1)
  }

  /** The replacement of the published record `o`: the same work, pending, as its next attempt. */
  ghost predicate IsReplacement(s: Registry, o: VersionRecord, v: string, r: VersionRecord) {
    && r.job == Job(o.job.branch, o.job.commitSha, o.job.major, v, Pending, None, None)
    && var m, q := o.job.major, r.assignment.sequence;
    && m >= 0 && q >= 0 && v == Decimal(m) + ".1." + Decimal(q)
    && r.assignment == Assignment(m, q, r.assignment.attempt, o.job.commitSha, v)
    && IsNextAttempt(s, m, o.job.commitSha, r.assignment.attempt)
    && IsNextSequence(s, m, o.assignment.sequence + 1, q)
  }

  lemma CurrentIsGreatest(s: Registry, m: int, c: string)
    requires ValidRegistry(s) && Known(s.majors, m, c)
    ensures IsNextAttempt(s, m, c, s.majors[m].currentAttempts[c] + 1)
  {
    var current := s.majors[m].currentAttempts[c];
    assert HasRow(s.majors[m], c, 0);
    AttemptsAreExact(s, m, c, current);
    forall v, j | HasTriple(s, v, m, c, j)
      ensures j < current + 1
    {
      AttemptsAreExact(s, m, c, j);
    }
  }

  lemma PendingIsReplacement(s: Registry, o: VersionRecord, m: int, c: string, at: int)
    requires m == o.job.major >= 0 && c == o.job.commitSha && at == o.assignment.sequence && 0 <= at
    requires Known(s.majors, m, c) && IsNextAttempt(s, m, c, ForMajor(s.majors, m).currentAttempts[c] + 1)
    requires IsNextSequence(s, m, at + 1, Max(at, JsSuccessor(ForMajor(s.majors, m).highWater)))
    ensures var x := NextRow(s.majors, m, c, at);
            IsReplacement(s, o, x.version, PendingRecord(o.job.branch, c, m, x))
  {
    var x := NextRow(s.majors, m, c, at);
    assert x.attempt == ForMajor(s.majors, m).currentAttempts[c] + 1;
    assert x.sequence == Max(at, JsSuccessor(ForMajor(s.majors, m).highWater));
  }

  lemma RecordBounds(s: Registry, version: string)
    requires ValidRegistry(s) && SafeRegistry(s) && version in s.versions
    ensures var o := s.versions[version];
            && o.job.major in s.majors && o.job.major >= 0
            && 0 <= o.assignment.sequence <= s.majors[o.job.major].highWater <= MAX_SAFE
  {
    var o := s.versions[version];
    RecordInputsValid(s, version);
    assert ValidRecord(s.majors, o, version);
    assert ValidRow(o.job.major, s.majors[o.job.major], KeyOf(o.assignment));
  }

  lemma NextRowIsReplacement(s: Registry, version: string)
    requires ValidRegistry(s) && SafeRegistry(s) && version in s.versions
    ensures var o := s.versions[version];
            var x := NextRow(s.majors, o.job.major, o.job.commitSha, o.assignment.sequence);
            && x.version !in s.versions
            && IsReplacement(s, o, x.version, PendingRecord(o.job.branch, o.job.commitSha, o.job.major, x))
  {
    var o := s.versions[version];
    var m, c, at := o.job.major, o.job.commitSha, o.assignment.sequence;
    RecordInputsValid(s, version);
    RecordBounds(s, version);
    CurrentIsGreatest(s, m, c);
    MarkIsGreatest(s, m);
    NextAfterMark(s, m, at, s.majors[m].highWater);
    PendingIsReplacement(s, o, m, c, at);
    NextRowFresh(s, m, c, at);
  }

  /** `t` is `s` with the replacement `v` of `version` added and logged. */
  ghost predicate ReplacedBy(s: Registry, t: Registry, version: string, v: string, reason: string, recoveredAt: int)
    requires version in s.versions
  {
    && v !in s.versions && v in t.versions && IsReplacement(s, s.versions[version], v, t.versions[v])
    && t.versions == s.versions[v := t.versions[v]] && t.order == s.order + [v]
    && t.recoveries == s.recoveries + [RecoveryAudit(version, v, reason, recoveredAt)]
    && t.name == s.name && t.branches == s.branches
  }

  lemma RecoveredIsReplacement(s: Registry, version: string, reason: string, recoveredAt: int)
    requires ValidRegistry(s) && SafeRegistry(s) && version in s.versions
    ensures var o := s.versions[version];
            var x := NextRow(s.majors, o.job.major, o.job.commitSha, o.assignment.sequence);
            ReplacedBy(s, Recovered(s, version, reason, recoveredAt), version, x.version, reason, recoveredAt)
  {
    NextRowIsReplacement(s, version);
  }

  lemma RecoveryAnswers(s: Registry, version: string, reason: string, recoveredAt: int)
    requires ValidRegistry(s) && SafeRegistry(s) && CanRecover(s, version)
    ensures var o, r := s.versions[version], RecoverVersionStep(s, version, reason, recoveredAt);
            var x := NextRow(s.majors, o.job.major, o.job.commitSha, o.assignment.sequence);
            r.result == Ok(PendingRecord(o.job.branch, o.job.commitSha, o.job.major, x).job)
  {
    RecordInputsValid(s, version);
  }

  /**
   * Recovery of a published version adds one record: the same branch, commit and major, pending,
   * with the next attempt and the major's next sequence, logged with its reason and time. Any
   * other version is refused, and nothing changes.
   */
  lemma RecoveryLaw(s: Registry, version: string, reason: string, recoveredAt: int)
    requires ValidRegistry(s) && SafeRegistry(s)
    ensures var r := RecoverVersionStep(s, version, reason, recoveredAt);
            if version in s.versions && s.versions[version].job.state in {Ready, Yanked} then
              exists v :: ReplacedBy(s, r.state, version, v, reason, recoveredAt)
                          && r.result == Ok(r.state.versions[v].job)
            else r == Outcome(s, Err("version " + version + " cannot be recovered"))
  {
    RecoverVersionResult(s, version, reason, recoveredAt);
    if version in s.versions && s.versions[version].job.state in {Ready, Yanked} {
      assert CanRecover(s, version);
      RecoveredIsReplacement(s, version, reason, recoveredAt);
      RecoveryAnswers(s, version, reason, recoveredAt);
    }
  }
}
