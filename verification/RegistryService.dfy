/**
 * The package object between requests (src/durable-objects.ts): every request restores the
 * registry from its stored snapshot, applies one operation and stores the result; an exception
 * stores nothing.
 *
 * `DurableStep` is that storage cycle. `ServiceNext` and `ServiceReply` are the plain in-memory
 * reading of it, and `DurableRefinesService` proves the two answer alike over every run.
 */
module RegistryService {
  import opened Common
  import opened Branches
  import opened VersionAllocation
  import opened PackageRegistryModel
  import opened RegistryInvariant

  datatype Op =
    | Refresh(discovery: Discovery)
    | Recover(version: string, reason: string, recoveredAt: int)
    | Complete(version: string, diagnostic: Option<Diagnostic>)
    | Lease(now: int)
    | Release(version: string)

  datatype Reply =
    | Created(jobs: seq<Job>)
    | Replaced(job: Job)
    | Granted(job: Job)
    | NothingToLease
    | Done
    | Threw(message: string)

  ghost predicate ValidOp(op: Op) {
    op.Refresh? ==> UniqueNames(op.discovery.branches)
  }

  ghost predicate ValidOps(ops: seq<Op>) {
    forall op :: op in ops ==> ValidOp(op)
  }

  /** One operation on a registry in memory. */
  function Apply(before: (string, string) -> bool, s: Registry, op: Op): (Registry, Reply) {
    match op
    case Refresh(d) =>
      var r := RefreshStep(s, d);
      (r.state, if r.result.Ok? then Created(r.result.value) else Threw(r.result.error))
    case Recover(v, reason, at) =>
      var r := RecoverVersionStep(s, v, reason, at);
      (r.state, if r.result.Ok? then Replaced(r.result.value) else Threw(r.result.error))
    case Complete(v, diagnostic) =>
      var r := CompleteStep(s, v, diagnostic);
      (r.state, if r.result.Ok? then Done else Threw(r.result.error))
    case Lease(now) =>
      var r := LeaseStep(before, s, now);
      (r.state, if r.result.Err? then Threw(r.result.error)
                else if r.result.value.None? then NothingToLease else Granted(r.result.value.value))
    case Release(v) =>
      var r := ReleaseStep(s, v);
      (r.state, if r.result.Ok? then Done else Threw(r.result.error))
  }

  lemma ApplyValid(before: (string, string) -> bool, s: Registry, op: Op)
    requires ValidRegistry(s) && SafeRegistry(s) && ValidOp(op)
    ensures ValidRegistry(Apply(before, s, op).0) && Persists(s, Apply(before, s, op).0)
  {
    match op
    case Refresh(d) =>
      RefreshValid(s, d);
      RefreshCreatesExactly(s, d);
    case Recover(v, reason, at) => RecoverVersionValid(s, v, reason, at);
    case Complete(v, diagnostic) => CompleteValid(s, v, diagnostic);
    case Lease(now) => LeaseValid(before, s, now);
    case Release(v) => ReleaseValid(s, v);
  }

  /** Restore, apply, store. Nothing is stored when anything throws or no job was granted. */
  ghost predicate DurableStep(before: (string, string) -> bool, snap: RegistrySnapshot, op: Op, next: RegistrySnapshot, reply: Reply) {
    match Restore(snap)
    case Err(message) => next == snap && reply == Threw(message)
    case Ok(s) =>
      var (t, r) := Apply(before, s, op);
      && reply == r
      && if r.Threw? || r.NothingToLease? then next == snap else IsRegistrySnapshot(before, t, next)
  }

  /** The same in memory: a registry past the safe range answers nothing, a throw changes nothing. */
  ghost function ServiceNext(before: (string, string) -> bool, s: Registry, op: Op): Registry {
    if !SafeRegistry(s) || Apply(before, s, op).1.Threw? then s else Apply(before, s, op).0
  }

  ghost function ServiceReply(before: (string, string) -> bool, s: Registry, op: Op): Reply {
    if !SafeRegistry(s) then Threw("unreadable") else Apply(before, s, op).1
  }

  // ----- storing and restoring -------------------------------------------------------------

  lemma {:induction false} RecordsIndexed(versions: map<string, VersionRecord>, order: seq<string>)
    requires forall v :: v in order ==> v in versions
    ensures |Records(versions, order)| == |order|
    ensures forall i :: 0 <= i < |order| ==> Records(versions, order)[i] == versions[order[i]]
  {
    if order != [] {
      var front := order[..|order| - 1];
      RecordsIndexed(versions, front);
      assert forall i :: 0 <= i < |front| ==> order[i] == front[i];
    }
  }

  ghost predicate Keyed(versions: map<string, VersionRecord>) {
    forall v :: v in versions ==> versions[v].job.version == v
  }

  function Prefix(versions: map<string, VersionRecord>, order: seq<string>): map<string, VersionRecord> {
    map v | v in versions && v in order :: versions[v]
  }

  lemma PrefixGrows(versions: map<string, VersionRecord>, order: seq<string>, v: string)
    requires v in versions && v !in order
    ensures Prefix(versions, order + [v]) == Prefix(versions, order)[v := versions[v]]
  {
  }

  /** The registry with only the first `i` versions. */
  function Truncated(s: Registry, i: nat): Registry
    requires i <= |s.order|
  {
    s.(versions := Prefix(s.versions, s.order[..i]), order := s.order[..i])
  }

  lemma TruncatedPut(s: Registry, i: nat)
    requires OrderExact(s) && Keyed(s.versions) && i < |s.order|
    ensures s.order[i] in s.versions && s.order[i] !in Truncated(s, i).versions
    ensures Put(Truncated(s, i), s.versions[s.order[i]]) == Truncated(s, i + 1)
  {
    var v := s.order[i];
    assert v in s.order;
    assert s.order[..i + 1] == s.order[..i] + [v];
    PrefixGrows(s.versions, s.order[..i], v);
  }

  lemma {:induction false} RestoreTruncated(s: Registry, records: seq<VersionRecord>, i: nat)
    requires OrderExact(s) && Keyed(s.versions) && i <= |s.order| == |records|
    requires forall j :: 0 <= j < |s.order| ==> s.order[j] in s.versions && records[j] == s.versions[s.order[j]]
    ensures RestoreRecords(Truncated(s, i), records[i..]) == Ok(s)
    decreases |s.order| - i
  {
    if i == |s.order| {
      assert s.order[..i] == s.order;
      assert Truncated(s, i).versions == s.versions;
    } else {
      TruncatedPut(s, i);
      RestoreTruncated(s, records, i + 1);
      assert records[i..][0] == records[i] && records[i..][1..] == records[i + 1..];
    }
  }

  lemma RestoreAllRecords(s: Registry)
    requires OrderExact(s) && Keyed(s.versions)
    ensures RestoreRecords(s.(versions := map[], order := []), Records(s.versions, s.order)) == Ok(s)
  {
    var records := Records(s.versions, s.order);
    RecordsIndexed(s.versions, s.order);
    assert forall j :: 0 <= j < |s.order| ==> s.order[j] in s.order;
    RestoreTruncated(s, records, 0);
    assert Truncated(s, 0) == s.(versions := map[], order := []);
    assert records[0..] == records;
  }

  lemma ValidIsKeyed(s: Registry)
    requires ValidRecords(s)
    ensures Keyed(s.versions)
  {
    assert forall v :: v in s.versions ==> ValidRecord(s.majors, s.versions[v], v);
  }

  lemma NothingEmptyToDrop(ms: Majors)
    requires NoEmptyMajors(ms)
    ensures WithoutEmpty(ms) == ms
  {
    assert forall m :: m in ms ==> m in WithoutEmpty(ms);
    assert WithoutEmpty(ms).Keys == ms.Keys;
  }

  /**
   * Storing and restoring is exact: it throws exactly when some sequence has left the safe range,
   * and otherwise returns the very registry, although the rows were re-sorted and the high-water
   * marks and current attempts recomputed.
   */
  lemma RestoreSnapshot(before: (string, string) -> bool, s: Registry, snap: RegistrySnapshot)
    requires ValidRegistry(s) && IsRegistrySnapshot(before, s, snap)
    ensures Restore(snap).Ok? <==> SafeRegistry(s)
    ensures SafeRegistry(s) ==> Restore(snap) == Ok(s)
  {
    SnapshotRoundTrip(before, s.majors, snap.rows);
    if SafeRegistry(s) {
      NothingEmptyToDrop(s.majors);
      ValidIsKeyed(s);
      var t := s.(recoveries := []);
      assert OrderExact(t);
      RestoreAllRecords(t);
      assert t.(versions := map[], order := []) == Registry(snap.name, snap.branches, s.majors, map[], [], []);
      assert RestoreRecords(Registry(snap.name, snap.branches, s.majors, map[], [], []), snap.versions) == Ok(t);
      assert Restore(snap) == Ok(t.(recoveries := s.recoveries));
    }
  }

  // ----- runs ------------------------------------------------------------------------------

  ghost function RunFrom(before: (string, string) -> bool, s: Registry, ops: seq<Op>): Registry {
    if ops == [] then s else ServiceNext(before, RunFrom(before, s, ops[..|ops| - 1]), ops[|ops| - 1])
  }

  lemma ServiceNextValid(before: (string, string) -> bool, s: Registry, op: Op)
    requires ValidRegistry(s) && ValidOp(op)
    ensures ValidRegistry(ServiceNext(before, s, op)) && Persists(s, ServiceNext(before, s, op))
  {
    if SafeRegistry(s) {
      ApplyValid(before, s, op);
    }
  }

  /** Every operation of every run keeps the invariant, without any bound on the numbers used. */
  lemma {:induction false} RunValid(before: (string, string) -> bool, s: Registry, ops: seq<Op>)
    requires ValidRegistry(s) && ValidOps(ops)
    ensures ValidRegistry(RunFrom(before, s, ops)) && Persists(s, RunFrom(before, s, ops))
  {
    if ops != [] {
      var front, op := ops[..|ops| - 1], ops[|ops| - 1];
      RunValid(before, s, front);
      var t := RunFrom(before, s, front);
      ServiceNextValid(before, t, op);
      PersistsTransitive(s, t, ServiceNext(before, t, op));
    }
  }

  lemma NewRegistryValid(name: PackageName)
    ensures ValidRegistry(NewRegistry(name)) && SafeRegistry(NewRegistry(name))
  {
  }

  lemma ReachableValid(before: (string, string) -> bool, name: PackageName, ops: seq<Op>)
    requires ValidOps(ops)
    ensures ValidRegistry(RunFrom(before, NewRegistry(name), ops))
  {
    NewRegistryValid(name);
    RunValid(before, NewRegistry(name), ops);
  }

  lemma {:induction false} RunConcat(before: (string, string) -> bool, s: Registry, ops: seq<Op>, more: seq<Op>)
    ensures RunFrom(before, s, ops + more) == RunFrom(before, RunFrom(before, s, ops), more)
    decreases |more|
  {
    if more == [] {
      assert ops + more == ops;
    } else {
      var front := more[..|more| - 1];
      RunConcat(before, s, ops, front);
      assert (ops + more)[..|ops + more| - 1] == ops + front;
      assert (ops + more)[|ops + more| - 1] == more[|more| - 1];
    }
  }

  lemma DurableStepRefines(before: (string, string) -> bool, s: Registry, snap: RegistrySnapshot, op: Op, next: RegistrySnapshot, reply: Reply)
    requires ValidRegistry(s) && IsRegistrySnapshot(before, s, snap) && DurableStep(before, snap, op, next, reply)
    ensures IsRegistrySnapshot(before, ServiceNext(before, s, op), next)
    ensures reply.Threw? <==> ServiceReply(before, s, op).Threw?
    ensures !reply.Threw? ==> reply == ServiceReply(before, s, op)
  {
    RestoreSnapshot(before, s, snap);
    if SafeRegistry(s) {
      if Apply(before, s, op).1.NothingToLease? {
        NothingLeasedNothingChanged(before, s, op);
      }
      assert ServiceReply(before, s, op) == Apply(before, s, op).1;
    } else {
      assert next == snap && ServiceNext(before, s, op) == s;
    }
  }

  lemma NothingLeasedNothingChanged(before: (string, string) -> bool, s: Registry, op: Op)
    requires Apply(before, s, op).1.NothingToLease?
    ensures Apply(before, s, op).0 == s
  {
  }

  ghost predicate DurableRun(before: (string, string) -> bool, snaps: seq<RegistrySnapshot>, ops: seq<Op>, replies: seq<Reply>) {
    && |snaps| == |ops| + 1 && |replies| == |ops|
    && forall i :: 0 <= i < |ops| ==> DurableStep(before, snaps[i], ops[i], snaps[i + 1], replies[i])
  }

  /**
   * Restoring the registry for every request is invisible: over every run the stored snapshots
   * are those of one in-memory registry, and every reply is the one that registry gives.
   */
  lemma {:induction false} DurableRefinesService(
    before: (string, string) -> bool, s: Registry, snaps: seq<RegistrySnapshot>, ops: seq<Op>, replies: seq<Reply>, i: nat)
    requires ValidRegistry(s) && ValidOps(ops) && DurableRun(before, snaps, ops, replies)
    requires IsRegistrySnapshot(before, s, snaps[0]) && i <= |ops|
    ensures IsRegistrySnapshot(before, RunFrom(before, s, ops[..i]), snaps[i])
    ensures i < |ops| ==> (replies[i].Threw? <==> ServiceReply(before, RunFrom(before, s, ops[..i]), ops[i]).Threw?)
    ensures i < |ops| && !replies[i].Threw? ==> replies[i] == ServiceReply(before, RunFrom(before, s, ops[..i]), ops[i])
  {
    if i > 0 {
      DurableRefinesService(before, s, snaps, ops, replies, i - 1);
      var t := RunFrom(before, s, ops[..i - 1]);
      RunValid(before, s, ops[..i - 1]);
      DurableStepRefines(before, t, snaps[i - 1], ops[i - 1], snaps[i], replies[i - 1]);
      assert ops[..i][..i - 1] == ops[..i - 1];
    }
    if i < |ops| {
      RunValid(before, s, ops[..i]);
      DurableStepRefines(before, RunFrom(before, s, ops[..i]), snaps[i], ops[i], snaps[i + 1], replies[i]);
    }
  }
}
