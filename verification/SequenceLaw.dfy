/**
 * Which sequence numbers a major hands out over a whole run of allocator calls, in closed form,
 * and where the double-precision range ends that law.
 */
module SequenceLaw {
  import opened Common
  import opened VersionAllocation

  datatype Call =
    | Allocate(major: int, commitSha: string, committedAt: int)
    | Recover(major: int, commitSha: string, committedAt: int)

  /** One new row: the timestamp passed in and the sequence chosen. */
  datatype Stamp = Stamp(committedAt: int, sequence: int)

  function CallStep(ms: Majors, call: Call): Outcome<Majors, Assignment> {
    match call
    case Allocate(m, c, t) => AllocateStep(ms, m, c, t)
    case Recover(m, c, t) => RecoverStep(ms, m, c, t)
  }

  /** The rows after a run of calls from a new allocator. */
  function After(calls: seq<Call>): Majors {
    if calls == [] then map[] else CallStep(After(calls[..|calls| - 1]), calls[|calls| - 1]).state
  }

  /** A first allocation of a commit or a recovery of a known one writes a row; nothing else does. */
  predicate CreatesRow(ms: Majors, call: Call) {
    && InputError(call.major, call.commitSha, call.committedAt).None?
    && (call.Recover? <==> call.commitSha in ForMajor(ms, call.major).currentAttempts)
  }

  /** What a call appends to major `m`: nothing, or one stamp. */
  function Appends(ms: Majors, call: Call, m: int): seq<Stamp> {
    if call.major == m && CreatesRow(ms, call)
    then [Stamp(call.committedAt, CallStep(ms, call).state[m].highWater)] else []
  }

  /** Every append to major `m` in a run, in order. */
  function Trace(calls: seq<Call>, m: int): seq<Stamp> {
    if calls == [] then []
    else
      var front := calls[..|calls| - 1];
      Trace(front, m) + Appends(After(front), calls[|calls| - 1], m)
  }

  /** No append but possibly the last has left the safe range. */
  ghost predicate SafeTrace(t: seq<Stamp>) {
    forall i :: 0 <= i < |t| - 1 ==> t[i].sequence <= MAX_SAFE
  }

  function LastSequence(t: seq<Stamp>): int {
    if t == [] then -1 else t[|t| - 1].sequence
  }

  /** Each stamp is the later of its own timestamp and one past its predecessor. */
  ghost predicate Chained(t: seq<Stamp>) {
    forall i :: 0 <= i < |t| ==> t[i].committedAt >= 0 && t[i].sequence == Max(t[i].committedAt, LastSequence(t[..i]) + 1)
  }

  lemma ChainedExtend(t: seq<Stamp>, x: Stamp)
    requires Chained(t) && x.committedAt >= 0 && x.sequence == Max(x.committedAt, LastSequence(t) + 1)
    ensures Chained(t + [x])
  {
    var u := t + [x];
    forall i | 0 <= i < |u|
      ensures u[i].committedAt >= 0 && u[i].sequence == Max(u[i].committedAt, LastSequence(u[..i]) + 1)
    {
      assert i < |t| ==> u[..i] == t[..i];
      assert i == |t| ==> u[..i] == t;
    }
  }

  lemma StepStamps(ms: Majors, call: Call, m: int)
    ensures Appends(ms, call, m) == [] ==>
              ForMajor(CallStep(ms, call).state, m).highWater == ForMajor(ms, m).highWater
    ensures Appends(ms, call, m) != [] ==>
              && CallStep(ms, call).result.Ok?
              && var x := CallStep(ms, call).result.value;
              && Appends(ms, call, m) == [Stamp(call.committedAt, x.sequence)]
              && call.committedAt >= 0
              && x.sequence == Max(call.committedAt, JsSuccessor(ForMajor(ms, m).highWater))
              && ForMajor(CallStep(ms, call).state, m).highWater == x.sequence
  {
  }

  lemma SafePrefix(t: seq<Stamp>, more: seq<Stamp>)
    requires SafeTrace(t + more)
    ensures SafeTrace(t)
    ensures more != [] ==> LastSequence(t) <= MAX_SAFE
  {
    assert forall i :: 0 <= i < |t| ==> (t + more)[i] == t[i];
  }

  lemma {:induction false} RunIsChained(calls: seq<Call>, m: int)
    requires SafeTrace(Trace(calls, m))
    ensures Chained(Trace(calls, m))
    ensures ForMajor(After(calls), m).highWater == LastSequence(Trace(calls, m))
  {
    if calls != [] {
      var front, call := calls[..|calls| - 1], calls[|calls| - 1];
      var ms, before := After(front), Trace(front, m);
      StepStamps(ms, call, m);
      var more := Appends(ms, call, m);
      assert Trace(calls, m) == before + more;
      SafePrefix(before, more);
      RunIsChained(front, m);
      if more == [] {
        assert before + more == before;
      } else {
        ChainedExtend(before, more[0]);
      }
    }
  }

  /** The greatest timestamp-plus-distance among the stamps up to `k`. */
  ghost predicate IsClosedForm(t: seq<Stamp>, k: nat)
    requires k < |t|
  {
    && (forall i :: 0 <= i <= k ==> t[i].committedAt + (k - i) <= t[k].sequence)
    && (exists i :: 0 <= i <= k && t[i].committedAt + (k - i) == t[k].sequence)
  }

  lemma {:induction false} ChainBound(t: seq<Stamp>, i: nat, k: nat)
    requires Chained(t) && i <= k < |t|
    ensures t[i].committedAt + (k - i) <= t[k].sequence
    ensures t[i].sequence + (k - i) <= t[k].sequence
  {
    if i < k {
      assert LastSequence(t[..k]) == t[k - 1].sequence;
      ChainBound(t, i, k - 1);
    }
  }

  lemma {:induction false} ChainReached(t: seq<Stamp>, k: nat) returns (i: nat)
    requires Chained(t) && k < |t|
    ensures i <= k && t[i].committedAt + (k - i) == t[k].sequence
  {
    assert t[..0] == [];
    if t[k].sequence == t[k].committedAt {
      i := k;
    } else {
      assert LastSequence(t[..k]) == t[k - 1].sequence;
      i := ChainReached(t, k - 1);
    }
  }

  /**
   * In every run the k-th sequence of a major is the maximum, over the appends i <= k, of that
   * append's timestamp plus k - i, as long as no earlier sequence has left the safe range.
   */
  lemma SequenceClosedForm(calls: seq<Call>, m: int, k: nat)
    requires SafeTrace(Trace(calls, m)) && k < |Trace(calls, m)|
    ensures IsClosedForm(Trace(calls, m), k)
  {
    var t := Trace(calls, m);
    RunIsChained(calls, m);
    forall i: nat | i <= k
      ensures t[i].committedAt + (k - i) <= t[k].sequence
    {
      ChainBound(t, i, k);
    }
    var i := ChainReached(t, k);
  }

  /** Sequences strictly increase, reach their own timestamp, and stay near the largest one. */
  lemma SequenceBounds(calls: seq<Call>, m: int, i: nat, k: nat, latest: int)
    requires SafeTrace(Trace(calls, m)) && i <= k < |Trace(calls, m)|
    requires forall j :: 0 <= j <= k ==> Trace(calls, m)[j].committedAt <= latest
    ensures var t := Trace(calls, m);
            && t[k].committedAt <= t[k].sequence <= latest + k
            && t[i].sequence + (k - i) <= t[k].sequence
  {
    var t := Trace(calls, m);
    RunIsChained(calls, m);
    ChainBound(t, i, k);
    ChainBound(t, k, k);
    var n := ChainReached(t, k);
  }

  /** An append takes a number above the high-water mark exactly while that mark is safe. */
  lemma AppendIncreasesIffSafe(m: int, a: MajorAllocations, commitSha: string, committedAt: int)
    requires ValidMajor(m, a) && 0 <= committedAt <= MAX_SAFE
    ensures NextAssignment(a, m, commitSha, committedAt, NextAttempt(a, commitSha)).sequence > a.highWater
            <==> a.highWater <= MAX_SAFE
  {
  }

  // ----- past the safe range ---------------------------------------------------------------

  /** The mark has reached 2^53, where adding one changes nothing any more. */
  ghost predicate Exhausted(ms: Majors, m: int) {
    ForMajor(ms, m).highWater == MAX_SAFE + 1
  }

  /** An exhausted major stays so, and gives every further row the version of its mark. */
  lemma ExhaustedRepeats(ms: Majors, call: Call, m: int)
    requires Exhausted(ms, m)
    ensures Exhausted(CallStep(ms, call).state, m)
    ensures call.major == m && CreatesRow(ms, call) ==>
              && CallStep(ms, call).result.Ok?
              && CallStep(ms, call).result.value.commitSha == call.commitSha
              && CallStep(ms, call).result.value.version == RenderVersion(m, MAX_SAFE + 1)
    ensures forall x :: x in Appends(ms, call, m) ==> x.sequence == MAX_SAFE + 1
  {
  }

  ghost predicate AtLimitFrom(t: seq<Stamp>, start: nat) {
    start <= |t| && forall k :: start <= k < |t| ==> t[k].sequence == MAX_SAFE + 1
  }

  lemma AtLimitExtend(t: seq<Stamp>, start: nat, more: seq<Stamp>)
    requires AtLimitFrom(t, start) && forall x :: x in more ==> x.sequence == MAX_SAFE + 1
    ensures AtLimitFrom(t + more, start)
  {
  }

  lemma TraceOneMore(calls: seq<Call>, call: Call, m: int)
    ensures After(calls + [call]) == CallStep(After(calls), call).state
    ensures Trace(calls + [call], m) == Trace(calls, m) + Appends(After(calls), call, m)
  {
    var all := calls + [call];
    assert all[..|all| - 1] == calls;
  }

  /** Over any run from there, whatever the commits and timestamps, no sequence is ever new. */
  lemma {:induction false} ExhaustedForEver(calls: seq<Call>, more: seq<Call>, m: int)
    requires Exhausted(After(calls), m)
    ensures Exhausted(After(calls + more), m)
    ensures AtLimitFrom(Trace(calls + more, m), |Trace(calls, m)|)
    decreases |more|
  {
    if more == [] {
      assert calls + more == calls;
    } else {
      var front, last := more[..|more| - 1], more[|more| - 1];
      ExhaustedForEver(calls, front, m);
      assert calls + more == calls + front + [last];
      TraceOneMore(calls + front, last, m);
      ExhaustedRepeats(After(calls + front), last, m);
      AtLimitExtend(Trace(calls + front, m), |Trace(calls, m)|, Appends(After(calls + front), last, m));
    }
  }

  ghost predicate Fresh(ms: Majors, commitSha: string) {
    commitSha != "" && commitSha !in ForMajor(ms, 0).currentAttempts
  }

  lemma AllocateAtLimit(ms: Majors, commitSha: string)
    requires Exhausted(ms, 0) && Fresh(ms, commitSha)
    ensures var r := CallStep(ms, Allocate(0, commitSha, 0));
            && r.result.Ok? && r.result.value.commitSha == commitSha
            && r.result.value.version == RenderVersion(0, MAX_SAFE + 1)
            && Exhausted(r.state, 0)
            && ForMajor(r.state, 0).currentAttempts.Keys == ForMajor(ms, 0).currentAttempts.Keys + {commitSha}
  {
  }

  lemma ReachesLimit(b: string)
    requires b != "a" && b != ""
    ensures var ms := After([Allocate(0, "a", MAX_SAFE)]);
            && Fresh(ms, b) && ForMajor(ms, 0).currentAttempts.Keys == {"a"}
            && ForMajor(ms, 0).highWater == MAX_SAFE
            && var r := CallStep(ms, Allocate(0, b, 0));
            && r.result.Ok? && r.result.value.commitSha == b
            && r.result.value.version == RenderVersion(0, MAX_SAFE + 1)
            && Exhausted(r.state, 0) && ForMajor(r.state, 0).currentAttempts.Keys == {"a", b}
  {
    assert [Allocate(0, "a", MAX_SAFE)][..0] == [];
  }

  ghost predicate GetsLimitVersion(r: Outcome<Majors, Assignment>, commitSha: string) {
    r.result.Ok? && r.result.value.commitSha == commitSha && r.result.value.version == RenderVersion(0, MAX_SAFE + 1)
  }

  /**
   * The range can be left: after a timestamp of 2^53 - 1, three more commits, each new to the
   * allocator, all receive one and the same version.
   */
  lemma SequencesCollideAtTheLimit(b: string, c: string, d: string)
    requires "" !in {b, c, d} && "a" !in {b, c, d} && b != c && b != d && c != d
    ensures var first := CallStep(After([Allocate(0, "a", MAX_SAFE)]), Allocate(0, b, 0));
            var second := CallStep(first.state, Allocate(0, c, 0));
            var third := CallStep(second.state, Allocate(0, d, 0));
            && GetsLimitVersion(first, b) && GetsLimitVersion(second, c) && GetsLimitVersion(third, d)
            && third.state == After([Allocate(0, "a", MAX_SAFE), Allocate(0, b, 0), Allocate(0, c, 0), Allocate(0, d, 0)])
  {
    var first := CallStep(After([Allocate(0, "a", MAX_SAFE)]), Allocate(0, b, 0));
    ReachesLimit(b);
    AllocateAtLimit(first.state, c);
    AllocateAtLimit(CallStep(first.state, Allocate(0, c, 0)).state, d);
    AfterFour(Allocate(0, "a", MAX_SAFE), Allocate(0, b, 0), Allocate(0, c, 0), Allocate(0, d, 0));
  }

  lemma AfterFour(w: Call, x: Call, y: Call, z: Call)
    ensures After([w, x, y, z]) == CallStep(CallStep(CallStep(After([w]), x).state, y).state, z).state
  {
    AfterOneMore([w], x);
    AfterOneMore([w, x], y);
    AfterOneMore([w, x, y], z);
    assert [w] + [x] == [w, x] && [w, x] + [y] == [w, x, y] && [w, x, y] + [z] == [w, x, y, z];
  }

  lemma AfterOneMore(calls: seq<Call>, call: Call)
    ensures After(calls + [call]) == CallStep(After(calls), call).state
  {
    TraceOneMore(calls, call, 0);
  }
}
