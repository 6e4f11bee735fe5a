/**
 * The stored high-water mark of release majors over whole runs (src/branches.ts,
 * src/package-registry.ts, src/durable-objects.ts): a refresh that throws after its selection
 * stores nothing, so what counts is the discoveries whose refresh was accepted.
 */
module HighWater {
  import opened Common
  import opened Text
  import opened Branches
  import opened BranchOrder
  import opened PackageRegistryModel
  import opened RegistryInvariant
  import opened RegistryService
  import opened RegistryTheorems

  // ----- which refreshes are accepted ------------------------------------------------------

  ghost predicate AllInputsValid(bs: seq<Selected>) {
    forall b :: b in bs ==> BranchInputsValid(b)
  }

  /**
   * A refresh is accepted exactly when the default branch is present and every selected branch
   * has a safe major, a commit and a whole non-negative timestamp.
   */
  lemma RefreshAcceptsExactly(s: Registry, d: Discovery)
    requires ValidRegistry(s) && SafeRegistry(s) && UniqueNames(d.branches)
    ensures RefreshStep(s, d).result.Ok? <==>
            (Select(d, s.branches).Ok? && AllInputsValid(Select(d, s.branches).value.branches))
  {
    if Select(d, s.branches).Ok? {
      var selection := Select(d, s.branches).value;
      SelectionIsSafe(s, d);
      SelectionObserved(s.(branches := selection.state), selection.branches, []);
    }
  }

  // ----- the mark over runs ----------------------------------------------------------------

  lemma {:induction false} ObserveKeepsMark(s: Registry, bs: seq<Selected>, created: seq<Job>)
    ensures ObserveBranches(s, bs, created).state.branches == s.branches
    decreases |bs|
  {
    if bs != [] {
      var first := ObserveBranch(s, bs[0]);
      if first.result.Ok? {
        ObserveKeepsMark(first.state, bs[1..], created + first.result.value);
      }
    }
  }

  ghost predicate Accepted(before: (string, string) -> bool, s: Registry, op: Op) {
    op.Refresh? && ServiceReply(before, s, op).Created?
  }

  /** The mark moves only with an accepted refresh, to what its selection says. */
  lemma StepMark(before: (string, string) -> bool, s: Registry, op: Op)
    ensures Accepted(before, s, op) ==>
              ServiceNext(before, s, op).branches.highest == Observed(op.discovery.branches, s.branches.highest)
    ensures !Accepted(before, s, op) ==> ServiceNext(before, s, op).branches == s.branches
  {
    match op
    case Refresh(d) =>
      if Select(d, s.branches).Ok? {
        var selection := Select(d, s.branches).value;
        ObserveKeepsMark(s.(branches := selection.state), selection.branches, []);
      }
    case _ => ApplyRemembers(before, s, op);
  }

  ghost predicate Discovers(d: Discovery, n: int) {
    exists b :: b in d.branches && ReleaseMajor(b.name) == Some(n)
  }

  /** Some operation of the run is an accepted refresh whose discovery holds a branch of major `n`. */
  ghost predicate Seen(before: (string, string) -> bool, name: PackageName, ops: seq<Op>, n: int) {
    if ops == [] then false
    else
      var front, op := ops[..|ops| - 1], ops[|ops| - 1];
      || Seen(before, name, front, n)
      || (Accepted(before, RunFrom(before, NewRegistry(name), front), op) && Discovers(op.discovery, n))
  }

  ghost predicate IsGreatestSeen(before: (string, string) -> bool, name: PackageName, ops: seq<Op>, highest: Option<int>) {
    && (forall n :: Seen(before, name, ops, n) ==> highest.Some? && n <= highest.value)
    && (highest.Some? ==> Seen(before, name, ops, highest.value))
  }

  ghost predicate Covers(s: Registry, n: int) {
    s.branches.highest.Some? && n <= s.branches.highest.value
  }

  lemma StepCovers(before: (string, string) -> bool, s: Registry, op: Op, n: int)
    requires Covers(s, n) || (Accepted(before, s, op) && Discovers(op.discovery, n))
    ensures Covers(ServiceNext(before, s, op), n)
  {
    StepMark(before, s, op);
    if Accepted(before, s, op) {
      ObservedIsHighest(op.discovery.branches, s.branches.highest);
    }
  }

  lemma StepReaches(before: (string, string) -> bool, s: Registry, op: Op)
    requires ServiceNext(before, s, op).branches.highest.Some?
    requires ServiceNext(before, s, op).branches.highest != s.branches.highest
    ensures Accepted(before, s, op) && Discovers(op.discovery, ServiceNext(before, s, op).branches.highest.value)
  {
    StepMark(before, s, op);
    ObservedIsHighest(op.discovery.branches, s.branches.highest);
  }

  /**
   * Over every run the stored mark is the greatest release major of the accepted refreshes, branches
   * since deleted included.
   */
  lemma {:induction false} HighWaterIsGreatestSeen(before: (string, string) -> bool, name: PackageName, ops: seq<Op>)
    ensures IsGreatestSeen(before, name, ops, RunFrom(before, NewRegistry(name), ops).branches.highest)
  {
    if ops != [] {
      var front, op := ops[..|ops| - 1], ops[|ops| - 1];
      var s := RunFrom(before, NewRegistry(name), front);
      HighWaterIsGreatestSeen(before, name, front);
      forall n | Seen(before, name, ops, n)
        ensures Covers(ServiceNext(before, s, op), n)
      {
        assert Seen(before, name, front, n) ==> Covers(s, n);
        StepCovers(before, s, op, n);
      }
      var highest := ServiceNext(before, s, op).branches.highest;
      if highest.Some? && highest != s.branches.highest {
        StepReaches(before, s, op);
      }
    }
  }

  /** A separately selected default branch outranks every release major seen so far in the run. */
  lemma DefaultOutranksEverySeen(before: (string, string) -> bool, name: PackageName, ops: seq<Op>, d: Discovery,
                                 b: Selected, n: int)
    requires UniqueNames(d.branches)
    requires Select(d, RunFrom(before, NewRegistry(name), ops).branches).Ok?
    requires b in Select(d, RunFrom(before, NewRegistry(name), ops).branches).value.branches
    requires !IsRelease(d.branches, b) && (Seen(before, name, ops, n) || Discovers(d, n))
    ensures b.branch == d.defaultBranch && n < b.major
  {
    HighWaterIsGreatestSeen(before, name, ops);
    SelectionLaw(d, RunFrom(before, NewRegistry(name), ops).branches);
  }

  // ----- what a rejected refresh selected is forgotten -------------------------------------

  /** The discovery of a default branch and of release branch v5, whose tip has no commit. */
  function WithoutCommit(at: nat): Discovery {
    Discovery("main", [Branch("main", CommitTip("x", at)), Branch("v5", CommitTip("", at))])
  }

  lemma MajorFive()
    ensures ReleaseMajor("v5") == Some(5) && ReleaseMajor("main") == None
  {
    ReleaseMajorIff("v5", 5);
    assert Decimal(5) == "5";
    assert "v" + "5" == "v5";
    assert "main"[0] != 'v';
  }

  lemma WithoutCommitSelects(at: nat)
    ensures Select(WithoutCommit(at), BranchState(None)).Ok?
    ensures Select(WithoutCommit(at), BranchState(None)).value.state.highest == Some(5)
    ensures !AllInputsValid(Select(WithoutCommit(at), BranchState(None)).value.branches)
  {
    var d := WithoutCommit(at);
    var main, v5 := d.branches[0], d.branches[1];
    MajorFive();
    assert d.branches[..1] == [main] && [main][..0] == [];
    assert Observed([main], None) == None;
    assert main.name != v5.name;
    SelectionLaw(d, BranchState(None));
    assert main in d.branches;
    var bad := Selected("v5", 5, v5.tip);
    assert v5 in d.branches && IsRelease(d.branches, bad) && !BranchInputsValid(bad);
  }

  /** Majors selected by a refresh that throws do not count. */
  lemma RejectedMajorIsForgotten(before: (string, string) -> bool, name: PackageName, at: nat)
    ensures Select(WithoutCommit(at), BranchState(None)).Ok?
    ensures Select(WithoutCommit(at), BranchState(None)).value.state.highest == Some(5)
    ensures RunFrom(before, NewRegistry(name), [Refresh(WithoutCommit(at))]).branches.highest == None
  {
    var ops := [Refresh(WithoutCommit(at))];
    WithoutCommitSelects(at);
    NewRegistryValid(name);
    RefreshAcceptsExactly(NewRegistry(name), WithoutCommit(at));
    assert ops[..0] == [];
    StepMark(before, NewRegistry(name), ops[0]);
  }
}
