/**
 * Branch selection (src/branches.ts): release branches `vN` own major N, the default branch
 * follows the highest release major ever stored, even one since deleted.
 */
module Branches {
  import opened Common
  import opened Text

  datatype CommitTip = CommitTip(sha: string, committedAt: int)

  /** One entry of the discovered branch map, in iteration order. */
  datatype Branch = Branch(name: string, tip: CommitTip)

  datatype Discovery = Discovery(defaultBranch: string, branches: seq<Branch>)

  datatype BranchState = BranchState(highest: Option<int>)

  datatype Selected = Selected(branch: string, major: int, tip: CommitTip)

  datatype Selection = Selection(state: BranchState, branches: seq<Selected>)

  /** The branch collection is a map: names are its keys. */
  ghost predicate UniqueNames(branches: seq<Branch>) {
    forall i, j :: 0 <= i < j < |branches| ==> branches[i].name != branches[j].name
  }

  /** The major an exactly named release branch owns. */
  function ReleaseMajor(branch: string): Option<int> {
    if |branch| >= 1 && branch[0] == 'v' && IsCanonicalDecimal(branch[1..]) && DecimalValue(branch[1..]) <= MAX_SAFE
    then Some(DecimalValue(branch[1..])) else None
  }

  /** Majors and release branch names are in bijection: `v` and the plain decimal, nothing else. */
  lemma ReleaseMajorIff(branch: string, n: int)
    ensures ReleaseMajor(branch) == Some(n) <==> 0 <= n <= MAX_SAFE && branch == "v" + Decimal(n)
  {
    if ReleaseMajor(branch) == Some(n) {
      DecimalOfDecimalValue(branch[1..]);
      assert branch == ['v'] + branch[1..];
    }
    if 0 <= n && branch == "v" + Decimal(n) {
      assert branch[1..] == Decimal(n);
      DecimalCanonical(n);
      DecimalValueOfDecimal(n);
    }
  }

  // ----- what selection computes -----------------------------------------------------------

  function Released(b: Branch): seq<Selected> {
    match ReleaseMajor(b.name)
    case Some(n) => [Selected(b.name, n, b.tip)]
    case None => []
  }

  function Releases(branches: seq<Branch>): seq<Selected> {
    if branches == [] then []
    else Releases(branches[..|branches| - 1]) + Released(branches[|branches| - 1])
  }

  function Raise(observed: Option<int>, major: Option<int>): Option<int> {
    match major
    case None => observed
    case Some(n) => Some(if observed.None? then n else Max(observed.value, n))
  }

  function Observed(branches: seq<Branch>, prior: Option<int>): Option<int> {
    if branches == [] then prior
    else Raise(Observed(branches[..|branches| - 1], prior), ReleaseMajor(branches[|branches| - 1].name))
  }

  /** `branches.get(name)`. */
  function TipOf(branches: seq<Branch>, name: string): Option<CommitTip> {
    if branches == [] then None
    else if branches[|branches| - 1].name == name then Some(branches[|branches| - 1].tip)
    else TipOf(branches[..|branches| - 1], name)
  }

  function DefaultMajor(observed: Option<int>): int {
    if observed.None? then 0 else observed.value + 1
  }

  predicate CoversSha(selected: seq<Selected>, sha: string) {
    exists i :: 0 <= i < |selected| && selected[i].tip.sha == sha
  }

  function Select(d: Discovery, prior: BranchState): Result<Selection> {
    match TipOf(d.branches, d.defaultBranch)
    case None => Err("default branch " + d.defaultBranch + " was not returned by GitHub")
    case Some(tip) =>
      var releases := Releases(d.branches);
      var observed := Observed(d.branches, prior.highest);
      Ok(Selection(
           BranchState(observed),
           if CoversSha(releases, tip.sha) then releases
           else releases + [Selected(d.defaultBranch, DefaultMajor(observed), tip)]))
  }

  method SelectBranches(d: Discovery, prior: BranchState) returns (r: Result<Selection>)
    ensures r == Select(d, prior)
  {
    var releases: seq<Selected> := [];
    var observed := prior.highest;
    for i := 0 to |d.branches|
      invariant releases == Releases(d.branches[..i])
      invariant observed == Observed(d.branches[..i], prior.highest)
    {
      assert d.branches[..i + 1][..i] == d.branches[..i];
      var branch := d.branches[i];
      var major := ReleaseMajor(branch.name);
      if major.Some? {
        releases := releases + [Selected(branch.name, major.value, branch.tip)];
        observed := Some(if observed.None? then major.value else Max(observed.value, major.value));
      }
    }
    assert d.branches[..|d.branches|] == d.branches;
    var defaultTip := TipOf(d.branches, d.defaultBranch);
    if defaultTip.None? {
      return Err("default branch " + d.defaultBranch + " was not returned by GitHub");
    }
    var defaultMajor := DefaultMajor(observed);
    var sameCommit := CoversSha(releases, defaultTip.value.sha);
    var branches := if sameCommit then releases
                    else releases + [Selected(d.defaultBranch, defaultMajor, defaultTip.value)];
    return Ok(Selection(BranchState(observed), branches));
  }

  // ----- one discovery ---------------------------------------------------------------------

  /** `s` is the entry of a release branch. */
  ghost predicate IsRelease(branches: seq<Branch>, s: Selected) {
    Branch(s.branch, s.tip) in branches && ReleaseMajor(s.branch) == Some(s.major)
  }

  lemma {:induction false} ReleasesExactly(branches: seq<Branch>)
    ensures forall s :: s in Releases(branches) <==> IsRelease(branches, s)
  {
    if branches != [] {
      var front, last := branches[..|branches| - 1], branches[|branches| - 1];
      ReleasesExactly(front);
      assert branches == front + [last];
      forall s
        ensures s in Releases(branches) <==> IsRelease(branches, s)
      {
        assert s in Releases(branches) <==> s in Releases(front) || s in Released(last);
      }
    }
  }

  /** Branches are taken in the order they are listed in. */
  lemma {:induction false} ReleasesInOrder(front: seq<Branch>, rest: seq<Branch>)
    ensures Releases(front + rest) == Releases(front) + Releases(rest)
    decreases |rest|
  {
    if rest == [] {
      assert front + rest == front;
    } else {
      ReleasesInOrder(front, rest[..|rest| - 1]);
      LastRelease(front, rest);
      ConcatAssociative(Releases(front), Releases(rest[..|rest| - 1]), Released(rest[|rest| - 1]));
    }
  }

  lemma LastRelease(front: seq<Branch>, rest: seq<Branch>)
    requires rest != []
    ensures Releases(front + rest) == Releases(front + rest[..|rest| - 1]) + Released(rest[|rest| - 1])
  {
    var all := front + rest;
    assert all[..|all| - 1] == front + rest[..|rest| - 1];
  }

  lemma ConcatAssociative<T>(a: seq<T>, b: seq<T>, c: seq<T>)
    ensures a + b + c == a + (b + c)
  {
  }

  /** The releases come first, in their order; a default branch of its own comes last. */
  lemma SelectedInOrder(d: Discovery, prior: BranchState)
    requires Select(d, prior).Ok?
    ensures var branches := Select(d, prior).value.branches;
            && Releases(d.branches) <= branches && |branches| <= |Releases(d.branches)| + 1
  {
  }

  ghost predicate DistinctMajors(selected: seq<Selected>) {
    forall i, j :: 0 <= i < j < |selected| ==> selected[i].major != selected[j].major
  }

  lemma RestAvoidsFirst(bs: seq<Selected>)
    requires bs != [] && DistinctMajors(bs)
    ensures DistinctMajors(bs[1..])
    ensures forall b :: b in bs[1..] ==> b.major != bs[0].major
  {
    forall b | b in bs[1..]
      ensures b.major != bs[0].major
    {
      var i :| 0 <= i < |bs[1..]| && bs[1..][i] == b;
      assert bs[i + 1] == b;
    }
  }

  lemma {:induction false} ReleaseMajorsDistinct(branches: seq<Branch>)
    requires UniqueNames(branches)
    ensures DistinctMajors(Releases(branches))
  {
    if branches != [] {
      var front, last := branches[..|branches| - 1], branches[|branches| - 1];
      ReleaseMajorsDistinct(front);
      ReleasesExactly(front);
      if ReleaseMajor(last.name).Some? {
        forall s | s in Releases(front)
          ensures s.major != ReleaseMajor(last.name).value
        {
          ReleaseMajorIff(s.branch, s.major);
          ReleaseMajorIff(last.name, ReleaseMajor(last.name).value);
          var i :| 0 <= i < |front| && front[i] == Branch(s.branch, s.tip);
          assert branches[i].name != branches[|front|].name;
        }
      }
    }
  }

  /** The greatest of `prior` and the release majors present. */
  ghost predicate IsHighest(observed: Option<int>, prior: Option<int>, branches: seq<Branch>) {
    && (forall b :: b in branches && ReleaseMajor(b.name).Some? ==> observed.Some? && ReleaseMajor(b.name).value <= observed.value)
    && (prior.Some? ==> observed.Some? && prior.value <= observed.value)
    && (observed.Some? ==> observed == prior || exists b :: b in branches && ReleaseMajor(b.name) == observed)
  }

  lemma {:induction false} ObservedIsHighest(branches: seq<Branch>, prior: Option<int>)
    ensures IsHighest(Observed(branches, prior), prior, branches)
  {
    if branches != [] {
      var front, last := branches[..|branches| - 1], branches[|branches| - 1];
      ObservedIsHighest(front, prior);
      assert branches == front + [last];
      assert last in branches;
      var before := Observed(front, prior);
      if before.Some? && before != prior {
        var b :| b in front && ReleaseMajor(b.name) == before;
        assert b in branches;
      }
    }
  }

  lemma {:induction false} TipOfEntry(branches: seq<Branch>, name: string)
    requires UniqueNames(branches)
    ensures forall tip :: TipOf(branches, name) == Some(tip) <==> Branch(name, tip) in branches
  {
    if branches != [] {
      var front, last := branches[..|branches| - 1], branches[|branches| - 1];
      TipOfEntry(front, name);
      assert branches == front + [last];
      forall tip | Branch(name, tip) in front
        ensures last.name != name
      {
        var i :| 0 <= i < |front| && front[i] == Branch(name, tip);
        assert branches[i].name != branches[|front|].name;
      }
    }
  }

  /**
   * A selection holds every release branch under its own major, each major once, always covers
   * the default branch's commit, and ranks a separately selected default above every release
   * observed now or before. It fails exactly when the default branch is missing.
   */
  lemma SelectionLaw(d: Discovery, prior: BranchState)
    requires UniqueNames(d.branches)
    ensures Select(d, prior).Ok? <==> exists tip :: Branch(d.defaultBranch, tip) in d.branches
    ensures Select(d, prior).Ok? ==>
              var selection := Select(d, prior).value;
              && DistinctMajors(selection.branches)
              && (forall s :: IsRelease(d.branches, s) ==> s in selection.branches)
              && IsHighest(selection.state.highest, prior.highest, d.branches)
              && (forall tip :: Branch(d.defaultBranch, tip) in d.branches ==> CoversSha(selection.branches, tip.sha))
              && (forall s :: s in selection.branches && !IsRelease(d.branches, s) ==>
                    && s.branch == d.defaultBranch && Branch(s.branch, s.tip) in d.branches
                    && (forall b :: b in d.branches && ReleaseMajor(b.name).Some? ==> ReleaseMajor(b.name).value < s.major)
                    && (prior.highest.Some? ==> prior.highest.value < s.major))
  {
    TipOfEntry(d.branches, d.defaultBranch);
    ReleasesExactly(d.branches);
    ReleaseMajorsDistinct(d.branches);
    ObservedIsHighest(d.branches, prior.highest);
    if Select(d, prior).Ok? {
      var selection, releases := Select(d, prior).value, Releases(d.branches);
      var tip := TipOf(d.branches, d.defaultBranch).value;
      assert Branch(d.defaultBranch, tip) in d.branches;
      forall s | s in releases
        ensures Branch(s.branch, s.tip) in d.branches && s.major < DefaultMajor(selection.state.highest)
      {
        assert IsRelease(d.branches, s);
      }
      if selection.branches != releases {
        assert selection.branches[|releases|].tip.sha == tip.sha;
      }
    }
  }

  /** The default branch at its tip, on the major after the highest release, or on major 0. */
  ghost predicate IsOwnDefault(d: Discovery, highest: Option<int>, s: Selected) {
    && s.branch == d.defaultBranch && Branch(s.branch, s.tip) in d.branches
    && s.major == match highest case Some(n) => n + 1 case None => 0
  }

  /**
   * What is selected: every release branch, and the default branch of its own exactly when no
   * release branch is at its commit.
   */
  lemma SelectedExactly(d: Discovery, prior: BranchState, s: Selected)
    requires UniqueNames(d.branches) && Select(d, prior).Ok?
    ensures var selection := Select(d, prior).value;
            s in selection.branches <==>
              || IsRelease(d.branches, s)
              || (IsOwnDefault(d, selection.state.highest, s)
                  && forall r :: IsRelease(d.branches, r) ==> r.tip.sha != s.tip.sha)
  {
    var selection, releases := Select(d, prior).value, Releases(d.branches);
    TipOfEntry(d.branches, d.defaultBranch);
    ReleasesExactly(d.branches);
    var tip := TipOf(d.branches, d.defaultBranch).value;
    if r :| IsRelease(d.branches, r) && r.tip.sha == tip.sha {
      var i :| 0 <= i < |releases| && releases[i] == r;
      assert CoversSha(releases, tip.sha);
    }
  }

  lemma MissingDefault(d: Discovery, prior: BranchState)
    requires UniqueNames(d.branches) && forall tip :: Branch(d.defaultBranch, tip) !in d.branches
    ensures Select(d, prior) == Err("default branch " + d.defaultBranch + " was not returned by GitHub")
  {
    TipOfEntry(d.branches, d.defaultBranch);
  }

  lemma SelectedMajorsDistinct(d: Discovery, prior: BranchState)
    requires UniqueNames(d.branches) && Select(d, prior).Ok?
    ensures DistinctMajors(Select(d, prior).value.branches)
  {
    SelectionLaw(d, prior);
  }
}
