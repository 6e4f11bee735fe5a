/** The versions a refresh allocates do not depend on the order branches are listed in. */
module BranchOrder {
  import opened Common
  import opened Branches
  import opened VersionAllocation
  import opened PackageRegistryModel
  import opened RegistryInvariant

  // ----- the effect of a selection, without an order ---------------------------------------

  function ObservedMajor(ms: Majors, b: Selected): MajorAllocations {
    AllocateIn(ForMajor(ms, b.major), b.major, b.tip.sha, b.tip.committedAt).state
  }

  ghost predicate HasMajor(bs: seq<Selected>, m: int) {
    exists b :: b in bs && b.major == m
  }

  /** `v` is the version a selected branch with a new commit receives. */
  ghost predicate NewVersion(s: Registry, b: Selected, v: string) {
    !Known(s.majors, b.major, b.tip.sha) && BranchRecord(s.majors, b).job.version == v
  }

  ghost predicate MajorsObserved(s: Registry, bs: seq<Selected>, t: Registry) {
    && (forall b :: b in bs ==> ForMajor(t.majors, b.major) == ObservedMajor(s.majors, b))
    && (forall m :: !HasMajor(bs, m) ==> ForMajor(t.majors, m) == ForMajor(s.majors, m))
  }

  ghost predicate VersionsObserved(s: Registry, bs: seq<Selected>, t: Registry) {
    && OnlyAdds(s, t)
    && (forall b, v :: b in bs && NewVersion(s, b, v) ==> v in t.versions && t.versions[v] == BranchRecord(s.majors, b))
    && (forall v :: v in t.versions && v !in s.versions ==> exists b :: b in bs && NewVersion(s, b, v))
  }

  lemma OneMajorObserved(s: Registry, b: Selected)
    requires ObserveBranch(s, b).result.Ok?
    ensures ForMajor(ObserveBranch(s, b).state.majors, b.major) == ObservedMajor(s.majors, b)
  {
  }

  lemma OneVersionObserved(s: Registry, b: Selected)
    requires Bijective(s) && ForMajor(s.majors, b.major).highWater <= MAX_SAFE && BranchInputsValid(b)
    ensures var t := ObserveBranch(s, b).state;
            && OnlyAdds(s, t)
            && (forall v :: NewVersion(s, b, v) ==> v in t.versions && t.versions[v] == BranchRecord(s.majors, b))
            && (forall v :: v in t.versions && v !in s.versions ==> NewVersion(s, b, v))
  {
    if Known(s.majors, b.major, b.tip.sha) {
      ObserveKnown(s, b);
    } else {
      NextRowFresh(s, b.major, b.tip.sha, b.tip.committedAt);
      ObserveNew(s, b);
    }
  }

  /** A branch of another major sees the same rows before and after. */
  lemma OtherMajorSame(s: Registry, t: Registry, m: int, b: Selected)
    requires OnlyMajor(s, t, m) && b.major != m
    ensures ObservedMajor(t.majors, b) == ObservedMajor(s.majors, b)
    ensures BranchRecord(t.majors, b) == BranchRecord(s.majors, b)
    ensures forall v :: NewVersion(t, b, v) <==> NewVersion(s, b, v)
  {
    assert ForMajor(t.majors, b.major) == ForMajor(s.majors, b.major);
  }

  lemma MajorsCompose(s: Registry, bs: seq<Selected>, t: Registry, u: Registry)
    requires bs != [] && DistinctMajors(bs) && OnlyMajor(s, t, bs[0].major)
    requires ForMajor(t.majors, bs[0].major) == ObservedMajor(s.majors, bs[0])
    requires MajorsObserved(t, bs[1..], u)
    ensures MajorsObserved(s, bs, u)
  {
    RestAvoidsFirst(bs);
    assert bs == [bs[0]] + bs[1..];
    forall b | b in bs
      ensures ForMajor(u.majors, b.major) == ObservedMajor(s.majors, b)
    {
      if b in bs[1..] {
        OtherMajorSame(s, t, bs[0].major, b);
      } else {
        assert !HasMajor(bs[1..], b.major);
      }
    }
    forall m | !HasMajor(bs, m)
      ensures ForMajor(u.majors, m) == ForMajor(s.majors, m)
    {
      assert bs[0] in bs;
      assert !HasMajor(bs[1..], m);
    }
  }

  lemma VersionsCompose(s: Registry, bs: seq<Selected>, t: Registry, u: Registry)
    requires bs != [] && DistinctMajors(bs) && OnlyMajor(s, t, bs[0].major) && OnlyAdds(s, t)
    requires forall v :: NewVersion(s, bs[0], v) ==> v in t.versions && t.versions[v] == BranchRecord(s.majors, bs[0])
    requires forall v :: v in t.versions && v !in s.versions ==> NewVersion(s, bs[0], v)
    requires VersionsObserved(t, bs[1..], u)
    ensures VersionsObserved(s, bs, u)
  {
    RestAvoidsFirst(bs);
    assert bs == [bs[0]] + bs[1..];
    forall b, v | b in bs && NewVersion(s, b, v)
      ensures v in u.versions && u.versions[v] == BranchRecord(s.majors, b)
    {
      if b in bs[1..] {
        OtherMajorSame(s, t, bs[0].major, b);
        assert NewVersion(t, b, v);
      }
    }
    forall v | v in u.versions && v !in s.versions
      ensures exists b :: b in bs && NewVersion(s, b, v)
    {
      if v in t.versions {
        assert bs[0] in bs && NewVersion(s, bs[0], v);
      } else {
        var b :| b in bs[1..] && NewVersion(t, b, v);
        OtherMajorSame(s, t, bs[0].major, b);
        assert b in bs && NewVersion(s, b, v);
      }
    }
  }

  lemma {:induction false} SelectionObserved(s: Registry, bs: seq<Selected>, created: seq<Job>)
    requires ValidRegistry(s) && SafeSelection(s, bs)
    ensures ObserveBranches(s, bs, created).result.Ok? <==> forall b :: b in bs ==> BranchInputsValid(b)
    ensures ObserveBranches(s, bs, created).result.Ok? ==>
              && MajorsObserved(s, bs, ObserveBranches(s, bs, created).state)
              && VersionsObserved(s, bs, ObserveBranches(s, bs, created).state)
    decreases |bs|
  {
    if bs != [] {
      var first := ObserveBranch(s, bs[0]);
      ObserveBranchValid(s, bs[0]);
      ObserveBranchEffect(s, bs[0]);
      assert bs == [bs[0]] + bs[1..];
      if first.result.Ok? {
        var more := created + first.result.value;
        SafeSelectionRest(s, first.state, bs);
        SelectionObserved(first.state, bs[1..], more);
        var u := ObserveBranches(first.state, bs[1..], more);
        if u.result.Ok? {
          OneMajorObserved(s, bs[0]);
          OneVersionObserved(s, bs[0]);
          MajorsCompose(s, bs, first.state, u.state);
          VersionsCompose(s, bs, first.state, u.state);
        }
      }
    }
  }

  // ----- two orders ------------------------------------------------------------------------

  ghost predicate SameElements<T(!new)>(xs: seq<T>, ys: seq<T>) {
    forall x :: x in xs <==> x in ys
  }

  lemma MajorsExtensional(ms: Majors, ns: Majors)
    requires NoEmptyMajors(ms) && NoEmptyMajors(ns)
    requires forall m :: ForMajor(ms, m) == ForMajor(ns, m)
    ensures ms == ns
  {
    forall m
      ensures m in ms <==> m in ns
      ensures m in ms ==> ms[m] == ns[m]
    {
      assert ForMajor(ms, m) == ForMajor(ns, m);
    }
  }

  lemma SameMajors(s: Registry, bs: seq<Selected>, cs: seq<Selected>, t: Registry, u: Registry)
    requires SameElements(bs, cs) && MajorsObserved(s, bs, t) && MajorsObserved(s, cs, u)
    requires NoEmptyMajors(t.majors) && NoEmptyMajors(u.majors)
    ensures t.majors == u.majors
  {
    forall m
      ensures ForMajor(t.majors, m) == ForMajor(u.majors, m)
    {
      if HasMajor(bs, m) {
        var b :| b in bs && b.major == m;
        assert b in cs;
      } else {
        assert !HasMajor(cs, m);
      }
    }
    MajorsExtensional(t.majors, u.majors);
  }

  lemma VersionsIncluded(s: Registry, bs: seq<Selected>, cs: seq<Selected>, t: Registry, u: Registry)
    requires SameElements(bs, cs) && VersionsObserved(s, bs, t) && VersionsObserved(s, cs, u)
    ensures forall v :: v in t.versions ==> v in u.versions && t.versions[v] == u.versions[v]
  {
    forall v | v in t.versions
      ensures v in u.versions && t.versions[v] == u.versions[v]
    {
      if v !in s.versions {
        var b :| b in bs && NewVersion(s, b, v);
        assert b in cs;
      }
    }
  }

  lemma SameVersions(s: Registry, bs: seq<Selected>, cs: seq<Selected>, t: Registry, u: Registry)
    requires SameElements(bs, cs) && VersionsObserved(s, bs, t) && VersionsObserved(s, cs, u)
    ensures t.versions == u.versions
  {
    VersionsIncluded(s, bs, cs, t, u);
    VersionsIncluded(s, cs, bs, u, t);
  }

  lemma HighestUnique(o: Option<int>, p: Option<int>, prior: Option<int>, branches: seq<Branch>)
    requires IsHighest(o, prior, branches) && IsHighest(p, prior, branches)
    ensures o == p
  {
  }

  /** Selecting from the same branches in another order selects the same. */
  lemma SelectAnyOrder(d: Discovery, e: Discovery, prior: BranchState)
    requires UniqueNames(d.branches) && UniqueNames(e.branches)
    requires d.defaultBranch == e.defaultBranch && SameElements(d.branches, e.branches)
    ensures Select(d, prior).Ok? <==> Select(e, prior).Ok?
    ensures Select(d, prior).Ok? ==>
              && Select(d, prior).value.state == Select(e, prior).value.state
              && SameElements(Select(d, prior).value.branches, Select(e, prior).value.branches)
  {
    TipOfEntry(d.branches, d.defaultBranch);
    TipOfEntry(e.branches, e.defaultBranch);
    assert forall tip :: TipOf(d.branches, d.defaultBranch) == Some(tip) <==> TipOf(e.branches, d.defaultBranch) == Some(tip);
    if Select(d, prior).Ok? {
      var tip := TipOf(d.branches, d.defaultBranch).value;
      assert TipOf(e.branches, d.defaultBranch) == Some(tip);
    }
    if Select(e, prior).Ok? {
      var tip := TipOf(e.branches, d.defaultBranch).value;
      assert TipOf(d.branches, d.defaultBranch) == Some(tip);
    }
    ReleasesAnyOrder(d.branches, e.branches);
    ObservedIsHighest(d.branches, prior.highest);
    ObservedIsHighest(e.branches, prior.highest);
    HighestAnyOrder(Observed(e.branches, prior.highest), prior.highest, d.branches, e.branches);
    HighestUnique(Observed(d.branches, prior.highest), Observed(e.branches, prior.highest), prior.highest, d.branches);
  }

  lemma HighestAnyOrder(o: Option<int>, prior: Option<int>, bs: seq<Branch>, cs: seq<Branch>)
    requires SameElements(bs, cs) && IsHighest(o, prior, cs)
    ensures IsHighest(o, prior, bs)
  {
    if o.Some? && o != prior {
      var b :| b in cs && ReleaseMajor(b.name) == o;
      assert b in bs;
    }
  }

  lemma ReleasesAnyOrder(bs: seq<Branch>, cs: seq<Branch>)
    requires SameElements(bs, cs)
    ensures SameElements(Releases(bs), Releases(cs))
    ensures forall sha :: CoversSha(Releases(bs), sha) <==> CoversSha(Releases(cs), sha)
  {
    ReleasesExactly(bs);
    ReleasesExactly(cs);
    forall s
      ensures s in Releases(bs) <==> s in Releases(cs)
    {
      assert IsRelease(bs, s) <==> IsRelease(cs, s);
    }
    forall sha
      ensures CoversSha(Releases(bs), sha) <==> CoversSha(Releases(cs), sha)
    {
      CoversElement(Releases(bs), sha);
      CoversElement(Releases(cs), sha);
    }
  }

  lemma CoversElement(selected: seq<Selected>, sha: string)
    ensures CoversSha(selected, sha) <==> exists s :: s in selected && s.tip.sha == sha
  {
    if exists s :: s in selected && s.tip.sha == sha {
      var s :| s in selected && s.tip.sha == sha;
      var i :| 0 <= i < |selected| && selected[i] == s;
    }
  }

  /**
   * Listing the branches in another order changes neither whether a refresh succeeds nor the
   * allocated rows, the version records or the branch state it leaves.
   */
  lemma RefreshIgnoresOrder(s: Registry, d: Discovery, e: Discovery)
    requires ValidRegistry(s) && SafeRegistry(s) && UniqueNames(d.branches) && UniqueNames(e.branches)
    requires d.defaultBranch == e.defaultBranch && SameElements(d.branches, e.branches)
    ensures RefreshStep(s, d).result.Ok? <==> RefreshStep(s, e).result.Ok?
    ensures RefreshStep(s, d).result.Ok? ==>
              RefreshStep(s, d).state == RefreshStep(s, e).state.(order := RefreshStep(s, d).state.order)
  {
    SelectAnyOrder(d, e, s.branches);
    if Select(d, s.branches).Ok? {
      var bs, cs := Select(d, s.branches).value.branches, Select(e, s.branches).value.branches;
      var s1 := s.(branches := Select(d, s.branches).value.state);
      SelectionIsSafe(s, d);
      SelectionIsSafe(s, e);
      SelectionObserved(s1, bs, []);
      SelectionObserved(s1, cs, []);
      if RefreshStep(s, d).result.Ok? {
        var t, u := RefreshStep(s, d).state, RefreshStep(s, e).state;
        RefreshValid(s, d);
        RefreshValid(s, e);
        ObserveBranchesEffect(s1, bs, []);
        ObserveBranchesEffect(s1, cs, []);
        SameMajors(s1, bs, cs, t, u);
        SameVersions(s1, bs, cs, t, u);
      }
    }
  }
}
