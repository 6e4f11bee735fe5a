/**
 * Import-map elimination (materializer/src/import_rewrite.rs): the rewriter replaces each module
 * specifier so that resolving it without the import map gives what the map gave before.
 */
module ImportRewrite {
  import opened Common
  import opened Text

  // ----- resolution ------------------------------------------------------------------------

  /** The path of a URL, or a specifier that is no path: a bare name or an absolute URL. */
  datatype Resolution = Path(segments: seq<string>) | Literal(specifier: string)

  function Pop(path: seq<string>): seq<string> {
    if path == [] then [] else path[..|path| - 1]
  }

  /** Dot segments removed from `segments` merged onto `path` (section 5.2.4 of RFC 3986). */
  function Normal(path: seq<string>, segments: seq<string>): seq<string>
    decreases |segments|
  {
    if segments == [] then path
    else
      var ending := if |segments| == 1 then [""] else [];
      Normal(
        if segments[0] == ".." then Pop(path) + ending
        else if segments[0] == "." then path + ending
        else path + [segments[0]],
        segments[1..])
  }

  predicate IsRelative(specifier: string) {
    StartsWith(specifier, "./") || StartsWith(specifier, "../")
  }

  /** Resolving a specifier in a module whose URL has the given directory, with no import map. */
  function Resolve(directory: seq<string>, specifier: string): Resolution {
    if IsRelative(specifier) then Path(Normal(directory, Split(specifier, '/')))
    else if StartsWith(specifier, "/") then Path(Normal([], Split(specifier[1..], '/')))
    else Literal(specifier)
  }

  // ----- import maps -----------------------------------------------------------------------

  datatype Alias = Alias(alias: string, target: string)

  /** Code-point order. */
  predicate Before(s: string, t: string) {
    t != "" && (s == "" || s[0] < t[0] || (s[0] == t[0] && Before(s[1..], t[1..])))
  }

  /** A `BTreeMap`'s entries: in strictly increasing order of alias. */
  ghost predicate Sorted(imports: seq<Alias>) {
    forall i, j :: 0 <= i < j < |imports| ==> Before(imports[i].alias, imports[j].alias)
  }

  /** What remains of the specifier after the alias, if the alias applies. */
  function Suffix(alias: string, specifier: string): Option<string> {
    if EndsWith(alias, "/") then
      if StartsWith(specifier, alias) then Some(specifier[|alias|..]) else None
    else if specifier == alias then Some("") else None
  }

  /** The import map standard's choice: the greatest applicable alias in code-point order. */
  function MapMatch(imports: seq<Alias>, specifier: string): Option<Alias> {
    if imports == [] then None
    else
      var last := imports[|imports| - 1];
      if Suffix(last.alias, specifier).Some? then Some(last) else MapMatch(imports[..|imports| - 1], specifier)
  }

  /**
   * Resolving with the map in a directory of the package at `root`: a target is relative to the
   * root, where the map is.
   */
  function ResolveMapped(imports: seq<Alias>, root: seq<string>, directory: seq<string>, specifier: string)
    : Resolution
  {
    match MapMatch(imports, specifier)
    case None => Resolve(root + directory, specifier)
    case Some(entry) =>
      if Suffix(entry.alias, specifier).None? then Resolve(root + directory, specifier)
      else Resolve(root, entry.target + Suffix(entry.alias, specifier).value)
  }

  // ----- the rewriter ----------------------------------------------------------------------

  /** The longest applicable alias; of two equally long, the later. */
  function Candidate(imports: seq<Alias>, specifier: string): Option<Alias> {
    if imports == [] then None
    else
      var last := imports[|imports| - 1];
      var best := Candidate(imports[..|imports| - 1], specifier);
      if Suffix(last.alias, specifier).Some? && (best.None? || |last.alias| >= |best.value.alias|) then Some(last)
      else best
  }

  /** How many leading components two paths share. */
  function Shared(s: seq<string>, t: seq<string>): (k: nat)
    ensures k <= |s| && k <= |t| && s[..k] == t[..k]
    ensures k < |s| && k < |t| ==> s[k] != t[k]
  {
    if s == [] || t == [] || s[0] != t[0] then 0
    else
      var k := Shared(s[1..], t[1..]);
      assert s[..k + 1] == [s[0]] + s[1..][..k] && t[..k + 1] == [t[0]] + t[1..][..k];
      k + 1
  }

  function Ups(n: nat): (r: seq<string>)
    ensures |r| == n && forall i :: 0 <= i < n ==> r[i] == ".."
  {
    seq(n, _ => "..")
  }

  /** The components that lead from `directory` to `target`. */
  function RelativeComponents(directory: seq<string>, target: seq<string>): seq<string> {
    var k := Shared(directory, target);
    Ups(|directory| - k) + target[k..]
  }

  function Directory(sourcePath: string): seq<string> {
    var source := Split(sourcePath, '/');
    source[..|source| - 1]
  }

  function Specifier(components: seq<string>): string {
    var value := Join(components, '/');
    if StartsWith(value, "..") then value else "./" + value
  }

  function RelativeSpecifier(sourcePath: string, targetPath: string): string {
    Specifier(RelativeComponents(Directory(sourcePath), Split(targetPath, '/')))
  }

  function Rewrite(sourcePath: string, imports: seq<Alias>, specifier: string): string {
    match Candidate(imports, specifier)
    case None => specifier
    case Some(entry) =>
      if Suffix(entry.alias, specifier).None? then specifier
      else
        var suffix := Suffix(entry.alias, specifier).value;
        if StartsWith(entry.target, "./") then RelativeSpecifier(sourcePath, entry.target[2..] + suffix)
        else entry.target + suffix
  }

  // ----- longest and greatest alias --------------------------------------------------------

  lemma {:induction false} PrefixNotAfter(prefix: string, s: string)
    requires prefix <= s
    ensures !Before(s, prefix)
  {
    if prefix != "" {
      PrefixNotAfter(prefix[1..], s[1..]);
    }
  }

  lemma ApplicableAreOrdered(shorter: string, longer: string, specifier: string)
    requires Suffix(shorter, specifier).Some? && Suffix(longer, specifier).Some? && Before(shorter, longer)
    ensures |shorter| < |longer|
  {
    ApplicableIsPrefix(shorter, specifier);
    ApplicableIsPrefix(longer, specifier);
    if longer <= shorter {
      PrefixNotAfter(longer, shorter);
    }
  }

  lemma ApplicableIsPrefix(alias: string, specifier: string)
    requires Suffix(alias, specifier).Some?
    ensures alias <= specifier && specifier == alias + Suffix(alias, specifier).value
  {
  }

  lemma {:induction false} CandidateApplies(imports: seq<Alias>, specifier: string)
    ensures Candidate(imports, specifier).Some? ==>
              && Suffix(Candidate(imports, specifier).value.alias, specifier).Some?
              && exists i :: 0 <= i < |imports| && imports[i] == Candidate(imports, specifier).value
  {
    if imports != [] {
      CandidateApplies(imports[..|imports| - 1], specifier);
    }
  }

  /** Of the applicable aliases, the longest is the greatest: they are prefixes of one string. */
  lemma {:induction false} CandidateIsMapMatch(imports: seq<Alias>, specifier: string)
    requires Sorted(imports)
    ensures Candidate(imports, specifier) == MapMatch(imports, specifier)
  {
    if imports != [] {
      var front, last := imports[..|imports| - 1], imports[|imports| - 1];
      CandidateIsMapMatch(front, specifier);
      CandidateApplies(front, specifier);
      var best := Candidate(front, specifier);
      if Suffix(last.alias, specifier).Some? && best.Some? {
        var i :| 0 <= i < |front| && front[i] == best.value;
        assert Before(imports[i].alias, last.alias);
        ApplicableAreOrdered(best.value.alias, last.alias, specifier);
      }
    }
  }

  // ----- what the map means ----------------------------------------------------------------

  /** The texts agree up to `k`; there `s` ends and `t` goes on, or `t` has the greater character. */
  ghost predicate LessAt(s: string, t: string, k: nat) {
    k <= |s| && k < |t| && s[..k] == t[..k] && (k == |s| || s[k] < t[k])
  }

  lemma LessAtTail(s: string, t: string, k: nat)
    requires s != "" && t != "" && s[0] == t[0]
    ensures LessAt(s, t, k + 1) <==> LessAt(s[1..], t[1..], k)
    ensures !LessAt(s, t, 0)
  {
    if k < |s| && k < |t| {
      assert s[..k + 1] == [s[0]] + s[1..][..k] && t[..k + 1] == [t[0]] + t[1..][..k];
      assert s[1..][..k] == s[..k + 1][1..] && t[1..][..k] == t[..k + 1][1..];
    }
  }

  lemma LessAtHead(s: string, t: string, k: nat)
    requires s == "" || t == "" || s[0] != t[0]
    ensures LessAt(s, t, k) <==> k == 0 && t != "" && (s == "" || s[0] < t[0])
  {
    if 0 < k <= |s| && k < |t| {
      assert s[..k][0] == s[0] && t[..k][0] == t[0];
    }
  }

  /** Code-point order is decided at the first difference. */
  lemma {:induction false} BeforeExactly(s: string, t: string)
    ensures Before(s, t) <==> exists k: nat :: LessAt(s, t, k)
  {
    if s != "" && t != "" && s[0] == t[0] {
      BeforeExactly(s[1..], t[1..]);
      if k: nat :| LessAt(s[1..], t[1..], k) {
        LessAtTail(s, t, k);
      }
      if k: nat :| LessAt(s, t, k) {
        LessAtTail(s, t, 0);
        LessAtTail(s, t, k - 1);
      }
    } else {
      LessAtHead(s, t, 0);
      if k: nat :| LessAt(s, t, k) {
        LessAtHead(s, t, k);
      }
    }
  }

  /** The alias is the specifier, or a prefix of it that ends with a slash. */
  ghost predicate Applies(alias: string, specifier: string) {
    specifier == alias || (alias != "" && alias[|alias| - 1] == '/' && alias <= specifier)
  }

  lemma SuffixExactly(alias: string, specifier: string)
    ensures Suffix(alias, specifier).Some? <==> Applies(alias, specifier)
    ensures Applies(alias, specifier) ==> Suffix(alias, specifier) == Some(specifier[|alias|..])
  {
    assert EndsWith(alias, "/") <==> alias != "" && alias[|alias| - 1] == '/';
    assert specifier == alias ==> specifier[|alias|..] == "";
  }

  /** The `k`-th alias applies, and every other that does is less in code-point order. */
  ghost predicate GreatestAt(imports: seq<Alias>, specifier: string, k: nat) {
    && k < |imports| && Applies(imports[k].alias, specifier)
    && forall i :: 0 <= i < |imports| && i != k && Applies(imports[i].alias, specifier) ==>
                     Before(imports[i].alias, imports[k].alias)
  }

  lemma GreatestInFront(imports: seq<Alias>, specifier: string, k: nat)
    requires imports != [] && !Applies(imports[|imports| - 1].alias, specifier)
    requires GreatestAt(imports[..|imports| - 1], specifier, k)
    ensures GreatestAt(imports, specifier, k)
  {
    var front := imports[..|imports| - 1];
    assert forall i :: 0 <= i < |front| ==> front[i] == imports[i];
  }

  /**
   * The map's choice is the applicable alias that is greatest in code-point order, and there is
   * none exactly when no alias is the specifier or a prefix of it up to a slash.
   */
  lemma {:induction false} MatchIsGreatest(imports: seq<Alias>, specifier: string)
    requires Sorted(imports)
    ensures MapMatch(imports, specifier) == None <==>
            forall i :: 0 <= i < |imports| ==> !Applies(imports[i].alias, specifier)
    ensures MapMatch(imports, specifier).Some? ==>
              exists k: nat :: GreatestAt(imports, specifier, k) && imports[k] == MapMatch(imports, specifier).value
  {
    if imports != [] {
      var n := |imports| - 1;
      var front, last := imports[..n], imports[n];
      assert forall i :: 0 <= i < n ==> front[i] == imports[i];
      SuffixExactly(last.alias, specifier);
      if Applies(last.alias, specifier) {
        assert GreatestAt(imports, specifier, n);
      } else {
        MatchIsGreatest(front, specifier);
        if MapMatch(front, specifier).Some? {
          var k: nat :| GreatestAt(front, specifier, k) && front[k] == MapMatch(front, specifier).value;
          GreatestInFront(imports, specifier, k);
        }
      }
    }
  }

  lemma {:induction false} BeforeAsymmetric(s: string, t: string)
    requires Before(s, t)
    ensures !Before(t, s)
  {
    if s != "" && s[0] == t[0] {
      BeforeAsymmetric(s[1..], t[1..]);
    }
  }

  lemma GreatestIsMatch(imports: seq<Alias>, specifier: string, k: nat)
    requires Sorted(imports) && GreatestAt(imports, specifier, k)
    ensures MapMatch(imports, specifier) == Some(imports[k])
    ensures Suffix(imports[k].alias, specifier) == Some(specifier[|imports[k].alias|..])
  {
    SuffixExactly(imports[k].alias, specifier);
    MatchIsGreatest(imports, specifier);
    var i: nat :| GreatestAt(imports, specifier, i) && imports[i] == MapMatch(imports, specifier).value;
    if i != k {
      BeforeAsymmetric(imports[i].alias, imports[k].alias);
    }
  }

  /** With the greatest applicable alias, the map resolves its target and what remains after it. */
  lemma MappedToTarget(imports: seq<Alias>, root: seq<string>, directory: seq<string>, specifier: string, k: nat)
    requires Sorted(imports) && GreatestAt(imports, specifier, k)
    ensures ResolveMapped(imports, root, directory, specifier)
         == Resolve(root, imports[k].target + specifier[|imports[k].alias|..])
  {
    GreatestIsMatch(imports, specifier, k);
  }

  /** The rewriter names just that in its place; a target below the root, relative to the source. */
  lemma RewrittenToTarget(sourcePath: string, imports: seq<Alias>, specifier: string, k: nat)
    requires Sorted(imports) && GreatestAt(imports, specifier, k)
    ensures var target, rest := imports[k].target, specifier[|imports[k].alias|..];
            && (!("./" <= target) ==> Rewrite(sourcePath, imports, specifier) == target + rest)
            && ("./" <= target ==>
                  Rewrite(sourcePath, imports, specifier) == RelativeSpecifier(sourcePath, target[2..] + rest))
  {
    GreatestIsMatch(imports, specifier, k);
    CandidateIsMapMatch(imports, specifier);
  }

  /** Where no alias applies, the specifier stays as it is and means what it did. */
  lemma UnmappedStays(sourcePath: string, imports: seq<Alias>, root: seq<string>, specifier: string)
    requires Sorted(imports) && forall i :: 0 <= i < |imports| ==> !Applies(imports[i].alias, specifier)
    ensures Rewrite(sourcePath, imports, specifier) == specifier
    ensures ResolveMapped(imports, root, Directory(sourcePath), specifier)
         == Resolve(root + Directory(sourcePath), specifier)
  {
    MatchIsGreatest(imports, specifier);
    CandidateIsMapMatch(imports, specifier);
  }

  /** How plain paths resolve: from a directory, from the URL's root, and from the parent. */
  lemma PlainPathResolves(directory: seq<string>, components: seq<string>)
    requires |components| >= 1 && PlainDirectory(components)
    ensures Resolve(directory, "./" + Join(components, '/')) == Path(directory + components)
  {
    DotSlashResolves(directory, components);
    NormalOfPlain(directory, components);
  }

  lemma AbsolutePathResolves(directory: seq<string>, components: seq<string>)
    requires |components| >= 1 && PlainDirectory(components)
    ensures Resolve(directory, "/" + Join(components, '/')) == Path(components)
  {
    NormalOfPlain([], components);
    SplitJoin(components, '/');
    AfterSlash(directory, Join(components, '/'));
    assert [] + components == components;
  }

  lemma AfterSlash(directory: seq<string>, path: string)
    ensures Resolve(directory, "/" + path) == Path(Normal([], Split(path, '/')))
  {
    var absolute := "/" + path;
    assert absolute[1..] == path && absolute[0] == '/' && absolute[..1] == "/";
    assert !StartsWith(absolute, "./") && !StartsWith(absolute, "../");
  }

  lemma ParentPathResolves(directory: seq<string>, components: seq<string>)
    requires |components| >= 1 && PlainDirectory(components)
    ensures Resolve(directory, "../" + Join(components, '/'))
         == Path((if directory == [] then [] else directory[..|directory| - 1]) + components)
  {
    NormalOfPlain(Pop(directory), components);
    SplitJoin(components, '/');
    ParentSlash(Join(components, '/'));
    assert ([".."] + components)[1..] == components && Pop(directory) + [] == Pop(directory);
  }

  /** A name that begins with neither dot nor slash is no path. */
  lemma BareIsLiteral(directory: seq<string>, bare: string)
    requires bare == "" || (bare[0] != '.' && bare[0] != '/')
    ensures Resolve(directory, bare) == Literal(bare)
  {
  }

  lemma ParentSlash(value: string)
    ensures Split("../" + value, '/') == [".."] + Split(value, '/') && IsRelative("../" + value)
  {
    FirstSeparator("..", '/', value);
    assert "../" + value == ".." + ['/'] + value;
    assert ("../" + value)[..2] == ".." && ("../" + value)[3..] == value && ("../" + value)[..3] == "../";
  }

  // ----- relative specifiers ---------------------------------------------------------------

  predicate IsPlainComponent(component: string) {
    component != "" && component != "." && component != ".." && '/' !in component
  }

  /** A directory of the package: components without dots, as archive paths have. */
  ghost predicate PlainDirectory(directory: seq<string>) {
    forall i :: 0 <= i < |directory| ==> IsPlainComponent(directory[i])
  }

  lemma {:induction false} NormalUps(path: seq<string>, n: nat, rest: seq<string>)
    requires n <= |path| && rest != []
    ensures Normal(path, Ups(n) + rest) == Normal(path[..|path| - n], rest)
    decreases n
  {
    if n == 0 {
      assert Ups(0) + rest == rest;
      assert path[..|path|] == path;
    } else {
      assert (Ups(n) + rest)[1..] == Ups(n - 1) + rest;
      NormalUps(Pop(path), n - 1, rest);
      assert Pop(path) + [] == Pop(path);
      assert Pop(path)[..|path| - n] == path[..|path| - n];
    }
  }

  lemma {:induction false} NormalOnlyUps(path: seq<string>, n: nat)
    requires 1 <= n <= |path|
    ensures Normal(path, Ups(n)) == path[..|path| - n] + [""]
  {
    assert Ups(n) == Ups(n - 1) + [".."];
    NormalUps(path, n - 1, [".."]);
    var left := path[..|path| - (n - 1)];
    assert Pop(left) == path[..|path| - n];
    assert [".."][1..] == [];
  }

  lemma {:induction false} NormalPlain(path: seq<string>, plain: seq<string>, rest: seq<string>)
    requires PlainDirectory(plain)
    ensures Normal(path, plain + rest) == Normal(path + plain, rest)
    decreases |plain|
  {
    if plain == [] {
      assert plain + rest == rest && path + plain == path;
    } else {
      assert (plain + rest)[1..] == plain[1..] + rest;
      NormalPlain(path + [plain[0]], plain[1..], rest);
      assert path + [plain[0]] + plain[1..] == path + plain;
    }
  }

  lemma SharedBelow(root: seq<string>, directory: seq<string>, target: seq<string>, k: nat)
    requires k <= |directory| && k <= |target| && directory[..k] == target[..k]
    ensures (root + directory)[..|root + directory| - (|directory| - k)] == root + target[..k]
    ensures target == target[..k] + target[k..]
  {
    assert (root + directory)[..|root| + k] == root + directory[..k];
  }

  /** Climbing out of what is not shared and down the rest of the target arrives at the target. */
  lemma ComponentsLeadToTarget(root: seq<string>, directory: seq<string>, target: seq<string>)
    requires PlainDirectory(directory) && Shared(directory, target) < |target|
    ensures Normal(root + directory, RelativeComponents(directory, target)) == Normal(root, target)
  {
    var k := Shared(directory, target);
    SharedBelow(root, directory, target, k);
    NormalUps(root + directory, |directory| - k, target[k..]);
    NormalPlain(root, target[..k], target[k..]);
  }

  lemma JoinBegins(components: seq<string>)
    requires |components| >= 1
    ensures components[0] <= Join(components, '/')
    ensures |components| == 1 ==> Join(components, '/') == components[0]
    ensures |components| >= 2 ==>
              |Join(components, '/')| > |components[0]| && Join(components, '/')[|components[0]|] == '/'
  {
    if |components| >= 2 {
      assert Join(components, '/') == components[0] + ['/'] + Join(components[1..], '/');
    }
  }

  lemma StartOfPrefix(first: string, value: string)
    requires first <= value && '/' !in first
    requires |first| < |value| ==> value[|first|] == '/'
    ensures StartsWith(value, "..") <==> StartsWith(first, "..")
    ensures StartsWith(first, "..") ==> (IsRelative(value) <==> first == ".." && |value| > 2)
  {
    assert forall i :: 0 <= i < |first| ==> value[i] == first[i] && first[i] in first;
    if |first| >= 2 {
      assert value[..2] == first[..2];
      if |value| >= 3 {
        assert value[..3] == value[..2] + [value[2]];
      }
    }
  }

  /** When the joined components begin with dots, and when they are then a relative specifier. */
  lemma JoinStart(components: seq<string>)
    requires |components| >= 1 && Unslashed(components)
    ensures StartsWith(Join(components, '/'), "..") <==> StartsWith(components[0], "..")
    ensures StartsWith(components[0], "..") ==>
              (IsRelative(Join(components, '/')) <==> components[0] == ".." && |components| >= 2)
  {
    JoinBegins(components);
    StartOfPrefix(components[0], Join(components, '/'));
  }

  lemma SplitDotSlash(value: string)
    ensures Split("./" + value, '/') == ["."] + Split(value, '/')
  {
    FirstSeparator(".", '/', value);
    assert "./" + value == "." + ['/'] + value;
    assert ("./" + value)[..1] == "." && ("./" + value)[2..] == value;
  }

  lemma DotSlashResolves(directory: seq<string>, components: seq<string>)
    requires |components| >= 1 && Unslashed(components)
    ensures Resolve(directory, "./" + Join(components, '/')) == Path(Normal(directory, components))
  {
    SplitDotSlash(Join(components, '/'));
    SplitJoin(components, '/');
    assert (["."] + components)[1..] == components;
    assert directory + [] == directory;
  }

  /** What a specifier made of components resolves to. */
  lemma SpecifierResolves(directory: seq<string>, components: seq<string>)
    requires |components| >= 1 && Unslashed(components)
    ensures Resolve(directory, Specifier(components))
         == if StartsWith(components[0], "..") && (components[0] != ".." || |components| == 1)
            then Literal(Join(components, '/'))
            else Path(Normal(directory, components))
  {
    JoinStart(components);
    if StartsWith(components[0], "..") {
      SplitJoin(components, '/');
    } else {
      DotSlashResolves(directory, components);
    }
  }

  /**
   * The target can be named relative to the directory: it is not a prefix of the directory, and
   * where it continues the directory it does not do so with `..` alone or a name beginning so.
   */
  predicate Nameable(directory: seq<string>, target: seq<string>) {
    var k := Shared(directory, target);
    && k < |target|
    && (k == |directory| && StartsWith(target[k], "..") ==> target[k] == ".." && |target| > k + 1)
  }

  lemma RelativeUnslashed(directory: seq<string>, target: seq<string>)
    requires Unslashed(target)
    ensures Unslashed(RelativeComponents(directory, target))
  {
  }

  lemma NameableResolves(root: seq<string>, directory: seq<string>, target: seq<string>)
    requires PlainDirectory(directory) && Unslashed(target) && Nameable(directory, target)
    ensures Resolve(root + directory, Specifier(RelativeComponents(directory, target))) == Path(Normal(root, target))
  {
    RelativeUnslashed(directory, target);
    ComponentsLeadToTarget(root, directory, target);
    SpecifierResolves(root + directory, RelativeComponents(directory, target));
  }

  lemma DottedNameMisses(root: seq<string>, directory: seq<string>, target: seq<string>)
    requires Unslashed(target) && Shared(directory, target) < |target| && !Nameable(directory, target)
    ensures Resolve(root + directory, Specifier(RelativeComponents(directory, target))).Literal?
  {
    RelativeUnslashed(directory, target);
    SpecifierResolves(root + directory, RelativeComponents(directory, target));
  }

  lemma PrefixMisses(root: seq<string>, directory: seq<string>, target: seq<string>)
    requires PlainDirectory(directory) && |target| >= 1 && Shared(directory, target) == |target|
    ensures Resolve(root + directory, Specifier(RelativeComponents(directory, target))) != Path(Normal(root, target))
  {
    var n := |directory| - |target|;
    assert directory[..|target|] == target;
    assert RelativeComponents(directory, target) == Ups(n);
    NormalOfPlain(root, target);
    if n == 0 {
      CurrentDirectory(root + directory);
      assert |root + directory + [""]| > |root + target|;
    } else {
      SpecifierResolves(root + directory, Ups(n));
      if n >= 2 {
        NormalOnlyUps(root + directory, n);
        assert |(root + directory)[..|root + directory| - n] + [""]| > |root + target|;
      }
    }
  }

  lemma NormalOfPlain(root: seq<string>, target: seq<string>)
    requires PlainDirectory(target)
    ensures Normal(root, target) == root + target
  {
    NormalPlain(root, target, []);
    assert target + [] == target;
  }

  lemma CurrentDirectory(directory: seq<string>)
    ensures Resolve(directory, Specifier([])) == Path(directory + [""])
  {
    assert Join([""], '/') == "" && Join([], '/') == "";
    DotSlashResolves(directory, [""]);
    assert [""][1..] == [];
  }

  /**
   * `relative_specifier` inverts resolution exactly on the nameable targets: resolved in the
   * source's directory it gives the target with its dot segments removed, `..` included, wherever
   * the package is rooted.
   */
  lemma RelativeSpecifierResolves(root: seq<string>, sourcePath: string, targetPath: string)
    requires PlainDirectory(Directory(sourcePath))
    ensures Nameable(Directory(sourcePath), Split(targetPath, '/')) <==>
            (Resolve(root + Directory(sourcePath), RelativeSpecifier(sourcePath, targetPath))
             == Path(Normal(root, Split(targetPath, '/'))))
  {
    var directory, target := Directory(sourcePath), Split(targetPath, '/');
    assert forall i :: 0 <= i < |target| ==> target[i] in target;
    if Nameable(directory, target) {
      NameableResolves(root, directory, target);
    } else if Shared(directory, target) == |target| {
      PrefixMisses(root, directory, target);
    } else {
      DottedNameMisses(root, directory, target);
    }
  }
}
