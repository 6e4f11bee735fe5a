/**
 * The rewriter over whole modules: which syntax nodes hold module specifiers, and the theorem
 * that rewriting them keeps the module graph (materializer/src/import_rewrite.rs).
 */
module ImportGraph {
  import opened Common
  import opened Text
  import opened ImportRewrite

  // ----- paths that leave the directory they start in --------------------------------------

  /**
   * Whether walking `segments` from `below` components under `base` others ever uses up the base:
   * then where the base was no longer matters.
   */
  predicate ClimbsOut(base: nat, below: nat, segments: seq<string>)
    decreases |segments|
  {
    if base == 0 then true
    else if segments == [] then false
    else if segments[0] == ".." then
      if below > 0 then ClimbsOut(base, below - 1, segments[1..]) else ClimbsOut(base - 1, 0, segments[1..])
    else if segments[0] == "." then ClimbsOut(base, below, segments[1..])
    else ClimbsOut(base, below + 1, segments[1..])
  }

  lemma PopBelow(base: seq<string>, below: seq<string>, ending: seq<string>)
    ensures below != [] ==> Pop(base + below) + ending == base + (Pop(below) + ending)
    ensures below == [] ==> Pop(base + below) + ending == Pop(base) + (Pop(below) + ending)
  {
    if below != [] {
      assert (base + below)[..|base + below| - 1] == base + below[..|below| - 1];
    } else {
      assert base + below == base;
    }
  }

  /** One segment of the walk: what it does above `path`, given what the last segment appends. */
  function Walked(path: seq<string>, segment: string, ending: seq<string>): seq<string> {
    if segment == ".." then Pop(path) + ending
    else if segment == "." then path + ending
    else path + [segment]
  }

  lemma NormalCons(path: seq<string>, segments: seq<string>)
    requires segments != []
    ensures Normal(path, segments)
         == Normal(Walked(path, segments[0], if |segments| == 1 then [""] else []), segments[1..])
  {
  }

  lemma WalkedBelow(base: seq<string>, below: seq<string>, segment: string, ending: seq<string>)
    requires base != []
    ensures Walked(base + below, segment, ending)
         == (if segment == ".." && below == [] then Pop(base) else base) + Walked(below, segment, ending)
  {
    PopBelow(base, below, ending);
    assert base + below + ending == base + (below + ending);
    assert base + below + [segment] == base + (below + [segment]);
  }

  /** A last segment ends the walk, at the base if that is not used up. */
  lemma ClimbsOutLast(base: nat, below: nat, segment: string)
    ensures ClimbsOut(base, below, [segment]) <==> (base == 0 || (base == 1 && segment == ".." && below == 0))
  {
    assert [segment][1..] == [];
  }

  lemma BaseRemains(base: seq<string>, path: seq<string>)
    ensures base + path == path <==> base == []
  {
    if base != [] {
      assert |base + path| > |path|;
    }
  }

  /** Paths resolve alike from a directory and from the URL's root exactly when they climb out of it. */
  lemma {:induction false} ResolveAtRoot(base: seq<string>, below: seq<string>, segments: seq<string>)
    ensures Normal(base + below, segments) == Normal(below, segments) <==> ClimbsOut(|base|, |below|, segments)
    decreases |segments|
  {
    if base == [] {
      assert base + below == below;
    } else if segments == [] {
      BaseRemains(base, below);
    } else {
      var ending := if |segments| == 1 then [""] else [];
      var rest := if segments[0] == ".." && below == [] then Pop(base) else base;
      var next := Walked(below, segments[0], ending);
      NormalCons(base + below, segments);
      NormalCons(below, segments);
      WalkedBelow(base, below, segments[0], ending);
      if |segments| == 1 {
        assert segments == [segments[0]];
        ClimbsOutLast(|base|, |below|, segments[0]);
        BaseRemains(rest, next);
      } else {
        assert Pop(below) + [] == Pop(below) && below + [] == below;
        ResolveAtRoot(rest, next, segments[1..]);
      }
    }
  }

  /** One segment that does not climb out of `root`: both paths change by the same. */
  lemma ClimbTogether(root: seq<string>, directory: seq<string>)
    requires root != [] && directory != []
    ensures Pop(root + directory) == Pop(root) + ([root[|root| - 1]] + Pop(directory))
  {
    assert root == Pop(root) + [root[|root| - 1]];
    assert Pop(root + directory) == root + Pop(directory);
  }

  /**
   * Paths resolve alike from a directory of the package and from the package's root exactly when
   * the directory is the root or they climb out of the whole URL.
   */
  lemma {:induction false} ResolveAlike(root: seq<string>, directory: seq<string>, below: seq<string>,
                                        segments: seq<string>)
    ensures Normal(root + directory + below, segments) == Normal(root + below, segments) <==>
            (directory == [] || ClimbsOut(|root| + |directory|, |below|, segments))
    decreases |segments|
  {
    if directory == [] {
      assert root + directory == root;
    } else if root == [] {
      assert root + directory == directory && root + below == below;
      ResolveAtRoot(directory, below, segments);
    } else if segments == [] {
      assert |root + directory + below| > |root + below|;
    } else {
      var ending := if |segments| == 1 then [""] else [];
      var next := Walked(below, segments[0], ending);
      NormalCons(root + directory + below, segments);
      NormalCons(root + below, segments);
      WalkedBelow(root + directory, below, segments[0], ending);
      WalkedBelow(root, below, segments[0], ending);
      ClimbTogether(root, directory);
      if |segments| == 1 {
        assert segments == [segments[0]];
        ClimbsOutLast(|root| + |directory|, |below|, segments[0]);
        assert |Pop(root + directory) + next| > |Pop(root) + next|;
        assert |root + directory + next| > |root + next|;
      } else if segments[0] == ".." && below == [] {
        assert Pop(below) + [] == Pop(below);
        ResolveAlike(Pop(root), [root[|root| - 1]] + Pop(directory), next, segments[1..]);
      } else {
        assert Pop(below) + [] == Pop(below) && below + [] == below;
        ResolveAlike(root, directory, next, segments[1..]);
      }
    }
  }

  // ----- one specifier ---------------------------------------------------------------------

  /**
   * Whether rewriting keeps what the specifier means in a package at `root`: it is unmapped; or
   * mapped below the package's root to a path nameable from the source; or mapped to what does not
   * depend on the source's directory, because that is the package's root, the target is no relative
   * path, or it climbs out of the whole URL.
   */
  predicate KeepsMeaning(root: seq<string>, sourcePath: string, imports: seq<Alias>, specifier: string) {
    match MapMatch(imports, specifier)
    case None => true
    case Some(entry) =>
      Suffix(entry.alias, specifier).Some? ==>
        var suffix := Suffix(entry.alias, specifier).value;
        var directory := Directory(sourcePath);
        if StartsWith(entry.target, "./") then Nameable(directory, Split(entry.target[2..] + suffix, '/'))
        else KeptAsItStands(root, directory, entry.target + suffix)
  }

  predicate KeptAsItStands(root: seq<string>, directory: seq<string>, target: string) {
    directory == [] || (IsRelative(target) ==> ClimbsOut(|root| + |directory|, 0, Split(target, '/')))
  }

  /** In a package at `root` the rewritten specifier resolves as the specifier did with the map. */
  predicate SameMeaning(root: seq<string>, sourcePath: string, imports: seq<Alias>, specifier: string,
                        rewritten: string)
  {
    Resolve(root + Directory(sourcePath), rewritten) == ResolveMapped(imports, root, Directory(sourcePath), specifier)
  }

  lemma RootedPathResolves(root: seq<string>, path: string)
    ensures Resolve(root, "./" + path) == Path(Normal(root, Split(path, '/')))
  {
    JoinSplit(path, '/');
    assert forall i :: 0 <= i < |Split(path, '/')| ==> Split(path, '/')[i] in Split(path, '/');
    DotSlashResolves(root, Split(path, '/'));
  }

  lemma DirectoryMatters(root: seq<string>, directory: seq<string>, target: string)
    ensures Resolve(root + directory, target) == Resolve(root, target) <==> KeptAsItStands(root, directory, target)
  {
    ResolveAlike(root, directory, [], Split(target, '/'));
    assert root + directory + [] == root + directory && root + [] == root;
  }

  lemma {:induction false} MatchIsEntry(imports: seq<Alias>, specifier: string)
    ensures MapMatch(imports, specifier).Some? ==>
              && Suffix(MapMatch(imports, specifier).value.alias, specifier).Some?
              && MapMatch(imports, specifier).value in imports
  {
    if imports != [] {
      MatchIsEntry(imports[..|imports| - 1], specifier);
    }
  }

  /**
   * Rewriting keeps what a specifier means exactly when the path it is mapped to can be named from
   * the source, or does not depend on where the source is; that is so wherever the package is
   * rooted, for every map and whichever aliases overlap, since the longest is the map's choice.
   */
  lemma RewriteKeepsMeaning(root: seq<string>, sourcePath: string, imports: seq<Alias>, specifier: string)
    requires Sorted(imports) && PlainDirectory(Directory(sourcePath))
    ensures KeepsMeaning(root, sourcePath, imports, specifier) <==>
            SameMeaning(root, sourcePath, imports, specifier, Rewrite(sourcePath, imports, specifier))
  {
    CandidateIsMapMatch(imports, specifier);
    MatchIsEntry(imports, specifier);
    if MapMatch(imports, specifier).Some? {
      var entry := MapMatch(imports, specifier).value;
      var suffix := Suffix(entry.alias, specifier).value;
      if StartsWith(entry.target, "./") {
        var path := entry.target[2..] + suffix;
        assert entry.target + suffix == "./" + path;
        RootedPathResolves(root, path);
        RelativeSpecifierResolves(root, sourcePath, path);
      } else {
        DirectoryMatters(root, Directory(sourcePath), entry.target + suffix);
      }
    }
  }

  lemma ParentSegments(file: string)
    requires IsPlainComponent(file)
    ensures IsRelative("../" + file) && Split("../" + file, '/') == ["..", file]
  {
    FirstSeparator("..", '/', file);
    NoSeparator(file, '/');
    var specifier := "../" + file;
    assert specifier == ".." + ['/'] + file;
    assert specifier[..3] == "../" && specifier[..2] == ".." && specifier[3..] == file;
  }

  /**
   * So a target just above the package's root is kept exactly in files at the root, unless the
   * package is at the root of the URL: then also one directory down.
   */
  lemma ParentTargetKept(root: seq<string>, sourcePath: string, name: string, file: string)
    requires PlainDirectory(Directory(sourcePath)) && !EndsWith(name, "/") && IsPlainComponent(file)
    ensures var imports := [Alias(name, "../" + file)];
            SameMeaning(root, sourcePath, imports, name, Rewrite(sourcePath, imports, name)) <==>
            (Directory(sourcePath) == [] || (root == [] && |Directory(sourcePath)| == 1))
  {
    var target := "../" + file;
    var imports := [Alias(name, target)];
    assert imports[..0] == [];
    assert target + "" == target;
    assert target[..2][1] == '.' && "./"[1] == '/';
    assert Suffix(name, name) == Some("") && MapMatch(imports, name) == Some(imports[0]);
    RewriteKeepsMeaning(root, sourcePath, imports, name);
    ParentSegments(file);
    assert ["..", file][1..] == [file];
    var depth := |root| + |Directory(sourcePath)|;
    if depth > 0 {
      ClimbsOutLast(depth - 1, 0, file);
    }
  }

  // ----- targets that cannot be named ------------------------------------------------------

  lemma DirectoryOf(directory: string, file: string)
    requires IsPlainComponent(directory) && IsPlainComponent(file)
    ensures Directory(directory + "/" + file) == [directory]
  {
    FirstSeparator(directory, '/', file);
    NoSeparator(file, '/');
    var path := directory + "/" + file;
    assert path == directory + ['/'] + file;
    assert path[..|directory|] == directory && path[|directory| + 1..] == file;
    assert Split(path, '/') == [directory] + [file];
  }

  /** The directory of the importing file is itself no nameable target. */
  lemma OwnDirectoryIsMissed(root: seq<string>, directory: string, file: string)
    requires IsPlainComponent(directory) && IsPlainComponent(file)
    ensures var source := directory + "/" + file;
            Resolve(root + Directory(source), RelativeSpecifier(source, directory))
            != Path(Normal(root, Split(directory, '/')))
  {
    var source := directory + "/" + file;
    DirectoryOf(directory, file);
    NoSeparator(directory, '/');
    assert directory[..|directory|] == directory;
    assert Split(directory, '/') == [directory];
    assert PlainDirectory([directory]);
    RelativeSpecifierResolves(root, source, directory);
  }

  /** Nor is a file in it whose name begins with two dots. */
  lemma DottedFileIsMissed(root: seq<string>, directory: string, file: string, name: string)
    requires IsPlainComponent(directory) && IsPlainComponent(file)
    requires IsPlainComponent(name) && StartsWith(name, "..")
    ensures var source, target := directory + "/" + file, directory + "/" + name;
            Resolve(root + Directory(source), RelativeSpecifier(source, target))
            != Path(Normal(root, Split(target, '/')))
  {
    var source, target := directory + "/" + file, directory + "/" + name;
    DirectoryOf(directory, file);
    DirectoryOf(directory, name);
    FirstSeparator(directory, '/', name);
    NoSeparator(name, '/');
    assert target == directory + ['/'] + name;
    assert target[..|directory|] == directory && target[|directory| + 1..] == name;
    assert Split(target, '/') == [directory] + [name];
    assert PlainDirectory([directory]);
    assert [directory][1..] == [] && ([directory] + [name])[1..] == [name];
    assert Shared([directory], [directory] + [name]) == 1;
    RelativeSpecifierResolves(root, source, target);
  }

  // ----- modules ---------------------------------------------------------------------------

  /** `Argument` wraps one argument of a call; `DynamicImport` is a call of `import`. */
  datatype Kind =
    | ImportDecl(src: string)
    | NamedExport(source: Option<string>)
    | ExportAll(src: string)
    | TsImportType(arg: string)
    | DynamicImport
    | Argument(spread: bool)
    | StringLiteral(value: string)
    | Other(tag: string)

  datatype Node = Node(kind: Kind, children: seq<Node>)

  predicate IsStringArgument(n: Node) {
    n.kind.Argument? && |n.children| == 1 && n.children[0].kind.StringLiteral?
  }

  /** The child that holds a dynamic import's specifier. */
  predicate HoldsSpecifier(n: Node, i: int)
    requires 0 <= i < |n.children|
  {
    n.kind.DynamicImport? && i == 0 && IsStringArgument(n.children[0])
  }

  function RewriteKind(sourcePath: string, imports: seq<Alias>, kind: Kind): Kind {
    match kind
    case ImportDecl(src) => ImportDecl(Rewrite(sourcePath, imports, src))
    case NamedExport(Some(source)) => NamedExport(Some(Rewrite(sourcePath, imports, source)))
    case ExportAll(src) => ExportAll(Rewrite(sourcePath, imports, src))
    case TsImportType(arg) => TsImportType(Rewrite(sourcePath, imports, arg))
    case _ => kind
  }

  /** A dynamic import's first argument, when a string, becomes the rewritten string unspread. */
  function RewriteArgument(sourcePath: string, imports: seq<Alias>, n: Node): Node {
    if |n.children| > 0 && HoldsSpecifier(n, 0) then
      var value := n.children[0].children[0].kind.value;
      var literal := Node(StringLiteral(Rewrite(sourcePath, imports, value)), []);
      Node(n.kind, n.children[0 := Node(Argument(false), [literal])])
    else n
  }

  /** The visitor: children first, then the node's own specifier. */
  function Visit(sourcePath: string, imports: seq<Alias>, n: Node): Node {
    var children := seq(|n.children|, i requires 0 <= i < |n.children| => Visit(sourcePath, imports, n.children[i]));
    RewriteArgument(sourcePath, imports, Node(RewriteKind(sourcePath, imports, n.kind), children))
  }

  // ----- which nodes are rewritten ---------------------------------------------------------

  function Leaf(kind: Kind): Node {
    Node(kind, [])
  }

  lemma LeafVisited(sourcePath: string, imports: seq<Alias>, kind: Kind)
    ensures Visit(sourcePath, imports, Leaf(kind)) == Leaf(RewriteKind(sourcePath, imports, kind))
  {
  }

  /** The specifier of every import, re-export and import type is rewritten, and no other text. */
  lemma EachSpecifierRewritten(sourcePath: string, imports: seq<Alias>, text: string)
    ensures Visit(sourcePath, imports, Leaf(ImportDecl(text))) == Leaf(ImportDecl(Rewrite(sourcePath, imports, text)))
    ensures Visit(sourcePath, imports, Leaf(NamedExport(Some(text))))
         == Leaf(NamedExport(Some(Rewrite(sourcePath, imports, text))))
    ensures Visit(sourcePath, imports, Leaf(ExportAll(text))) == Leaf(ExportAll(Rewrite(sourcePath, imports, text)))
    ensures Visit(sourcePath, imports, Leaf(TsImportType(text))) == Leaf(TsImportType(Rewrite(sourcePath, imports, text)))
    ensures Visit(sourcePath, imports, Leaf(NamedExport(None))) == Leaf(NamedExport(None))
    ensures Visit(sourcePath, imports, Leaf(StringLiteral(text))) == Leaf(StringLiteral(text))
    ensures Visit(sourcePath, imports, Leaf(Other(text))) == Leaf(Other(text))
  {
    LeafVisited(sourcePath, imports, ImportDecl(text));
    LeafVisited(sourcePath, imports, NamedExport(Some(text)));
    LeafVisited(sourcePath, imports, ExportAll(text));
    LeafVisited(sourcePath, imports, TsImportType(text));
    LeafVisited(sourcePath, imports, NamedExport(None));
    LeafVisited(sourcePath, imports, StringLiteral(text));
    LeafVisited(sourcePath, imports, Other(text));
  }

  /** A string as one argument of a call. */
  function Quoted(spread: bool, text: string): Node {
    Node(Argument(spread), [Leaf(StringLiteral(text))])
  }

  lemma QuotedVisited(sourcePath: string, imports: seq<Alias>, spread: bool, text: string)
    ensures Visit(sourcePath, imports, Quoted(spread, text)) == Quoted(spread, text)
  {
    LeafVisited(sourcePath, imports, StringLiteral(text));
  }

  /** The string a dynamic import is called with is rewritten; any other call's stays. */
  lemma DynamicImportRewritten(sourcePath: string, imports: seq<Alias>, spread: bool, text: string, call: string)
    ensures Visit(sourcePath, imports, Node(DynamicImport, [Quoted(spread, text)]))
         == Node(DynamicImport, [Quoted(false, Rewrite(sourcePath, imports, text))])
    ensures Visit(sourcePath, imports, Node(Other(call), [Quoted(spread, text)]))
         == Node(Other(call), [Quoted(spread, text)])
  {
    QuotedVisited(sourcePath, imports, spread, text);
    var children := [Quoted(spread, text)];
    assert seq(1, i requires 0 <= i < 1 => Visit(sourcePath, imports, children[i])) == children;
  }

  // ----- the module graph ------------------------------------------------------------------

  function SpecifierOf(kind: Kind): Option<string> {
    match kind
    case ImportDecl(src) => Some(src)
    case NamedExport(source) => source
    case ExportAll(src) => Some(src)
    case TsImportType(arg) => Some(arg)
    case _ => None
  }

  /** The kind with its specifier left blank. */
  function Blank(kind: Kind): Kind {
    match kind
    case ImportDecl(_) => ImportDecl("")
    case NamedExport(Some(_)) => NamedExport(Some(""))
    case ExportAll(_) => ExportAll("")
    case TsImportType(_) => TsImportType("")
    case _ => kind
  }

  predicate KindPreserved(root: seq<string>, sourcePath: string, imports: seq<Alias>, kind: Kind, rewritten: Kind) {
    && Blank(rewritten) == Blank(kind)
    && match (SpecifierOf(kind), SpecifierOf(rewritten))
       case (Some(s), Some(t)) => SameMeaning(root, sourcePath, imports, s, t)
       case (s, t) => s == t
  }

  predicate ArgumentPreserved(root: seq<string>, sourcePath: string, imports: seq<Alias>, n: Node, m: Node)
    requires IsStringArgument(n)
  {
    && IsStringArgument(m) && !m.kind.spread && m.children[0].children == []
    && SameMeaning(root, sourcePath, imports, n.children[0].kind.value, m.children[0].kind.value)
  }

  /** The same tree, except that every specifier may read differently but resolves the same. */
  predicate Preserved(root: seq<string>, sourcePath: string, imports: seq<Alias>, n: Node, m: Node) {
    && KindPreserved(root, sourcePath, imports, n.kind, m.kind)
    && |m.children| == |n.children|
    && forall i :: 0 <= i < |n.children| ==>
                     if HoldsSpecifier(n, i) then
                       ArgumentPreserved(root, sourcePath, imports, n.children[i], m.children[i])
                     else Preserved(root, sourcePath, imports, n.children[i], m.children[i])
  }

  predicate KindKept(root: seq<string>, sourcePath: string, imports: seq<Alias>, kind: Kind) {
    SpecifierOf(kind).Some? ==> KeepsMeaning(root, sourcePath, imports, SpecifierOf(kind).value)
  }

  /** Every specifier of the tree can be rewritten faithfully. */
  predicate AllKept(root: seq<string>, sourcePath: string, imports: seq<Alias>, n: Node) {
    && KindKept(root, sourcePath, imports, n.kind)
    && forall i :: 0 <= i < |n.children| ==>
                     if HoldsSpecifier(n, i) then
                       KeepsMeaning(root, sourcePath, imports, n.children[i].children[0].kind.value)
                     else AllKept(root, sourcePath, imports, n.children[i])
  }

  lemma RewrittenShape(sourcePath: string, imports: seq<Alias>, kind: Kind)
    ensures Blank(RewriteKind(sourcePath, imports, kind)) == Blank(kind)
    ensures SpecifierOf(RewriteKind(sourcePath, imports, kind))
         == if SpecifierOf(kind).None? then None else Some(Rewrite(sourcePath, imports, SpecifierOf(kind).value))
  {
  }

  lemma KindRewritten(root: seq<string>, sourcePath: string, imports: seq<Alias>, kind: Kind)
    requires Sorted(imports) && PlainDirectory(Directory(sourcePath))
    ensures KindPreserved(root, sourcePath, imports, kind, RewriteKind(sourcePath, imports, kind)) <==>
            KindKept(root, sourcePath, imports, kind)
  {
    RewrittenShape(sourcePath, imports, kind);
    if SpecifierOf(kind).Some? {
      RewriteKeepsMeaning(root, sourcePath, imports, SpecifierOf(kind).value);
    }
  }

  lemma VisitedKind(sourcePath: string, imports: seq<Alias>, n: Node)
    ensures Visit(sourcePath, imports, n).kind == RewriteKind(sourcePath, imports, n.kind)
    ensures |Visit(sourcePath, imports, n).children| == |n.children|
  {
  }

  lemma VisitedStringArgument(sourcePath: string, imports: seq<Alias>, n: Node)
    ensures IsStringArgument(Visit(sourcePath, imports, n)) <==> IsStringArgument(n)
    ensures IsStringArgument(n) ==> Visit(sourcePath, imports, n).children[0].kind == n.children[0].kind
  {
    VisitedKind(sourcePath, imports, n);
    if |n.children| == 1 && n.kind.Argument? {
      VisitedKind(sourcePath, imports, n.children[0]);
    }
  }

  /** What the visitor leaves at the `i`-th child. */
  lemma VisitedChild(sourcePath: string, imports: seq<Alias>, n: Node, i: int)
    requires 0 <= i < |n.children|
    ensures |Visit(sourcePath, imports, n).children| == |n.children|
    ensures Visit(sourcePath, imports, n).children[i]
         == if HoldsSpecifier(n, i)
            then Node(Argument(false),
                      [Node(StringLiteral(Rewrite(sourcePath, imports, n.children[i].children[0].kind.value)), [])])
            else Visit(sourcePath, imports, n.children[i])
  {
    VisitedStringArgument(sourcePath, imports, n.children[0]);
  }

  /**
   * The module graph is preserved, at any nesting depth and with every other node unchanged,
   * exactly when every specifier of the module can be rewritten faithfully.
   */
  lemma {:induction false} RewritePreservesGraph(root: seq<string>, sourcePath: string, imports: seq<Alias>, n: Node)
    requires Sorted(imports) && PlainDirectory(Directory(sourcePath))
    ensures Preserved(root, sourcePath, imports, n, Visit(sourcePath, imports, n)) <==> AllKept(root, sourcePath, imports, n)
  {
    var m := Visit(sourcePath, imports, n);
    VisitedKind(sourcePath, imports, n);
    KindRewritten(root, sourcePath, imports, n.kind);
    forall i | 0 <= i < |n.children|
      ensures if HoldsSpecifier(n, i) then
                ArgumentPreserved(root, sourcePath, imports, n.children[i], m.children[i]) <==>
                KeepsMeaning(root, sourcePath, imports, n.children[i].children[0].kind.value)
              else
                Preserved(root, sourcePath, imports, n.children[i], m.children[i]) <==>
                AllKept(root, sourcePath, imports, n.children[i])
    {
      VisitedChild(sourcePath, imports, n, i);
      if HoldsSpecifier(n, i) {
        RewriteKeepsMeaning(root, sourcePath, imports, n.children[i].children[0].kind.value);
      } else {
        RewritePreservesGraph(root, sourcePath, imports, n.children[i]);
      }
    }
  }
}
