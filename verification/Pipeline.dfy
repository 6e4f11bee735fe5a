/**
 * From a source archive to a publishable outcome (materializer/src/service.rs,
 * materializer/src/tombstone.rs): the package's files with import maps eliminated, or a
 * tombstone that says why there are none.
 */
module Pipeline {
  import opened Common
  import opened Text
  import opened Publication
  import opened PackagePaths
  import opened SourceArchive
  import opened ImportRewrite
  import ImportGraph
  import PackageRegistryModel

  datatype SourceConfiguration = SourceConfiguration(exports: seq<Export>, imports: seq<Alias>)

  datatype MaterializationRequest = MaterializationRequest(job: MaterializationJob, statusUrl: string)

  /** The parsers, printers and digests the pipeline calls. */
  datatype Tools = Tools(
    host: Host,
    utf8: string -> Bytes,
    parseConfiguration: Bytes -> Result<SourceConfiguration>,
    parseModule: (string, Bytes) -> Result<ImportGraph.Node>,
    emitModule: (string, ImportGraph.Node) -> Result<Bytes>,
    configurationJson: (string, string, map<string, string>) -> Bytes,
    stringJson: string -> string)

  function ExportMap(exports: seq<Export>): map<string, string> {
    if exports == [] then map[]
    else
      var last := exports[|exports| - 1];
      ExportMap(exports[..|exports| - 1])[last.key := last.target]
  }

  // ----- output limits ---------------------------------------------------------------------

  function CheckFile(seen: map<string, string>, f: ArtifactFile): Option<SourceFailure> {
    if !IsPackagePath(f.path) then Some(PathFailure(f.path))
    else if Lower(f.path) in seen then
      Some(Invalid("generated package has case-insensitive duplicate paths: " + seen[Lower(f.path)] + " and " + f.path))
    else if |f.bytes| > MAX_SOURCE_FILE_BYTES then
      Some(SourceFailure("source-file-too-large", "a generated package file exceeds the materializer limit", None))
    else None
  }

  function CheckTotal(total: nat): Option<SourceFailure> {
    if total > MAX_TOTAL_SOURCE_BYTES then
      Some(SourceFailure("source-package-too-large", "the generated package exceeds the materializer limit", None))
    else None
  }

  function CheckFiles(files: seq<ArtifactFile>, seen: map<string, string>, total: nat): Option<SourceFailure>
    decreases |files|
  {
    if files == [] then CheckTotal(total)
    else
      match CheckFile(seen, files[0])
      case Some(failure) => Some(failure)
      case None => CheckFiles(files[1..], seen[Lower(files[0].path) := files[0].path], total + |files[0].bytes|)
  }

  lemma CheckFrom(files: seq<ArtifactFile>, i: nat, seen: map<string, string>, total: nat)
    requires i < |files|
    ensures CheckFiles(files[i..], seen, total)
         == match CheckFile(seen, files[i])
            case Some(failure) => Some(failure)
            case None => CheckFiles(files[i + 1..], seen[Lower(files[i].path) := files[i].path], total + |files[i].bytes|)
  {
    assert files[i..][0] == files[i] && files[i..][1..] == files[i + 1..];
  }

  method ValidateOutputLimits(files: seq<ArtifactFile>) returns (failure: Option<SourceFailure>)
    ensures failure == CheckFiles(files, map[], 0)
  {
    var seen: map<string, string> := map[];
    var total: nat := 0;
    assert files[0..] == files;
    for i := 0 to |files|
      invariant CheckFiles(files, map[], 0) == CheckFiles(files[i..], seen, total)
    {
      CheckFrom(files, i, seen, total);
      failure := CheckFile(seen, files[i]);
      if failure.Some? {
        return;
      }
      seen, total := seen[Lower(files[i].path) := files[i].path], total + |files[i].bytes|;
    }
    failure := CheckTotal(total);
  }

  function TotalSize(files: seq<ArtifactFile>): nat {
    if files == [] then 0 else |files[0].bytes| + TotalSize(files[1..])
  }

  ghost predicate AllPackagePaths(files: seq<ArtifactFile>) {
    forall i :: 0 <= i < |files| ==> IsPackagePath(files[i].path)
  }

  ghost predicate CaseUnique(files: seq<ArtifactFile>) {
    forall i, j :: 0 <= i < j < |files| ==> Lower(files[i].path) != Lower(files[j].path)
  }

  ghost predicate NoneSeen(files: seq<ArtifactFile>, seen: map<string, string>) {
    forall i :: 0 <= i < |files| ==> Lower(files[i].path) !in seen
  }

  /** Portable paths, different even without regard to case, and at most 20 MiB in all. */
  ghost predicate WithinLimits(files: seq<ArtifactFile>) {
    AllPackagePaths(files) && CaseUnique(files) && TotalSize(files) <= 20 * 1024 * 1024
  }

  lemma ConsCaseUnique(files: seq<ArtifactFile>, seen: map<string, string>)
    requires files != []
    ensures CaseUnique(files) && NoneSeen(files, seen) <==>
            (CaseUnique(files[1..]) && Lower(files[0].path) !in seen
             && NoneSeen(files[1..], seen[Lower(files[0].path) := files[0].path]))
  {
    var rest := files[1..];
    assert forall i :: 0 <= i < |rest| ==> rest[i] == files[i + 1];
    assert forall i :: 0 < i < |files| ==> files[i] == rest[i - 1];
  }

  lemma ConsPackagePaths(files: seq<ArtifactFile>)
    requires files != []
    ensures AllPackagePaths(files) <==> IsPackagePath(files[0].path) && AllPackagePaths(files[1..])
  {
    var rest := files[1..];
    assert forall i :: 0 < i < |files| ==> files[i] == rest[i - 1];
  }

  ghost predicate Fits(files: seq<ArtifactFile>, seen: map<string, string>) {
    AllPackagePaths(files) && CaseUnique(files) && NoneSeen(files, seen)
  }

  lemma FitsCons(files: seq<ArtifactFile>, seen: map<string, string>)
    requires files != []
    ensures Fits(files, seen) <==>
            (IsPackagePath(files[0].path) && Lower(files[0].path) !in seen
             && Fits(files[1..], seen[Lower(files[0].path) := files[0].path]))
  {
    ConsCaseUnique(files, seen);
    ConsPackagePaths(files);
  }

  lemma CheckedFileFits(files: seq<ArtifactFile>, seen: map<string, string>)
    requires files != []
    ensures CheckFile(seen, files[0]) == None ==>
              (Fits(files, seen) <==> Fits(files[1..], seen[Lower(files[0].path) := files[0].path]))
    ensures CheckFile(seen, files[0]) != None ==>
              !(Fits(files, seen) && TotalSize(files) <= MAX_TOTAL_SOURCE_BYTES)
  {
    FitsCons(files, seen);
  }

  lemma {:induction false} CheckFilesExact(files: seq<ArtifactFile>, seen: map<string, string>, total: nat)
    ensures CheckFiles(files, seen, total) == None <==>
            Fits(files, seen) && total + TotalSize(files) <= MAX_TOTAL_SOURCE_BYTES
    decreases |files|
  {
    if files != [] {
      CheckedFileFits(files, seen);
      CheckFilesExact(files[1..], seen[Lower(files[0].path) := files[0].path], total + |files[0].bytes|);
    }
  }

  lemma LimitsExact(files: seq<ArtifactFile>)
    ensures CheckFiles(files, map[], 0) == None <==> WithinLimits(files)
  {
    CheckFilesExact(files, map[], 0);
  }

  lemma {:induction false} RefusedBy(files: seq<ArtifactFile>, seen: map<string, string>, total: nat)
    requires CheckFiles(files, seen, total).Some?
    ensures Fits(files, seen) && (forall i :: 0 <= i < |files| ==> |files[i].bytes| <= 20 * 1024 * 1024) ==>
              CheckFiles(files, seen, total).value.failureClass == "source-package-too-large"
    ensures !Fits(files, seen) && (forall i :: 0 <= i < |files| ==> |files[i].bytes| <= 20 * 1024 * 1024) ==>
              CheckFiles(files, seen, total).value.failureClass == "invalid-source-archive"
    decreases |files|
  {
    if files != [] {
      FitsCons(files, seen);
      assert forall i :: 0 < i < |files| ==> files[i] == files[1..][i - 1];
      if CheckFile(seen, files[0]) == None {
        RefusedBy(files[1..], seen[Lower(files[0].path) := files[0].path], total + |files[0].bytes|);
      }
    }
  }

  /** What output is refused for: its paths where no file is too large, else its size. */
  lemma OutputRefused(files: seq<ArtifactFile>)
    requires !WithinLimits(files) && forall i :: 0 <= i < |files| ==> |files[i].bytes| <= 20 * 1024 * 1024
    ensures CheckFiles(files, map[], 0).Some?
    ensures CheckFiles(files, map[], 0).value.failureClass
         == if AllPackagePaths(files) && CaseUnique(files) then "source-package-too-large" else "invalid-source-archive"
  {
    LimitsExact(files);
    RefusedBy(files, map[], 0);
  }

  // ----- the package -----------------------------------------------------------------------

  predicate IsModulePath(path: string) {
    exists i :: 0 <= i < |MODULE_EXTENSIONS| && EndsWith(path, MODULE_EXTENSIONS[i])
  }

  const MODULE_EXTENSIONS: seq<string> := [".ts", ".mts", ".cts", ".tsx", ".js", ".mjs", ".cjs", ".jsx"]

  /** A module is a file with one of eight extensions. */
  lemma ModulePathExactly(path: string)
    ensures IsModulePath(path) <==>
            || EndsWith(path, ".ts") || EndsWith(path, ".mts") || EndsWith(path, ".cts") || EndsWith(path, ".tsx")
            || EndsWith(path, ".js") || EndsWith(path, ".mjs") || EndsWith(path, ".cjs") || EndsWith(path, ".jsx")
  {
    assert MODULE_EXTENSIONS[0] == ".ts" && MODULE_EXTENSIONS[1] == ".mts";
    assert MODULE_EXTENSIONS[2] == ".cts" && MODULE_EXTENSIONS[3] == ".tsx";
    assert MODULE_EXTENSIONS[4] == ".js" && MODULE_EXTENSIONS[5] == ".mjs";
    assert MODULE_EXTENSIONS[6] == ".cjs" && MODULE_EXTENSIONS[7] == ".jsx";
  }

  /** `rewrite_import_map_specifiers`: parse, rewrite the tree, print. */
  function RewriteModule(tools: Tools, imports: seq<Alias>, path: string, bytes: Bytes): Result<Bytes> {
    match tools.parseModule(path, bytes)
    case Err(message) => Err(message)
    case Ok(tree) => tools.emitModule(path, ImportGraph.Visit(path, imports, tree))
  }

  function RewriteFile(tools: Tools, imports: seq<Alias>, f: ArtifactFile): Result<ArtifactFile> {
    if !IsModulePath(f.path) then Ok(f)
    else
      match RewriteModule(tools, imports, f.path, f.bytes)
      case Err(message) => Err(message)
      case Ok(bytes) => Ok(f.(bytes := bytes))
  }

  function RewriteFiles(tools: Tools, imports: seq<Alias>, files: seq<ArtifactFile>): Result<seq<ArtifactFile>> {
    if files == [] then Ok([])
    else
      match RewriteFile(tools, imports, files[0])
      case Err(message) => Err(message)
      case Ok(first) =>
        match RewriteFiles(tools, imports, files[1..])
        case Err(message) => Err(message)
        case Ok(rest) => Ok([first] + rest)
  }

  method RewriteSourceImports(tools: Tools, imports: seq<Alias>, files: seq<ArtifactFile>)
    returns (r: Result<seq<ArtifactFile>>)
    ensures r == RewriteFiles(tools, imports, files)
  {
    var done: seq<ArtifactFile> := [];
    assert files[0..] == files;
    assert forall rest: seq<ArtifactFile> :: done + rest == rest;
    for i := 0 to |files|
      invariant RewriteFiles(tools, imports, files)
             == match RewriteFiles(tools, imports, files[i..])
                case Ok(rest) => Ok(done + rest)
                case Err(message) => Err(message)
    {
      var rest := files[i..];
      assert rest[0] == files[i] && rest[1..] == files[i + 1..];
      var rewritten := RewriteFile(tools, imports, files[i]);
      if rewritten.Err? {
        return Err(rewritten.error);
      }
      ghost var more := RewriteFiles(tools, imports, files[i + 1..]);
      assert more.Ok? ==> done + ([rewritten.value] + more.value) == done + [rewritten.value] + more.value;
      done := done + [rewritten.value];
    }
    assert done + [] == done;
    r := Ok(done);
  }

  /** `trim_start_matches("./")`. */
  function TrimDotSlash(s: string): string {
    if StartsWith(s, "./") then TrimDotSlash(s[2..]) else s
  }

  function MissingExport(files: seq<ArtifactFile>, exports: seq<Export>): Option<string> {
    if exports == [] then None
    else if !Has(files, TrimDotSlash(exports[0].target)) then Some(TrimDotSlash(exports[0].target))
    else MissingExport(files, exports[1..])
  }

  function EmittedConfiguration(tools: Tools, job: MaterializationJob, exports: map<string, string>): Bytes {
    tools.configurationJson("@" + job.package.scope + "/" + job.package.name, job.version, exports) + tools.utf8("\n")
  }

  datatype Package = Package(files: seq<ArtifactFile>, exports: seq<Export>)

  /** The published files: no source configuration, but the emitted one. */
  function Assembled(tools: Tools, job: MaterializationJob, files: seq<ArtifactFile>, exports: seq<Export>)
    : seq<ArtifactFile>
  {
    Insert(Remove(Remove(files, "deno.json"), "jsr.json"),
           ArtifactFile("deno.json", EmittedConfiguration(tools, job, ExportMap(exports))))
  }

  function Rewritten(tools: Tools, configuration: SourceConfiguration, files: seq<ArtifactFile>)
    : Attempt<seq<ArtifactFile>>
  {
    if configuration.imports == [] then Done(files)
    else
      match RewriteFiles(tools, configuration.imports, files)
      case Err(message) => Failed(SourceFailure("unrewritable-import-map", message, Some(configuration.exports)))
      case Ok(rewritten) => Done(rewritten)
  }

  function Configuration(tools: Tools, files: seq<ArtifactFile>): Attempt<SourceConfiguration> {
    if !Has(files, "deno.json") && !Has(files, "jsr.json") then
      Failed(SourceFailure("missing-root-config", "the repository has no root deno.json or jsr.json", None))
    else
      var path := if Has(files, "deno.json") then "deno.json" else "jsr.json";
      match tools.parseConfiguration(Lookup(files, path).value)
      case Err(message) => Failed(SourceFailure("invalid-root-config", message, None))
      case Ok(configuration) => Done(configuration)
  }

  function Checked(tools: Tools, job: MaterializationJob, files: seq<ArtifactFile>, exports: seq<Export>): Attempt<Package> {
    match MissingExport(files, exports)
    case Some(path) =>
      Failed(SourceFailure("missing-export-file",
                           "the exported file " + path + " is absent from the recorded Git tree", Some(exports)))
    case None =>
      var assembled := Assembled(tools, job, files, exports);
      match CheckFiles(assembled, map[], 0)
      case Some(failure) => Failed(failure)
      case None => Done(Package(assembled, exports))
  }

  function SourcePackage(tools: Tools, job: MaterializationJob, archive: Option<seq<ArchiveEntry>>): Attempt<Package> {
    match Unpack(archive)
    case Failed(failure) => Failed(failure)
    case Done(files) =>
      match Configuration(tools, files)
      case Failed(failure) => Failed(failure)
      case Done(configuration) =>
        match Rewritten(tools, configuration, files)
        case Failed(failure) => Failed(failure)
        case Done(rewritten) => Checked(tools, job, rewritten, configuration.exports)
  }

  method BuildSourcePackage(tools: Tools, job: MaterializationJob, archive: Option<seq<ArchiveEntry>>)
    returns (r: Attempt<Package>)
    ensures r == SourcePackage(tools, job, archive)
  {
    var unpacked := UnpackArchive(archive);
    if unpacked.Failed? {
      return Failed(unpacked.failure);
    }
    var files := unpacked.value;
    var configuration := Configuration(tools, files);
    if configuration.Failed? {
      return Failed(configuration.failure);
    }
    if configuration.value.imports != [] {
      var rewritten := RewriteSourceImports(tools, configuration.value.imports, files);
      if rewritten.Err? {
        return Failed(SourceFailure("unrewritable-import-map", rewritten.error, Some(configuration.value.exports)));
      }
      files := rewritten.value;
    }
    var exports := configuration.value.exports;
    var missing := MissingExport(files, exports);
    if missing.Some? {
      return Failed(SourceFailure("missing-export-file",
                                  "the exported file " + missing.value + " is absent from the recorded Git tree",
                                  Some(exports)));
    }
    files := Remove(files, "deno.json");
    files := Remove(files, "jsr.json");
    files := Insert(files, ArtifactFile("deno.json", EmittedConfiguration(tools, job, ExportMap(exports))));
    var failure := ValidateOutputLimits(files);
    if failure.Some? {
      return Failed(failure.value);
    }
    r := Done(Package(files, exports));
  }

  // ----- tombstones ------------------------------------------------------------------------

  const FAILURE_MODULE_STEM: string := "_jsrproxy_" + "materialization_" + "failure"
  const FAILURE_MODULE_PATH: string := FAILURE_MODULE_STEM + "." + "ts"

  function TombstoneExports(exports: Option<seq<Export>>): map<string, string> {
    if exports.None? || exports.value == [] then map["." := "./" + FAILURE_MODULE_PATH]
    else map key | key in ExportMap(exports.value) :: "./" + FAILURE_MODULE_PATH
  }

  function TombstoneFiles(tools: Tools, request: MaterializationRequest, failure: SourceFailure,
                          diagnostic: PackageRegistryModel.Diagnostic): seq<ArtifactFile>
  {
    var error := "jsrproxy materialization failed (" + diagnostic.id + ", " + diagnostic.failureClass + "): "
                 + diagnostic.message + ". See " + request.statusUrl;
    [ ArtifactFile("deno.json", EmittedConfiguration(tools, request.job, TombstoneExports(failure.exports))),
      ArtifactFile(FAILURE_MODULE_PATH, tools.utf8("throw new Error(" + tools.stringJson(error) + ");\n")) ]
  }

  function DiagnosticOf(tools: Tools, request: MaterializationRequest, failure: SourceFailure)
    : PackageRegistryModel.Diagnostic
  {
    var digest := tools.host.sha256(
      tools.utf8(request.job.version) + tools.utf8(failure.failureClass) + tools.utf8(failure.message));
    var id := "mat-" + digest;
    PackageRegistryModel.Diagnostic(if |id| <= 16 then id else id[..16], failure.failureClass, failure.message)
  }
}
