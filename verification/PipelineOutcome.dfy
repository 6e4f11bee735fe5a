/**
 * `run_materialization` (materializer/src/service.rs): every archive, readable or not, yields a
 * publishable outcome, which is what the protocol's workers receive.
 */
module PipelineOutcome {
  import opened Common
  import opened Text
  import opened Publication
  import opened PublicationLaws
  import opened PackagePaths
  import opened SourceArchive
  import opened Pipeline
  import opened ImportRewrite
  import opened Protocol
  import PackageRegistryModel
  import ArtifactKeys
  import ImportGraph

  /** What the pipeline publishes for a request: the package, or its tombstone. */
  function OfferOf(tools: Tools, request: MaterializationRequest, archive: Option<seq<ArchiveEntry>>): Offer {
    match SourcePackage(tools, request.job, archive)
    case Done(package) => Offer(request.job, package.files, ExportMap(package.exports), None)
    case Failed(failure) =>
      var diagnostic := DiagnosticOf(tools, request, failure);
      Offer(request.job, TombstoneFiles(tools, request, failure, diagnostic), TombstoneExports(failure.exports),
            Some(diagnostic))
  }

  datatype Answer =
    | Ready(uploads: seq<Upload>)
    | Yanked(diagnostic: PackageRegistryModel.Diagnostic, uploads: seq<Upload>)
    | Unavailable(error: PublicationError)

  function AnswerOf(tools: Tools, offer: Offer): Answer {
    if offer.diagnostic.None? then Ready(Uploads(tools.host, offer))
    else Yanked(offer.diagnostic.value, Uploads(tools.host, offer))
  }

  method PublishArtifacts(tools: Tools, job: MaterializationJob, files: seq<ArtifactFile>, exports: map<string, string>)
    returns (uploads: seq<Upload>, rejected: Option<PublicationError>)
    ensures rejected.None? <==> Publishable(files)
    ensures rejected.None? ==> uploads == Batch(tools.host, job, files, exports)
  {
    var store := new BatchedArtifactStore();
    var published := Publish(tools.host, store, job, files, exports);
    uploads := store.uploads;
    rejected := if published.Rejected? then Some(published.error) else None;
    if published.Published? {
      assert [] + Batch(tools.host, job, files, exports) == Batch(tools.host, job, files, exports);
    }
  }

  /** The answer is never `Unavailable`. */
  method RunMaterialization(tools: Tools, request: MaterializationRequest, archive: Option<seq<ArchiveEntry>>)
    returns (answer: Answer)
    ensures answer == AnswerOf(tools, OfferOf(tools, request, archive))
    ensures !answer.Unavailable?
  {
    var package := BuildSourcePackage(tools, request.job, archive);
    if package.Done? {
      var p := package.value;
      var uploads, rejected := PublishArtifacts(tools, request.job, p.files, ExportMap(p.exports));
      answer := if rejected.Some? then Unavailable(rejected.value) else Ready(uploads);
    } else {
      var failure := package.failure;
      var diagnostic := DiagnosticOf(tools, request, failure);
      var files := TombstoneFiles(tools, request, failure, diagnostic);
      var uploads, rejected := PublishArtifacts(tools, request.job, files, TombstoneExports(failure.exports));
      answer := if rejected.Some? then Unavailable(rejected.value) else Yanked(diagnostic, uploads);
    }
    OutcomeIsProper(tools, request, archive);
  }

  // ----- every outcome is publishable ------------------------------------------------------

  lemma LimitsArePublishable(files: seq<ArtifactFile>)
    requires WithinLimits(files)
    ensures ProperFiles(files)
  {
    forall i | 0 <= i < |files|
      ensures ValidPath(files[i].path)
    {
      PackagePathIsValid(files[i].path);
    }
    forall i, j | 0 <= i < j < |files|
      ensures Paths(files)[i] != Paths(files)[j]
    {
      assert Lower(files[i].path) != Lower(files[j].path);
    }
  }

  lemma PlainNameIsPackagePath(name: string)
    requires |name| <= 95 && ValidComponent(name) && '/' !in name
    requires Lower(name) != ".git" && Lower(name) != "_dist"
    ensures IsPackagePath(name)
  {
    NoSeparator(name, '/');
    assert Split(name, '/') == [name];
  }

  /** Every reserved name begins with one of five letters. */
  lemma NotReserved(s: string)
    requires s != "" && s[0] !in "aclnp"
    ensures s !in RESERVED
  {
    forall i | 0 <= i < |RESERVED|
      ensures RESERVED[i] != s
    {
      assert RESERVED[i][0] in "aclnp";
    }
  }

  lemma ComponentTextConcat(s: string, t: string)
    requires ArtifactKeys.IsKeyText(s) && ArtifactKeys.IsKeyText(t)
    ensures ArtifactKeys.IsKeyText(s + t)
  {
  }

  lemma NameWithExtension(stem: string, extension: string)
    requires 5 < |stem| + |extension| < 90 && stem != "" && extension != ""
    requires ArtifactKeys.IsKeyText(stem) && ArtifactKeys.IsKeyText(extension) && '.' !in extension
    requires stem[0] == '_' || stem[0] == 'd' || stem[0] == 'j'
    ensures IsPackagePath(stem + "." + extension)
  {
    var name := stem + "." + extension;
    StemExactly(stem, extension);
    assert Lower(stem)[0] == stem[0];
    NotReserved(Lower(stem));
    ComponentTextConcat(stem, ".");
    ComponentTextConcat(stem + ".", extension);
    assert name[0] == stem[0] && name[|name| - 1] == extension[|extension| - 1];
    assert extension[|extension| - 1] in extension;
    assert name[|name| - 1..] == [name[|name| - 1]];
    assert Lower(name)[0] == stem[0];
    assert forall c :: IsComponentChar(c) ==> c != '/';
    PlainNameIsPackagePath(name);
  }

  lemma DenoJsonIsPackagePath()
    ensures IsPackagePath("deno.json")
  {
    NameWithExtension("deno", "json");
    assert "deno.json" == "deno" + "." + "json";
  }

  lemma FailureModuleIsPackagePath()
    ensures IsPackagePath(FAILURE_MODULE_PATH)
  {
    ComponentTextConcat("_jsrproxy_", "materialization_");
    ComponentTextConcat("_jsrproxy_" + "materialization_", "failure");
    NameWithExtension(FAILURE_MODULE_STEM, "ts");
  }

  lemma PairIsPublishable(a: ArtifactFile, b: ArtifactFile)
    requires ValidPath(a.path) && ValidPath(b.path) && a.path != b.path
    ensures Publishable([a, b])
  {
    assert Paths([a, b]) == [a.path, b.path];
  }

  lemma PairIsProper(a: ArtifactFile, b: ArtifactFile)
    requires IsPackagePath(a.path) && IsPackagePath(b.path) && a.path != b.path
    ensures ProperFiles([a, b])
  {
    PackagePathIsValid(a.path);
    PackagePathIsValid(b.path);
    PairIsPublishable(a, b);
    var files := [a, b];
    forall i | 0 <= i < |files|
      ensures IsPackagePath(files[i].path)
    {
      assert files[i] == a || files[i] == b;
    }
  }

  lemma TombstoneIsProper(tools: Tools, request: MaterializationRequest, failure: SourceFailure,
                          diagnostic: PackageRegistryModel.Diagnostic)
    ensures ProperFiles(TombstoneFiles(tools, request, failure, diagnostic))
  {
    var files := TombstoneFiles(tools, request, failure, diagnostic);
    DenoJsonIsPackagePath();
    FailureModuleIsPackagePath();
    assert |files[0].path| != |files[1].path|;
    PairIsProper(files[0], files[1]);
    assert files == [files[0], files[1]];
  }

  /** Every archive's outcome is publishable for the request's job: the protocol may receive it. */
  lemma OutcomeIsProper(tools: Tools, request: MaterializationRequest, archive: Option<seq<ArchiveEntry>>)
    ensures ProperFiles(OfferOf(tools, request, archive).files)
    ensures Publishable(OfferOf(tools, request, archive).files)
    ensures OfferOf(tools, request, archive).job == request.job
  {
    match SourcePackage(tools, request.job, archive)
    case Done(package) =>
      ReadyIsWithinLimits(tools, request.job, archive);
      LimitsArePublishable(package.files);
    case Failed(failure) => TombstoneIsProper(tools, request, failure, DiagnosticOf(tools, request, failure));
  }

  /** A package's files have portable paths, unique without regard to case, and fit in 20 MiB. */
  lemma ReadyIsWithinLimits(tools: Tools, job: MaterializationJob, archive: Option<seq<ArchiveEntry>>)
    requires SourcePackage(tools, job, archive).Done?
    ensures WithinLimits(SourcePackage(tools, job, archive).value.files)
  {
    var files := Unpack(archive).value;
    var configuration := Configuration(tools, files).value;
    CheckedIsWithinLimits(tools, job, Rewritten(tools, configuration, files).value, configuration.exports);
  }

  lemma CheckedIsWithinLimits(tools: Tools, job: MaterializationJob, files: seq<ArtifactFile>, exports: seq<Export>)
    requires Checked(tools, job, files, exports).Done?
    ensures WithinLimits(Checked(tools, job, files, exports).value.files)
  {
    LimitsExact(Assembled(tools, job, files, exports));
  }

  /** For a proxyable job, each key of the outcome is unique and reaches the store unchanged. */
  lemma OutcomeKeysSurvive(tools: Tools, request: MaterializationRequest, archive: Option<seq<ArchiveEntry>>,
                           i: nat, j: nat)
    requires ArtifactKeys.IsProxyable(request.job)
    requires var n := |OfferOf(tools, request, archive).files| + 2; i < n && j < n
    ensures var uploads := Uploads(tools.host, OfferOf(tools, request, archive));
            && (uploads[i].key == uploads[j].key <==> i == j)
            && ArtifactKeys.ArtifactKey(ArtifactKeys.Pathname(uploads[i].key)) == Some(uploads[i].key)
  {
    var offer := OfferOf(tools, request, archive);
    OutcomeIsProper(tools, request, archive);
    BatchKeysDistinct(tools.host, offer.job, offer.files, offer.exports, i, j);
    ArtifactKeys.BatchKeySurvives(tools.host, offer.job, offer.files, offer.exports, i);
  }

  // ----- exports ---------------------------------------------------------------------------

  lemma {:induction false} NothingMissing(files: seq<ArtifactFile>, exports: seq<Export>, e: Export)
    requires MissingExport(files, exports) == None && e in exports
    ensures Has(files, TrimDotSlash(e.target))
  {
    if e != exports[0] {
      assert e in exports[1..];
      NothingMissing(files, exports[1..], e);
    }
  }

  lemma ListedIffHas(host: Host, files: seq<ArtifactFile>, path: string)
    ensures "/" + path in ManifestOf(host, files) <==> Has(files, path)
  {
    ManifestKeys(host, files, path);
    HasIsPath(files, path);
  }

  /** The assembled package: the emitted configuration, no other, and every other file as it was. */
  lemma AssembledLookup(tools: Tools, job: MaterializationJob, files: seq<ArtifactFile>, exports: seq<Export>, path: string)
    ensures Lookup(Assembled(tools, job, files, exports), path)
         == if path == "deno.json" then Some(EmittedConfiguration(tools, job, ExportMap(exports)))
            else if path == "jsr.json" then None
            else Lookup(files, path)
  {
    var removed := Remove(files, "deno.json");
    LookupRemove(files, "deno.json", path);
    LookupRemove(removed, "jsr.json", path);
    LookupInsert(Remove(removed, "jsr.json"),
                 ArtifactFile("deno.json", EmittedConfiguration(tools, job, ExportMap(exports))), path);
  }

  lemma CheckedExports(tools: Tools, job: MaterializationJob, files: seq<ArtifactFile>, exports: seq<Export>, e: Export)
    requires Checked(tools, job, files, exports).Done? && e in exports
    ensures "/" + TrimDotSlash(e.target) in ManifestOf(tools.host, Checked(tools, job, files, exports).value.files) <==>
            TrimDotSlash(e.target) != "jsr.json"
  {
    var path := TrimDotSlash(e.target);
    NothingMissing(files, exports, e);
    AssembledLookup(tools, job, files, exports, path);
    ListedIffHas(tools.host, Assembled(tools, job, files, exports), path);
  }

  // ----- contents --------------------------------------------------------------------------

  lemma {:induction false} LookupRewritten(tools: Tools, imports: seq<Alias>, files: seq<ArtifactFile>, path: string)
    requires RewriteFiles(tools, imports, files).Ok?
    ensures var rewritten := Lookup(RewriteFiles(tools, imports, files).value, path);
            && (Lookup(files, path).None? ==> rewritten.None?)
            && (Lookup(files, path).Some? && !IsModulePath(path) ==> rewritten == Lookup(files, path))
            && (Lookup(files, path).Some? && IsModulePath(path) ==>
                  rewritten.Some? && RewriteModule(tools, imports, path, Lookup(files, path).value) == Ok(rewritten.value))
  {
    if files != [] {
      LookupRewritten(tools, imports, files[1..], path);
      var first := RewriteFile(tools, imports, files[0]).value;
      var rest := RewriteFiles(tools, imports, files[1..]).value;
      assert ([first] + rest)[1..] == rest;
    }
  }

  /**
   * A published package has the archive's file at every path but the two configurations', modules
   * with their import map eliminated when there is one, and the emitted configuration.
   */
  lemma ReadyFilesAreSources(tools: Tools, job: MaterializationJob, archive: Option<seq<ArchiveEntry>>, path: string)
    requires SourcePackage(tools, job, archive).Done?
    ensures var files := Unpack(archive).value;
            var configuration := Configuration(tools, files).value;
            var served := Lookup(SourcePackage(tools, job, archive).value.files, path);
            if path == "deno.json" then
              served == Some(EmittedConfiguration(tools, job, ExportMap(configuration.exports)))
            else if path == "jsr.json" || Lookup(files, path).None? then served.None?
            else if configuration.imports == [] || !IsModulePath(path) then served == Lookup(files, path)
            else served.Some?
                 && RewriteModule(tools, configuration.imports, path, Lookup(files, path).value) == Ok(served.value)
  {
    var files := Unpack(archive).value;
    var configuration := Configuration(tools, files).value;
    AssembledLookup(tools, job, Rewritten(tools, configuration, files).value, configuration.exports, path);
    if configuration.imports != [] {
      LookupRewritten(tools, configuration.imports, files, path);
    }
  }

  /** Every export of a published package is in its manifest, exactly unless it names `jsr.json`. */
  lemma ReadyExportsAreListed(tools: Tools, job: MaterializationJob, archive: Option<seq<ArchiveEntry>>, e: Export)
    requires SourcePackage(tools, job, archive).Done? && e in SourcePackage(tools, job, archive).value.exports
    ensures "/" + TrimDotSlash(e.target) in ManifestOf(tools.host, SourcePackage(tools, job, archive).value.files) <==>
            TrimDotSlash(e.target) != "jsr.json"
  {
    var files := Unpack(archive).value;
    var configuration := Configuration(tools, files).value;
    CheckedExports(tools, job, Rewritten(tools, configuration, files).value, configuration.exports, e);
  }

  /** Every export of a tombstone is the failing module, and that is in its manifest. */
  lemma TombstoneExportsAreListed(tools: Tools, request: MaterializationRequest, archive: Option<seq<ArchiveEntry>>,
                                  key: string)
    requires SourcePackage(tools, request.job, archive).Failed?
    ensures var offer := OfferOf(tools, request, archive);
            var known := SourcePackage(tools, request.job, archive).failure.exports;
            && "/" + FAILURE_MODULE_PATH in ManifestOf(tools.host, offer.files)
            && (key in offer.exports ==> offer.exports[key] == "./" + FAILURE_MODULE_PATH)
            && (known.Some? && known.value != [] ==> (key in offer.exports <==> key in ExportMap(known.value)))
            && (known == None || known.value == [] ==> (key in offer.exports <==> key == "."))
  {
    var files := OfferOf(tools, request, archive).files;
    assert files[1..][0].path == FAILURE_MODULE_PATH;
    ListedIffHas(tools.host, files, FAILURE_MODULE_PATH);
  }

  // ----- module graphs ---------------------------------------------------------------------

  lemma PackageDirectoryIsPlain(path: string)
    requires IsPackagePath(path)
    ensures PlainDirectory(ImportRewrite.Directory(path))
  {
    var components := Split(path, '/');
    forall i | 0 <= i < |components| - 1
      ensures IsPlainComponent(components[i])
    {
      assert components[i] in components;
    }
  }

  lemma ReadyPathIsPackagePath(tools: Tools, job: MaterializationJob, archive: Option<seq<ArchiveEntry>>, path: string)
    requires SourcePackage(tools, job, archive).Done?
    requires Has(SourcePackage(tools, job, archive).value.files, path)
    ensures IsPackagePath(path)
  {
    ReadyIsWithinLimits(tools, job, archive);
    PresentIsPackagePath(SourcePackage(tools, job, archive).value.files, path);
  }

  lemma PresentIsPackagePath(files: seq<ArtifactFile>, path: string)
    requires AllPackagePaths(files) && Has(files, path)
    ensures IsPackagePath(path)
  {
    HasIsPath(files, path);
    var i :| 0 <= i < |files| && Paths(files)[i] == path;
    assert files[i].path == path;
  }

  /**
   * When a package has an import map, each of its modules is printed from a tree with the module
   * graph of the archive's, exactly if all its specifiers can be rewritten faithfully: wherever
   * the package is then served.
   */
  lemma ReadyModuleKeepsGraph(tools: Tools, job: MaterializationJob, archive: Option<seq<ArchiveEntry>>, path: string,
                              root: seq<string>)
    requires SourcePackage(tools, job, archive).Done?
    requires var imports := Configuration(tools, Unpack(archive).value).value.imports; imports != [] && Sorted(imports)
    requires IsModulePath(path) && path != "deno.json" && path != "jsr.json"
    requires Lookup(Unpack(archive).value, path).Some?
    ensures var files := Unpack(archive).value;
            var imports := Configuration(tools, files).value.imports;
            var parsed := tools.parseModule(path, Lookup(files, path).value);
            var served := Lookup(SourcePackage(tools, job, archive).value.files, path);
            && parsed.Ok? && served.Some?
            && var rewritten := ImportGraph.Visit(path, imports, parsed.value);
            && tools.emitModule(path, rewritten) == Ok(served.value)
            && (ImportGraph.Preserved(root, path, imports, parsed.value, rewritten) <==>
                ImportGraph.AllKept(root, path, imports, parsed.value))
  {
    var files := Unpack(archive).value;
    var imports := Configuration(tools, files).value.imports;
    ReadyFilesAreSources(tools, job, archive, path);
    ReadyPathIsPackagePath(tools, job, archive, path);
    PackageDirectoryIsPlain(path);
    ImportGraph.RewritePreservesGraph(root, path, imports, tools.parseModule(path, Lookup(files, path).value).value);
  }
}
