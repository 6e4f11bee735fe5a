/**
 * What the pipeline answers, said without its stages (materializer/src/service.rs,
 * materializer/src/tombstone.rs): when a package is ready, why it is not otherwise, and what a
 * client that imports the tombstone is told.
 */
module OutcomeLaws {
  import opened Common
  import opened Text
  import opened Publication
  import opened PackagePaths
  import opened SourceArchive
  import opened ImportRewrite
  import opened Pipeline
  import opened Protocol
  import opened PipelineOutcome
  import PackageRegistryModel

  // ----- exports ---------------------------------------------------------------------------

  ghost predicate DistinctKeys(exports: seq<Export>) {
    forall i, j :: 0 <= i < j < |exports| ==> exports[i].key != exports[j].key
  }

  /** The export map has exactly the exports' keys, each with its own target. */
  lemma {:induction false} ExportMapExactly(exports: seq<Export>, key: string)
    requires DistinctKeys(exports)
    ensures key in ExportMap(exports) <==> exists i :: 0 <= i < |exports| && exports[i].key == key
    ensures forall i :: 0 <= i < |exports| && exports[i].key == key ==> ExportMap(exports)[key] == exports[i].target
  {
    if exports != [] {
      var front := exports[..|exports| - 1];
      ExportMapExactly(front, key);
      assert forall i :: 0 <= i < |front| ==> front[i] == exports[i];
    }
  }

  /** Dropping every leading `./` leaves a path that has none. */
  lemma {:induction false} TrimmedExactly(path: string)
    ensures !("./" <= TrimDotSlash(path))
    ensures TrimDotSlash("./" + path) == TrimDotSlash(path)
    ensures !("./" <= path) ==> TrimDotSlash(path) == path
    decreases |path|
  {
    assert ("./" + path)[2..] == path && ("./" + path)[..2] == "./";
    if StartsWith(path, "./") {
      TrimmedExactly(path[2..]);
    }
  }

  // ----- when a package is ready -----------------------------------------------------------

  lemma {:induction false} RewrittenExactly(tools: Tools, imports: seq<Alias>, files: seq<ArtifactFile>)
    ensures RewriteFiles(tools, imports, files).Ok? <==>
            forall i :: 0 <= i < |files| && IsModulePath(files[i].path) ==>
                          RewriteModule(tools, imports, files[i].path, files[i].bytes).Ok?
  {
    if files != [] {
      RewrittenExactly(tools, imports, files[1..]);
      assert forall i :: 0 < i < |files| ==> files[i] == files[1..][i - 1];
    }
  }

  lemma {:induction false} RewrittenHas(tools: Tools, imports: seq<Alias>, files: seq<ArtifactFile>, path: string)
    requires RewriteFiles(tools, imports, files).Ok?
    ensures Has(RewriteFiles(tools, imports, files).value, path) <==> Has(files, path)
  {
    LookupRewritten(tools, imports, files, path);
  }

  lemma {:induction false} NoneMissing(files: seq<ArtifactFile>, exports: seq<Export>)
    ensures MissingExport(files, exports) == None <==>
            forall i :: 0 <= i < |exports| ==> Has(files, TrimDotSlash(exports[i].target))
  {
    if exports != [] {
      NoneMissing(files, exports[1..]);
      assert forall i :: 0 < i < |exports| ==> exports[i] == exports[1..][i - 1];
    }
  }

  /** The bytes of the root configuration: `deno.json` before `jsr.json`. */
  function RootConfiguration(files: seq<ArtifactFile>): Option<Bytes> {
    if Has(files, "deno.json") then Lookup(files, "deno.json") else Lookup(files, "jsr.json")
  }

  /** Every module of the archive can be parsed and printed again. */
  ghost predicate AllRewritable(tools: Tools, imports: seq<Alias>, files: seq<ArtifactFile>) {
    forall i :: 0 <= i < |files| && IsModulePath(files[i].path) ==>
                  RewriteModule(tools, imports, files[i].path, files[i].bytes).Ok?
  }

  ghost predicate AllExported(files: seq<ArtifactFile>, exports: seq<Export>) {
    forall i :: 0 <= i < |exports| ==> Has(files, TrimDotSlash(exports[i].target))
  }

  /** The archive's files with their import map, if any, eliminated. */
  function SourceFiles(tools: Tools, configuration: SourceConfiguration, files: seq<ArtifactFile>): seq<ArtifactFile> {
    match Rewritten(tools, configuration, files)
    case Done(rewritten) => rewritten
    case Failed(_) => files
  }

  /** What makes a package of the archive's files. */
  ghost predicate Packages(tools: Tools, job: MaterializationJob, files: seq<ArtifactFile>, c: SourceConfiguration) {
    && RootConfiguration(files).Some? && tools.parseConfiguration(RootConfiguration(files).value) == Ok(c)
    && (c.imports == [] || AllRewritable(tools, c.imports, files))
    && AllExported(files, c.exports)
    && WithinLimits(Assembled(tools, job, SourceFiles(tools, c, files), c.exports))
  }

  lemma RewrittenWhen(tools: Tools, c: SourceConfiguration, files: seq<ArtifactFile>)
    ensures Rewritten(tools, c, files).Done? <==> c.imports == [] || AllRewritable(tools, c.imports, files)
    ensures Rewritten(tools, c, files).Failed? ==>
              && Rewritten(tools, c, files).failure.failureClass == "unrewritable-import-map"
              && Rewritten(tools, c, files).failure.exports == Some(c.exports)
  {
    RewrittenExactly(tools, c.imports, files);
  }

  lemma ExportedAlike(tools: Tools, c: SourceConfiguration, files: seq<ArtifactFile>)
    requires Rewritten(tools, c, files).Done?
    ensures AllExported(SourceFiles(tools, c, files), c.exports) <==> AllExported(files, c.exports)
  {
    if c.imports != [] {
      forall i | 0 <= i < |c.exports|
        ensures Has(SourceFiles(tools, c, files), TrimDotSlash(c.exports[i].target)) <==>
                Has(files, TrimDotSlash(c.exports[i].target))
      {
        RewrittenHas(tools, c.imports, files, TrimDotSlash(c.exports[i].target));
      }
    }
  }

  lemma CheckedWhen(tools: Tools, job: MaterializationJob, files: seq<ArtifactFile>, exports: seq<Export>)
    ensures Checked(tools, job, files, exports).Done? <==>
            AllExported(files, exports) && WithinLimits(Assembled(tools, job, files, exports))
    ensures !AllExported(files, exports) ==>
              && Checked(tools, job, files, exports).Failed?
              && Checked(tools, job, files, exports).failure.failureClass == "missing-export-file"
              && Checked(tools, job, files, exports).failure.exports == Some(exports)
  {
    NoneMissing(files, exports);
    LimitsExact(Assembled(tools, job, files, exports));
  }

  lemma ConfigurationWhen(tools: Tools, files: seq<ArtifactFile>)
    ensures RootConfiguration(files) == None ==>
              Configuration(tools, files).Failed? && Configuration(tools, files).failure.failureClass == "missing-root-config"
    ensures RootConfiguration(files).Some? ==>
              match tools.parseConfiguration(RootConfiguration(files).value)
              case Ok(c) => Configuration(tools, files) == Done(c)
              case Err(message) => Configuration(tools, files) == Failed(SourceFailure("invalid-root-config", message, None))
  {
  }

  lemma PackagedWhen(tools: Tools, job: MaterializationJob, archive: Option<seq<ArchiveEntry>>)
    requires Unpack(archive).Done?
    ensures SourcePackage(tools, job, archive).Done? <==> exists c :: Packages(tools, job, Unpack(archive).value, c)
  {
    var files := Unpack(archive).value;
    ConfigurationWhen(tools, files);
    if Configuration(tools, files).Done? {
      var c := Configuration(tools, files).value;
      RewrittenWhen(tools, c, files);
      if Rewritten(tools, c, files).Done? {
        ExportedAlike(tools, c, files);
        CheckedWhen(tools, job, SourceFiles(tools, c, files), c.exports);
        assert SourcePackage(tools, job, archive).Done? <==> Packages(tools, job, files, c);
      }
    }
  }

  /**
   * A package is ready, and is not a tombstone, exactly when its archive can be unpacked, its root
   * configuration parsed, its modules rewritten where there is an import map, its exports are among
   * its files, and what is published keeps the limits.
   */
  lemma ReadyExactly(tools: Tools, request: MaterializationRequest, archive: Option<seq<ArchiveEntry>>)
    ensures OfferOf(tools, request, archive).diagnostic == None <==>
            Unpack(archive).Done? && exists c :: Packages(tools, request.job, Unpack(archive).value, c)
  {
    if Unpack(archive).Done? {
      PackagedWhen(tools, request.job, archive);
    }
  }

  // ----- why it is not ---------------------------------------------------------------------

  /** The failure a tombstone reports. */
  ghost predicate Reports(offer: Offer, failureClass: string, message: string) {
    && offer.diagnostic.Some?
    && offer.diagnostic.value.failureClass == failureClass && offer.diagnostic.value.message == message
  }

  ghost predicate ReportsClass(offer: Offer, failureClass: string) {
    offer.diagnostic.Some? && offer.diagnostic.value.failureClass == failureClass
  }

  /** The first stage that fails decides what is reported. */
  lemma FailureReported(tools: Tools, request: MaterializationRequest, archive: Option<seq<ArchiveEntry>>)
    ensures var offer := OfferOf(tools, request, archive);
            match Unpack(archive)
            case Failed(failure) => Reports(offer, failure.failureClass, failure.message)
            case Done(files) =>
              match RootConfiguration(files)
              case None => Reports(offer, "missing-root-config", "the repository has no root deno.json or jsr.json")
              case Some(bytes) =>
                match tools.parseConfiguration(bytes)
                case Err(message) => Reports(offer, "invalid-root-config", message)
                case Ok(c) =>
                  if c.imports != [] && !AllRewritable(tools, c.imports, files) then
                    ReportsClass(offer, "unrewritable-import-map")
                  else if !AllExported(files, c.exports) then ReportsClass(offer, "missing-export-file")
                  else true
  {
    if Unpack(archive).Done? {
      var files := Unpack(archive).value;
      ConfigurationWhen(tools, files);
      if Configuration(tools, files).Done? {
        var c := Configuration(tools, files).value;
        RewrittenWhen(tools, c, files);
        if Rewritten(tools, c, files).Done? {
          ExportedAlike(tools, c, files);
          CheckedWhen(tools, request.job, SourceFiles(tools, c, files), c.exports);
        }
      }
    }
  }

  /** The diagnostic's identity: sixteen characters of a digest of version, class and message. */
  lemma DiagnosticIdentity(tools: Tools, request: MaterializationRequest, archive: Option<seq<ArchiveEntry>>)
    requires OfferOf(tools, request, archive).diagnostic.Some?
    ensures var d := OfferOf(tools, request, archive).diagnostic.value;
            var digest := tools.host.sha256(tools.utf8(request.job.version) + tools.utf8(d.failureClass) + tools.utf8(d.message));
            |digest| == 64 ==> d.id == "mat-" + digest[..12]
  {
    var d := OfferOf(tools, request, archive).diagnostic.value;
    var digest := tools.host.sha256(tools.utf8(request.job.version) + tools.utf8(d.failureClass) + tools.utf8(d.message));
    if |digest| == 64 {
      assert ("mat-" + digest)[..16] == "mat-" + digest[..12];
    }
  }

  // ----- what is published -----------------------------------------------------------------

  /** The configuration names the package and the version, with the exports and a line end. */
  function ConfigurationText(tools: Tools, job: MaterializationJob, exports: map<string, string>): Bytes {
    tools.configurationJson("@" + job.package.scope + "/" + job.package.name, job.version, exports) + tools.utf8("\n")
  }

  /** The text a client gets that imports a tombstone. */
  function Complaint(d: PackageRegistryModel.Diagnostic, statusUrl: string): string {
    "jsrproxy materialization failed (" + d.id + ", " + d.failureClass + "): " + d.message + ". See " + statusUrl
  }

  lemma FailureModuleName()
    ensures FAILURE_MODULE_PATH == "_jsrproxy_materialization_failure.ts"
  {
    assert "_jsrproxy_" + "materialization_" + "failure" == "_jsrproxy_materialization_failure";
  }

  lemma TombstoneFilesAre(tools: Tools, request: MaterializationRequest, failure: SourceFailure,
                          d: PackageRegistryModel.Diagnostic)
    ensures var files := TombstoneFiles(tools, request, failure, d);
            && |files| == 2
            && files[0]
               == ArtifactFile("deno.json", ConfigurationText(tools, request.job, TombstoneExports(failure.exports)))
            && files[1].path == FAILURE_MODULE_PATH
            && files[1].bytes
               == tools.utf8("throw new Error(" + tools.stringJson(Complaint(d, request.statusUrl)) + ");\n")
  {
  }

  /** A tombstone is a configuration and one module that throws the diagnostic when it is imported. */
  lemma TombstoneThrows(tools: Tools, request: MaterializationRequest, archive: Option<seq<ArchiveEntry>>)
    requires OfferOf(tools, request, archive).diagnostic.Some?
    ensures var offer := OfferOf(tools, request, archive);
            && |offer.files| == 2
            && offer.files[0] == ArtifactFile("deno.json", ConfigurationText(tools, request.job, offer.exports))
            && offer.files[1].path == "_jsrproxy_materialization_failure.ts"
            && offer.files[1].bytes
               == tools.utf8("throw new Error("
                             + tools.stringJson(Complaint(offer.diagnostic.value, request.statusUrl)) + ");\n")
  {
    var failure := SourcePackage(tools, request.job, archive).failure;
    TombstoneFilesAre(tools, request, failure, DiagnosticOf(tools, request, failure));
    FailureModuleName();
  }

  /** A package's own configuration, whatever the source's said besides its exports. */
  lemma ReadyConfiguration(tools: Tools, request: MaterializationRequest, archive: Option<seq<ArchiveEntry>>)
    requires OfferOf(tools, request, archive).diagnostic == None
    ensures var offer := OfferOf(tools, request, archive);
            && Lookup(offer.files, "deno.json") == Some(ConfigurationText(tools, request.job, offer.exports))
            && Lookup(offer.files, "jsr.json") == None
  {
    ReadyFilesAreSources(tools, request.job, archive, "deno.json");
    ReadyFilesAreSources(tools, request.job, archive, "jsr.json");
  }

  /** Its exports are those of the source configuration. */
  lemma ReadyExports(tools: Tools, request: MaterializationRequest, archive: Option<seq<ArchiveEntry>>)
    requires OfferOf(tools, request, archive).diagnostic == None
    ensures Unpack(archive).Done? && RootConfiguration(Unpack(archive).value).Some?
    ensures var parsed := tools.parseConfiguration(RootConfiguration(Unpack(archive).value).value);
            parsed.Ok? && OfferOf(tools, request, archive).exports == ExportMap(parsed.value.exports)
  {
    ConfigurationWhen(tools, Unpack(archive).value);
  }
}
