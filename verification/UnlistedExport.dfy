/**
 * A package whose export is not in its manifest: the archive's `deno.json` exports `jsr.json`,
 * which is removed before publication (materializer/src/service.rs).
 */
module UnlistedExport {
  import opened Common
  import opened Text
  import opened Publication
  import opened PackagePaths
  import opened SourceArchive
  import opened Pipeline
  import opened PipelineOutcome
  import ArtifactKeys
  import ImportRewrite

  // ----- archives of two files at the root -------------------------------------------------

  function FileAt(root: string, f: ArtifactFile): ArchiveEntry {
    Entry(Some(root + "/" + f.path), RegularFile, Some(|f.bytes|), Some(f.bytes))
  }

  /** A path of one component. */
  ghost predicate IsFileName(path: string) {
    IsPackagePath(path) && IsPlain(path) && '/' !in path
  }

  lemma RootLocated(root: string, name: string)
    requires '/' !in root && name != "" && '/' !in name
    ensures TrimSlashes(root + "/" + name) == root + "/" + name
    ensures Split(root + "/" + name, '/') == [root, name]
  {
    var path := root + "/" + name;
    assert path == root + ['/'] + name;
    assert path[|path| - 1] == name[|name| - 1] && name[|name| - 1] in name;
    FirstSeparator(root, '/', name);
    NoSeparator(name, '/');
    assert path[..|root|] == root && path[|root| + 1..] == name;
    assert Split(path, '/') == [root] + [name];
  }

  lemma AddsBelow(u: Unpacking, e: ArchiveEntry, name: string)
    requires e.Entry? && e.kind == RegularFile && IsFileName(name)
    ensures AddBelow(u, [name], e) == AddFile(u, name, e.size, e.contents)
  {
    assert Join([name], '/') == name;
    AddBelowCases(u, [name], e);
  }

  function WithFile(u: Unpacking, root: string, f: ArtifactFile): Unpacking {
    Unpacking(Insert(u.files, f), Some(root), u.folded[Lower(f.path) := f.path], u.total + |f.bytes|)
  }

  lemma FileAdded(u: Unpacking, root: string, f: ArtifactFile)
    requires IsPlain(root) && '/' !in root && IsFileName(f.path) && (u.root.None? || u.root == Some(root))
    requires u.total + |f.bytes| <= MAX_TOTAL_SOURCE_BYTES && Lower(f.path) !in u.folded && !Has(u.files, f.path)
    ensures AddEntry(u, FileAt(root, f)) == Done(WithFile(u, root, f))
  {
    RootLocated(root, f.path);
    assert [root, f.path][1..] == [f.path];
    AddsBelow(u.(root := Some(root)), FileAt(root, f), f.path);
  }

  lemma InsertAfter(f: ArtifactFile, g: ArtifactFile)
    requires f.path != "" && g.path != "" && f.path[0] < g.path[0]
    ensures !Has([f], g.path) && Insert([], f) == [f] && Insert([f], g) == [f, g]
  {
    assert f.path[0] != g.path[0];
    assert [f][1..] == [];
    assert Lookup([f], g.path) == Lookup([f][1..], g.path);
    assert !ImportRewrite.Before(g.path, f.path);
    assert Insert([f], g) == [f] + Insert([f][1..], g);
    assert [g] + [] == [g] && [f] + [g] == [f, g];
  }

  lemma TwoFilesUnpack(root: string, f: ArtifactFile, g: ArtifactFile)
    requires IsPlain(root) && '/' !in root && IsFileName(f.path) && IsFileName(g.path)
    requires |f.path| > |g.path| && f.path[0] < g.path[0] && |f.bytes| + |g.bytes| <= MAX_TOTAL_SOURCE_BYTES
    ensures Unpack(Some([FileAt(root, f), FileAt(root, g)])) == Done([f, g])
  {
    var entries := [FileAt(root, f), FileAt(root, g)];
    InsertAfter(f, g);
    FileAdded(EMPTY, root, f);
    var u := WithFile(EMPTY, root, f);
    assert |Lower(f.path)| != |Lower(g.path)|;
    FileAdded(u, root, g);
    assert entries[1..] == [entries[1]] && [entries[1]][1..] == [];
    AddEntriesCons(EMPTY, entries, u);
    AddEntriesCons(u, [entries[1]], WithFile(u, root, g));
  }

  lemma AddEntriesCons(u: Unpacking, entries: seq<ArchiveEntry>, next: Unpacking)
    requires entries != [] && AddEntry(u, entries[0]) == Done(next)
    ensures AddEntries(u, entries) == AddEntries(next, entries[1..])
  {
  }

  // ----- the two configurations ------------------------------------------------------------

  lemma PlainFileName(stem: string, extension: string)
    requires 5 < |stem| + |extension| < 90 && stem != "" && extension != ""
    requires ArtifactKeys.IsKeyText(stem) && ArtifactKeys.IsKeyText(extension) && '.' !in extension
    requires stem[0] == 'd' || stem[0] == 'j'
    ensures IsFileName(stem + "." + extension)
    ensures (stem + "." + extension)[0] == stem[0]
  {
    var name := stem + "." + extension;
    NameWithExtension(stem, extension);
    ComponentTextConcat(stem, ".");
    ComponentTextConcat(stem + ".", extension);
    assert forall c :: c in name ==> IsComponentChar(c);
    assert !IsComponentChar('/');
  }

  lemma DenoName()
    ensures IsFileName("deno.json") && "deno.json"[0] == 'd' && |"deno.json"| == 9
  {
    PlainFileName("deno", "json");
    assert "deno.json" == "deno" + "." + "json";
  }

  lemma JsrName()
    ensures IsFileName("jsr.json") && "jsr.json"[0] == 'j' && |"jsr.json"| == 8
  {
    PlainFileName("jsr", "json");
    assert "jsr.json" == "jsr" + "." + "json";
  }

  lemma JsrTarget()
    ensures TrimDotSlash("./jsr.json") == "jsr.json"
  {
    var target := "./jsr.json";
    assert target[..2] == "./" && target[2..] == "jsr.json";
    assert "jsr.json"[..2][0] == 'j';
  }

  lemma BothRemoved(f: ArtifactFile, g: ArtifactFile)
    requires f.path != g.path
    ensures Remove(Remove([f, g], f.path), g.path) == []
  {
    assert [f, g][1..] == [g] && [g][1..] == [];
    assert Remove([g], f.path) == [g] && Remove([f, g], f.path) == [g];
  }

  lemma OneFileWithinLimits(f: ArtifactFile)
    requires IsPackagePath(f.path) && |f.bytes| <= MAX_TOTAL_SOURCE_BYTES
    ensures CheckFiles([f], map[], 0) == None
  {
    LimitsExact([f]);
    assert [f][1..] == [];
    assert TotalSize([f]) == |f.bytes|;
  }

  const JSR_EXPORT: Export := Export(".", "./jsr.json")

  function Emitted(tools: Tools, job: MaterializationJob): Bytes {
    EmittedConfiguration(tools, job, ExportMap([JSR_EXPORT]))
  }

  function Configurations(configuration: Bytes): seq<ArtifactFile> {
    [ArtifactFile("deno.json", configuration), ArtifactFile("jsr.json", [])]
  }

  lemma ExportPresent(files: seq<ArtifactFile>, e: Export)
    requires Has(files, TrimDotSlash(e.target))
    ensures MissingExport(files, [e]) == None
  {
    assert [e][1..] == [];
  }

  lemma SecondPresent(f: ArtifactFile, g: ArtifactFile)
    ensures Has([f, g], f.path) && Has([f, g], g.path)
    ensures f.path != g.path ==> Lookup([f, g], f.path) == Some(f.bytes)
  {
    assert [f, g][1..] == [g];
  }

  lemma OneFileAssembled(tools: Tools, job: MaterializationJob, f: ArtifactFile, g: ArtifactFile, exports: seq<Export>)
    requires f.path == "deno.json" && g.path == "jsr.json" && |f.path| != |g.path|
    ensures Assembled(tools, job, [f, g], exports)
         == [ArtifactFile("deno.json", EmittedConfiguration(tools, job, ExportMap(exports)))]
  {
    BothRemoved(f, g);
  }

  lemma ConfigurationsChecked(tools: Tools, job: MaterializationJob, configuration: Bytes)
    requires |Emitted(tools, job)| <= MAX_TOTAL_SOURCE_BYTES
    ensures Checked(tools, job, Configurations(configuration), [JSR_EXPORT])
         == Done(Package([ArtifactFile("deno.json", Emitted(tools, job))], [JSR_EXPORT]))
  {
    var files := Configurations(configuration);
    DenoName();
    JsrName();
    JsrTarget();
    SecondPresent(files[0], files[1]);
    ExportPresent(files, JSR_EXPORT);
    OneFileAssembled(tools, job, files[0], files[1], [JSR_EXPORT]);
    OneFileWithinLimits(ArtifactFile("deno.json", Emitted(tools, job)));
  }

  /** An archive of just the two configurations. */
  function JsrArchive(configuration: Bytes): Option<seq<ArchiveEntry>> {
    var files := Configurations(configuration);
    Some([FileAt("r", files[0]), FileAt("r", files[1])])
  }

  /** Whatever else it says, a `deno.json` that exports `jsr.json` is published without its export. */
  lemma JsrExportIsNotListed(tools: Tools, job: MaterializationJob, configuration: Bytes)
    requires tools.parseConfiguration(configuration) == Ok(SourceConfiguration([JSR_EXPORT], []))
    requires |configuration| <= MAX_TOTAL_SOURCE_BYTES && |Emitted(tools, job)| <= MAX_TOTAL_SOURCE_BYTES
    ensures SourcePackage(tools, job, JsrArchive(configuration))
         == Done(Package([ArtifactFile("deno.json", Emitted(tools, job))], [JSR_EXPORT]))
    ensures "/" + TrimDotSlash(JSR_EXPORT.target)
            !in ManifestOf(tools.host, SourcePackage(tools, job, JsrArchive(configuration)).value.files)
  {
    var files := Configurations(configuration);
    DenoName();
    JsrName();
    JsrTarget();
    TwoFilesUnpack("r", files[0], files[1]);
    assert [files[0], files[1]] == files;
    assert Configuration(tools, files) == Done(SourceConfiguration([JSR_EXPORT], []));
    ConfigurationsChecked(tools, job, configuration);
    CheckedExports(tools, job, files, [JSR_EXPORT], JSR_EXPORT);
  }
}
