/**
 * What a publication guarantees: which keys its batch writes, that its manifest lists exactly
 * the uploaded files, and that no two package versions share a key.
 */
module PublicationLaws {
  import opened Common
  import opened Text
  import opened Publication
  import Base64

  // ----- one batch -------------------------------------------------------------------------

  predicate IsSuffix(suffix: string) {
    suffix == "_meta.json" || suffix == ".ready.json" || (suffix != "" && suffix[0] == '/')
  }

  /** What follows the package prefix in the `i`-th key of a batch. */
  function Suffix(files: seq<ArtifactFile>, i: nat): (suffix: string)
    requires i < |files| + 2
    ensures IsSuffix(suffix)
  {
    if i < |files| then "/" + files[i].path
    else if i == |files| then "_meta.json"
    else ".ready.json"
  }

  lemma BatchKey(host: Host, job: MaterializationJob, files: seq<ArtifactFile>, exports: map<string, string>, i: nat)
    requires i < |files| + 2
    ensures Batch(host, job, files, exports)[i].key == PackageKeyPrefix(job) + Suffix(files, i)
  {
    if i < |files| {
      assert FileKey(job, files[i].path) == PackageKeyPrefix(job) + ("/" + files[i].path);
    }
  }

  lemma SuffixesDistinct(files: seq<ArtifactFile>, i: nat, j: nat)
    requires Publishable(files) && i < j < |files| + 2
    ensures Suffix(files, i) != Suffix(files, j)
  {
    var s, t := Suffix(files, i), Suffix(files, j);
    if j < |files| {
      assert Paths(files)[i] != Paths(files)[j];
      if s == t {
        SamePrefix("/", files[i].path, files[j].path);
      }
    } else if i < |files| {
      assert s[0] == '/' && t[0] != '/';
    } else {
      assert s[0] == '_' && t[0] == '.';
    }
  }

  lemma DistinctKeys(host: Host, job: MaterializationJob, files: seq<ArtifactFile>, exports: map<string, string>,
                     m: nat, n: nat)
    requires Publishable(files) && m < n < |files| + 2
    ensures Batch(host, job, files, exports)[m].key != Batch(host, job, files, exports)[n].key
  {
    BatchKey(host, job, files, exports, m);
    BatchKey(host, job, files, exports, n);
    SuffixesDistinct(files, m, n);
    if Batch(host, job, files, exports)[m].key == Batch(host, job, files, exports)[n].key {
      SamePrefix(PackageKeyPrefix(job), Suffix(files, m), Suffix(files, n));
    }
  }

  lemma SameKey(host: Host, job: MaterializationJob, files: seq<ArtifactFile>, exports: map<string, string>,
                i: nat, j: nat)
    requires Publishable(files) && i < |files| + 2 && j < |files| + 2
    ensures Batch(host, job, files, exports)[i].key == Batch(host, job, files, exports)[j].key <==> i == j
  {
    if i < j {
      DistinctKeys(host, job, files, exports, i, j);
    } else if j < i {
      DistinctKeys(host, job, files, exports, j, i);
    }
  }

  /** Every key of a batch is written once; so the marker's key is written last, and only last. */
  lemma BatchKeysDistinct(host: Host, job: MaterializationJob, files: seq<ArtifactFile>, exports: map<string, string>,
                          i: nat, j: nat)
    requires Publishable(files) && i < |files| + 2 && j < |files| + 2
    ensures Batch(host, job, files, exports)[i].key == Batch(host, job, files, exports)[j].key <==> i == j
    ensures Batch(host, job, files, exports)[i].key == ReadyMarkerKey(job) <==> i == |files| + 1
    ensures Batch(host, job, files, exports)[i].key == MetadataKey(job) <==> i == |files|
  {
    SameKey(host, job, files, exports, i, j);
    SameKey(host, job, files, exports, i, |files|);
    SameKey(host, job, files, exports, i, |files| + 1);
    BatchKey(host, job, files, exports, |files|);
    BatchKey(host, job, files, exports, |files| + 1);
  }

  /** The manifest lists a path exactly when a file has it, with that file's size and checksum. */
  lemma {:induction false} ManifestListsFiles(host: Host, files: seq<ArtifactFile>, path: string)
    requires Publishable(files)
    ensures path in ManifestOf(host, files) <==> exists i :: 0 <= i < |files| && path == "/" + files[i].path
    ensures forall i :: 0 <= i < |files| && path == "/" + files[i].path ==>
                          ManifestOf(host, files)[path] == EntryOf(host, files[i].bytes)
  {
    if files != [] {
      var n := |files| - 1;
      var front := files[..n];
      FrontPublishable(files);
      ManifestListsFiles(host, front, path);
      forall i | 0 <= i < n && path == "/" + files[i].path
        ensures path != "/" + files[n].path
      {
        assert files[i] == front[i];
        SuffixesDistinct(files, i, n);
      }
      assert forall i :: 0 <= i < n ==> files[i] == front[i];
    }
  }

  lemma FrontPublishable(files: seq<ArtifactFile>)
    requires Publishable(files) && files != []
    ensures Publishable(files[..|files| - 1])
  {
    var n := |files| - 1;
    forall i, j | 0 <= i < j < n
      ensures Paths(files[..n])[i] != Paths(files[..n])[j]
    {
      assert Paths(files)[i] != Paths(files)[j];
    }
  }

  /** Manifest and file uploads correspond: same key under the prefix, same digest. */
  lemma ManifestMatchesUploads(host: Host, job: MaterializationJob, files: seq<ArtifactFile>,
                               exports: map<string, string>, path: string)
    returns (i: nat)
    requires Publishable(files) && path in ManifestOf(host, files)
    ensures i < |files|
    ensures var upload := Batch(host, job, files, exports)[i];
            && upload.key == PackageKeyPrefix(job) + path
            && ManifestOf(host, files)[path].checksum == "sha256-" + upload.sha256
  {
    ManifestListsFiles(host, files, path);
    i :| 0 <= i < |files| && path == "/" + files[i].path;
    BatchKey(host, job, files, exports, i);
  }

  // ----- what a batch says -----------------------------------------------------------------

  /** The manifest lists the bytes under the path, with their size and checksum. */
  ghost predicate ListsFile(host: Host, manifest: Manifest, f: ArtifactFile) {
    && "/" + f.path in manifest
    && manifest["/" + f.path] == ManifestEntry(|f.bytes|, "sha256-" + host.sha256(f.bytes))
  }

  /** The manifest lists exactly the files. */
  ghost predicate Lists(host: Host, files: seq<ArtifactFile>, manifest: Manifest) {
    && (forall i :: 0 <= i < |files| ==> ListsFile(host, manifest, files[i]))
    && forall path :: path in manifest ==> exists i :: 0 <= i < |files| && path == "/" + files[i].path
  }

  lemma ManifestLists(host: Host, files: seq<ArtifactFile>)
    requires Publishable(files)
    ensures Lists(host, files, ManifestOf(host, files))
  {
    var manifest := ManifestOf(host, files);
    forall path | path in manifest
      ensures exists i :: 0 <= i < |files| && path == "/" + files[i].path
    {
      ManifestListsFiles(host, files, path);
    }
    forall i | 0 <= i < |files|
      ensures ListsFile(host, manifest, files[i])
    {
      ManifestListsFiles(host, files, "/" + files[i].path);
    }
  }

  /** The upload puts those bytes under that key, with their digest. */
  ghost predicate Uploaded(host: Host, upload: Upload, key: string, bytes: Bytes) {
    upload.key == key && upload.sha256 == host.sha256(bytes) && Base64.Decode(upload.body) == Some(bytes)
  }

  /** Where a job's objects are. */
  function JobRoot(job: MaterializationJob): string {
    "synthetic/" + job.package.scope + "/" + job.package.name + "/" + job.version
  }

  lemma RootIsPrefix(job: MaterializationJob)
    ensures PackageKeyPrefix(job) == JobRoot(job)
  {
    var a, b, c := "synthetic/" + job.package.scope, "/" + job.package.name, "/" + job.version;
    assert job.package.scope + "/" + (job.package.name + "/" + job.version) == job.package.scope + (b + c);
  }

  lemma FileUploaded(host: Host, job: MaterializationJob, files: seq<ArtifactFile>, exports: map<string, string>, i: nat)
    requires i < |files|
    ensures Uploaded(host, Batch(host, job, files, exports)[i], JobRoot(job) + "/" + files[i].path, files[i].bytes)
  {
    RootIsPrefix(job);
    Base64.DecodeEncode(files[i].bytes);
  }

  /** The metadata names the job's branch and commit and the exports; the marker seals the manifest. */
  lemma EndUploaded(host: Host, job: MaterializationJob, files: seq<ArtifactFile>, exports: map<string, string>)
    ensures var batch, manifest := Batch(host, job, files, exports), ManifestOf(host, files);
            && Uploaded(host, batch[|files|], JobRoot(job) + "_meta.json",
                        host.metadataJson(PackageMetadata(manifest, exports, Provenance(job.branch, job.commitSha))))
            && Uploaded(host, batch[|files| + 1], JobRoot(job) + ".ready.json",
                        host.markerJson(host.sha256(host.manifestJson(manifest))))
  {
    var manifest := ManifestOf(host, files);
    RootIsPrefix(job);
    Base64.DecodeEncode(host.metadataJson(PackageMetadata(manifest, exports, Provenance(job.branch, job.commitSha))));
    Base64.DecodeEncode(host.markerJson(host.sha256(host.manifestJson(manifest))));
  }

  /**
   * A batch is the files in order, then the metadata of a manifest of exactly those files, with
   * the exports, branch and commit of its job, then the marker with that manifest's digest.
   */
  lemma BatchContents(host: Host, job: MaterializationJob, files: seq<ArtifactFile>, exports: map<string, string>)
    returns (manifest: Manifest)
    requires Publishable(files)
    ensures var batch := Batch(host, job, files, exports);
            && |batch| == |files| + 2
            && (forall i :: 0 <= i < |files| ==>
                  Uploaded(host, batch[i], JobRoot(job) + "/" + files[i].path, files[i].bytes))
            && Uploaded(host, batch[|files|], JobRoot(job) + "_meta.json",
                        host.metadataJson(PackageMetadata(manifest, exports, Provenance(job.branch, job.commitSha))))
            && Uploaded(host, batch[|files| + 1], JobRoot(job) + ".ready.json",
                        host.markerJson(host.sha256(host.manifestJson(manifest))))
    ensures Lists(host, files, manifest)
  {
    manifest := ManifestOf(host, files);
    ManifestLists(host, files);
    EndUploaded(host, job, files, exports);
    forall i | 0 <= i < |files|
      ensures Uploaded(host, Batch(host, job, files, exports)[i], JobRoot(job) + "/" + files[i].path, files[i].bytes)
    {
      FileUploaded(host, job, files, exports, i);
    }
  }

  /** A path may be published exactly when no part of it is empty, stands still or climbs. */
  lemma ValidPathExactly(path: string)
    ensures ValidPath(path) <==> forall part :: part in Split(path, '/') ==> part !in {"", ".", ".."}
  {
    if path == "" {
      assert Split(path, '/') == [path] && path in [path];
    } else if path[0] == '/' {
      assert Split(path, '/')[0] == "" && Split(path, '/')[0] in Split(path, '/');
    }
  }

  // ----- two versions ----------------------------------------------------------------------

  /** Three dot-separated digit groups: what the registry allocates and the store accepts. */
  predicate IsVersionText(version: string) {
    var pieces := Split(version, '.');
    |pieces| == 3 && forall i :: 0 <= i < 3 ==> pieces[i] != "" && AllDigits(pieces[i])
  }

  lemma VersionTextChars(version: string)
    requires IsVersionText(version)
    ensures version != "" && IsDigit(version[|version| - 1])
    ensures forall c :: c in version ==> IsDigit(c) || c == '.'
  {
    var p := Split(version, '.');
    JoinSplit(version, '.');
    assert Join(p[1..][1..], '.') == p[2];
    assert Join(p[1..], '.') == p[1] + ['.'] + p[2];
    assert version == p[0] + ['.'] + (p[1] + ['.'] + p[2]);
    assert version[|version| - 1] == p[2][|p[2]| - 1];
    assert p[2][|p[2]| - 1] in p[2];
  }

  lemma OverlapChar(v: string, s: string, w: string, t: string, k: nat)
    requires v + s == w + t && |v| <= k < |w|
    ensures k - |v| < |s| && s[k - |v|] == w[k] && w[k] in w
  {
    assert (v + s)[k] == (w + t)[k];
  }

  lemma ShorterVersion(v: string, s: string, w: string, t: string)
    requires IsVersionText(v) && IsVersionText(w) && IsSuffix(s)
    requires v + s == w + t
    ensures |v| >= |w|
  {
    if |v| < |w| {
      OverlapChar(v, s, w, t, |v|);
      if |v| + 1 < |w| {
        OverlapChar(v, s, w, t, |v| + 1);
      }
      VersionTextChars(w);
    }
  }

  lemma VersionSuffixUnique(v: string, s: string, w: string, t: string)
    requires IsVersionText(v) && IsVersionText(w) && IsSuffix(s) && IsSuffix(t)
    requires v + s == w + t
    ensures v == w && s == t
  {
    ShorterVersion(v, s, w, t);
    ShorterVersion(w, t, v, s);
    assert (v + s)[..|v|] == v && (w + t)[..|w|] == w;
    SamePrefix(v, s, t);
  }

  predicate ProxyableJob(job: MaterializationJob) {
    '/' !in job.package.scope && '/' !in job.package.name && IsVersionText(job.version)
  }

  lemma Regroup(scope: string, name: string, version: string, suffix: string)
    ensures "synthetic/" + (scope + "/" + (name + "/" + version)) + suffix
         == "synthetic/" + (scope + ['/'] + (name + ['/'] + (version + suffix)))
  {
    var rest := name + "/" + version;
    assert rest + suffix == name + ['/'] + (version + suffix);
    assert scope + "/" + rest + suffix == scope + ['/'] + (rest + suffix);
  }

  /** The key spaces of different package versions are disjoint. */
  lemma KeySpacesDisjoint(a: MaterializationJob, s: string, b: MaterializationJob, t: string)
    requires ProxyableJob(a) && ProxyableJob(b) && IsSuffix(s) && IsSuffix(t)
    requires PackageKeyPrefix(a) + s == PackageKeyPrefix(b) + t
    ensures a.package == b.package && a.version == b.version && s == t
  {
    var x := a.package.name + ['/'] + (a.version + s);
    var y := b.package.name + ['/'] + (b.version + t);
    Regroup(a.package.scope, a.package.name, a.version, s);
    Regroup(b.package.scope, b.package.name, b.version, t);
    SamePrefix("synthetic/", a.package.scope + ['/'] + x, b.package.scope + ['/'] + y);
    FirstSplitUnique(a.package.scope, b.package.scope, '/', x, y);
    FirstSplitUnique(a.package.name, b.package.name, '/', a.version + s, b.version + t);
    VersionSuffixUnique(a.version, s, b.version, t);
  }
}
