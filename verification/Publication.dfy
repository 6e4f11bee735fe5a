/**
 * Publication of one package version (materializer/src/publication.rs): the ordered list of
 * uploads for a set of files, with the metadata second to last and the ready marker last.
 */
module Publication {
  import opened Common
  import opened Text
  import Base64

  datatype PackageIdentity = PackageIdentity(scope: string, name: string)

  datatype MaterializationJob =
    MaterializationJob(package: PackageIdentity, branch: string, commitSha: string, version: string)

  datatype ArtifactFile = ArtifactFile(path: string, bytes: Bytes)

  datatype ManifestEntry = ManifestEntry(size: nat, checksum: string)

  type Manifest = map<string, ManifestEntry>

  datatype Provenance = Provenance(branch: string, commitSha: string)

  datatype PackageMetadata =
    PackageMetadata(manifest: Manifest, exports: map<string, string>, provenance: Provenance)

  /** `BatchedArtifact`: the body travels as base64. */
  datatype Upload = Upload(key: string, sha256: string, body: string)

  datatype PublicationError = InvalidPath(path: string) | DuplicatePath(path: string)

  datatype PublicationResult =
    PublicationResult(metadata: PackageMetadata, manifestSha256: string, metadataKey: string, readyMarkerKey: string)

  datatype Publishing = Published(result: PublicationResult) | Rejected(error: PublicationError)

  /** The libraries publication calls: SHA-256 as lower-case hexadecimal, and JSON serializers. */
  datatype Host = Host(
    sha256: Bytes -> string,
    manifestJson: Manifest -> Bytes,
    metadataJson: PackageMetadata -> Bytes,
    markerJson: string -> Bytes)

  // ----- keys ------------------------------------------------------------------------------

  predicate IsPlain(part: string) {
    part != "" && part != "." && part != ".."
  }

  predicate ValidPath(path: string) {
    path != "" && path[0] != '/' && forall part :: part in Split(path, '/') ==> IsPlain(part)
  }

  function PackageKeyPrefix(job: MaterializationJob): string {
    "synthetic/" + (job.package.scope + "/" + (job.package.name + "/" + job.version))
  }

  function FileKey(job: MaterializationJob, path: string): string {
    PackageKeyPrefix(job) + "/" + path
  }

  function MetadataKey(job: MaterializationJob): string {
    PackageKeyPrefix(job) + "_meta.json"
  }

  function ReadyMarkerKey(job: MaterializationJob): string {
    PackageKeyPrefix(job) + ".ready.json"
  }

  // ----- what publishing files means -------------------------------------------------------

  function Paths(files: seq<ArtifactFile>): seq<string> {
    seq(|files|, i requires 0 <= i < |files| => files[i].path)
  }

  ghost predicate Publishable(files: seq<ArtifactFile>) {
    && (forall i :: 0 <= i < |files| ==> ValidPath(files[i].path))
    && NoDuplicates(Paths(files))
  }

  function EntryOf(host: Host, bytes: Bytes): ManifestEntry {
    ManifestEntry(|bytes|, "sha256-" + host.sha256(bytes))
  }

  /** Every file under its path with a leading slash; of two files with one path, the later. */
  function ManifestOf(host: Host, files: seq<ArtifactFile>): Manifest {
    if files == [] then map[]
    else
      var last := files[|files| - 1];
      ManifestOf(host, files[..|files| - 1])["/" + last.path := EntryOf(host, last.bytes)]
  }

  function UploadOf(host: Host, key: string, bytes: Bytes): Upload {
    Upload(key, host.sha256(bytes), Base64.Encode(bytes))
  }

  function FileUploads(host: Host, job: MaterializationJob, files: seq<ArtifactFile>): (r: seq<Upload>)
    ensures |r| == |files|
  {
    seq(|files|, i requires 0 <= i < |files| => UploadOf(host, FileKey(job, files[i].path), files[i].bytes))
  }

  function MetadataOf(host: Host, job: MaterializationJob, files: seq<ArtifactFile>, exports: map<string, string>)
    : PackageMetadata
  {
    PackageMetadata(ManifestOf(host, files), exports, Provenance(job.branch, job.commitSha))
  }

  function ManifestDigest(host: Host, files: seq<ArtifactFile>): string {
    host.sha256(host.manifestJson(ManifestOf(host, files)))
  }

  function MetadataUpload(host: Host, job: MaterializationJob, files: seq<ArtifactFile>, exports: map<string, string>)
    : Upload
  {
    UploadOf(host, MetadataKey(job), host.metadataJson(MetadataOf(host, job, files, exports)))
  }

  function MarkerUpload(host: Host, job: MaterializationJob, files: seq<ArtifactFile>): Upload {
    UploadOf(host, ReadyMarkerKey(job), host.markerJson(ManifestDigest(host, files)))
  }

  /** The whole batch of a publication that is not rejected. */
  function Batch(host: Host, job: MaterializationJob, files: seq<ArtifactFile>, exports: map<string, string>)
    : (r: seq<Upload>)
    ensures |r| == |files| + 2
  {
    FileUploads(host, job, files) + [MetadataUpload(host, job, files, exports), MarkerUpload(host, job, files)]
  }

  /** Why the file at `i` stops the loop, given the files before it. */
  function Objection(files: seq<ArtifactFile>, i: nat): Option<PublicationError>
    requires i < |files|
  {
    if !ValidPath(files[i].path) then Some(InvalidPath(files[i].path))
    else if files[i].path in Paths(files[..i]) then Some(DuplicatePath(files[i].path))
    else None
  }

  // ----- the algorithm ---------------------------------------------------------------------

  /** The store the service publishes into: it collects the uploads in order. */
  class BatchedArtifactStore {
    var uploads: seq<Upload>

    constructor ()
      ensures uploads == []
    {
      uploads := [];
    }

    method PutIfAbsent(key: string, bytes: Bytes, sha256: string)
      modifies this
      ensures uploads == old(uploads) + [Upload(key, sha256, Base64.Encode(bytes))]
    {
      var body := Base64.EncodeBytes(bytes);
      uploads := uploads + [Upload(key, sha256, body)];
    }
  }

  /**
   * Uploads every file in order, then the metadata, then the marker; the first file with an
   * invalid or repeated path ends the publication with only the files before it uploaded.
   */
  method Publish(host: Host, store: BatchedArtifactStore, job: MaterializationJob,
                 files: seq<ArtifactFile>, exports: map<string, string>)
    returns (r: Publishing)
    modifies store
    ensures r.Published? <==> Publishable(files)
    ensures r.Published? ==>
              && store.uploads == old(store.uploads) + Batch(host, job, files, exports)
              && r.result == PublicationResult(MetadataOf(host, job, files, exports), ManifestDigest(host, files),
                                               MetadataKey(job), ReadyMarkerKey(job))
    ensures r.Rejected? ==>
              exists i :: 0 <= i < |files| && Publishable(files[..i]) && Objection(files, i) == Some(r.error)
                          && store.uploads == old(store.uploads) + FileUploads(host, job, files[..i])
  {
    var base := PackageKeyPrefix(job);
    var manifest: Manifest := map[];
    var i := 0;
    assert files[..0] == [];
    while i < |files|
      invariant 0 <= i <= |files|
      invariant Publishable(files[..i])
      invariant manifest == ManifestOf(host, files[..i])
      invariant store.uploads == old(store.uploads) + FileUploads(host, job, files[..i])
    {
      var file := files[i];
      if !ValidPath(file.path) {
        assert Objection(files, i) == Some(InvalidPath(file.path));
        return Rejected(InvalidPath(file.path));
      }
      ManifestKeys(host, files[..i], file.path);
      if "/" + file.path in manifest {
        DuplicateIsRejected(files, i);
        return Rejected(DuplicatePath(file.path));
      }
      var checksum := host.sha256(file.bytes);
      manifest := manifest["/" + file.path := ManifestEntry(|file.bytes|, "sha256-" + checksum)];
      store.PutIfAbsent(base + "/" + file.path, file.bytes, checksum);
      OneMoreFile(host, job, files, i);
      i := i + 1;
    }
    assert files[..i] == files;
    var manifestSha256 := host.sha256(host.manifestJson(manifest));
    var metadata := PackageMetadata(manifest, exports, Provenance(job.branch, job.commitSha));
    var metadataBytes := host.metadataJson(metadata);
    store.PutIfAbsent(base + "_meta.json", metadataBytes, host.sha256(metadataBytes));
    var markerBytes := host.markerJson(manifestSha256);
    store.PutIfAbsent(base + ".ready.json", markerBytes, host.sha256(markerBytes));
    r := Published(PublicationResult(metadata, manifestSha256, base + "_meta.json", base + ".ready.json"));
  }

  lemma {:induction false} ManifestKeys(host: Host, files: seq<ArtifactFile>, path: string)
    ensures "/" + path in ManifestOf(host, files) <==> path in Paths(files)
  {
    if files != [] {
      var front, last := files[..|files| - 1], files[|files| - 1];
      ManifestKeys(host, front, path);
      assert Paths(files) == Paths(front) + [last.path];
      if "/" + path == "/" + last.path {
        SamePrefix("/", path, last.path);
      }
    }
  }

  lemma DuplicateIsRejected(files: seq<ArtifactFile>, i: nat)
    requires i < |files| && files[i].path in Paths(files[..i])
    ensures !Publishable(files)
  {
    var j :| 0 <= j < i && Paths(files[..i])[j] == files[i].path;
    assert Paths(files)[j] == Paths(files)[i];
  }

  lemma OneMoreFile(host: Host, job: MaterializationJob, files: seq<ArtifactFile>, i: nat)
    requires i < |files| && Publishable(files[..i])
    requires ValidPath(files[i].path) && files[i].path !in Paths(files[..i])
    ensures Publishable(files[..i + 1])
    ensures ManifestOf(host, files[..i + 1])
         == ManifestOf(host, files[..i])["/" + files[i].path := EntryOf(host, files[i].bytes)]
    ensures FileUploads(host, job, files[..i + 1])
         == FileUploads(host, job, files[..i]) + [UploadOf(host, FileKey(job, files[i].path), files[i].bytes)]
  {
    assert files[..i + 1][..i] == files[..i];
    assert Paths(files[..i + 1]) == Paths(files[..i]) + [files[i].path];
  }
}
