/**
 * The object store and what the Worker does to it (src/r2-publication.ts): an upload is checked,
 * created only if its key is free, and otherwise accepted only when the stored digest is its own.
 * Reads (src/r2-artifacts.ts) are gated on the ready marker.
 */
module ArtifactStore {
  import opened Common
  import opened Text
  import opened Publication
  import opened ArtifactKeys
  import Base64

  datatype StoredObject = StoredObject(bytes: Bytes, sha256: string, contentType: string)

  type Store = map<string, StoredObject>

  const CREATED: nat := 201
  const OK: nat := 200
  const NO_CONTENT: nat := 204
  const BAD_REQUEST: nat := 400
  const CONFLICT: nat := 409
  const UNPROCESSABLE: nat := 422

  predicate IsOk(status: nat) {
    200 <= status < 300
  }

  // ----- one upload ------------------------------------------------------------------------

  predicate IsDigest(s: string) {
    |s| == 64 && forall c :: c in s ==> IsDigit(c) || 'a' <= c <= 'f'
  }

  predicate EndsWithAny(s: string, endings: seq<string>) {
    exists i :: 0 <= i < |endings| && EndsWith(s, endings[i])
  }

  const TYPESCRIPT: seq<string> := [".ts", ".mts", ".cts", ".tsx"]
  const JAVASCRIPT: seq<string> := [".js", ".mjs", ".cjs", ".jsx"]

  function ContentType(key: string): string {
    if EndsWithAny(key, TYPESCRIPT) then "application/typescript"
    else if EndsWithAny(key, JAVASCRIPT) then "application/javascript"
    else if EndsWith(key, ".json") then "application/json"
    else if EndsWith(key, ".wasm") then "application/wasm"
    else "application/octet-stream"
  }

  /** The checks before the store is touched: a refusal's status, or the object to create. */
  datatype Admission = Refused(status: nat) | Admitted(key: string, item: StoredObject)

  function Admit(host: Host, upload: Upload): (r: Admission)
    ensures r.Refused? ==> !IsOk(r.status)
  {
    match Base64.Decode(upload.body)
    case None => Refused(BAD_REQUEST)
    case Some(bytes) =>
      match ArtifactKey(Pathname(upload.key))
      case None => Refused(BAD_REQUEST)
      case Some(key) =>
        if !IsDigest(upload.sha256) then Refused(BAD_REQUEST)
        else if host.sha256(bytes) != upload.sha256 then Refused(UNPROCESSABLE)
        else Admitted(key, StoredObject(bytes, upload.sha256, ContentType(key)))
  }

  /** A put that creates nothing when the key is taken. */
  function PutIfAbsent(store: Store, key: string, item: StoredObject): Store {
    if key in store then store else store[key := item]
  }

  /** The status of a put that found its key taken, from the digest stored there. */
  function HeadStatus(store: Store, key: string, sha256: string): nat {
    if key in store && store[key].sha256 == sha256 then OK else CONFLICT
  }

  /** One upload with nothing in between: the store afterwards, and the status. */
  function UploadStep(host: Host, store: Store, upload: Upload): (Store, nat) {
    match Admit(host, upload)
    case Refused(status) => (store, status)
    case Admitted(key, item) =>
      if key in store then (store, HeadStatus(store, key, item.sha256))
      else (PutIfAbsent(store, key, item), CREATED)
  }

  /** Uploads in order, up to the first that is not accepted. */
  function UploadAll(host: Host, store: Store, uploads: seq<Upload>): (Store, nat)
    decreases |uploads|
  {
    if uploads == [] then (store, NO_CONTENT)
    else
      var (next, status) := UploadStep(host, store, uploads[0]);
      if IsOk(status) then UploadAll(host, next, uploads[1..]) else (next, status)
  }

  function BatchStep(host: Host, store: Store, uploads: seq<Upload>): (Store, nat) {
    if uploads == [] then (store, BAD_REQUEST) else UploadAll(host, store, uploads)
  }

  // ----- the bucket ------------------------------------------------------------------------

  class Bucket {
    var objects: Store

    constructor ()
      ensures objects == map[]
    {
      objects := map[];
    }

    /** `put` with `onlyIf: { etagDoesNotMatch: "*" }`: false when the key is taken. */
    method Put(key: string, item: StoredObject) returns (written: bool)
      modifies this
      ensures written <==> key !in old(objects)
      ensures objects == PutIfAbsent(old(objects), key, item)
    {
      written := key !in objects;
      if written {
        objects := objects[key := item];
      }
    }

    method Head(key: string) returns (found: Option<StoredObject>)
      ensures found == if key in objects then Some(objects[key]) else None
    {
      found := if key in objects then Some(objects[key]) else None;
    }
  }

  method PublishArtifact(host: Host, bucket: Bucket, upload: Upload) returns (status: nat)
    modifies bucket
    ensures (bucket.objects, status) == UploadStep(host, old(bucket.objects), upload)
  {
    var admission := Admit(host, upload);
    if admission.Refused? {
      return admission.status;
    }
    var written := bucket.Put(admission.key, admission.item);
    if written {
      return CREATED;
    }
    var existing := bucket.Head(admission.key);
    status := if existing.Some? && existing.value.sha256 == admission.item.sha256 then OK else CONFLICT;
  }

  method PublishArtifactBatch(host: Host, bucket: Bucket, uploads: seq<Upload>) returns (status: nat)
    modifies bucket
    ensures (bucket.objects, status) == BatchStep(host, old(bucket.objects), uploads)
  {
    if uploads == [] {
      return BAD_REQUEST;
    }
    for i := 0 to |uploads|
      invariant UploadAll(host, old(bucket.objects), uploads) == UploadAll(host, bucket.objects, uploads[i..])
    {
      var rest := uploads[i..];
      assert rest[0] == uploads[i] && rest[1..] == uploads[i + 1..];
      status := PublishArtifact(host, bucket, uploads[i]);
      if !IsOk(status) {
        return status;
      }
    }
    status := NO_CONTENT;
  }

  // ----- what a batch guarantees -----------------------------------------------------------

  /** Objects are never replaced or removed. */
  ghost predicate Grows(store: Store, next: Store) {
    forall key :: key in store ==> key in next && next[key] == store[key]
  }

  /** The upload's digest is the one stored under its key. */
  ghost predicate Accepted(host: Host, store: Store, upload: Upload) {
    var admission := Admit(host, upload);
    && admission.Admitted?
    && admission.key in store
    && store[admission.key].sha256 == upload.sha256
  }

  /** An upload can be accepted: its key is free, or holds its digest already. */
  ghost predicate Acceptable(host: Host, store: Store, upload: Upload) {
    var admission := Admit(host, upload);
    && admission.Admitted?
    && (admission.key in store ==> store[admission.key].sha256 == upload.sha256)
  }

  /** No two uploads name one key. */
  ghost predicate KeysApart(host: Host, uploads: seq<Upload>) {
    forall i, j :: 0 <= i < j < |uploads| && Admit(host, uploads[i]).Admitted? && Admit(host, uploads[j]).Admitted? ==>
                     Admit(host, uploads[i]).key != Admit(host, uploads[j]).key
  }

  lemma UploadLaw(host: Host, store: Store, upload: Upload)
    ensures var (next, status) := UploadStep(host, store, upload);
            && Grows(store, next)
            && (IsOk(status) <==> Acceptable(host, store, upload))
            && (IsOk(status) ==> Accepted(host, next, upload))
            && (!IsOk(status) ==> next == store)
            && (forall key :: key in next && key !in store ==>
                  Admit(host, upload).Admitted? && key == Admit(host, upload).key)
  {
  }

  lemma AcceptedStays(host: Host, store: Store, next: Store, upload: Upload)
    requires Accepted(host, store, upload) && Grows(store, next)
    ensures Accepted(host, next, upload)
  {
  }

  lemma {:induction false} BatchGrows(host: Host, store: Store, uploads: seq<Upload>)
    ensures Grows(store, UploadAll(host, store, uploads).0)
    decreases |uploads|
  {
    if uploads != [] {
      UploadLaw(host, store, uploads[0]);
      BatchGrows(host, UploadStep(host, store, uploads[0]).0, uploads[1..]);
    }
  }

  ghost predicate AllAcceptable(host: Host, store: Store, uploads: seq<Upload>) {
    forall i :: 0 <= i < |uploads| ==> Acceptable(host, store, uploads[i])
  }

  ghost predicate AllAccepted(host: Host, store: Store, uploads: seq<Upload>) {
    forall i :: 0 <= i < |uploads| ==> Accepted(host, store, uploads[i])
  }

  /**
   * A batch of uploads with different keys answers success exactly when every upload is
   * acceptable in the store it started from; then every upload is accepted.
   */
  lemma {:induction false} BatchLaw(host: Host, store: Store, uploads: seq<Upload>)
    requires KeysApart(host, uploads)
    ensures var (next, status) := UploadAll(host, store, uploads);
            && (IsOk(status) <==> AllAcceptable(host, store, uploads))
            && (IsOk(status) ==> AllAccepted(host, next, uploads))
    decreases |uploads|
  {
    if uploads != [] {
      var first, rest := uploads[0], uploads[1..];
      var next := UploadStep(host, store, first).0;
      UploadLaw(host, store, first);
      AcceptableCons(host, store, uploads);
      if IsOk(UploadStep(host, store, first).1) {
        RestApart(host, uploads);
        BatchLaw(host, next, rest);
        BatchGrows(host, next, rest);
        AcceptedStays(host, next, UploadAll(host, next, rest).0, first);
        FirstIrrelevant(host, store, uploads);
        AcceptedCons(host, UploadAll(host, next, rest).0, uploads);
      }
    }
  }

  lemma FirstIrrelevant(host: Host, store: Store, uploads: seq<Upload>)
    requires KeysApart(host, uploads) && uploads != []
    ensures AllAcceptable(host, UploadStep(host, store, uploads[0]).0, uploads[1..])
       <==> AllAcceptable(host, store, uploads[1..])
  {
    var rest := uploads[1..];
    forall i | 0 <= i < |rest|
      ensures Acceptable(host, UploadStep(host, store, uploads[0]).0, rest[i]) <==> Acceptable(host, store, rest[i])
    {
      OtherUploadIrrelevant(host, store, uploads, i + 1);
    }
  }

  lemma AcceptedCons(host: Host, store: Store, uploads: seq<Upload>)
    requires uploads != []
    ensures AllAccepted(host, store, uploads)
       <==> Accepted(host, store, uploads[0]) && AllAccepted(host, store, uploads[1..])
  {
    var rest := uploads[1..];
    assert forall i :: 0 < i < |uploads| ==> uploads[i] == rest[i - 1];
  }

  lemma AcceptableCons(host: Host, store: Store, uploads: seq<Upload>)
    requires uploads != []
    ensures AllAcceptable(host, store, uploads)
       <==> Acceptable(host, store, uploads[0]) && AllAcceptable(host, store, uploads[1..])
  {
    var rest := uploads[1..];
    assert forall i :: 0 < i < |uploads| ==> uploads[i] == rest[i - 1];
  }

  lemma RestApart(host: Host, uploads: seq<Upload>)
    requires KeysApart(host, uploads) && uploads != []
    ensures KeysApart(host, uploads[1..])
  {
    assert forall i :: 0 <= i < |uploads| - 1 ==> uploads[1..][i] == uploads[i + 1];
  }

  lemma OtherUploadIrrelevant(host: Host, store: Store, uploads: seq<Upload>, i: nat)
    requires KeysApart(host, uploads) && 0 < i < |uploads|
    ensures Acceptable(host, UploadStep(host, store, uploads[0]).0, uploads[i]) <==> Acceptable(host, store, uploads[i])
  {
    UploadLaw(host, store, uploads[0]);
  }

  /** Repeating a batch that succeeded succeeds again and changes nothing. */
  lemma {:induction false} AcceptedBatchRepeats(host: Host, store: Store, uploads: seq<Upload>)
    requires AllAccepted(host, store, uploads)
    ensures UploadAll(host, store, uploads) == (store, NO_CONTENT)
    decreases |uploads|
  {
    if uploads != [] {
      assert Accepted(host, store, uploads[0]);
      var rest := uploads[1..];
      assert forall i :: 0 <= i < |rest| ==> rest[i] == uploads[i + 1];
      AcceptedBatchRepeats(host, store, rest);
    }
  }

  // ----- which uploads are accepted --------------------------------------------------------

  /** The upload is for that key, and its body carries those bytes. */
  ghost predicate Carries(upload: Upload, key: string, bytes: Bytes) {
    ArtifactKey(Pathname(upload.key)) == Some(key) && Base64.Decode(upload.body) == Some(bytes)
  }

  /** 64 lower-case hexadecimal digits. */
  ghost predicate IsHexadecimal(digest: string) {
    |digest| == 64 && forall c :: c in digest ==> '0' <= c <= '9' || 'a' <= c <= 'f'
  }

  /** An upload without a key or a body is refused with 400. */
  lemma UnreadableUpload(host: Host, store: Store, upload: Upload)
    requires ArtifactKey(Pathname(upload.key)) == None || Base64.Decode(upload.body) == None
    ensures UploadStep(host, store, upload) == (store, 400)
  {
  }

  /** Which of five answers an upload gets, and what it leaves: the body is compared with the digest. */
  lemma UploadVerdict(host: Host, store: Store, upload: Upload, key: string, bytes: Bytes)
    requires Carries(upload, key, bytes)
    ensures var (next, status) := UploadStep(host, store, upload);
            && (status == 400 <==> !IsHexadecimal(upload.sha256))
            && (status == 422 <==> IsHexadecimal(upload.sha256) && host.sha256(bytes) != upload.sha256)
            && (status == 409 <==> IsHexadecimal(upload.sha256) && host.sha256(bytes) == upload.sha256
                                   && key in store && store[key].sha256 != upload.sha256)
            && (status == 200 <==> IsHexadecimal(upload.sha256) && host.sha256(bytes) == upload.sha256
                                   && key in store && store[key].sha256 == upload.sha256)
            && (status == 201 <==> IsHexadecimal(upload.sha256) && host.sha256(bytes) == upload.sha256 && key !in store)
            && (status in {200, 201, 400, 409, 422})
            && next == if status == 201 then store[key := StoredObject(bytes, upload.sha256, ContentType(key))] else store
  {
    assert IsDigest(upload.sha256) <==> IsHexadecimal(upload.sha256);
  }

  /**
   * An upload succeeds exactly when it names a key, its body decodes to bytes of its digest, and
   * that digest is the one stored under the key, if any is.
   */
  lemma UploadSucceedsExactly(host: Host, store: Store, upload: Upload)
    ensures 200 <= UploadStep(host, store, upload).1 < 300 <==>
            exists key, bytes :: Carries(upload, key, bytes)
                                 && IsHexadecimal(upload.sha256) && host.sha256(bytes) == upload.sha256
                                 && (key in store ==> store[key].sha256 == upload.sha256)
  {
    match (ArtifactKey(Pathname(upload.key)), Base64.Decode(upload.body))
    case (Some(key), Some(bytes)) =>
      assert Carries(upload, key, bytes);
      UploadVerdict(host, store, upload, key, bytes);
    case _ => UnreadableUpload(host, store, upload);
  }

  /** Every stored object hashes to the digest stored with it. */
  ghost predicate HashesMatch(host: Host, store: Store) {
    forall key :: key in store ==> host.sha256(store[key].bytes) == store[key].sha256
  }

  /** No upload, accepted or not, stores bytes under a digest they do not have. */
  lemma UploadKeepsHashes(host: Host, store: Store, upload: Upload)
    requires HashesMatch(host, store)
    ensures HashesMatch(host, UploadStep(host, store, upload).0)
  {
    match (ArtifactKey(Pathname(upload.key)), Base64.Decode(upload.body))
    case (Some(key), Some(bytes)) => UploadVerdict(host, store, upload, key, bytes);
    case _ => UnreadableUpload(host, store, upload);
  }

  lemma {:induction false} UploadsKeepHashes(host: Host, store: Store, uploads: seq<Upload>)
    requires HashesMatch(host, store)
    ensures HashesMatch(host, UploadAll(host, store, uploads).0)
    decreases |uploads|
  {
    if uploads != [] {
      UploadKeepsHashes(host, store, uploads[0]);
      UploadsKeepHashes(host, UploadStep(host, store, uploads[0]).0, uploads[1..]);
    }
  }

  /** Nor does any batch. */
  lemma BatchKeepsHashes(host: Host, store: Store, uploads: seq<Upload>)
    requires HashesMatch(host, store)
    ensures HashesMatch(host, BatchStep(host, store, uploads).0)
  {
    UploadsKeepHashes(host, store, uploads);
  }

  /** Uploads before the `i`-th succeed, and that fails: it decides the batch's answer. */
  ghost predicate FailsAt(host: Host, store: Store, uploads: seq<Upload>, i: nat) {
    && i < |uploads|
    && UploadAll(host, store, uploads[..i]).1 == 204
    && UploadAll(host, store, uploads) == UploadStep(host, UploadAll(host, store, uploads[..i]).0, uploads[i])
  }

  lemma FailsLater(host: Host, store: Store, uploads: seq<Upload>, i: nat)
    requires uploads != [] && IsOk(UploadStep(host, store, uploads[0]).1)
    requires FailsAt(host, UploadStep(host, store, uploads[0]).0, uploads[1..], i)
    ensures FailsAt(host, store, uploads, i + 1)
  {
    assert uploads[..i + 1][0] == uploads[0] && uploads[..i + 1][1..] == uploads[1..][..i];
  }

  /** A batch without uploads is refused. */
  lemma EmptyBatch(host: Host, store: Store)
    ensures BatchStep(host, store, []) == (store, 400)
  {
  }

  /** A batch is answered with 204, or as its first failing upload is. */
  lemma {:induction false} BatchVerdict(host: Host, store: Store, uploads: seq<Upload>)
    ensures uploads != [] ==> BatchStep(host, store, uploads) == UploadAll(host, store, uploads)
    ensures 200 <= UploadAll(host, store, uploads).1 < 300 <==> UploadAll(host, store, uploads).1 == 204
    ensures UploadAll(host, store, uploads).1 != 204 ==> exists i: nat :: FailsAt(host, store, uploads, i)
    decreases |uploads|
  {
    if uploads != [] {
      var first := UploadStep(host, store, uploads[0]);
      if IsOk(first.1) {
        BatchVerdict(host, first.0, uploads[1..]);
        if UploadAll(host, store, uploads).1 != 204 {
          var i: nat :| FailsAt(host, first.0, uploads[1..], i);
          FailsLater(host, store, uploads, i);
        }
      } else {
        assert uploads[..0] == [];
        assert FailsAt(host, store, uploads, 0);
      }
    }
  }

  lemma EndingsDiffer(stem: string, a: string, b: string, k: nat)
    requires k < |a| && k < |b| && a[|a| - 1 - k] != b[|b| - 1 - k]
    ensures !EndsWith(stem + a, b)
  {
    var s := stem + a;
    if |b| <= |s| {
      assert s[|s| - |b|..][|b| - 1 - k] == s[|s| - 1 - k];
    }
  }

  lemma NoneOfEndings(stem: string, a: string, endings: seq<string>, k: nat)
    requires forall i :: 0 <= i < |endings| ==> k < |endings[i]|
    requires k < |a| && forall i :: 0 <= i < |endings| ==> a[|a| - 1 - k] != endings[i][|endings[i]| - 1 - k]
    ensures !EndsWithAny(stem + a, endings)
  {
    forall i | 0 <= i < |endings|
      ensures !EndsWith(stem + a, endings[i])
    {
      EndingsDiffer(stem, a, endings[i], k);
    }
  }

  lemma NotTypescript(stem: string)
    ensures !EndsWithAny(stem + ".js", TYPESCRIPT)
  {
    forall i | 0 <= i < |TYPESCRIPT|
      ensures !EndsWith(stem + ".js", TYPESCRIPT[i])
    {
      EndingsDiffer(stem, ".js", TYPESCRIPT[i], if i == 3 then 0 else 1);
    }
  }

  /** The content type a file name's extension stands for: a module is served as one. */
  lemma TypescriptContent(stem: string, i: nat)
    requires i < 4
    ensures ContentType(stem + [".ts", ".mts", ".cts", ".tsx"][i]) == "application/typescript"
  {
    assert EndsWith(stem + TYPESCRIPT[i], TYPESCRIPT[i]);
  }

  lemma JavascriptContent(stem: string)
    ensures ContentType(stem + ".js") == "application/javascript"
  {
    NotTypescript(stem);
    assert EndsWith(stem + ".js", JAVASCRIPT[0]);
  }

  lemma DataContent(stem: string)
    ensures ContentType(stem + ".json") == "application/json"
    ensures ContentType(stem + ".wasm") == "application/wasm"
  {
    NoneOfEndings(stem, ".json", TYPESCRIPT, 0);
    NoneOfEndings(stem, ".json", JAVASCRIPT, 0);
    NoneOfEndings(stem, ".wasm", TYPESCRIPT, 0);
    NoneOfEndings(stem, ".wasm", JAVASCRIPT, 0);
    EndingsDiffer(stem, ".wasm", ".json", 0);
  }

  // ----- reading ---------------------------------------------------------------------------

  /** `serveArtifact`: nothing of a version is served before its marker exists. */
  function ServeArtifact(store: Store, versionPrefix: string, key: string): Option<StoredObject> {
    if versionPrefix + ".ready.json" !in store then None
    else if key !in store then None
    else Some(store[key])
  }

  /** An object is served exactly when it is stored and its version's marker is. */
  lemma ServesExactly(store: Store, versionPrefix: string, key: string, item: StoredObject)
    ensures ServeArtifact(store, versionPrefix, key) == Some(item) <==>
            versionPrefix + ".ready.json" in store && key in store && store[key] == item
  {
  }
}
