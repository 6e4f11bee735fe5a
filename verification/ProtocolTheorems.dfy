/**
 * What the invariant means to a client: over every interleaved run, an advertised version is
 * servable with exactly the content its metadata lists, first publication wins, and nothing
 * published is ever lost.
 */
module ProtocolTheorems {
  import opened Common
  import Text
  import opened PackageRegistryModel
  import opened RegistryInvariant
  import opened RegistryService
  import opened Publication
  import opened PublicationLaws
  import opened ArtifactKeys
  import opened ArtifactStore
  import opened Protocol
  import opened ProtocolInvariant
  import opened ProtocolSteps

  lemma ReachableInvariant(env: Environment, steps: seq<Step>)
    requires ValidRun(env, INITIAL, steps)
    ensures Invariant(env, Run(env, INITIAL, steps))
  {
    InitialInvariant(env);
    RunKeeps(env, INITIAL, steps);
  }

  // ----- served content --------------------------------------------------------------------

  /** Two contents that only their digest confuses. */
  ghost predicate Collides(host: Host, x: Bytes, y: Bytes) {
    x != y && host.sha256(x) == host.sha256(y)
  }

  ghost predicate SameOrCollides(host: Host, x: Bytes, y: Bytes) {
    x == y || Collides(host, x, y)
  }

  /** Every path of the manifest is served, with bytes that hash to the listed checksum. */
  ghost predicate ServesManifest(host: Host, store: Store, job: MaterializationJob, manifest: Manifest) {
    forall path :: path in manifest ==>
                     var served := ServeArtifact(store, PackageKeyPrefix(job), PackageKeyPrefix(job) + path);
                     served.Some? && manifest[path].checksum == "sha256-" + host.sha256(served.value.bytes)
  }

  /** The file is served byte for byte, or its content collides with the served one. */
  ghost predicate ServesFile(host: Host, store: Store, job: MaterializationJob, f: ArtifactFile) {
    var served := ServeArtifact(store, PackageKeyPrefix(job), FileKey(job, f.path));
    served.Some? && SameOrCollides(host, served.value.bytes, f.bytes)
  }

  /** All files of a publication are served, and its manifest lists their sizes and checksums. */
  ghost predicate ServesFiles(host: Host, store: Store, job: MaterializationJob, files: seq<ArtifactFile>) {
    forall i :: 0 <= i < |files| ==>
                  && ServesFile(host, store, job, files[i])
                  && "/" + files[i].path in ManifestOf(host, files)
                  && ManifestOf(host, files)["/" + files[i].path] == EntryOf(host, files[i].bytes)
  }

  lemma SamePrefixKey(a: MaterializationJob, b: MaterializationJob)
    requires SameVersion(a, b)
    ensures PackageKeyPrefix(a) == PackageKeyPrefix(b)
  {
  }

  lemma AcceptedIsStored(host: Host, store: Store, offer: Offer, n: nat)
    requires ProperOffer(offer) && n < |offer.files| + 2 && HashesMatch(host, store)
    requires Accepted(host, store, Uploads(host, offer)[n])
    ensures var key := PackageKeyPrefix(offer.job) + Suffix(offer.files, n);
            && key in store
            && store[key].sha256 == Uploads(host, offer)[n].sha256
            && host.sha256(store[key].bytes) == Uploads(host, offer)[n].sha256
            && SameOrCollides(host, store[key].bytes, UploadBytes(host, offer, n))
  {
    OfferAdmission(host, offer, n);
    UploadAt(host, offer, n);
  }

  lemma ManifestPathStored(host: Host, store: Store, offer: Offer, path: string)
    requires HashesMatch(host, store) && ProperOffer(offer) && AcceptedUpTo(host, store, offer, |offer.files|)
    requires path in ManifestOf(host, offer.files)
    ensures var key := PackageKeyPrefix(offer.job) + path;
            && key in store
            && ManifestOf(host, offer.files)[path].checksum == "sha256-" + host.sha256(store[key].bytes)
  {
    var i := ManifestMatchesUploads(host, offer.job, offer.files, offer.exports, path);
    BatchKey(host, offer.job, offer.files, offer.exports, i);
    AcceptedIsStored(host, store, offer, i);
  }

  lemma ManifestServed(host: Host, store: Store, job: MaterializationJob, offer: Offer)
    requires HashesMatch(host, store) && ProperOffer(offer) && AcceptedUpTo(host, store, offer, |offer.files|)
    requires SameVersion(offer.job, job) && ReadyMarkerKey(job) in store
    ensures ServesManifest(host, store, job, ManifestOf(host, offer.files))
  {
    SamePrefixKey(offer.job, job);
    forall path | path in ManifestOf(host, offer.files)
      ensures var served := ServeArtifact(store, PackageKeyPrefix(job), PackageKeyPrefix(job) + path);
              served.Some?
              && ManifestOf(host, offer.files)[path].checksum == "sha256-" + host.sha256(served.value.bytes)
    {
      ManifestPathStored(host, store, offer, path);
    }
  }

  lemma FileServed(host: Host, store: Store, job: MaterializationJob, offer: Offer, i: nat)
    requires HashesMatch(host, store) && ProperOffer(offer) && AcceptedUpTo(host, store, offer, |offer.files|)
    requires SameVersion(offer.job, job) && ReadyMarkerKey(job) in store && i < |offer.files|
    ensures ServesFile(host, store, job, offer.files[i])
  {
    FileKeyOf(offer.job, job, offer.files[i].path);
    FileStored(host, store, offer, i);
  }

  lemma FileKeyOf(a: MaterializationJob, b: MaterializationJob, path: string)
    requires SameVersion(a, b)
    ensures FileKey(b, path) == PackageKeyPrefix(a) + ("/" + path)
  {
    SamePrefixKey(a, b);
  }

  lemma FileStored(host: Host, store: Store, offer: Offer, i: nat)
    requires HashesMatch(host, store) && ProperOffer(offer) && AcceptedUpTo(host, store, offer, |offer.files|)
    requires i < |offer.files|
    ensures var key := PackageKeyPrefix(offer.job) + ("/" + offer.files[i].path);
            key in store && SameOrCollides(host, store[key].bytes, offer.files[i].bytes)
  {
    AcceptedIsStored(host, store, offer, i);
  }

  lemma FilesServed(host: Host, store: Store, job: MaterializationJob, offer: Offer)
    requires HashesMatch(host, store) && ProperOffer(offer) && AcceptedUpTo(host, store, offer, |offer.files|)
    requires SameVersion(offer.job, job) && ReadyMarkerKey(job) in store
    ensures ServesFiles(host, store, job, offer.files)
  {
    forall i | 0 <= i < |offer.files|
      ensures ServesFile(host, store, job, offer.files[i])
      ensures "/" + offer.files[i].path in ManifestOf(host, offer.files)
      ensures ManifestOf(host, offer.files)["/" + offer.files[i].path] == EntryOf(host, offer.files[i].bytes)
    {
      FileServed(host, store, job, offer, i);
      ManifestListsFiles(host, offer.files, "/" + offer.files[i].path);
    }
  }

  lemma WholeHasMarkerAndMetadata(env: Environment, store: Store, job: MaterializationJob, offer: Offer)
    requires HashesMatch(env.host, store) && MarkerBackedBy(env, store, job, offer)
    ensures ReadyMarkerKey(job) in store && MetadataKey(job) in store
    ensures store[MetadataKey(job)].sha256 == env.host.sha256(MetadataBytes(env.host, offer))
    ensures SameOrCollides(env.host, store[MetadataKey(job)].bytes, MetadataBytes(env.host, offer))
  {
    SamePrefixKey(offer.job, job);
    AcceptedIsStored(env.host, store, offer, |offer.files|);
    AcceptedIsStored(env.host, store, offer, |offer.files| + 1);
    UploadAt(env.host, offer, |offer.files|);
  }

  /** The stored metadata is the writer's, and everything the writer published is served. */
  ghost predicate ServedBy(env: Environment, store: Store, job: MaterializationJob, writer: Offer) {
    && IsPossible(env, writer) && SameVersion(writer.job, job)
    && MetadataKey(job) in store && store[MetadataKey(job)].bytes == MetadataBytes(env.host, writer)
    && ServesManifest(env.host, store, job, ManifestOf(env.host, writer.files))
    && ServesFiles(env.host, store, job, writer.files)
  }

  /**
   * A ready marker means the version is servable: its metadata is stored, is the metadata of some
   * publication of the version, each path it lists is served with the listed checksum, and each
   * file of that publication is served byte for byte, but for a collision.
   */
  lemma MarkedIsServable(env: Environment, store: Store, job: MaterializationJob) returns (writer: Offer)
    requires StoreInvariant(env, store) && IsProxyable(job) && ReadyMarkerKey(job) in store
    ensures ServedBy(env, store, job, writer)
  {
    assert MarkerBacked(env, store, job) && MetadataBacked(env, store, job);
    var whole :| MarkerBackedBy(env, store, job, whole);
    WholeHasMarkerAndMetadata(env, store, job, whole);
    writer :| MetadataBackedBy(env, store, job, writer);
    ManifestServed(env.host, store, job, writer);
    FilesServed(env.host, store, job, writer);
  }

  /** In every reachable state, mid-batch and after failed batches too, a marker means servable. */
  lemma ReachableMarkedIsServable(env: Environment, steps: seq<Step>, job: MaterializationJob) returns (writer: Offer)
    requires ValidRun(env, INITIAL, steps) && IsProxyable(job)
    requires ReadyMarkerKey(job) in Run(env, INITIAL, steps).store
    ensures ServedBy(env, Run(env, INITIAL, steps).store, job, writer)
  {
    ReachableInvariant(env, steps);
    writer := MarkedIsServable(env, Run(env, INITIAL, steps).store, job);
  }

  /**
   * In every reachable state a version's objects are served exactly from when some one batch of it
   * is wholly stored: before, through partial and failed batches, none of them is.
   */
  lemma ServedExactlyWhenWhole(env: Environment, steps: seq<Step>, job: MaterializationJob, key: string)
    requires ValidRun(env, INITIAL, steps) && IsProxyable(job)
    ensures var store := Run(env, INITIAL, steps).store;
            && ((exists whole :: MarkerBackedBy(env, store, job, whole)) <==> JobRoot(job) + ".ready.json" in store)
            && (JobRoot(job) + ".ready.json" !in store ==> ServeArtifact(store, JobRoot(job), key) == None)
            && (JobRoot(job) + ".ready.json" in store && key in store ==>
                  ServeArtifact(store, JobRoot(job), key) == Some(store[key]))
  {
    var store := Run(env, INITIAL, steps).store;
    ReachableInvariant(env, steps);
    RootIsPrefix(job);
    assert MarkerBacked(env, store, job);
    if whole :| MarkerBackedBy(env, store, job, whole) {
      WholeHasMarkerAndMetadata(env, store, job, whole);
    }
    if key in store {
      ServesExactly(store, JobRoot(job), key, store[key]);
    }
    assert forall item :: ServeArtifact(store, JobRoot(job), key) == Some(item) ==> JobRoot(job) + ".ready.json" in store by {
      forall item {
        ServesExactly(store, JobRoot(job), key, item);
      }
    }
  }

  /**
   * A whole batch of an outcome the container gave is stored: it has the advertised diagnostic or
   * none, its files are served, and the stored metadata is its own, but for collisions.
   */
  ghost predicate Advertises(env: Environment, store: Store, p: PackageName, job: Job, whole: Offer) {
    var key := MetadataKey(JobFor(p, job));
    && PublishedBy(env, store, p, job, whole)
    && ServesFiles(env.host, store, whole.job, whole.files)
    && key in store && SameOrCollides(env.host, store[key].bytes, MetadataBytes(env.host, whole))
  }

  /**
   * Every advertised version has its marker and its metadata in the store and serves all that the
   * metadata's writer published; and the batch of an outcome of that very job, with the advertised
   * diagnostic, is wholly stored and served. Both name one metadata, or it collides.
   */
  lemma AdvertisedIsServable(env: Environment, steps: seq<Step>, p: PackageName, v: string)
    returns (writer: Offer, whole: Offer)
    requires ValidRun(env, INITIAL, steps)
    requires p in Run(env, INITIAL, steps).registries && v in Meta(Run(env, INITIAL, steps).registries[p])
    ensures var s := Run(env, INITIAL, steps);
            var job := s.registries[p].versions[v].job;
            && ReadyMarkerKey(JobFor(p, job)) in s.store
            && ServedBy(env, s.store, JobFor(p, job), writer)
            && Advertises(env, s.store, p, job, whole)
            && SameOrCollides(env.host, MetadataBytes(env.host, writer), MetadataBytes(env.host, whole))
            && (Meta(s.registries[p])[v] <==> whole.diagnostic.Some?)
  {
    var s := Run(env, INITIAL, steps);
    ReachableInvariant(env, steps);
    whole := PublishedVersion(env, s, p, v);
    var job := JobFor(p, s.registries[p].versions[v].job);
    WholeHasMarkerAndMetadata(env, s.store, job, whole);
    writer := MarkedIsServable(env, s.store, job);
    FilesServed(env.host, s.store, job, whole);
  }

  lemma PublishedVersion(env: Environment, s: System, p: PackageName, v: string) returns (whole: Offer)
    requires Invariant(env, s) && p in s.registries && v in Meta(s.registries[p])
    ensures PublishedBy(env, s.store, p, s.registries[p].versions[v].job, whole)
    ensures IsProxyable(JobFor(p, s.registries[p].versions[v].job))
    ensures Meta(s.registries[p])[v] <==> whole.diagnostic.Some?
  {
    assert PackageInvariant(env, s.store, p, s.registries[p]);
    VersionIsProxyable(p, s.registries[p], v);
    ValidJobAt(s.registries[p], v);
    assert IsPublished(env, s.store, p, s.registries[p].versions[v].job);
    whole :| PublishedBy(env, s.store, p, s.registries[p].versions[v].job, whole);
  }

  // ----- first publication wins ------------------------------------------------------------

  ghost predicate MetadataInjective(host: Host) {
    forall x, y :: host.metadataJson(x) == host.metadataJson(y) ==> x == y
  }

  function OfferMetadata(host: Host, offer: Offer): PackageMetadata {
    MetadataOf(host, offer.job, offer.files, offer.exports)
  }

  /** Two whole batches of one version have one metadata, or exhibit a SHA-256 collision. */
  lemma WholeBatchesAgree(env: Environment, store: Store, a: Offer, b: Offer)
    requires HashesMatch(env.host, store) && MetadataInjective(env.host)
    requires Whole(env, store, a) && Whole(env, store, b) && SameVersion(a.job, b.job)
    ensures OfferMetadata(env.host, a) == OfferMetadata(env.host, b) || Collides(env.host, MetadataBytes(env.host, a), MetadataBytes(env.host, b))
  {
    WholeHasMarkerAndMetadata(env, store, a.job, a);
    WholeHasMarkerAndMetadata(env, store, a.job, b);
  }

  /** Every file of one publication is in the other too: same path, same size, same checksum. */
  ghost predicate FilesIn(host: Host, files: seq<ArtifactFile>, others: seq<ArtifactFile>) {
    forall i :: 0 <= i < |files| ==>
                  exists j :: 0 <= j < |others| && others[j].path == files[i].path
                              && |others[j].bytes| == |files[i].bytes|
                              && host.sha256(others[j].bytes) == host.sha256(files[i].bytes)
  }

  lemma SameManifestSameFiles(host: Host, files: seq<ArtifactFile>, others: seq<ArtifactFile>)
    requires Publishable(files) && Publishable(others) && ManifestOf(host, files) == ManifestOf(host, others)
    ensures FilesIn(host, files, others)
  {
    var manifest := ManifestOf(host, files);
    ManifestLists(host, files);
    ManifestLists(host, others);
    forall i | 0 <= i < |files|
      ensures exists j :: 0 <= j < |others| && others[j].path == files[i].path
                          && |others[j].bytes| == |files[i].bytes|
                          && host.sha256(others[j].bytes) == host.sha256(files[i].bytes)
    {
      assert ListsFile(host, manifest, files[i]);
      var j :| 0 <= j < |others| && "/" + files[i].path == "/" + others[j].path;
      Text.SamePrefix("/", files[i].path, others[j].path);
      assert ListsFile(host, manifest, others[j]);
      Text.SamePrefix("sha256-", host.sha256(files[i].bytes), host.sha256(others[j].bytes));
    }
  }

  /** One metadata means one content: the same files, exports, branch and commit. */
  lemma SameMetadataSameContent(host: Host, a: Offer, b: Offer)
    requires ProperOffer(a) && ProperOffer(b) && OfferMetadata(host, a) == OfferMetadata(host, b)
    ensures FilesIn(host, a.files, b.files) && FilesIn(host, b.files, a.files)
    ensures a.exports == b.exports && a.job.branch == b.job.branch && a.job.commitSha == b.job.commitSha
  {
    SameManifestSameFiles(host, a.files, b.files);
    SameManifestSameFiles(host, b.files, a.files);
  }

  lemma LastOfConcatenation(steps: seq<Step>, more: seq<Step>)
    requires more != []
    ensures (steps + more)[..|steps + more| - 1] == steps + more[..|more| - 1]
    ensures (steps + more)[|steps + more| - 1] == more[|more| - 1]
  {
  }

  lemma {:induction false} RunSplits(env: Environment, s: System, steps: seq<Step>, more: seq<Step>)
    ensures Run(env, s, steps + more) == Run(env, Run(env, s, steps), more)
    decreases |more|
  {
    if more == [] {
      assert steps + more == steps;
    } else {
      RunSplits(env, s, steps, more[..|more| - 1]);
      LastOfConcatenation(steps, more);
    }
  }

  /**
   * First publication wins: if one worker's batch was fully accepted, then any worker of that
   * version whose batch is fully accepted at any later time offered the same metadata, hence the
   * same paths, checksums and exports, or a SHA-256 collision. Neither is assumed deterministic.
   */
  lemma FirstPublicationWins(env: Environment, steps: seq<Step>, more: seq<Step>, i: nat, j: nat)
    requires MetadataInjective(env.host)
    requires ValidRun(env, INITIAL, steps) && ValidRun(env, Run(env, INITIAL, steps), more)
    requires var s := Run(env, INITIAL, steps); i < |s.workers| && s.workers[i].Finishing?
    requires var t := Run(env, INITIAL, steps + more); j < |t.workers| && t.workers[j].Finishing?
    requires SameVersion(Run(env, INITIAL, steps).workers[i].offer.job, Run(env, INITIAL, steps + more).workers[j].offer.job)
    ensures var a := Run(env, INITIAL, steps).workers[i].offer;
            var b := Run(env, INITIAL, steps + more).workers[j].offer;
            || OfferMetadata(env.host, a) == OfferMetadata(env.host, b)
            || Collides(env.host, MetadataBytes(env.host, a), MetadataBytes(env.host, b))
  {
    var s := Run(env, INITIAL, steps);
    var t := Run(env, INITIAL, steps + more);
    ReachableInvariant(env, steps);
    RunSplits(env, INITIAL, steps, more);
    RunKeeps(env, s, more);
    FinishingIsWhole(env, s, i);
    FinishingIsWhole(env, t, j);
    AcceptedUpToStays(env.host, s.store, t.store, s.workers[i].offer, |s.workers[i].offer.files| + 2);
    WholeBatchesAgree(env, t.store, s.workers[i].offer, t.workers[j].offer);
  }

  lemma FinishingIsWhole(env: Environment, s: System, i: nat)
    requires Invariant(env, s) && i < |s.workers| && s.workers[i].Finishing?
    ensures Whole(env, s.store, s.workers[i].offer)
  {
    WorkerAt(env, s, i);
  }

  // ----- nothing is lost -------------------------------------------------------------------

  /**
   * From every reachable state, along every further run: stored objects never change, versions
   * stay, with those refreshes and recoveries added under in-flight workers, and each advertised
   * version keeps its record, so its yanked flag and diagnostic are fixed forever.
   */
  lemma NothingIsLost(env: Environment, steps: seq<Step>, more: seq<Step>, p: PackageName, v: string)
    requires ValidRun(env, INITIAL, steps) && ValidRun(env, Run(env, INITIAL, steps), more)
    requires p in Run(env, INITIAL, steps).registries && v in Run(env, INITIAL, steps).registries[p].versions
    ensures var s, t := Run(env, INITIAL, steps), Run(env, INITIAL, steps + more);
            && Grows(s.store, t.store)
            && p in t.registries && v in t.registries[p].versions
            && SameIdentity(s.registries[p].versions[v], t.registries[p].versions[v])
            && (v in Meta(s.registries[p]) ==>
                  && v in Meta(t.registries[p])
                  && Meta(t.registries[p])[v] == Meta(s.registries[p])[v]
                  && t.registries[p].versions[v] == s.registries[p].versions[v])
  {
    var s := Run(env, INITIAL, steps);
    ReachableInvariant(env, steps);
    RunSplits(env, INITIAL, steps, more);
    RunKeeps(env, s, more);
    assert Persists(s.registries[p], Run(env, s, more).registries[p]);
  }

  // ----- something is published ------------------------------------------------------------

  /**
   * A worker whose batch was accepted advertises its version with its outcome, even when its lease
   * has meanwhile been released or taken by another, unless the version is published already.
   */
  lemma FinishingPublishes(env: Environment, s: System, i: nat)
    requires Invariant(env, s) && i < |s.workers| && s.workers[i].Finishing?
    requires s.workers[i].package in s.registries && SafeRegistry(s.registries[s.workers[i].package])
    ensures var p, offer := s.workers[i].package, s.workers[i].offer;
            var v := offer.job.version;
            var t := Next(env, s, Finish(i)).registries;
            && p in t && v in Meta(t[p])
            && (if v in Meta(s.registries[p]) then Meta(t[p])[v] == Meta(s.registries[p])[v]
                else Meta(t[p])[v] == offer.diagnostic.Some?)
  {
    var w := s.workers[i];
    FinishIsBacked(env, s, i, w.package, w.offer);
    CompletionPublishes(env.before, s.registries[w.package], w.offer.job.version, w.offer.diagnostic);
    FinishCompletes(env, s, i);
  }

  lemma FinishCompletes(env: Environment, s: System, i: nat)
    requires i < |s.workers| && s.workers[i].Finishing? && s.workers[i].package in s.registries
    ensures var p, offer := s.workers[i].package, s.workers[i].offer;
            var t := Next(env, s, Finish(i)).registries;
            p in t
            && t[p] == ServiceNext(env.before, s.registries[p], Complete(offer.job.version, offer.diagnostic))
  {
  }

  lemma CompletionPublishes(before: (string, string) -> bool, s: Registry, v: string, diagnostic: Option<Diagnostic>)
    requires SafeRegistry(s) && v in s.versions
    ensures var t := ServiceNext(before, s, Complete(v, diagnostic));
            && v in Meta(t)
            && (if v in Meta(s) then Meta(t)[v] == Meta(s)[v] else Meta(t)[v] == diagnostic.Some?)
  {
  }

  // ----- a worker on its own ---------------------------------------------------------------

  /** One upload of a worker with no other step in between: a put, and a head if it needs one. */
  function OneAlone(host: Host, store: Store, p: PackageName, offer: Offer, n: nat): (Store, Worker) {
    var (next, w) := AfterPut(host, store, p, offer, n);
    if w.Checking? then (next, AfterHead(host, next, p, offer, n)) else (next, w)
  }

  /** A worker's uploads from the `n`-th on, undisturbed. */
  function Alone(host: Host, store: Store, p: PackageName, offer: Offer, n: nat): (Store, Worker)
    decreases |offer.files| + 2 - n
  {
    var (next, w) := OneAlone(host, store, p, offer, n);
    if n < |offer.files| + 2 && w.Uploading? then Alone(host, next, p, offer, n + 1) else (next, w)
  }

  function Verdict(status: nat, accepted: Worker, p: PackageName, offer: Offer): Worker {
    if IsOk(status) then accepted else Releasing(p, offer.job.version)
  }

  lemma OneAloneIsUpload(host: Host, store: Store, p: PackageName, offer: Offer, n: nat)
    requires n < |offer.files| + 2
    ensures OneAlone(host, store, p, offer, n).0 == UploadStep(host, store, Uploads(host, offer)[n]).0
    ensures OneAlone(host, store, p, offer, n).1
         == Verdict(UploadStep(host, store, Uploads(host, offer)[n]).1, Uploading(p, offer, n + 1), p, offer)
  {
  }

  lemma UploadAllFrom(host: Host, store: Store, uploads: seq<Upload>, n: nat)
    requires n < |uploads|
    ensures UploadAll(host, store, uploads[n..])
         == var first := UploadStep(host, store, uploads[n]);
            if IsOk(first.1) then UploadAll(host, first.0, uploads[n + 1..]) else first
  {
    assert uploads[n..][0] == uploads[n] && uploads[n..][1..] == uploads[n + 1..];
  }

  lemma AloneAtEnd(host: Host, store: Store, p: PackageName, offer: Offer)
    ensures Alone(host, store, p, offer, |offer.files| + 2) == (store, Finishing(p, offer))
    ensures UploadAll(host, store, Uploads(host, offer)[|offer.files| + 2..]) == (store, NO_CONTENT)
  {
    assert Uploads(host, offer)[|offer.files| + 2..] == [];
  }

  /** Undisturbed, the worker's steps are `publishArtifactBatch`: same store, same verdict. */
  lemma {:induction false} AloneIsTheBatch(host: Host, store: Store, p: PackageName, offer: Offer, n: nat)
    requires n <= |offer.files| + 2
    ensures Alone(host, store, p, offer, n).0 == UploadAll(host, store, Uploads(host, offer)[n..]).0
    ensures Alone(host, store, p, offer, n).1
         == Verdict(UploadAll(host, store, Uploads(host, offer)[n..]).1, Finishing(p, offer), p, offer)
    decreases |offer.files| + 2 - n
  {
    if n < |offer.files| + 2 {
      OneAloneIsUpload(host, store, p, offer, n);
      UploadAllFrom(host, store, Uploads(host, offer), n);
      AloneIsTheBatch(host, OneAlone(host, store, p, offer, n).0, p, offer, n + 1);
    } else {
      AloneAtEnd(host, store, p, offer);
    }
  }
}
