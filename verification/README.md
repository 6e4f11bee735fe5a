# Immutable publication of synthetic package versions

jsrproxy turns the branches of a GitHub repository into immutable versions of a JSR package. This
project models that path in Dafny, from observing a branch to serving a file, and proves what the
system promises about it:

- a version string names one (major, commit, attempt) for ever, and the registry restored from
  storage for each request is indistinguishable from one kept in memory;
- however requests, workers, crashes, expired leases and stale releases interleave, an advertised
  version serves what the pipeline made of some archive for that very job, byte for byte unless two
  contents collide under SHA-256, and is yanked exactly when that was a tombstone;
- nothing gets stuck: a lease request starts a worker exactly when some job is pending or its lease is
  120 seconds old, and from every reachable state with a readable registry a run goes on that advertises
  every version, where the container can answer its job with objects whose keys are free or their own;
- a retried publication succeeds: where the container answers a job always alike, no crash, partial
  batch or interleaving makes a later worker's upload fail;
- eliminating import maps keeps the module graph, with the exact condition, for every map and
  wherever the package is rooted, under which it does;
- every source archive, readable or not, yields a publishable outcome;
- base64 transport is lossless, published keys reach the store unchanged, and the upstream cache
  answers as the uncached proxy would.

## How it is built

Operations that update an object in place are classes and methods, each proved equal to a function
on values; the theorems are about those functions and about runs of them. For each main operation a
law says what it does in terms of texts, numbers and records alone.

| modules | what they model |
|---|---|
| `Common`, `Text` | options, results, the JavaScript number range; splitting, joining and decimal text |
| `VersionAllocation`, `SequenceLaw` | the version allocator, its snapshot, and the closed form of its sequences |
| `Branches`, `BranchOrder`, `HighWater` | branch selection; independence of branch order; the persistent high-water mark over runs |
| `PackageRegistryModel`, `RegistryInvariant`, `SnapshotLaws` | the job state machine, the invariant every operation keeps, and which stored snapshots are read back |
| `RegistryService`, `RegistryTheorems`, `OperationLaws`, `LeaseDiscipline` | the registry between requests; theorems over whole runs; what refreshing and recovering add; leases and draining |
| `Base64`, `Publication`, `PublicationLaws` | transport encoding; one publication's ordered uploads; key spaces |
| `PackagePaths`, `PercentCoding`, `ArtifactKeys`, `AcceptedKeys`, `ArtifactStore` | archive paths; URL escapes of UTF-8; a key's way through a URL, and which keys are let through; the create-if-absent store and its batch loop |
| `Protocol`, `ProtocolStore`, `ProtocolInvariant`, `ProtocolSteps`, `ProtocolTheorems` | the concurrent system, its invariant, and what it means to a client |
| `RetriedUploads`, `Progress`, `EndToEnd` | where stored objects come from, and why retries succeed; that workers start and publish; from a discovery to the client |
| `DurableObject` | the load-mutate-save cycles of the package object and one whole `#materialize` request |
| `ImportRewrite`, `ImportGraph` | specifier rewriting, and its effect on whole modules |
| `SourceArchive`, `Pipeline`, `PipelineOutcome`, `OutcomeLaws`, `UnlistedExport` | unpacking, assembling and checking a package, tombstones, the outcome; when it is ready and what it says otherwise; an export that is lost |
| `ServedPackages` | the protocol with the pipeline as its container, from archive to client |
| `Fallthrough` | the checksum-verified upstream cache |

Parameters stand for what the system calls and this project does not define: SHA-256, the JSON,
configuration and module parsers and printers, `localeCompare` (any strict total order), the clock,
the upstream's responses, and the entries an archive reader yields. SHA-256 is never assumed
injective: where equality of contents is concluded from equality of digests, the alternative is a
collision between the two named contents.

Where the code does less than its comments promise, the code is followed:

- `#append` does not re-check its sequence. `AppendIncreasesIffSafe` says exactly when it is a
  fresh number. `SequencesCollideAtTheLimit` runs into the limit: three commits receive one version.
  From there no sequence is ever new (`ExhaustedForEver`). A registry kept in memory then reports no
  job of that major for a new commit (`ExhaustedRefreshCreatesNothing`); the Durable Object, which
  reads its registry back before every operation, fails instead (`ExhaustedIsUnreadable`).
- A refresh may throw after it has selected branches, and then stores nothing. So the high-water
  mark is the greatest major of the accepted refreshes, not of all that were seen:
  `HighWaterIsGreatestSeen`, `RejectedMajorIsForgotten`; `RefreshAcceptsExactly` says which are.
- A snapshot with such a sequence cannot be read back. `SnapshotRoundTrip` and `RestoreSnapshot` say
  that reading back fails exactly then; `RunValid` needs no bound, because an unreadable registry
  answers nothing.
- An export may name `jsr.json`, which is removed before publication: `ReadyExportsAreListed`, and
  `JsrExportIsNotListed` for an archive that does.
- A target that is a prefix of the importing file's directory, or continues it with a name that
  begins with two dots, is not preserved: `RelativeSpecifierResolves`, and `OwnDirectoryIsMissed` and
  `DottedFileIsMissed` for such targets.
- A relative target that does not begin with `./` is copied as it stands, and so is preserved exactly
  in files at the package's root, and in directories where it climbs out of the whole URL, the path
  of the package included: `RewriteKeepsMeaning`, `ResolveAlike`. One just above the package's root
  is kept in files at the root and nowhere else, unless the package is at the root of its URL, which
  no served package is: `ParentTargetKept`.

## Model

| member | source | states |
|---|---|---|
| VersionAllocation.RenderInjective | src/version-allocator.ts:99 | decimal text of integers is unambiguous |
| VersionAllocation.VersionInjective | src/version-allocator.ts:99 | a version string names one (major, sequence) |
| VersionAllocation.KeyInjective | src/version-allocator.ts:107-109 | the allocator's key names one (commit, attempt), even for a commit text holding the separator |
| VersionAllocation.AppendValid | src/version-allocator.ts:91-105 | appending the next row keeps the rows distinct, the attempts exact and the mark the greatest sequence, and takes a fresh sequence |
| VersionAllocation.AllocateValid | src/version-allocator.ts:26-34 | `allocate` keeps the allocator's invariant, errors included |
| VersionAllocation.RecoverValid | src/version-allocator.ts:37-45 | `recover` keeps the allocator's invariant, errors included |
| VersionAllocation.SnapshotRoundTrip | src/version-allocator.ts:48-80 | rebuilding from any ordering of the rows succeeds exactly when all numbers are safe, and then restores every major that has rows |
| VersionAllocation.EmptyMajorsInvisibleToAllocate | src/version-allocator.ts:26-34 | majors a snapshot drops, having no rows, never change what `allocate` does |
| VersionAllocation.EmptyMajorsInvisibleToRecover | src/version-allocator.ts:37-45 | nor what `recover` does |
| VersionAllocation.VersionAllocator.EnsureMajor | src/version-allocator.ts:82-89 | a missing major is created empty with mark -1; others are untouched |
| VersionAllocation.VersionAllocator.Append | src/version-allocator.ts:91-104 | the new row, mark and current attempt, in the major given |
| VersionAllocation.VersionAllocator.Allocate | src/version-allocator.ts:26-34 | in place what the allocation step says of state and result |
| VersionAllocation.VersionAllocator.Recover | src/version-allocator.ts:37-45 | in place what the recovery step says of state and result |
| VersionAllocation.VersionAllocator.Snapshot | src/version-allocator.ts:48-54 | all rows, each once, in version order |
| VersionAllocation.VersionAllocator.FromSnapshot | src/version-allocator.ts:57-80 | the allocator rebuilt row by row, or the first row's error |
| SnapshotLaws.RebuildsExactly | src/version-allocator.ts:57-80 | any stored rows are read back exactly when each is sound and no two are one commit's one attempt in one major, and then to what they describe |
| SnapshotLaws.RestoresExactly | src/package-registry.ts:78-90 | any stored registry is read back exactly when its rows are and no version is recorded twice, with the stored name, branches, log and records in order |
| SnapshotLaws.RefusedInputs | src/version-allocator.ts:111-117 | what an allocation is refused for, and that it then changes nothing |
| SequenceLaw.RunIsChained | src/version-allocator.ts:91-105 | over any run each sequence is the maximum of its timestamp and one more than the previous |
| SequenceLaw.SequenceClosedForm | src/version-allocator.ts:91-105 | the k-th sequence of a major is the maximum over i <= k of timestamp i plus k - i |
| SequenceLaw.SequenceBounds | src/version-allocator.ts:91-105 | sequences strictly increase, reach their own timestamp and exceed the latest by at most the distance |
| SequenceLaw.AppendIncreasesIffSafe | src/version-allocator.ts:98 | the next sequence exceeds the mark exactly while the mark is a safe integer |
| SequenceLaw.ExhaustedForEver | src/version-allocator.ts:91-105 | once the mark is 2^53, every later sequence of the major, over any run, is that same number |
| SequenceLaw.SequencesCollideAtTheLimit | src/version-allocator.ts:98-101 | after one commit at 2^53 - 1, the next three new commits are all allocated one version |
| Branches.ReleaseMajorIff | src/branches.ts:29-36 | a branch owns major n exactly when it is `v` and n's canonical decimal, n safe |
| Branches.SelectBranches | src/branches.ts:42-68 | the loop computes the selection, or the missing-default error |
| Branches.ReleasesExactly | src/branches.ts:46-53 | the releases are exactly the release branches with their tips |
| Branches.ReleaseMajorsDistinct | src/branches.ts:46-53 | distinct branch names own distinct majors |
| Branches.ObservedIsHighest | src/branches.ts:44-53 | the mark is the greatest of the prior mark and the releases present |
| Branches.SelectionLaw | src/branches.ts:42-68 | selection fails exactly without a default tip; the default's commit is always covered; a separate default outranks every release |
| Branches.SelectedMajorsDistinct | src/branches.ts:42-68 | selected majors are pairwise distinct |
| Branches.SelectedExactly | src/branches.ts:46-68 | selected are the release branches and, exactly when none is at its commit, the default branch, on major 0 or the major after the highest |
| Branches.SelectedInOrder | src/branches.ts:46-68 | releases come first, in the order they are listed in, the default branch of its own last |
| Branches.ReleasesInOrder | src/branches.ts:46-53 | branches are taken in the order they are listed in |
| Branches.MissingDefault | src/branches.ts:55-58 | the error where the default branch is missing |
| HighWater.RefreshAcceptsExactly | src/package-registry.ts:107-127 | a refresh succeeds exactly when the default branch is present and every selected branch has a safe major, a commit and a whole timestamp |
| HighWater.HighWaterIsGreatestSeen | src/branches.ts:44-53 | over every run of operations the stored mark is the greatest release major of the accepted refreshes |
| HighWater.DefaultOutranksEverySeen | src/branches.ts:59-66 | a separately selected default outranks every major seen so in the run |
| HighWater.RejectedMajorIsForgotten | src/package-registry.ts:107-112 | a selected major 5 is not stored when its tip has no commit, because the refresh throws |
| BranchOrder.SelectAnyOrder | src/branches.ts:42-68 | the selection does not depend on the order branches are listed in |
| BranchOrder.SelectionObserved | src/package-registry.ts:107-127 | what observing a selection does to each major and version |
| BranchOrder.RefreshIgnoresOrder | src/package-registry.ts:107-127 | refreshing with branches in any order gives the same majors, versions and mark |
| PackageRegistryModel.PackageRegistry.Set | src/package-registry.ts:123-123 | setting a version keeps insertion order and every other version |
| PackageRegistryModel.PackageRegistry.FromSnapshot | src/package-registry.ts:78-90 | the registry restored from a snapshot, or its error |
| PackageRegistryModel.PackageRegistry.Snapshot | src/package-registry.ts:93-104 | a snapshot of name, branches, rows, versions in order, and log |
| PackageRegistryModel.PackageRegistry.Refresh | src/package-registry.ts:107-127 | in place what the refresh step says, exceptions included |
| PackageRegistryModel.PackageRegistry.RecoverVersion | src/package-registry.ts:130-147 | in place what the recovery step says, exceptions included |
| PackageRegistryModel.PackageRegistry.MarkReady | src/package-registry.ts:150-154 | ends a pending or leased job as ready, or refuses |
| PackageRegistryModel.PackageRegistry.MarkYanked | src/package-registry.ts:157-162 | ends a pending or leased job as yanked with its diagnostic, or refuses |
| PackageRegistryModel.PackageRegistry.FirstLeasable | src/package-registry.ts:166-173 | the first leasable version in version order, if any |
| PackageRegistryModel.PackageRegistry.LeaseNext | src/package-registry.ts:165-178 | leases that version at the given time |
| PackageRegistryModel.PackageRegistry.ReleaseLease | src/package-registry.ts:181-187 | returns a leased job to the queue, or refuses |
| PackageRegistryModel.PackageRegistry.ReadMeta | src/package-registry.ts:190-198 | the loop lists a version exactly when it is stored and ready or yanked, with the flag true exactly for yanked |
| RegistryInvariant.EnterBijective | src/package-registry.ts:107-127 | entering a new row with its record keeps jobs and rows in bijection |
| RegistryInvariant.ObserveKnown | src/version-allocator.ts:26-32 | a known commit changes nothing and creates nothing |
| RegistryInvariant.RefreshValid | src/package-registry.ts:107-127 | refresh keeps the invariant, also when it throws midway |
| RegistryInvariant.RefreshCreatesExactly | src/package-registry.ts:107-127 | refresh only adds versions, and returns exactly the added ones, pending, in order |
| RegistryInvariant.RecoverVersionResult | src/package-registry.ts:130-147 | recovery succeeds exactly on published versions, and otherwise changes nothing |
| RegistryInvariant.RecoverVersionValid | src/package-registry.ts:130-147 | recovery keeps the invariant, with one audit entry per replacement |
| RegistryInvariant.CompleteValid | src/package-registry.ts:150-162 | completion keeps the invariant and every published outcome |
| RegistryInvariant.LeaseValid | src/package-registry.ts:165-178 | leasing keeps the invariant and every published outcome |
| RegistryInvariant.ReleaseValid | src/package-registry.ts:181-187 | releasing keeps the invariant and every published outcome |
| RegistryService.RestoreSnapshot | src/package-registry.ts:78-104 | restoring a snapshot fails exactly when a number is unsafe, and otherwise returns the very registry |
| RegistryService.RunValid | src/package-registry.ts:65-216 | every run keeps the invariant, and no version or published outcome is lost |
| RegistryService.ReachableValid | src/package-registry.ts:65-216 | every registry reachable from a new one satisfies the invariant |
| RegistryService.DurableStepRefines | src/durable-objects.ts:279-307 | one restore-apply-store cycle is one operation in memory |
| RegistryService.DurableRefinesService | src/durable-objects.ts:279-307 | over every run the stored snapshots and replies are those of one registry kept in memory |
| RegistryTheorems.VersionsAreTriples | src/package-registry.ts:107-147 | versions and (major, commit, attempt) triples correspond one to one |
| RegistryTheorems.VersionNamesOneTriple | src/version-allocator.ts:91-109 | over any run no version comes to name another triple |
| RegistryTheorems.AttemptsAreExact | src/version-allocator.ts:37-45 | a commit's attempts are exactly 0 up to its current one |
| RegistryTheorems.AttemptsIncrease | src/version-allocator.ts:37-45 | later attempts of a commit have later sequences |
| RegistryTheorems.ReplacementsAreAudited | src/package-registry.ts:130-147 | a version is past attempt zero exactly when it is the replacement of an audit entry, and then of exactly one |
| RegistryTheorems.OriginalUnique | src/package-registry.ts:145 | a replacement has one original |
| RegistryTheorems.RecoveriesFormAForest | src/package-registry.ts:130-147 | along any chain of recoveries major and commit stay and the sequence rises, so none returns |
| RegistryTheorems.RefreshIsStable | src/package-registry.ts:107-127 | after a refresh and any other operations, the same discovery creates nothing |
| RegistryTheorems.ReleasingTheDefaultCreatesNothing | src/branches.ts:60-67 | nor does a new release branch for the default's major at its tip |
| RegistryTheorems.ExhaustedRefreshCreatesNothing | src/package-registry.ts:107-127 | in a registry kept in memory, a refresh that selects a commit new to a major whose mark left the safe range, whatever else it selects, reports no job and adds no version of that major |
| RegistryTheorems.ExhaustedIsUnreadable | src/version-allocator.ts:57-80 | no snapshot of such a registry can be read back |
| OperationLaws.RefreshLaw | src/package-registry.ts:107-127 | a refresh adds, for each selected branch whose commit has no version in its major, one pending record of that branch, commit and major with the major's next sequence and its version text, and no other |
| OperationLaws.RecoveryLaw | src/package-registry.ts:130-147 | recovering a published version adds one pending record of its branch, commit and major with the next attempt and sequence, logged with reason and time; any other version is refused |
| LeaseDiscipline.LeastIsFirst | src/package-registry.ts:173 | the version picked is first in version order |
| LeaseDiscipline.GrantLaw | src/package-registry.ts:165-178 | nothing is granted exactly when no job is pending and no lease is 120000 ms old; else the first such job in version order is leased, and nothing else changes |
| LeaseDiscipline.ExpiredIsGranted | src/package-registry.ts:166-171 | a lease 120000 ms old does not block the queue: if it is the only claim, that job is granted again |
| LeaseDiscipline.GrantsAreApart | src/package-registry.ts:165-187 | two grants of a version with no release of it between are at least 120000 ms apart |
| LeaseDiscipline.TerminalIsNeverGranted | src/package-registry.ts:166-172 | a published version is never granted |
| LeaseDiscipline.DrainsInOneRoundEach | src/package-registry.ts:149-187 | k unpublished jobs, pending or under leases that have run out, drain in exactly k lease-and-complete rounds, all then advertised |
| Base64.JoinCut | materializer/src/service.rs:523-543 | the bytes are joined back from the six-bit groups the shifts and masks cut |
| Base64.StandardSymbols | materializer/src/service.rs:524 | the symbols at the ends of the runs of the table, and its two signs |
| Base64.EncodeChunk | materializer/src/service.rs:526-541 | one group of four characters through the alphabet constant |
| Base64.EncodeBytes | materializer/src/service.rs:523-544 | the chunk loop computes the encoding |
| Base64.DecodeEncode | materializer/src/service.rs:523-544 | decoding by section 4 of RFC 4648 inverts the encoding on every byte sequence |
| Base64.EncodedLength | materializer/src/service.rs:525 | four characters for every started group of three bytes |
| Base64.PaddingIsLast | materializer/src/service.rs:532-541 | padding is only at the end, one character per missing byte |
| Base64.DecodableText | src/r2-publication.ts:77-81 | only text of whole groups of four symbols, padded at the end, decodes |
| Publication.Publish | materializer/src/publication.rs:105-164 | uploads files, metadata and marker in order; is rejected exactly on an invalid or repeated path, with only the files before it uploaded |
| Publication.BatchedArtifactStore.PutIfAbsent | materializer/src/service.rs:507-515 | appends the upload with its base64 body |
| PublicationLaws.BatchKeysDistinct | materializer/src/publication.rs:114-156 | a batch writes each key once, the metadata second to last and the marker last |
| PublicationLaws.ManifestListsFiles | materializer/src/publication.rs:114-125 | the manifest lists exactly the files, with their sizes and checksums |
| PublicationLaws.ManifestMatchesUploads | materializer/src/publication.rs:114-130 | each manifest path is the key of an upload with the listed digest |
| PublicationLaws.BatchContents | materializer/src/publication.rs:105-164 | a batch carries the files, then the metadata of a manifest of exactly those files with the job's exports, branch and commit, then the marker with that manifest's digest, each under its key |
| PublicationLaws.ValidPathExactly | materializer/src/publication.rs:178-189 | a path may be published exactly when no part of it is empty, `.` or `..` |
| PublicationLaws.VersionSuffixUnique | src/r2-publication.ts:101 | version and what follows it in a key are unambiguous |
| PublicationLaws.KeySpacesDisjoint | materializer/src/publication.rs:171-176 | different package versions share no key |
| PackagePaths.PackagePathIsValid | materializer/src/service.rs:411-466 | publication accepts every archive path |
| PackagePaths.PackagePathExactly | materializer/src/service.rs:411-466 | which paths are portable: characters, lengths, device names in any case, `.git` and `_dist` |
| ArtifactKeys.PathnameOfPieces | src/r2-publication.ts:82-86 | a key of plain pieces is its own URL path, up to escapes |
| ArtifactKeys.WalkClimbs | src/r2-publication.ts:82-86 | in the URL two dots take back the segment before them |
| PercentCoding.EscapedExactly | src/r2-publication.ts:82-86 | which characters the URL parser escapes |
| PercentCoding.EncodeSegmentBack | src/r2-publication.ts:96-98 | decoding undoes the URL parser's escaping of every text without a percent sign, in any script: escapes are its UTF-8 bytes |
| ArtifactKeys.DecodeEncodedSegments | src/r2-publication.ts:96-99 | the same for all segments of a key, checks on each included |
| ArtifactKeys.BatchKeySurvives | src/r2-publication.ts:93-102 | every key of a proxyable publication reaches the store unchanged |
| AcceptedKeys.AcceptedKeyIsOfVersion | src/r2-publication.ts:93-102 | every accepted key is one version's of one package, made of decoded segments none of which is empty, climbs or has a backslash |
| ArtifactStore.Bucket.Put | src/r2-publication.ts:45-51 | creates the object exactly when the key is free |
| ArtifactStore.PublishArtifact | src/r2-publication.ts:31-56 | put, then on a taken key accept exactly the same digest |
| ArtifactStore.PublishArtifactBatch | src/r2-publication.ts:62-91 | uploads in order up to the first not accepted |
| ArtifactStore.UploadLaw | src/r2-publication.ts:31-56 | an upload succeeds exactly when its key is free or holds its digest, and then its digest is stored |
| ArtifactStore.UploadVerdict | src/r2-publication.ts:37-56 | for any upload, which of 201, 200, 400, 409 and 422 it gets, by digest form, body and stored digest, and the store it leaves |
| ArtifactStore.UploadSucceedsExactly | src/r2-publication.ts:31-56 | an upload succeeds exactly when it names a key, its body has its digest, and so has what is stored there, if anything |
| ArtifactStore.UploadKeepsHashes | src/r2-publication.ts:42-43 | no upload stores bytes under a digest they do not have |
| ArtifactStore.BatchKeepsHashes | src/r2-publication.ts:73-91 | nor does any batch |
| ArtifactStore.BatchVerdict | src/r2-publication.ts:73-91 | a batch is answered with 204 or as its first failing upload is |
| ArtifactStore.EmptyBatch | src/r2-publication.ts:69-72 | a batch without uploads is refused |
| ArtifactStore.TypescriptContent | src/r2-publication.ts:104-105 | TypeScript files are stored with their content type |
| ArtifactStore.JavascriptContent | src/r2-publication.ts:106 | so are JavaScript files |
| ArtifactStore.DataContent | src/r2-publication.ts:107-108 | and JSON and WebAssembly files |
| ArtifactStore.BatchGrows | src/r2-publication.ts:62-91 | no batch, failed or not, changes or removes an object |
| ArtifactStore.BatchLaw | src/r2-publication.ts:62-91 | a batch succeeds exactly when each upload is acceptable at its start, and then all are accepted |
| ArtifactStore.AcceptedBatchRepeats | src/r2-publication.ts:24-28 | repeating an accepted batch succeeds and changes nothing |
| ArtifactStore.ServesExactly | src/r2-artifacts.ts:12-22 | an object is served exactly when it is stored and its version's marker is |
| Protocol.OfferAdmission | src/r2-publication.ts:37-43 | the store sees each upload under its own key with the bytes that were published, and admits it exactly when its digest has the form of one |
| ProtocolStore.CreatedKey | src/r2-publication.ts:45-51 | a key of one version is created only by a batch of that version |
| ProtocolStore.CreatedMetadataBacked | src/r2-publication.ts:73-91 | stored metadata is that of a batch whose files are all stored |
| ProtocolStore.CreatedMarkerBacked | src/r2-publication.ts:73-91 | a stored marker means some one batch is wholly stored |
| ProtocolStore.PutLaw | src/r2-publication.ts:45-51 | what one put leaves, whatever others stored meanwhile |
| ProtocolStore.HeadLaw | src/r2-publication.ts:53-55 | what one head after a taken key leaves |
| ProtocolInvariant.NextPublishesOnly | src/package-registry.ts:107-187 | only completion publishes a version |
| ProtocolSteps.AccessKeeps | src/durable-objects.ts:134-160 | every registry access keeps the system's invariant and loses nothing |
| ProtocolSteps.VersionIsProxyable | src/version-allocator.ts:99 | every allocated version of a proxied package makes keys that survive transport |
| ProtocolSteps.StepKeeps | src/durable-objects.ts:184-267 | every step of every worker and request keeps the invariant and undoes nothing |
| ProtocolSteps.RunKeeps | src/durable-objects.ts:184-267 | so does every interleaved run |
| ProtocolTheorems.ReachableMarkedIsServable | src/r2-artifacts.ts:19-22 | at every instant a marker means the stored metadata is some outcome's, each path it lists is served with the listed checksum, and each of its files byte for byte or colliding |
| ProtocolTheorems.ServedExactlyWhenWhole | src/r2-artifacts.ts:12-22 | in every reachable state a version's objects are served exactly from when some one batch of it is wholly stored, and none before |
| ProtocolTheorems.AdvertisedIsServable | src/durable-objects.ts:198-256 | every advertised version has marker and metadata and serves all its metadata's writer published; an outcome the container gave for that job, with the advertised diagnostic, is wholly stored and served; both have one metadata or collide |
| ProtocolTheorems.FirstPublicationWins | src/r2-publication.ts:45-55 | any two batches of a version fully accepted at any times have one metadata, or collide under SHA-256 |
| ProtocolTheorems.SameMetadataSameContent | materializer/src/publication.rs:114-140 | one metadata means the same paths, sizes and checksums, exports, branch and commit |
| ProtocolTheorems.NothingIsLost | src/durable-objects.ts:247-266 | along every run objects, versions and advertised outcomes stay, those added under in-flight workers included |
| ProtocolTheorems.FinishingPublishes | src/durable-objects.ts:247-255 | a worker whose batch was accepted advertises its version with its outcome, whoever holds the lease by then |
| ProtocolTheorems.AloneIsTheBatch | src/r2-publication.ts:73-91 | undisturbed, a worker's steps are the batch loop: same store, same verdict |
| RetriedUploads.AloneFinishes | src/r2-publication.ts:62-91 | undisturbed, a worker's batch is accepted exactly when each of its keys is free or holds its own digest |
| RetriedUploads.StoredIsTraced | src/r2-publication.ts:45-51 | in every reachable state each stored object is, byte for byte, an upload of an outcome the container gave for the registry's own job of that version |
| RetriedUploads.RetrySucceeds | src/r2-publication.ts:24-28 | where a job's outcomes are one batch, an undisturbed worker finishes from every reachable state, after any crashes and partial batches |
| RetriedUploads.UploadsMoveOn | src/r2-publication.ts:45-55 | there, every put and head of every worker moves it on, whatever was interleaved |
| RetriedUploads.OnlyFailureReleases | src/durable-objects.ts:225-266 | there, only the container's own failure makes a worker release its lease |
| Progress.StartingStarts | src/durable-objects.ts:198-203 | a lease request on a readable registry starts exactly one worker, for a job that was pending or 120000 ms leased, and leases it; or, where there is none, does nothing |
| Progress.NothingStarts | src/durable-objects.ts:279-294 | without a readable registry nothing starts |
| Progress.PublishesGranted | src/durable-objects.ts:203-256 | a worker whose keys are open can publish its version by its own steps, with its outcome, and nothing else changes |
| Progress.EveryVersionCanBePublished | src/durable-objects.ts:184-256 | from every reachable state a valid run advertises every version of a readable package whose unpublished jobs the container can answer with open keys, each with its own outcome |
| EndToEnd.DiscoveryReachesClients | src/durable-objects.ts:134-256 | from nothing, a valid discovery can be carried through to an advertised version of each selected branch's own commit |
| EndToEnd.RecoveryReaches | src/durable-objects.ts:145-160 | recovering an advertised version queues its replacement and touches nothing else |
| EndToEnd.FailureRequeues | src/durable-objects.ts:225-267 | a worker whose container failed returns its job to the queue and stops |
| EndToEnd.CrashStops | src/durable-objects.ts:184-256 | a crash stops one worker and leaves everything else |
| DurableObject.PackageDurableObject.Load | src/durable-objects.ts:279-294 | the restored registry, a new one where allowed, or the identity error |
| DurableObject.LoadsOwnPackage | src/durable-objects.ts:279-294 | a request sees only its own package's registry, a new one where it may create it, or an error |
| DurableObject.PackageDurableObject.Save | src/durable-objects.ts:299-307 | a snapshot of the registry is stored |
| DurableObject.PackageDurableObject.RefreshPackage | src/durable-objects.ts:134-143 | one cycle of refresh; nothing is stored when it throws |
| DurableObject.PackageDurableObject.RecoverVersion | src/durable-objects.ts:152-159 | one cycle of recovery; nothing is stored when it throws |
| DurableObject.PackageDurableObject.LeaseNext | src/durable-objects.ts:198-201 | one cycle of leasing; nothing is stored when no job is granted |
| DurableObject.PackageDurableObject.ReleaseLease | src/durable-objects.ts:258-267 | one cycle of releasing |
| DurableObject.PackageDurableObject.Finish | src/durable-objects.ts:247-254 | one cycle of completion on the reloaded registry |
| DurableObject.PackageDurableObject.TakeLease | src/durable-objects.ts:198-201 | the first access of a request is one lease operation on the stored registry |
| DurableObject.PackageDurableObject.EndLease | src/durable-objects.ts:246-256 | its last is one completion or release |
| DurableObject.PackageDurableObject.Materialize | src/durable-objects.ts:184-256 | one whole request: lease, batch, then completion or release |
| DurableObject.CycleRefines | src/durable-objects.ts:279-307 | a cycle over the stored registry is one operation in memory |
| DurableObject.AccessRefinesStorage | src/durable-objects.ts:279-307 | each registry access of the protocol is one such cycle |
| DurableObject.MaterializedPublishes | src/durable-objects.ts:198-256 | a request that leases a job advertises it with its outcome, or leaves it pending |
| ImportRewrite.CandidateIsMapMatch | materializer/src/import_rewrite.rs:65-79 | the longest applicable alias is the import map standard's choice |
| ImportRewrite.BeforeExactly | materializer/src/import_rewrite.rs:67-70 | code-point order is decided at the first difference |
| ImportRewrite.MatchIsGreatest | materializer/src/import_rewrite.rs:65-79 | the choice is the greatest alias in code-point order that is the specifier or a prefix of it ending in a slash, and there is none exactly when no alias is |
| ImportRewrite.MappedToTarget | materializer/src/import_rewrite.rs:80-86 | the map resolves that alias's target followed by what remains of the specifier |
| ImportRewrite.RewrittenToTarget | materializer/src/import_rewrite.rs:83-86 | the rewriter names just that, a target below the root relative to the source |
| ImportRewrite.UnmappedStays | materializer/src/import_rewrite.rs:80-82 | where no alias applies the specifier stays |
| ImportRewrite.Shared | materializer/src/import_rewrite.rs:164-168 | the longest common prefix of two component lists |
| ImportRewrite.ComponentsLeadToTarget | materializer/src/import_rewrite.rs:169-171 | climbing out and down from the directory arrives at the dot-normalised target, below any root |
| ImportRewrite.RelativeSpecifierResolves | materializer/src/import_rewrite.rs:160-178 | wherever the package is rooted, resolving the result by section 5.2 of RFC 3986 gives the normalised target exactly when the target is nameable |
| ImportGraph.ResolveAlike | materializer/src/import_rewrite.rs:83-86 | a path resolves from a directory of a package as from the package's root exactly when the directory is that root or the path climbs out of the whole URL |
| ImportGraph.RewriteKeepsMeaning | materializer/src/import_rewrite.rs:65-87 | for every map and root one rewritten specifier resolves as before exactly when its path is nameable from the source or does not depend on the directory |
| ImportGraph.ParentTargetKept | materializer/src/import_rewrite.rs:83-86 | a target just above the package's root is kept exactly in files at the root, and one directory down only in a package at the root of its URL |
| ImportGraph.OwnDirectoryIsMissed | materializer/src/import_rewrite.rs:169-178 | the importing file's own directory, as target, is not resolved to |
| ImportGraph.DottedFileIsMissed | materializer/src/import_rewrite.rs:172-174 | nor is a sibling file whose name begins with two dots |
| ImportGraph.RewritePreservesGraph | materializer/src/import_rewrite.rs:90-138 | wherever the package is rooted, the rewritten tree is the same but for specifiers, each resolving as before, exactly when every specifier can be rewritten faithfully |
| ImportGraph.EachSpecifierRewritten | materializer/src/import_rewrite.rs:90-121 | imports, re-exports and import types are rewritten, and no other text |
| ImportGraph.DynamicImportRewritten | materializer/src/import_rewrite.rs:123-138 | so is the string of a dynamic import, and no other call's |
| SourceArchive.UnpackArchive | materializer/src/service.rs:212-369 | the loop unpacks the entries, or reports the first failure |
| SourceArchive.UnpackedFilesAreEntries | materializer/src/service.rs:219-368 | an accepted archive unpacks to exactly its regular files below the root |
| SourceArchive.UnpackAcceptsExactly | materializer/src/service.rs:219-368 | an archive is accepted exactly when it has one root, portable paths, whole files, no case-insensitive duplicates and at most 20 MiB |
| SourceArchive.ArchiveRefused | materializer/src/service.rs:212-369 | an archive is refused as invalid or as too large |
| SourceArchive.TrimmedPath | materializer/src/service.rs:241 | slashes at the end of a path do not count |
| Pipeline.ValidateOutputLimits | materializer/src/service.rs:371-409 | the loop reports the first file that breaks a limit, or the total |
| Pipeline.LimitsExact | materializer/src/service.rs:371-409 | no failure exactly when paths are portable, case-insensitively unique, and 20 MiB suffice |
| Pipeline.OutputRefused | materializer/src/service.rs:371-409 | output is refused for its paths, or else for its size |
| Pipeline.ModulePathExactly | materializer/src/service.rs:201-204 | which files are modules |
| Pipeline.RewriteSourceImports | materializer/src/service.rs:196-210 | every module file is rewritten, or the first error returned |
| Pipeline.BuildSourcePackage | materializer/src/service.rs:138-194 | in order: unpack, configure, rewrite, check exports, assemble, check limits |
| PipelineOutcome.RunMaterialization | materializer/src/service.rs:72-100 | answers with the package's or the tombstone's batch, never with a publication error |
| PipelineOutcome.OutcomeIsProper | materializer/src/service.rs:72-100 | every outcome's files are publishable at archive paths |
| PipelineOutcome.ReadyIsWithinLimits | materializer/src/service.rs:185-193 | a ready package is case-insensitively unique and at most 20 MiB |
| OutcomeLaws.ReadyExactly | materializer/src/service.rs:138-193 | a package is ready exactly when its archive unpacks, its root configuration parses, its modules can be rewritten where there is an import map, its exports are there and the limits hold |
| OutcomeLaws.FailureReported | materializer/src/service.rs:138-194 | the first stage that fails decides the class and message reported |
| OutcomeLaws.DiagnosticIdentity | materializer/src/service.rs:600-611 | the diagnostic's id is `mat-` and twelve digits of a digest of version, class and message |
| OutcomeLaws.TombstoneThrows | materializer/src/tombstone.rs:34-80 | a tombstone is its configuration and one module that throws a text with the diagnostic and the status URL |
| OutcomeLaws.ReadyConfiguration | materializer/src/service.rs:175-184 | a package's only configuration names package, version and exports |
| OutcomeLaws.ReadyExports | materializer/src/service.rs:138-193 | its exports are those of the source configuration |
| OutcomeLaws.ExportMapExactly | materializer/src/service.rs:138-193 | each export key has its own target |
| PipelineOutcome.OutcomeKeysSurvive | materializer/src/publication.rs:114-156 | every outcome's keys are distinct and reach the store unchanged |
| PipelineOutcome.ReadyFilesAreSources | materializer/src/service.rs:138-193 | a package holds the archive's file at every path but the configurations', modules with their import map eliminated, and the emitted configuration |
| PipelineOutcome.ReadyModuleKeepsGraph | materializer/src/service.rs:156-164 | each module of a package with an import map is printed from a tree with the archive's module graph, at any root it is served under, exactly when its specifiers can be rewritten faithfully |
| PipelineOutcome.ReadyExportsAreListed | materializer/src/service.rs:165-192 | an export of a ready package is in its manifest exactly unless it names `jsr.json` |
| UnlistedExport.JsrExportIsNotListed | materializer/src/service.rs:165-192 | an archive whose `deno.json` exports `jsr.json` is published without its export in the manifest |
| PipelineOutcome.TombstoneExportsAreListed | materializer/src/tombstone.rs:34-80 | a tombstone keeps the known export keys, each at the failing module, which is listed |
| ServedPackages.OutcomeIsReceivable | src/durable-objects.ts:240-245 | a worker may receive every outcome of the pipeline for its job |
| ServedPackages.AdvertisedIsPipelineOutcome | src/durable-objects.ts:240-256 | an advertised version serves what the pipeline made of some archive for its own job: a tombstone, with the recorded diagnostic, exactly when advertised yanked, and else the package |
| ServedPackages.RematerializingSucceeds | src/durable-objects.ts:184-256 | where each job's archive is always the same, materializing it again succeeds after any history, package or tombstone |
| Fallthrough.ImmutableCache.FallThrough | src/fallthrough.ts:19-67 | in place what one request does to the cache and answers |
| Fallthrough.ImmutableCache.FetchVersionMetadata | src/fallthrough.ts:82-101 | cached metadata, or the fetched response, kept if successful |
| Fallthrough.MetadataUrlIsMetadata | src/fallthrough.ts:88-91 | a module's metadata URL is itself version metadata |
| Fallthrough.ModulePathDecoded | src/fallthrough.ts:120-144 | a module whose path has no percent sign is recognised, and its checksum looked up under that path, in any script, when the URL escapes it as the parser does |
| Fallthrough.ServeIsRight | src/fallthrough.ts:19-67 | from a sound cache a request leaves a sound cache and a failure or the uncached answer |
| Fallthrough.ModuleServedExactly | src/fallthrough.ts:43-64 | without a cache a module is served exactly when it and its metadata are published and the metadata lists the digest of its bytes, and then as published |
| Fallthrough.ModuleFailure | src/fallthrough.ts:43-61 | what a module's request fails with |
| Fallthrough.OtherPathsServed | src/fallthrough.ts:25-66 | version metadata is served as published, and all other paths as the upstream answers |
| Fallthrough.SuccessIsKept | src/fallthrough.ts:33-64 | a successful answer for an immutable URL is kept, and is the answer from then on |
| Fallthrough.MetadataIsKept | src/fallthrough.ts:82-101 | version metadata fetched for a module is kept, whatever becomes of the module |
| Fallthrough.MetadataUrlExactly | src/fallthrough.ts:88-91 | where a module's version metadata is asked for |
| Fallthrough.ImmutableOnly | src/fallthrough.ts:120-144 | only paths below a scope are immutable, and a module's path has no empty or dot segment |
| Fallthrough.ReliableIsUncached | src/fallthrough.ts:19-67 | with nothing failing the cached answer is the uncached one |
| Fallthrough.CacheRefinesUncached | src/fallthrough.ts:19-67 | over any requests, failures and evictions: only uncached answers, and every cached module hashes to its listed checksum |

## Left out

- The HTTP handlers, routing, request body checks, headers and statuses other than the store's, authorization, admission and configuration parsing.
- GitHub calls and pagination: a discovery is any list of branches with distinct names.
- The `/complete` route (src/durable-objects.ts:162-182) in runs of `Protocol`: it marks versions ready without looking at the store, and nothing in the Worker calls it. `RegistryService` does include it.
- Fairness of `leaseNext`: the least version can starve the others. Stated are the draining bound once old leases have run out, and that a run to the end always exists; not that every run takes it.
- JavaScript numbers are integers here, with 2^53 + 1 rounding to 2^53; fractions, NaN and infinities are not modelled.
- The allocator's rows and the registry's records are values in maps, so aliasing of record objects, which the source copies on every way out, is not visible.
- Gzip, tar, JSON and SQL, and the TypeScript parser and printer: the model starts from archive entries, parsed values and syntax trees.
- Syntax trees are values, and the visitor returns a new tree: replacement of nodes in place is not captured. String literals with lone surrogates, which the visitor leaves alone, are not represented.
- ImportRewrite.RelativeSpecifierResolves: does not model query strings, fragments, backslashes or percent-encoded dots in targets, and takes the source's directory to be free of dot segments, as archive paths are.
- ImportGraph.RewritePreservesGraph: does not model aliases that are themselves relative or absolute URLs by their URL, because the rewriter compares aliases as text; nor the standard's refusal of a suffix that climbs above its prefix.
- PercentCoding.EncodeSegmentBack: does not model strings with lone surrogates, which the URL parser replaces and `decodeURIComponent` never yields.
- ArtifactStore.PublishArtifact: does not model `atob` accepting white space or missing padding, which the encoder never produces; nor header values that are not text.
- Fallthrough.CacheRefinesUncached: does not model `Vary`, range requests and partial responses, redirects, or version metadata that is the JSON value null.
- Conditional requests (`if-none-match`, `if-modified-since`) in `serveArtifact`, and its URL path without percent-decoding (src/index.ts:145-156).
- The planned alarms, isolate caches, include and exclude lists of the design document.
