/**
 * From archive to client: when the container is the modelled pipeline, an advertised version
 * serves what the pipeline made of some archive for that very job, yanked exactly when it made a
 * tombstone.
 */
module ServedPackages {
  import opened Common
  import opened PackageRegistryModel
  import opened Publication
  import opened ArtifactKeys
  import opened ArtifactStore
  import opened SourceArchive
  import opened Pipeline
  import opened PipelineOutcome
  import opened Protocol
  import opened ProtocolInvariant
  import opened ProtocolSteps
  import opened ProtocolTheorems
  import opened RetriedUploads

  ghost predicate FromPipeline(tools: Tools, offer: Offer) {
    exists request, archive :: OfferOf(tools, request, archive) == offer
  }

  /** The container's outcomes are the pipeline's, over every request and archive. */
  ghost predicate RunsPipeline(env: Environment, tools: Tools) {
    env.host == tools.host && forall offer :: env.possible(offer) <==> FromPipeline(tools, offer)
  }

  /** Every outcome of the pipeline for a leased job is one its worker may receive. */
  lemma OutcomeIsReceivable(env: Environment, tools: Tools, s: System, i: nat, request: MaterializationRequest,
                            archive: Option<seq<ArchiveEntry>>)
    requires RunsPipeline(env, tools) && i < |s.workers| && s.workers[i].Materializing?
    requires request.job == JobFor(s.workers[i].package, s.workers[i].job)
    ensures ValidStep(env, s, Receive(i, OfferOf(tools, request, archive)))
  {
    OutcomeIsProper(tools, request, archive);
    assert FromPipeline(tools, OfferOf(tools, request, archive));
  }

  /** What the pipeline made of the archive is what the version advertises. */
  ghost predicate Outcome(tools: Tools, request: MaterializationRequest, archive: Option<seq<ArchiveEntry>>,
                          yanked: bool, diagnostic: Option<Diagnostic>)
  {
    match SourcePackage(tools, request.job, archive)
    case Done(_) => !yanked && diagnostic == None
    case Failed(failure) => yanked && diagnostic == Some(DiagnosticOf(tools, request, failure))
  }

  /**
   * In every reachable state an advertised version serves the files of the package, or of the
   * tombstone, that the pipeline made of some archive for the version's own job. It is advertised
   * yanked, with the failure's diagnostic, exactly when that archive could not be packaged; and
   * the stored metadata is that outcome's. All contents are exact but for collisions.
   */
  lemma AdvertisedIsPipelineOutcome(env: Environment, tools: Tools, steps: seq<Step>, p: PackageName, v: string)
    returns (request: MaterializationRequest, archive: Option<seq<ArchiveEntry>>)
    requires RunsPipeline(env, tools) && ValidRun(env, INITIAL, steps)
    requires p in Run(env, INITIAL, steps).registries && v in Meta(Run(env, INITIAL, steps).registries[p])
    ensures var s := Run(env, INITIAL, steps);
            var job := s.registries[p].versions[v].job;
            && request.job == JobFor(p, job)
            && Outcome(tools, request, archive, Meta(s.registries[p])[v], job.diagnostic)
            && Advertises(env, s.store, p, job, OfferOf(tools, request, archive))
  {
    var writer, whole := AdvertisedIsServable(env, steps, p, v);
    assert FromPipeline(tools, whole);
    request, archive :| OfferOf(tools, request, archive) == whole;
    OutcomeIsProper(tools, request, archive);
  }

  // ----- one archive per job ---------------------------------------------------------------

  /** The container is the pipeline on one request and one archive for each job. */
  ghost predicate RunsPipelineOnce(env: Environment, tools: Tools,
                                   requestOf: MaterializationJob -> MaterializationRequest,
                                   archiveOf: MaterializationJob -> Option<seq<ArchiveEntry>>)
  {
    && env.host == tools.host
    && (forall b :: IsDigest(env.host.sha256(b)))
    && (forall job :: requestOf(job).job == job)
    && forall offer :: env.possible(offer) <==> offer == OfferOf(tools, requestOf(offer.job), archiveOf(offer.job))
  }

  lemma OnceIsPossible(env: Environment, tools: Tools,
                       requestOf: MaterializationJob -> MaterializationRequest,
                       archiveOf: MaterializationJob -> Option<seq<ArchiveEntry>>, job: MaterializationJob)
    requires RunsPipelineOnce(env, tools, requestOf, archiveOf) && IsProxyable(job)
    ensures var offer := OfferOf(tools, requestOf(job), archiveOf(job));
            offer.job == job && IsPossible(env, offer)
  {
    OutcomeIsProper(tools, requestOf(job), archiveOf(job));
  }

  lemma OnceIsDeterministic(env: Environment, tools: Tools,
                            requestOf: MaterializationJob -> MaterializationRequest,
                            archiveOf: MaterializationJob -> Option<seq<ArchiveEntry>>)
    requires RunsPipelineOnce(env, tools, requestOf, archiveOf)
    ensures Deterministic(env)
  {
  }

  /**
   * When each job's archive is always the same, materializing a version again succeeds, package or
   * tombstone, after any history of crashes and partial batches: an undisturbed worker finishes.
   */
  lemma RematerializingSucceeds(env: Environment, tools: Tools,
                                requestOf: MaterializationJob -> MaterializationRequest,
                                archiveOf: MaterializationJob -> Option<seq<ArchiveEntry>>,
                                steps: seq<Step>, p: PackageName, job: MaterializationJob)
    requires RunsPipelineOnce(env, tools, requestOf, archiveOf) && ValidRun(env, INITIAL, steps)
    requires BoundTo(Run(env, INITIAL, steps).registries, p, job)
    ensures var offer := OfferOf(tools, requestOf(job), archiveOf(job));
            Alone(env.host, Run(env, INITIAL, steps).store, p, offer, 0).1 == Finishing(p, offer)
  {
    ReachableInvariant(env, steps);
    BoundIsProxyable(env, Run(env, INITIAL, steps), p, job);
    OnceIsPossible(env, tools, requestOf, archiveOf, job);
    OnceIsDeterministic(env, tools, requestOf, archiveOf);
    RetrySucceeds(env, steps, p, OfferOf(tools, requestOf(job), archiveOf(job)));
  }
}
