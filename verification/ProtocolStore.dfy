/**
 * Creating one object of a batch keeps the store's invariant, whoever else has written in
 * between: stored metadata and markers stay backed by batches.
 */
module ProtocolStore {
  import opened PackageRegistryModel
  import opened Publication
  import opened PublicationLaws
  import opened ArtifactKeys
  import opened ArtifactStore
  import opened Protocol

  /** The `n`-th upload of an offer whose earlier uploads were accepted, about to be created. */
  ghost predicate Creatable(env: Environment, store: Store, offer: Offer, n: nat) {
    && IsPossible(env, offer) && n < |offer.files| + 2
    && AcceptedUpTo(env.host, store, offer, n)
    && Admit(env.host, Uploads(env.host, offer)[n]).Admitted?
    && Admit(env.host, Uploads(env.host, offer)[n]).key !in store
  }

  function WithObject(host: Host, store: Store, offer: Offer, n: nat): Store
    requires n < |offer.files| + 2 && Admit(host, Uploads(host, offer)[n]).Admitted?
  {
    var admission := Admit(host, Uploads(host, offer)[n]);
    store[admission.key := admission.item]
  }

  lemma CreatedUpload(host: Host, store: Store, upload: Upload)
    requires Admit(host, upload).Admitted? && Admit(host, upload).key !in store
    ensures var next := store[Admit(host, upload).key := Admit(host, upload).item];
            Grows(store, next) && Accepted(host, next, upload)
  {
    UploadLaw(host, store, upload);
  }

  lemma OneMoreAccepted(host: Host, store: Store, offer: Offer, n: nat)
    requires n < |offer.files| + 2
    requires AcceptedUpTo(host, store, offer, n) && Accepted(host, store, Uploads(host, offer)[n])
    ensures AcceptedUpTo(host, store, offer, n + 1)
  {
    forall j | 0 <= j < n + 1
      ensures Accepted(host, store, Uploads(host, offer)[j])
    {
    }
  }

  lemma CreatedAccepts(env: Environment, store: Store, offer: Offer, n: nat)
    requires Creatable(env, store, offer, n)
    ensures Grows(store, WithObject(env.host, store, offer, n))
    ensures AcceptedUpTo(env.host, WithObject(env.host, store, offer, n), offer, n + 1)
  {
    CreatedUpload(env.host, store, Uploads(env.host, offer)[n]);
    AcceptedUpToStays(env.host, store, WithObject(env.host, store, offer, n), offer, n);
    OneMoreAccepted(env.host, WithObject(env.host, store, offer, n), offer, n);
  }

  lemma CreatedHashes(env: Environment, store: Store, offer: Offer, n: nat)
    requires HashesMatch(env.host, store) && Creatable(env, store, offer, n)
    ensures HashesMatch(env.host, WithObject(env.host, store, offer, n))
  {
    OfferAdmission(env.host, offer, n);
  }

  /** A key of one version's key space is created only by an offer of that version. */
  lemma CreatedKey(host: Host, offer: Offer, n: nat, job: MaterializationJob, suffix: string)
    requires ProperOffer(offer) && n < |offer.files| + 2 && IsProxyable(job) && IsSuffix(suffix)
    requires Admit(host, Uploads(host, offer)[n]).Admitted?
    requires Admit(host, Uploads(host, offer)[n]).key == PackageKeyPrefix(job) + suffix
    ensures SameVersion(offer.job, job) && Suffix(offer.files, n) == suffix
  {
    OfferAdmission(host, offer, n);
    ProxyableHasNoSlash(job);
    ProxyableHasNoSlash(offer.job);
    KeySpacesDisjoint(offer.job, Suffix(offer.files, n), job, suffix);
  }

  lemma MetadataIsSecondLast(files: seq<ArtifactFile>, n: nat)
    requires n < |files| + 2
    ensures Suffix(files, n) == "_meta.json" ==> n == |files|
    ensures Suffix(files, n) == ".ready.json" ==> n == |files| + 1
  {
    if n < |files| {
      assert Suffix(files, n)[0] == '/';
    }
  }

  lemma MetadataBackingStays(env: Environment, store: Store, next: Store, job: MaterializationJob, offer: Offer)
    requires MetadataKey(job) in store && MetadataBackedBy(env, store, job, offer) && Grows(store, next)
    ensures MetadataKey(job) in next && MetadataBackedBy(env, next, job, offer)
  {
    AcceptedUpToStays(env.host, store, next, offer, |offer.files|);
  }

  lemma MarkerBackingStays(env: Environment, store: Store, next: Store, job: MaterializationJob, offer: Offer)
    requires MarkerBackedBy(env, store, job, offer) && Grows(store, next)
    ensures MarkerBackedBy(env, next, job, offer)
  {
    AcceptedUpToStays(env.host, store, next, offer, |offer.files| + 2);
  }

  lemma CreatedMetadataBacked(env: Environment, store: Store, offer: Offer, n: nat, job: MaterializationJob)
    requires Creatable(env, store, offer, n) && IsProxyable(job) && MetadataBacked(env, store, job)
    ensures MetadataBacked(env, WithObject(env.host, store, offer, n), job)
  {
    var next := WithObject(env.host, store, offer, n);
    CreatedAccepts(env, store, offer, n);
    if MetadataKey(job) in store {
      var backer :| MetadataBackedBy(env, store, job, backer);
      MetadataBackingStays(env, store, next, job, backer);
    } else if MetadataKey(job) in next {
      CreatedKey(env.host, offer, n, job, "_meta.json");
      MetadataIsSecondLast(offer.files, n);
      OfferAdmission(env.host, offer, n);
      AcceptedUpToStays(env.host, store, next, offer, n);
      assert MetadataBackedBy(env, next, job, offer);
    }
  }

  lemma CreatedMarkerBacked(env: Environment, store: Store, offer: Offer, n: nat, job: MaterializationJob)
    requires Creatable(env, store, offer, n) && IsProxyable(job) && MarkerBacked(env, store, job)
    ensures MarkerBacked(env, WithObject(env.host, store, offer, n), job)
  {
    var next := WithObject(env.host, store, offer, n);
    CreatedAccepts(env, store, offer, n);
    if ReadyMarkerKey(job) in store {
      var backer :| MarkerBackedBy(env, store, job, backer);
      MarkerBackingStays(env, store, next, job, backer);
    } else if ReadyMarkerKey(job) in next {
      CreatedKey(env.host, offer, n, job, ".ready.json");
      MetadataIsSecondLast(offer.files, n);
      assert MarkerBackedBy(env, next, job, offer);
    }
  }

  lemma CreatedKeepsInvariant(env: Environment, store: Store, offer: Offer, n: nat)
    requires StoreInvariant(env, store) && Creatable(env, store, offer, n)
    ensures StoreInvariant(env, WithObject(env.host, store, offer, n))
  {
    CreatedHashes(env, store, offer, n);
    forall job | IsProxyable(job)
      ensures MetadataBacked(env, WithObject(env.host, store, offer, n), job)
    {
      CreatedMetadataBacked(env, store, offer, n, job);
    }
    forall job | IsProxyable(job)
      ensures MarkerBacked(env, WithObject(env.host, store, offer, n), job)
    {
      CreatedMarkerBacked(env, store, offer, n, job);
    }
  }

  // ----- one put, one head -----------------------------------------------------------------

  /** What a put leaves: a store with its invariant, and a worker as far as the store bears out. */
  lemma PutLaw(env: Environment, store: Store, p: PackageName, offer: Offer, n: nat)
    requires StoreInvariant(env, store) && IsPossible(env, offer) && AcceptedUpTo(env.host, store, offer, n)
    ensures var (next, w) := AfterPut(env.host, store, p, offer, n);
            && Grows(store, next) && StoreInvariant(env, next)
            && (|| w == Releasing(p, offer.job.version)
                || w == Checking(p, offer, n)
                || (w == Finishing(p, offer) && Whole(env, next, offer))
                || (w == Uploading(p, offer, n + 1) && AcceptedUpTo(env.host, next, offer, n + 1)))
  {
    if Creatable(env, store, offer, n) {
      CreatedAccepts(env, store, offer, n);
      CreatedKeepsInvariant(env, store, offer, n);
      PutCreates(env, store, p, offer, n);
    } else {
      PutCreatesNothing(env, store, p, offer, n);
    }
  }

  lemma PutCreates(env: Environment, store: Store, p: PackageName, offer: Offer, n: nat)
    requires Creatable(env, store, offer, n)
    ensures AfterPut(env.host, store, p, offer, n) == (WithObject(env.host, store, offer, n), Uploading(p, offer, n + 1))
  {
  }

  lemma PutCreatesNothing(env: Environment, store: Store, p: PackageName, offer: Offer, n: nat)
    requires IsPossible(env, offer) && AcceptedUpTo(env.host, store, offer, n) && !Creatable(env, store, offer, n)
    ensures var (next, w) := AfterPut(env.host, store, p, offer, n);
            && next == store
            && (|| w == Releasing(p, offer.job.version)
                || w == Checking(p, offer, n)
                || (w == Finishing(p, offer) && n == |offer.files| + 2))
  {
  }

  lemma HeadAccepts(host: Host, store: Store, upload: Upload)
    requires Admit(host, upload).Admitted?
    requires IsOk(HeadStatus(store, Admit(host, upload).key, Admit(host, upload).item.sha256))
    ensures Accepted(host, store, upload)
  {
  }

  lemma HeadLaw(host: Host, store: Store, p: PackageName, offer: Offer, n: nat)
    requires AcceptedUpTo(host, store, offer, n)
    ensures var w := AfterHead(host, store, p, offer, n);
            || w == Releasing(p, offer.job.version)
            || w == Checking(p, offer, n)
            || (w == Uploading(p, offer, n + 1) && AcceptedUpTo(host, store, offer, n + 1))
  {
    if n < |offer.files| + 2 {
      var upload := Uploads(host, offer)[n];
      var admission := Admit(host, upload);
      if admission.Admitted? && IsOk(HeadStatus(store, admission.key, admission.item.sha256)) {
        HeadAccepts(host, store, upload);
        OneMoreAccepted(host, store, offer, n);
      }
    }
  }
}
