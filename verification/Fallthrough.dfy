/**
 * The read-through cache in front of the upstream registry (src/fallthrough.ts): immutable
 * responses are cached, modules only after their bytes match the version metadata's checksum.
 *
 * The upstream is seen through the responses it happens to give. What is assumed of it is that a
 * successful response of an immutable URL is always the same; it may fail at any time.
 */
module Fallthrough {
  import opened Common
  import opened Text
  import ArtifactKeys
  import ArtifactStore
  import PercentCoding

  /** A request URL below the upstream's origin. */
  datatype Url = Url(pathname: string, search: string)

  datatype Response = Response(status: nat, body: Bytes)

  type Entries = map<Url, Response>

  /** SHA-256 in hexadecimal, and the checksum a metadata body lists for a path. */
  datatype Tools = Tools(sha256: Bytes -> string, listedChecksum: (Bytes, string) -> Option<string>)

  predicate IsOk(r: Response) {
    ArtifactStore.IsOk(r.status)
  }

  const BAD_GATEWAY: nat := 502

  function Failure(message: string): Response {
    Response(BAD_GATEWAY, seq(|message|, i requires 0 <= i < |message| => (message[i] as int % 256) as bv8))
  }

  // ----- immutable paths -------------------------------------------------------------------

  datatype Immutable = Metadata | Module(version: string, path: string) | Mutable

  predicate HasEmptyOrDots(path: string) {
    exists part :: part in Split(path, '/') && (part == "" || part == "." || part == "..")
  }

  function DecodeModulePath(path: string): Option<string> {
    match PercentCoding.DecodeSegment(path)
    case None => None
    case Some(decoded) => if HasEmptyOrDots(decoded) then None else Some(decoded)
  }

  function ImmutablePath(pathname: string): Immutable {
    var segments := Split(pathname, '/');
    if |segments| == 4 && StartsWith(segments[1], "@") && EndsWith(segments[3], "_meta.json") then Metadata
    else if |segments| >= 5 && StartsWith(segments[1], "@") && segments[2] != "" && segments[3] != "" then
      match DecodeModulePath(Join(segments[4..], '/'))
      case None => Mutable
      case Some(path) => Module(segments[3], path)
    else Mutable
  }

  lemma {:induction false} JoinHasNoPercent(parts: seq<string>)
    requires forall i :: 0 <= i < |parts| ==> '%' !in parts[i]
    ensures '%' !in Join(parts, '/')
  {
    if |parts| > 1 {
      JoinHasNoPercent(parts[1..]);
    }
  }

  /** A component of a module's path, in any script. */
  predicate IsModulePart(part: string) {
    part != "" && part != "." && part != ".." && '/' !in part && '%' !in part
  }

  lemma DecodeModuleParts(parts: seq<string>)
    requires |parts| >= 1 && forall i :: 0 <= i < |parts| ==> IsModulePart(parts[i])
    ensures DecodeModulePath(Join(PercentCoding.EncodeSegments(parts), '/')) == Some(Join(parts, '/'))
  {
    JoinHasNoPercent(parts);
    PercentCoding.EncodeJoined(parts);
    PercentCoding.EncodeSegmentBack(Join(parts, '/'));
    SplitJoin(parts, '/');
  }

  lemma EncodedUnslashed(parts: seq<string>)
    requires Unslashed(parts)
    ensures Unslashed(PercentCoding.EncodeSegments(parts))
  {
    forall i | 0 <= i < |parts|
      ensures '/' !in PercentCoding.EncodeSegments(parts)[i]
    {
      PercentCoding.EncodedHasNoSlash(parts[i]);
    }
  }

  lemma UnslashedConcat(before: seq<string>, after: seq<string>)
    requires Unslashed(before) && Unslashed(after)
    ensures Unslashed(before + after)
  {
  }

  lemma ModuleOfSegments(pathname: string, before: seq<string>, encoded: seq<string>, path: string)
    requires |before| == 4 && encoded != [] && Split(pathname, '/') == before + encoded
    requires StartsWith(before[1], "@") && before[2] != "" && before[3] != ""
    requires DecodeModulePath(Join(encoded, '/')) == Some(path)
    ensures ImmutablePath(pathname) == Module(before[3], path)
  {
    assert (before + encoded)[4..] == encoded;
  }

  /**
   * The checksum of a module is looked up under its own path, in any script, although the URL
   * parser escapes it: `before` is the empty segment before the first slash, the scope, the name
   * and the version.
   */
  lemma ModulePathDecoded(before: seq<string>, parts: seq<string>)
    requires |before| == 4 && Unslashed(before)
    requires StartsWith(before[1], "@") && before[2] != "" && before[3] != ""
    requires |parts| >= 1 && forall i :: 0 <= i < |parts| ==> IsModulePart(parts[i])
    ensures ImmutablePath(Join(before + PercentCoding.EncodeSegments(parts), '/')) == Module(before[3], Join(parts, '/'))
  {
    var encoded := PercentCoding.EncodeSegments(parts);
    EncodedUnslashed(parts);
    UnslashedConcat(before, encoded);
    SplitJoin(before + encoded, '/');
    DecodeModuleParts(parts);
    ModuleOfSegments(Join(before + encoded, '/'), before, encoded, Join(parts, '/'));
  }

  /** Where a module's version metadata is. */
  function MetadataUrl(url: Url, version: string): Url {
    var segments := Split(url.pathname, '/');
    Url(Join(if |segments| < 3 then segments else segments[..3], '/') + "/" + version + "_meta.json", "")
  }

  // ----- one request -----------------------------------------------------------------------

  /** What the upstream gives during the request: for the URL itself, and for the metadata. */
  datatype Upstream = Upstream(own: Response, metadata: Response)

  function Lookup(cache: Option<Entries>, url: Url): Option<Response> {
    if cache.Some? && url in cache.value then Some(cache.value[url]) else None
  }

  function Stored(cache: Option<Entries>, url: Url, r: Response): Option<Entries> {
    if cache.Some? && IsOk(r) then Some(cache.value[url := r]) else cache
  }

  predicate Usable(checksum: Option<string>) {
    checksum.Some? && StartsWith(checksum.value, "sha256-") && ArtifactStore.IsDigest(checksum.value[7..])
  }

  /** A module whose metadata answered with `metadata`; the cache already holds that answer. */
  function ServeModule(tools: Tools, cache: Option<Entries>, url: Url, path: string, metadata: Response, own: Response)
    : (Option<Entries>, Response)
  {
    if !IsOk(metadata) then (cache, metadata)
    else
      var checksum := tools.listedChecksum(metadata.body, path);
      if !Usable(checksum) then
        (cache, Failure("upstream version metadata has no usable checksum for this module"))
      else if !IsOk(own) then (cache, own)
      else if "sha256-" + tools.sha256(own.body) != checksum.value then
        (cache, Failure("upstream module bytes did not match version metadata"))
      else (Stored(cache, url, own), own)
  }

  /** A GET: the cache afterwards, and the response. */
  function Serve(tools: Tools, cache: Option<Entries>, url: Url, upstream: Upstream): (Option<Entries>, Response) {
    match ImmutablePath(url.pathname)
    case Mutable => (cache, upstream.own)
    case Metadata =>
      if Lookup(cache, url).Some? then (cache, Lookup(cache, url).value)
      else (Stored(cache, url, upstream.own), upstream.own)
    case Module(version, path) =>
      if Lookup(cache, url).Some? then (cache, Lookup(cache, url).value)
      else
        var metadataUrl := MetadataUrl(url, version);
        match Lookup(cache, metadataUrl)
        case Some(known) => ServeModule(tools, cache, url, path, known, upstream.own)
        case None =>
          ServeModule(tools, Stored(cache, metadataUrl, upstream.metadata), url, path, upstream.metadata, upstream.own)
  }

  class ImmutableCache {
    var entries: Entries

    constructor ()
      ensures entries == map[]
    {
      entries := map[];
    }

    method Match(url: Url) returns (found: Option<Response>)
      ensures found == Lookup(Some(entries), url)
    {
      found := if url in entries then Some(entries[url]) else None;
    }

    /** `cacheResponse`: keeps successful responses only. */
    method Keep(url: Url, r: Response)
      modifies this
      ensures Some(entries) == Stored(Some(old(entries)), url, r)
    {
      if IsOk(r) {
        entries := entries[url := r];
      }
    }

    method FetchVersionMetadata(url: Url, fetched: Response) returns (r: Response)
      modifies this
      ensures match Lookup(Some(old(entries)), url)
              case Some(known) => r == known && entries == old(entries)
              case None => r == fetched && Some(entries) == Stored(Some(old(entries)), url, fetched)
    {
      var known := Match(url);
      if known.Some? {
        return known.value;
      }
      Keep(url, fetched);
      r := fetched;
    }

    method FallThrough(tools: Tools, isGet: bool, url: Url, upstream: Upstream) returns (r: Response)
      modifies this
      ensures isGet ==> (Some(entries), r) == Serve(tools, Some(old(entries)), url, upstream)
      ensures !isGet ==> entries == old(entries) && r == upstream.own
    {
      if !isGet {
        return upstream.own;
      }
      var kind := ImmutablePath(url.pathname);
      if !kind.Mutable? {
        var cached := Match(url);
        if cached.Some? {
          return cached.value;
        }
      }
      if kind.Metadata? {
        Keep(url, upstream.own);
        return upstream.own;
      }
      if kind.Module? {
        var metadata := FetchVersionMetadata(MetadataUrl(url, kind.version), upstream.metadata);
        if !IsOk(metadata) {
          return metadata;
        }
        var checksum := tools.listedChecksum(metadata.body, kind.path);
        if !Usable(checksum) {
          return Failure("upstream version metadata has no usable checksum for this module");
        }
        if !IsOk(upstream.own) {
          return upstream.own;
        }
        if "sha256-" + tools.sha256(upstream.own.body) != checksum.value {
          return Failure("upstream module bytes did not match version metadata");
        }
        Keep(url, upstream.own);
        return upstream.own;
      }
      r := upstream.own;
    }
  }

  // ----- an immutable upstream -------------------------------------------------------------

  /** The one successful response each immutable URL ever gives, if it ever gives one. */
  type Published = Url -> Option<Response>

  /** A response the upstream may give: a failure, or the published one. */
  ghost predicate MayGive(published: Published, url: Url, r: Response) {
    IsOk(r) ==> published(url) == Some(r)
  }

  ghost predicate Faithful(published: Published, url: Url, upstream: Upstream) {
    match ImmutablePath(url.pathname)
    case Mutable => true
    case Metadata => MayGive(published, url, upstream.own)
    case Module(version, _) =>
      MayGive(published, url, upstream.own) && MayGive(published, MetadataUrl(url, version), upstream.metadata)
  }

  const ABSENT: Response := Response(404, [])

  /** The upstream when nothing fails: what is published, else not found. */
  function Reliable(published: Published, url: Url): Response {
    if published(url).Some? then published(url).value else ABSENT
  }

  /** The answer without a cache when nothing fails. */
  function Uncached(tools: Tools, published: Published, url: Url): Response {
    var kind := ImmutablePath(url.pathname);
    var metadataUrl := if kind.Module? then MetadataUrl(url, kind.version) else url;
    Serve(tools, None, url, Upstream(Reliable(published, url), Reliable(published, metadataUrl))).1
  }

  /** The body hashes to the checksum that the module's version metadata lists for its path. */
  ghost predicate Verified(tools: Tools, published: Published, url: Url, body: Bytes) {
    var kind := ImmutablePath(url.pathname);
    kind.Module? ==>
      var metadata := published(MetadataUrl(url, kind.version));
      && metadata.Some?
      && tools.listedChecksum(metadata.value.body, kind.path) == Some("sha256-" + tools.sha256(body))
  }

  /** A module as the proxy without a cache would serve it. */
  ghost predicate Sound(tools: Tools, published: Published, url: Url, r: Response) {
    Verified(tools, published, url, r.body) && Uncached(tools, published, url) == r
  }

  /** Every entry is the published response, and each module among them is sound. */
  ghost predicate SoundEntry(tools: Tools, published: Published, url: Url, r: Response) {
    IsOk(r) && published(url) == Some(r) && (ImmutablePath(url.pathname).Module? ==> Sound(tools, published, url, r))
  }

  ghost predicate SoundCache(tools: Tools, published: Published, cache: Entries) {
    forall url :: url in cache ==> SoundEntry(tools, published, url, cache[url])
  }

  /** A response served for an immutable URL is either a failure or the uncached answer. */
  ghost predicate Right(tools: Tools, published: Published, url: Url, r: Response) {
    !ImmutablePath(url.pathname).Mutable? && IsOk(r) ==>
      r == Uncached(tools, published, url) && Verified(tools, published, url, r.body)
  }

  lemma ModuleIsSound(tools: Tools, published: Published, url: Url, metadata: Response, own: Response)
    requires ImmutablePath(url.pathname).Module?
    requires MayGive(published, MetadataUrl(url, ImmutablePath(url.pathname).version), metadata)
    requires MayGive(published, url, own)
    requires IsOk(ServeModule(tools, None, url, ImmutablePath(url.pathname).path, metadata, own).1)
    ensures ServeModule(tools, None, url, ImmutablePath(url.pathname).path, metadata, own).1 == own
    ensures SoundEntry(tools, published, url, own)
  {
    var kind := ImmutablePath(url.pathname);
    var checksum := tools.listedChecksum(metadata.body, kind.path);
    assert checksum == Some("sha256-" + tools.sha256(own.body));
    assert Reliable(published, url) == own;
    assert Reliable(published, MetadataUrl(url, kind.version)) == metadata;
  }

  /** The cache changes no answer, and keeps a module exactly when it is served. */
  lemma ServeModuleShape(tools: Tools, cache: Entries, url: Url, path: string, metadata: Response, own: Response)
    ensures var (next, r) := ServeModule(tools, Some(cache), url, path, metadata, own);
            && r == ServeModule(tools, None, url, path, metadata, own).1
            && next == Some(if IsOk(r) then cache[url := own] else cache)
  {
  }

  lemma SoundUpdate(tools: Tools, published: Published, cache: Entries, url: Url, r: Response)
    requires SoundCache(tools, published, cache) && SoundEntry(tools, published, url, r)
    ensures SoundCache(tools, published, cache[url := r])
  {
    var next := cache[url := r];
    forall other | other in next
      ensures SoundEntry(tools, published, other, next[other])
    {
      if other != url {
        assert SoundEntry(tools, published, other, cache[other]);
      }
    }
  }

  lemma ModuleStepIsRight(tools: Tools, published: Published, cache: Entries, url: Url, metadata: Response, own: Response)
    requires ImmutablePath(url.pathname).Module? && SoundCache(tools, published, cache)
    requires MayGive(published, MetadataUrl(url, ImmutablePath(url.pathname).version), metadata)
    requires MayGive(published, url, own)
    ensures var (next, r) := ServeModule(tools, Some(cache), url, ImmutablePath(url.pathname).path, metadata, own);
            next.Some? && SoundCache(tools, published, next.value) && Right(tools, published, url, r)
  {
    ServeModuleShape(tools, cache, url, ImmutablePath(url.pathname).path, metadata, own);
    if IsOk(ServeModule(tools, None, url, ImmutablePath(url.pathname).path, metadata, own).1) {
      ModuleIsSound(tools, published, url, metadata, own);
      SoundUpdate(tools, published, cache, url, own);
    }
  }

  lemma StoredIsSound(tools: Tools, published: Published, cache: Entries, url: Url, r: Response)
    requires SoundCache(tools, published, cache) && MayGive(published, url, r) && !ImmutablePath(url.pathname).Module?
    ensures Stored(Some(cache), url, r).Some?
    ensures SoundCache(tools, published, Stored(Some(cache), url, r).value)
  {
  }

  lemma MetadataPathSegments(scope: string, name: string, file: string)
    requires '/' !in scope && '/' !in name && '/' !in file
    ensures Split(Join(["", scope, name], '/') + "/" + file, '/') == ["", scope, name, file]
  {
    var pieces := ["", scope, name, file];
    ArtifactKeys.JoinCons("", [scope, name]);
    ArtifactKeys.JoinCons(scope, [name]);
    ArtifactKeys.JoinCons("", [scope, name, file]);
    ArtifactKeys.JoinCons(scope, [name, file]);
    ArtifactKeys.JoinCons(name, [file]);
    assert [""] + [scope, name] == ["", scope, name] && [scope] + [name] == [scope, name];
    assert [""] + [scope, name, file] == pieces && [scope] + [name, file] == [scope, name, file];
    assert [name] + [file] == [name, file];
    assert Join(pieces, '/') == Join(["", scope, name], '/') + "/" + file;
    SplitJoin(pieces, '/');
  }

  /** A module's metadata is version metadata, so it never needs a checksum itself. */
  lemma MetadataUrlIsMetadata(url: Url)
    requires ImmutablePath(url.pathname).Module? && StartsWith(url.pathname, "/")
    ensures ImmutablePath(MetadataUrl(url, ImmutablePath(url.pathname).version).pathname) == Metadata
  {
    var segments := Split(url.pathname, '/');
    var file := segments[3] + "_meta.json";
    assert IndexOf(url.pathname, '/') == 0;
    assert segments[0] == "";
    assert segments[1] in segments && segments[2] in segments && segments[3] in segments;
    assert segments[..3] == ["", segments[1], segments[2]];
    assert Join(segments[..3], '/') + "/" + segments[3] + "_meta.json" == Join(segments[..3], '/') + "/" + file;
    MetadataPathSegments(segments[1], segments[2], file);
    assert file[|file| - 10..] == "_meta.json";
  }

  // ----- what is served, and what is kept --------------------------------------------------

  ghost predicate Succeeds(r: Response) {
    200 <= r.status < 300
  }

  /** The upstream has published a successful response there. */
  ghost predicate HasPublished(published: Published, url: Url) {
    published(url).Some? && Succeeds(published(url).value)
  }

  /**
   * A module is served without a cache exactly when it and its version metadata are published and
   * the metadata lists, under the module's path, the SHA-256 of its bytes in hexadecimal; and then
   * it is served as published.
   */
  lemma ModuleServedExactly(tools: Tools, published: Published, url: Url, version: string, path: string)
    requires ImmutablePath(url.pathname) == Module(version, path)
    ensures var r, metadataUrl := Uncached(tools, published, url), MetadataUrl(url, version);
            && (Succeeds(r) <==>
                  && HasPublished(published, metadataUrl) && HasPublished(published, url)
                  && var digest := tools.sha256(published(url).value.body);
                  && tools.listedChecksum(published(metadataUrl).value.body, path) == Some("sha256-" + digest)
                  && ArtifactStore.IsHexadecimal(digest))
            && (Succeeds(r) ==> published(url) == Some(r))
  {
    var own := Reliable(published, url);
    UsableExactly(tools.sha256(own.body));
    ReliableSucceeds(published, url);
    ReliableSucceeds(published, MetadataUrl(url, version));
  }

  lemma UsableExactly(digest: string)
    ensures Usable(Some("sha256-" + digest)) <==> ArtifactStore.IsHexadecimal(digest)
  {
    assert ("sha256-" + digest)[7..] == digest && ("sha256-" + digest)[..7] == "sha256-";
    assert ArtifactStore.IsDigest(digest) <==> ArtifactStore.IsHexadecimal(digest);
  }

  lemma ReliableSucceeds(published: Published, url: Url)
    ensures IsOk(Reliable(published, url)) <==> HasPublished(published, url)
  {
  }

  /** What a module's request fails with: its metadata's failure, 502, or its own failure. */
  lemma ModuleFailure(tools: Tools, url: Url, version: string, path: string, upstream: Upstream)
    requires ImmutablePath(url.pathname) == Module(version, path)
    ensures var r := Serve(tools, None, url, upstream).1;
            && (!Succeeds(upstream.metadata) ==> r == upstream.metadata)
            && (Succeeds(upstream.metadata) && tools.listedChecksum(upstream.metadata.body, path) == None ==>
                  r.status == 502)
            && (Succeeds(upstream.metadata) && Succeeds(upstream.own)
                && tools.listedChecksum(upstream.metadata.body, path) != Some("sha256-" + tools.sha256(upstream.own.body)) ==>
                  r.status == 502)
            && (!Succeeds(upstream.own) ==> !Succeeds(r))
  {
  }

  /** Version metadata is served as published, and every other path as the upstream answers it. */
  lemma OtherPathsServed(tools: Tools, published: Published, cache: Entries, url: Url, upstream: Upstream)
    ensures ImmutablePath(url.pathname) == Metadata ==>
              Uncached(tools, published, url) == (if published(url).Some? then published(url).value else Response(404, []))
    ensures ImmutablePath(url.pathname) == Mutable ==> Serve(tools, Some(cache), url, upstream) == (Some(cache), upstream.own)
  {
  }

  /** A successful answer for an immutable URL is kept, and what is kept is the answer from then on. */
  lemma SuccessIsKept(tools: Tools, cache: Entries, url: Url, upstream: Upstream, later: Upstream)
    requires ImmutablePath(url.pathname) != Mutable && Succeeds(Serve(tools, Some(cache), url, upstream).1)
    requires url in cache ==> Succeeds(cache[url])
    ensures var (next, r) := Serve(tools, Some(cache), url, upstream);
            && next.Some? && url in next.value && next.value[url] == r
            && Serve(tools, next, url, later) == (next, r)
  {
    match ImmutablePath(url.pathname)
    case Module(version, path) =>
      if url !in cache {
        ModuleIsKept(tools, cache, url, version, path, upstream);
      }
    case _ =>
  }

  lemma ModuleIsKept(tools: Tools, cache: Entries, url: Url, version: string, path: string, upstream: Upstream)
    requires ImmutablePath(url.pathname) == Module(version, path) && url !in cache
    requires Succeeds(Serve(tools, Some(cache), url, upstream).1)
    ensures var (next, r) := Serve(tools, Some(cache), url, upstream);
            next.Some? && url in next.value && next.value[url] == r
  {
    var metadataUrl := MetadataUrl(url, version);
    if metadataUrl in cache {
      ServeModuleShape(tools, cache, url, path, cache[metadataUrl], upstream.own);
    } else {
      ServeModuleShape(tools, Stored(Some(cache), metadataUrl, upstream.metadata).value, url, path, upstream.metadata,
                       upstream.own);
    }
  }

  /** Metadata fetched for a module is kept too, whatever becomes of the module. */
  lemma MetadataIsKept(tools: Tools, cache: Entries, url: Url, version: string, path: string, upstream: Upstream)
    requires ImmutablePath(url.pathname) == Module(version, path) && url !in cache
    requires StartsWith(url.pathname, "/") && MetadataUrl(url, version) !in cache && Succeeds(upstream.metadata)
    ensures var next := Serve(tools, Some(cache), url, upstream).0;
            && next.Some? && MetadataUrl(url, version) in next.value
            && next.value[MetadataUrl(url, version)] == upstream.metadata
  {
    var metadataUrl := MetadataUrl(url, version);
    MetadataUrlIsMetadata(url);
    ServeModuleShape(tools, cache[metadataUrl := upstream.metadata], url, path, upstream.metadata, upstream.own);
  }

  lemma ScopeAndName(before: seq<string>)
    requires |before| == 3 && before[0] == ""
    ensures Join(before, '/') == "/" + before[1] + "/" + before[2]
  {
    ArtifactKeys.JoinCons(before[0], before[1..]);
    ArtifactKeys.JoinCons(before[1], before[2..]);
    assert before == [before[0]] + before[1..] && before[1..] == [before[1]] + before[2..];
  }

  /** A module's metadata is beside its version's directory: same scope and name, no query. */
  lemma MetadataUrlExactly(before: seq<string>, rest: seq<string>, search: string, version: string)
    requires |before| == 3 && before[0] == "" && Unslashed(before) && Unslashed(rest)
    ensures MetadataUrl(Url(Join(before + rest, '/'), search), version)
         == Url("/" + before[1] + "/" + before[2] + "/" + version + "_meta.json", "")
  {
    UnslashedConcat(before, rest);
    SplitJoin(before + rest, '/');
    assert (before + rest)[..3] == before;
    ScopeAndName(before);
  }

  /** Only paths below a scope are immutable, and a module's path has no empty or dot segment. */
  lemma ImmutableOnly(pathname: string)
    ensures ImmutablePath(pathname) != Mutable ==>
              |Split(pathname, '/')| >= 4 && "@" <= Split(pathname, '/')[1]
    ensures ImmutablePath(pathname) == Metadata ==> |Split(pathname, '/')| == 4
    ensures ImmutablePath(pathname).Module? ==>
              forall part :: part in Split(ImmutablePath(pathname).path, '/') ==> part !in {"", ".", ".."}
  {
  }

  // ----- the cache refines the uncached proxy ----------------------------------------------

  /**
   * Whatever the cache holds of a sound past and however the upstream fails, a GET leaves a sound
   * cache and answers an immutable URL with a failure or with the uncached answer.
   */
  lemma ServeIsRight(tools: Tools, published: Published, cache: Entries, url: Url, upstream: Upstream)
    requires StartsWith(url.pathname, "/")
    requires SoundCache(tools, published, cache) && Faithful(published, url, upstream)
    ensures var (next, r) := Serve(tools, Some(cache), url, upstream);
            next.Some? && SoundCache(tools, published, next.value) && Right(tools, published, url, r)
  {
    match ImmutablePath(url.pathname)
    case Mutable =>
    case Metadata => StoredIsSound(tools, published, cache, url, upstream.own);
    case Module(version, path) =>
      var metadataUrl := MetadataUrl(url, version);
      MetadataUrlIsMetadata(url);
      if Lookup(Some(cache), url).None? {
        match Lookup(Some(cache), metadataUrl)
        case Some(known) => ModuleStepIsRight(tools, published, cache, url, known, upstream.own);
        case None =>
          StoredIsSound(tools, published, cache, metadataUrl, upstream.metadata);
          var stored := Stored(Some(cache), metadataUrl, upstream.metadata).value;
          ModuleStepIsRight(tools, published, stored, url, upstream.metadata, upstream.own);
      }
  }

  /** With nothing failing, the cached answer is the uncached one, failures included. */
  lemma ReliableIsUncached(tools: Tools, published: Published, cache: Entries, url: Url, upstream: Upstream)
    requires SoundCache(tools, published, cache) && !ImmutablePath(url.pathname).Mutable?
    requires upstream.own == Reliable(published, url)
    requires ImmutablePath(url.pathname).Module? ==>
               upstream.metadata == Reliable(published, MetadataUrl(url, ImmutablePath(url.pathname).version))
    ensures Serve(tools, Some(cache), url, upstream).1 == Uncached(tools, published, url)
  {
  }

  datatype Event = Get(url: Url, upstream: Upstream) | Evict(gone: set<Url>)

  ghost predicate FaithfulEvent(published: Published, e: Event) {
    e.Get? ==> StartsWith(e.url.pathname, "/") && Faithful(published, e.url, e.upstream)
  }

  function After(tools: Tools, cache: Entries, e: Event): Entries {
    match e
    case Evict(gone) => cache - gone
    case Get(url, upstream) =>
      match Serve(tools, Some(cache), url, upstream).0
      case Some(next) => next
      case None => cache
  }

  function Cached(tools: Tools, events: seq<Event>): Entries {
    if events == [] then map[] else After(tools, Cached(tools, events[..|events| - 1]), events[|events| - 1])
  }

  lemma {:induction false} CacheStaysSound(tools: Tools, published: Published, events: seq<Event>)
    requires forall i :: 0 <= i < |events| ==> FaithfulEvent(published, events[i])
    ensures SoundCache(tools, published, Cached(tools, events))
  {
    if events != [] {
      var front, last := events[..|events| - 1], events[|events| - 1];
      CacheStaysSound(tools, published, front);
      assert FaithfulEvent(published, last);
      if last.Get? {
        ServeIsRight(tools, published, Cached(tools, front), last.url, last.upstream);
      }
    }
  }

  /**
   * Over every sequence of requests, failures and evictions, the next response for an immutable
   * URL is a failure or the uncached answer, and every cached module hashes to the checksum its
   * version metadata lists.
   */
  lemma CacheRefinesUncached(tools: Tools, published: Published, events: seq<Event>, url: Url, upstream: Upstream)
    requires forall i :: 0 <= i < |events| ==> FaithfulEvent(published, events[i])
    requires StartsWith(url.pathname, "/") && Faithful(published, url, upstream)
    ensures Right(tools, published, url, Serve(tools, Some(Cached(tools, events)), url, upstream).1)
    ensures url in Cached(tools, events) ==> Verified(tools, published, url, Cached(tools, events)[url].body)
  {
    CacheStaysSound(tools, published, events);
    ServeIsRight(tools, published, Cached(tools, events), url, upstream);
  }
}
