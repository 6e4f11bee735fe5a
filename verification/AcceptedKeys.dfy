/**
 * What the key check lets through (src/r2-publication.ts): whatever URL path is asked for, an
 * accepted key belongs to one version of one package, and none of its decoded segments climbs.
 */
module AcceptedKeys {
  import opened Common
  import opened Text
  import opened Publication
  import opened PublicationLaws
  import opened PercentCoding
  import opened ArtifactKeys

  // ----- segments --------------------------------------------------------------------------

  /** The texts the path's segments decode to. */
  ghost predicate DecodeTo(segments: seq<string>, decoded: seq<string>) {
    && |decoded| == |segments|
    && forall i :: 0 <= i < |segments| ==> DecodeSegment(segments[i]) == Some(decoded[i])
  }

  /** No segment is empty, climbs, stands still or has a backslash. */
  ghost predicate StaysBelow(decoded: seq<string>) {
    forall i :: 0 <= i < |decoded| ==>
                  decoded[i] != "" && decoded[i] != "." && decoded[i] != ".." && '\\' !in decoded[i]
  }

  lemma DecodeToCons(segments: seq<string>, first: string, rest: seq<string>)
    requires segments != [] && DecodeSegment(segments[0]) == Some(first) && DecodeTo(segments[1..], rest)
    ensures DecodeTo(segments, [first] + rest)
  {
  }

  lemma DecodeToRest(segments: seq<string>, decoded: seq<string>)
    requires segments != [] && DecodeTo(segments, decoded) && StaysBelow(decoded)
    ensures DecodeTo(segments[1..], decoded[1..]) && StaysBelow(decoded[1..])
  {
  }

  lemma {:induction false} DecodedExactly(segments: seq<string>, decoded: seq<string>)
    ensures DecodeSegments(segments) == Some(decoded) <==> DecodeTo(segments, decoded) && StaysBelow(decoded)
  {
    if segments != [] {
      if decoded != [] {
        DecodedExactly(segments[1..], decoded[1..]);
        assert [decoded[0]] + decoded[1..] == decoded;
        if DecodeTo(segments, decoded) && StaysBelow(decoded) {
          DecodeToRest(segments, decoded);
        }
        if DecodeSegments(segments) == Some(decoded) {
          DecodeToCons(segments, decoded[0], decoded[1..]);
        }
      }
    }
  }

  // ----- the layout ------------------------------------------------------------------------

  ghost predicate IsLabel(s: string) {
    s != "" && forall c :: c in s ==> 'a' <= c <= 'z' || '0' <= c <= '9' || c == '-'
  }

  /** The key is one of the version's: what follows the prefix is nothing, or an ending of a batch. */
  ghost predicate KeyOf(job: MaterializationJob, suffix: string, key: string) {
    && IsLabel(job.package.scope) && job.package.scope[0] != '-' && IsLabel(job.package.name)
    && IsVersionText(job.version) && key == PackageKeyPrefix(job) + suffix
    && (suffix == "" || IsSuffix(suffix))
  }

  /** The last piece, or the last pieces, of a key in the layout: a version and its suffix. */
  lemma VersionAndSuffix(pieces: seq<string>) returns (version: string, suffix: string)
    requires MatchesLayout(pieces)
    ensures IsVersionText(version) && (suffix == "" || IsSuffix(suffix))
    ensures Join(pieces[3..], '/') == version + suffix
  {
    if |pieces| > 4 {
      version, suffix := pieces[3], "/" + Join(pieces[4..], '/');
      assert pieces[3..][1..] == pieces[4..];
    } else {
      assert Join(pieces[3..], '/') == pieces[3];
      var s := pieces[3];
      if IsVersionText(s) {
        version, suffix := s, "";
      } else if EndsWith(s, ".ready.json") && IsVersionText(s[..|s| - 11]) {
        version, suffix := s[..|s| - 11], ".ready.json";
      } else {
        version, suffix := s[..|s| - 10], "_meta.json";
      }
    }
  }

  lemma LayoutNamesVersion(key: string) returns (job: MaterializationJob, suffix: string)
    requires MatchesLayout(Split(key, '/'))
    ensures KeyOf(job, suffix, key)
  {
    var pieces := Split(key, '/');
    var version: string;
    version, suffix := VersionAndSuffix(pieces);
    job := MaterializationJob(PackageIdentity(pieces[1], pieces[2]), "", "", version);
    JoinSplit(key, '/');
    assert pieces[3..] == [pieces[3]] + pieces[4..];
    assert pieces == KeyPieces(job, pieces[3], pieces[4..]);
    JoinKeyPieces(job, pieces[3], pieces[4..]);
    RegroupKey(job, suffix);
  }

  /**
   * Every accepted key is one of one version of one package whose names the proxy accepts, and is
   * made of the path's segments, decoded one by one, none of which climbs.
   */
  lemma AcceptedKeyIsOfVersion(pathname: string, key: string)
    returns (job: MaterializationJob, suffix: string, decoded: seq<string>)
    requires ArtifactKey(pathname) == Some(key)
    ensures KeyOf(job, suffix, key)
    ensures Split(pathname, '/')[0] == "" && DecodeTo(Split(pathname, '/')[1..], decoded) && StaysBelow(decoded)
    ensures key == Join(decoded, '/')
  {
    var segments := Split(pathname, '/')[1..];
    decoded := DecodeSegments(segments).value;
    DecodedExactly(segments, decoded);
    job, suffix := LayoutNamesVersion(key);
  }
}
