/**
 * How an upload's key reaches the store (src/r2-publication.ts): it is put into a URL, parsed
 * by the URL standard's path rules, percent-decoded segment by segment and matched against the
 * key layout.
 */
module ArtifactKeys {
  import opened Common
  import opened Text
  import opened PackagePaths
  import opened PercentCoding
  import opened Publication
  import opened PublicationLaws

  // ----- parsing `http://artifacts.r2/${key}` ----------------------------------------------

  /** `%2e` counts as a dot. */
  function Dots(segment: string): Option<nat> {
    if segment == "" then Some(0)
    else if segment[0] == '.' then
      (match Dots(segment[1..]) case None => None case Some(n) => Some(n + 1))
    else if |segment| >= 3 && Lower(segment[..3]) == "%2e" then
      (match Dots(segment[3..]) case None => None case Some(n) => Some(n + 1))
    else None
  }

  /** The path state of the URL parser, over the remaining segments. */
  function Walk(segments: seq<string>, path: seq<string>): seq<string> {
    if segments == [] then path
    else
      var ending := if |segments| == 1 then [""] else [];
      Walk(segments[1..],
           if Dots(segments[0]) == Some(2) then (if path == [] then [] else path[..|path| - 1]) + ending
           else if Dots(segments[0]) == Some(1) then path + ending
           else path + [EncodeSegment(segments[0])])
  }

  function Without(s: string, dropped: string): string {
    if s == "" then "" else (if s[0] in dropped then "" else [s[0]]) + Without(s[1..], dropped)
  }

  function TrimEnd(s: string): string {
    if s == "" || s[|s| - 1] > ' ' then s else TrimEnd(s[..|s| - 1])
  }

  function Forward(s: string): string {
    seq(|s|, i requires 0 <= i < |s| => if s[i] == '\\' then '/' else s[i])
  }

  /** The path part of the input, cleaned as the URL parser does before it looks at segments. */
  function PathText(key: string): string {
    var input := Without(TrimEnd(key), "\t\n\r");
    var path := input[..IndexOf(input, '?')];
    Forward(path[..IndexOf(path, '#')])
  }

  /** `new URL("http://artifacts.r2/" + key).pathname`. */
  function Pathname(key: string): string {
    "/" + Join(Walk(Split(PathText(key), '/'), []), '/')
  }

  // ----- artifactKey -----------------------------------------------------------------------

  predicate IsKeySegment(segment: string) {
    IsPlain(segment) && '\\' !in segment
  }

  function DecodeSegments(segments: seq<string>): Option<seq<string>> {
    if segments == [] then Some([])
    else
      match (DecodeSegment(segments[0]), DecodeSegments(segments[1..]))
      case (Some(first), Some(rest)) => if IsKeySegment(first) then Some([first] + rest) else None
      case _ => None
  }

  predicate IsNameChar(c: char) {
    'a' <= c <= 'z' || IsDigit(c) || c == '-'
  }

  predicate IsScope(s: string) {
    s != "" && s[0] != '-' && forall c :: c in s ==> IsNameChar(c)
  }

  predicate IsName(s: string) {
    s != "" && forall c :: c in s ==> IsNameChar(c)
  }

  predicate NoLineEnd(s: string) {
    '\n' !in s && '\r' !in s && '\U{2028}' !in s && '\U{2029}' !in s
  }

  /** A version, alone or with the marker's or the metadata's ending. */
  predicate IsVersionPiece(s: string) {
    || IsVersionText(s)
    || (EndsWith(s, ".ready.json") && IsVersionText(s[..|s| - 11]))
    || (EndsWith(s, "_meta.json") && IsVersionText(s[..|s| - 10]))
  }

  /** The key layout's regular expression, over the key's `/`-separated pieces. */
  predicate MatchesLayout(pieces: seq<string>) {
    && |pieces| >= 4
    && pieces[0] == "synthetic" && IsScope(pieces[1]) && IsName(pieces[2])
    && (if |pieces| == 4 then IsVersionPiece(pieces[3]) else IsVersionText(pieces[3]))
    && forall i :: 4 <= i < |pieces| ==> NoLineEnd(pieces[i])
  }

  function KeyOfSegments(segments: seq<string>): Option<string> {
    match DecodeSegments(segments)
    case None => None
    case Some(decoded) =>
      var key := Join(decoded, '/');
      if MatchesLayout(Split(key, '/')) then Some(key) else None
  }

  function ArtifactKey(pathname: string): Option<string> {
    var segments := Split(pathname, '/');
    if |segments| < 5 || segments[0] != "" || segments[1] != "synthetic" then None
    else KeyOfSegments(segments[1..])
  }

  // ----- keys survive ----------------------------------------------------------------------

  predicate IsKeyText(s: string) {
    forall c :: c in s ==> IsComponentChar(c)
  }

  lemma {:induction false} NotDots(segment: string)
    requires IsKeyText(segment) && segment != "" && segment[0] != '.'
    ensures Dots(segment) == None
  {
    assert segment[0] in segment;
    if |segment| >= 3 {
      assert Lower(segment[..3])[0] == LowerChar(segment[0]);
    }
  }

  lemma {:induction false} PlainIsNotDots(segment: string)
    requires IsKeyText(segment) && IsPlain(segment)
    ensures Dots(segment) != Some(1) && Dots(segment) != Some(2)
  {
    if segment[0] != '.' {
      NotDots(segment);
    } else if segment[1] != '.' {
      NotDots(segment[1..]);
    } else {
      var rest := segment[1..][1..];
      assert rest == segment[2..];
      if rest[0] != '.' {
        NotDots(rest);
      } else {
        var more := Dots(rest);
        assert more.None? || more.value >= 1;
        assert Dots(segment[1..]).None? || Dots(segment[1..]).value >= 2;
      }
    }
  }

  predicate IsKeyPiece(segment: string) {
    IsKeyText(segment) && IsPlain(segment)
  }

  lemma EncodeSegmentsCons(segments: seq<string>)
    requires segments != []
    ensures EncodeSegments(segments) == [EncodeSegment(segments[0])] + EncodeSegments(segments[1..])
  {
  }

  lemma {:induction false} WalkPlain(segments: seq<string>, path: seq<string>)
    requires forall i :: 0 <= i < |segments| ==> IsKeyPiece(segments[i])
    ensures Walk(segments, path) == path + EncodeSegments(segments)
  {
    if segments != [] {
      PlainIsNotDots(segments[0]);
      var longer := path + [EncodeSegment(segments[0])];
      WalkPlain(segments[1..], longer);
      EncodeSegmentsCons(segments);
      assert longer + EncodeSegments(segments[1..]) == path + EncodeSegments(segments);
    }
  }

  /** Decoding undoes the parser's escaping of the segments of any key without a percent sign. */
  lemma {:induction false} DecodeEncodedSegments(segments: seq<string>)
    requires forall i :: 0 <= i < |segments| ==> IsKeySegment(segments[i]) && '%' !in segments[i]
    ensures DecodeSegments(EncodeSegments(segments)) == Some(segments)
  {
    if segments != [] {
      var rest := segments[1..];
      EncodeSegmentBack(segments[0]);
      DecodeEncodedSegments(rest);
      EncodeSegmentsCons(segments);
      assert EncodeSegments(segments)[1..] == EncodeSegments(rest);
      assert [segments[0]] + rest == segments;
    }
  }

  lemma PieceIsSegment(segment: string)
    requires IsKeyPiece(segment)
    ensures IsKeySegment(segment) && '%' !in segment && '/' !in segment
  {
  }

  lemma EncodedSegmentsSplit(segments: seq<string>)
    requires |segments| >= 1
    requires forall i :: 0 <= i < |segments| ==> IsKeyPiece(segments[i])
    ensures Split("/" + Join(EncodeSegments(segments), '/'), '/') == [""] + EncodeSegments(segments)
  {
    var encoded := EncodeSegments(segments);
    var pieces := [""] + encoded;
    forall i | 0 <= i < |pieces|
      ensures '/' !in pieces[i]
    {
      if i > 0 {
        PieceIsSegment(segments[i - 1]);
        EncodedHasNoSlash(segments[i - 1]);
      }
    }
    SplitJoin(pieces, '/');
    assert pieces[1..] == encoded;
    assert Join(pieces, '/') == "" + ['/'] + Join(encoded, '/');
  }

  lemma {:induction false} JoinChars(pieces: seq<string>)
    requires forall i :: 0 <= i < |pieces| ==> IsKeyText(pieces[i])
    ensures forall c :: c in Join(pieces, '/') ==> IsComponentChar(c) || c == '/'
  {
    if |pieces| > 1 {
      JoinChars(pieces[1..]);
    }
  }

  lemma {:induction false} WithoutNothing(s: string, dropped: string)
    requires forall c :: c in s ==> c !in dropped
    ensures Without(s, dropped) == s
  {
    if s != "" {
      assert s[0] in s;
      WithoutNothing(s[1..], dropped);
      assert [s[0]] + s[1..] == s;
    }
  }

  predicate IsClean(c: char) {
    c > ' ' && c != '?' && c != '#' && c != '\\'
  }

  lemma KeyCharIsClean(c: char)
    requires IsComponentChar(c) || c == '/'
    ensures IsClean(c)
  {
  }

  lemma CleanText(key: string)
    requires forall c :: c in key ==> IsClean(c)
    ensures PathText(key) == key
  {
    if key != "" {
      assert key[|key| - 1] in key;
    }
    WithoutNothing(key, "\t\n\r");
    NoSeparator(key, '?');
    assert key[..|key|] == key;
    NoSeparator(key, '#');
    ForwardNothing(key);
  }

  lemma ForwardNothing(s: string)
    requires '\\' !in s
    ensures Forward(s) == s
  {
    assert forall i :: 0 <= i < |s| ==> s[i] in s;
  }

  /** A key of plain pieces is its own URL path, up to the escapes. */
  lemma PathnameOfPieces(pieces: seq<string>)
    requires |pieces| >= 1
    requires forall i :: 0 <= i < |pieces| ==> IsKeyPiece(pieces[i])
    ensures Pathname(Join(pieces, '/')) == "/" + Join(EncodeSegments(pieces), '/')
  {
    JoinChars(pieces);
    forall c | c in Join(pieces, '/')
      ensures IsClean(c)
    {
      KeyCharIsClean(c);
    }
    CleanText(Join(pieces, '/'));
    SplitPieces(pieces);
    WalkPlain(pieces, []);
    assert [] + EncodeSegments(pieces) == EncodeSegments(pieces);
  }

  lemma SplitPieces(pieces: seq<string>)
    requires |pieces| >= 1
    requires forall i :: 0 <= i < |pieces| ==> IsKeyPiece(pieces[i])
    ensures Split(Join(pieces, '/'), '/') == pieces
  {
    SplitJoin(pieces, '/');
  }

  lemma KeyOfEncoded(pieces: seq<string>)
    requires MatchesLayout(pieces)
    requires forall i :: 0 <= i < |pieces| ==> IsKeyPiece(pieces[i])
    ensures KeyOfSegments(EncodeSegments(pieces)) == Some(Join(pieces, '/'))
  {
    forall i | 0 <= i < |pieces|
      ensures IsKeySegment(pieces[i]) && '%' !in pieces[i]
    {
      PieceIsSegment(pieces[i]);
    }
    DecodeEncodedSegments(pieces);
    SplitPieces(pieces);
  }

  /** A key of plain pieces in the layout reaches the store unchanged. */
  lemma PiecesSurvive(pieces: seq<string>)
    requires MatchesLayout(pieces)
    requires forall i :: 0 <= i < |pieces| ==> IsKeyPiece(pieces[i])
    ensures ArtifactKey(Pathname(Join(pieces, '/'))) == Some(Join(pieces, '/'))
  {
    PathnameOfPieces(pieces);
    EncodedSegmentsSplit(pieces);
    KeyOfEncoded(pieces);
    SyntheticIsPlain();
    var segments := [""] + EncodeSegments(pieces);
    assert segments[1..] == EncodeSegments(pieces);
    assert segments[1] == EncodeSegment(pieces[0]);
  }

  lemma SyntheticIsPlain()
    ensures EncodeSegment("synthetic") == "synthetic"
  {
    PlainText("synthetic");
  }

  lemma {:induction false} PlainText(s: string)
    requires forall c :: c in s ==> !InPathEncodeSet(c)
    ensures EncodeSegment(s) == s
  {
    if s != "" {
      assert s[0] in s;
      PlainText(s[1..]);
      assert [s[0]] + s[1..] == s;
    }
  }

  // ----- other URL paths -------------------------------------------------------------------

  lemma {:induction false} WalkSplit(before: seq<string>, after: seq<string>, path: seq<string>)
    requires after != [] && forall i :: 0 <= i < |before| ==> IsKeyPiece(before[i])
    ensures Walk(before + after, path) == Walk(after, path + EncodeSegments(before))
    decreases |before|
  {
    if before == [] {
      assert before + after == after && path + EncodeSegments(before) == path;
    } else {
      var longer := path + [EncodeSegment(before[0])];
      PlainIsNotDots(before[0]);
      assert (before + after)[1..] == before[1..] + after;
      WalkSplit(before[1..], after, longer);
      EncodeSegmentsCons(before);
      assert longer + EncodeSegments(before[1..]) == path + EncodeSegments(before);
    }
  }

  lemma WalkPopped(piece: string, dots: string, after: seq<string>, path: seq<string>)
    requires IsKeyPiece(piece) && Dots(dots) == Some(2) && after != []
    ensures Walk([piece, dots] + after, path) == Walk(after, path)
  {
    PlainIsNotDots(piece);
    var longer := path + [EncodeSegment(piece)];
    assert ([piece, dots] + after)[1..] == [dots] + after && ([dots] + after)[1..] == after;
    assert longer[..|longer| - 1] + [] == path;
  }

  /** Two dots take back the segment before them. */
  lemma WalkClimbs(before: seq<string>, piece: string, dots: string, after: seq<string>)
    requires forall i :: 0 <= i < |before| ==> IsKeyPiece(before[i])
    requires IsKeyPiece(piece) && Dots(dots) == Some(2) && after != []
    ensures Walk(before + ([piece, dots] + after), []) == Walk(before + after, [])
  {
    WalkSplit(before, [piece, dots] + after, []);
    WalkPopped(piece, dots, after, [] + EncodeSegments(before));
    WalkSplit(before, after, []);
  }

  /** Dots may be spelt plainly or with escapes. */
  lemma TwoDots()
    ensures Dots("..") == Some(2) && Dots("%2e.") == Some(2) && Dots(".%2E") == Some(2) && Dots("%2e%2E") == Some(2)
    ensures Dots(".") == Some(1) && Dots("%2e") == Some(1)
  {
    assert ".."[1..] == "." && "."[1..] == "";
  }

  // ----- every key of a publication survives -----------------------------------------------

  /** A job whose names the proxy accepts and whose version the registry allocated. */
  predicate IsProxyable(job: MaterializationJob) {
    IsScope(job.package.scope) && IsName(job.package.name) && IsVersionText(job.version)
  }

  lemma ProxyableHasNoSlash(job: MaterializationJob)
    requires IsProxyable(job)
    ensures ProxyableJob(job)
  {
  }

  function KeyPieces(job: MaterializationJob, versioned: string, rest: seq<string>): seq<string> {
    ["synthetic", job.package.scope, job.package.name, versioned] + rest
  }

  lemma JoinCons(piece: string, rest: seq<string>)
    requires |rest| >= 1
    ensures Join([piece] + rest, '/') == piece + "/" + Join(rest, '/')
  {
    assert ([piece] + rest)[1..] == rest;
  }

  lemma JoinKeyPieces(job: MaterializationJob, versioned: string, rest: seq<string>)
    ensures Join(KeyPieces(job, versioned, rest), '/')
         == "synthetic/" + (job.package.scope + "/" + (job.package.name + "/" + Join([versioned] + rest, '/')))
  {
    var tail := [versioned] + rest;
    JoinCons(job.package.name, tail);
    JoinCons(job.package.scope, [job.package.name] + tail);
    JoinCons("synthetic", [job.package.scope] + ([job.package.name] + tail));
    assert KeyPieces(job, versioned, rest)
        == ["synthetic"] + ([job.package.scope] + ([job.package.name] + tail));
  }

  lemma NamePieces(job: MaterializationJob)
    requires IsProxyable(job)
    ensures IsKeyPiece("synthetic") && IsKeyPiece(job.package.scope) && IsKeyPiece(job.package.name)
  {
    assert job.package.scope[0] in job.package.scope;
    assert job.package.name[0] in job.package.name;
  }

  lemma VersionedPiece(version: string, ending: string)
    requires IsVersionText(version) && IsKeyText(ending)
    ensures IsKeyPiece(version + ending)
  {
    VersionTextChars(version);
    var s := version + ending;
    assert s[|version| - 1] == version[|version| - 1];
  }

  lemma ComponentPiece(component: string)
    requires ValidComponent(component)
    ensures IsKeyPiece(component) && NoLineEnd(component)
  {
  }

  lemma FileKeySurvives(job: MaterializationJob, path: string)
    requires IsProxyable(job) && IsPackagePath(path)
    ensures ArtifactKey(Pathname(FileKey(job, path))) == Some(FileKey(job, path))
  {
    var components := Split(path, '/');
    var pieces := KeyPieces(job, job.version, components);
    NamePieces(job);
    VersionedPiece(job.version, "");
    assert job.version + "" == job.version;
    forall i | 0 <= i < |components|
      ensures IsKeyPiece(components[i]) && NoLineEnd(components[i])
    {
      ComponentPiece(components[i]);
    }
    PiecesSurvive(pieces);
    FileKeyJoins(job, path);
  }

  lemma FileKeyJoins(job: MaterializationJob, path: string)
    ensures FileKey(job, path) == Join(KeyPieces(job, job.version, Split(path, '/')), '/')
  {
    JoinKeyPieces(job, job.version, Split(path, '/'));
    JoinCons(job.version, Split(path, '/'));
    JoinSplit(path, '/');
    RegroupKey(job, "/" + path);
    assert PackageKeyPrefix(job) + "/" + path == PackageKeyPrefix(job) + ("/" + path);
    assert job.version + "/" + path == job.version + ("/" + path);
  }

  lemma RegroupKey(job: MaterializationJob, ending: string)
    ensures PackageKeyPrefix(job) + ending
         == "synthetic/" + (job.package.scope + "/" + (job.package.name + "/" + (job.version + ending)))
  {
    Regroup(job.package.scope, job.package.name, job.version, ending);
  }

  lemma EndingPiece(version: string, ending: string)
    requires IsVersionText(version) && (ending == "_meta.json" || ending == ".ready.json")
    ensures IsKeyPiece(version + ending) && IsVersionPiece(version + ending)
  {
    var versioned := version + ending;
    EndingText();
    VersionedPiece(version, ending);
    assert versioned[..|version|] == version && versioned[|version|..] == ending;
  }

  lemma EndingText()
    ensures IsKeyText("_meta.json") && IsKeyText(".ready.json")
  {
  }

  lemma EndingKeySurvives(job: MaterializationJob, ending: string)
    requires IsProxyable(job) && (ending == "_meta.json" || ending == ".ready.json")
    ensures ArtifactKey(Pathname(PackageKeyPrefix(job) + ending)) == Some(PackageKeyPrefix(job) + ending)
  {
    var versioned := job.version + ending;
    NamePieces(job);
    EndingPiece(job.version, ending);
    PiecesSurvive(KeyPieces(job, versioned, []));
    JoinKeyPieces(job, versioned, []);
    assert [versioned] + [] == [versioned];
    RegroupKey(job, ending);
  }

  /** Every key a proxyable publication uploads is the key the store sees. */
  lemma BatchKeySurvives(host: Host, job: MaterializationJob, files: seq<ArtifactFile>, exports: map<string, string>,
                         i: nat)
    requires IsProxyable(job) && i < |files| + 2
    requires forall k :: 0 <= k < |files| ==> IsPackagePath(files[k].path)
    ensures var key := Batch(host, job, files, exports)[i].key; ArtifactKey(Pathname(key)) == Some(key)
  {
    BatchKey(host, job, files, exports, i);
    if i < |files| {
      FileKeySurvives(job, files[i].path);
    } else {
      EndingKeySurvives(job, Suffix(files, i));
    }
  }
}
