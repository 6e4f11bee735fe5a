/**
 * Reading a source archive and checking a package's files (materializer/src/service.rs).
 *
 * A `BTreeMap` of files is its entries in order of path. Decompression and the tar format are
 * below this model: an archive is the list of entries its reader yields.
 */
module SourceArchive {
  import opened Common
  import opened Text
  import opened Publication
  import opened PackagePaths
  import ImportRewrite

  // ----- maps of files ---------------------------------------------------------------------

  function Lookup(files: seq<ArtifactFile>, path: string): Option<Bytes> {
    if files == [] then None
    else if files[0].path == path then Some(files[0].bytes)
    else Lookup(files[1..], path)
  }

  predicate Has(files: seq<ArtifactFile>, path: string) {
    Lookup(files, path).Some?
  }

  /** `insert`: replaces the file at the path, or goes before the first greater path. */
  function Insert(files: seq<ArtifactFile>, f: ArtifactFile): seq<ArtifactFile> {
    if files == [] then [f]
    else if files[0].path == f.path then [f] + files[1..]
    else if !Has(files, f.path) && ImportRewrite.Before(f.path, files[0].path) then [f] + files
    else [files[0]] + Insert(files[1..], f)
  }

  function Remove(files: seq<ArtifactFile>, path: string): seq<ArtifactFile> {
    if files == [] then []
    else (if files[0].path == path then [] else [files[0]]) + Remove(files[1..], path)
  }

  lemma {:induction false} LookupInsert(files: seq<ArtifactFile>, f: ArtifactFile, path: string)
    ensures Lookup(Insert(files, f), path) == if path == f.path then Some(f.bytes) else Lookup(files, path)
  {
    if files != [] {
      var inserted := Insert(files, f);
      if files[0].path == f.path {
        assert inserted[1..] == files[1..];
      } else if !Has(files, f.path) && ImportRewrite.Before(f.path, files[0].path) {
        assert inserted[1..] == files;
      } else {
        assert inserted[1..] == Insert(files[1..], f);
        LookupInsert(files[1..], f, path);
      }
    }
  }

  lemma {:induction false} LookupRemove(files: seq<ArtifactFile>, gone: string, path: string)
    ensures Lookup(Remove(files, gone), path) == if path == gone then None else Lookup(files, path)
  {
    if files != [] {
      LookupRemove(files[1..], gone, path);
      if files[0].path != gone {
        assert Remove(files, gone)[1..] == Remove(files[1..], gone);
      } else {
        assert Remove(files, gone) == Remove(files[1..], gone);
      }
    }
  }

  lemma {:induction false} HasIsPath(files: seq<ArtifactFile>, path: string)
    ensures Has(files, path) <==> path in Paths(files)
  {
    if files != [] {
      HasIsPath(files[1..], path);
      assert Paths(files) == [files[0].path] + Paths(files[1..]);
    }
  }

  // ----- failures --------------------------------------------------------------------------

  datatype Export = Export(key: string, target: string)

  datatype SourceFailure = SourceFailure(failureClass: string, message: string, exports: Option<seq<Export>>)

  datatype Attempt<T> = Done(value: T) | Failed(failure: SourceFailure)

  function Invalid(message: string): SourceFailure {
    SourceFailure("invalid-source-archive", message, None)
  }

  const MAX_SOURCE_FILE_BYTES: nat := 20 * 1024 * 1024
  const MAX_TOTAL_SOURCE_BYTES: nat := 20 * 1024 * 1024

  // ----- unpacking -------------------------------------------------------------------------

  datatype EntryKind = RegularFile | Directory | Link

  /** A path that is not UTF-8, an unreadable size and unreadable contents are each `None`. */
  datatype ArchiveEntry =
    | Unreadable
    | Entry(path: Option<string>, kind: EntryKind, size: Option<nat>, contents: Option<Bytes>)

  datatype Unpacking = Unpacking(files: seq<ArtifactFile>, root: Option<string>, folded: map<string, string>, total: nat)

  const EMPTY: Unpacking := Unpacking([], None, map[], 0)

  function TrimSlashes(s: string): string {
    if s != "" && s[|s| - 1] == '/' then TrimSlashes(s[..|s| - 1]) else s
  }

  function PathFailure(path: string): SourceFailure {
    Invalid("source path is outside the accepted JSR publishing subset: " + path)
  }

  /** What the path of an entry says: the root it names and the path below it, if any. */
  datatype Located = Located(root: string, below: seq<string>) | Misplaced(failure: SourceFailure)

  function Locate(path: Option<string>, root: Option<string>): Located {
    if path.None? then Misplaced(Invalid("GitHub returned a source path that is not UTF-8"))
    else
      var parts := Split(TrimSlashes(path.value), '/');
      if parts[0] == "" then Misplaced(Invalid("GitHub returned a source path without an archive root"))
      else if parts[0] == "." || parts[0] == ".." then Misplaced(Invalid("GitHub returned an unsafe archive root"))
      else if root.Some? && root.value != parts[0] then
        Misplaced(Invalid("GitHub returned source files from multiple archive roots"))
      else Located(parts[0], parts[1..])
  }

  /** Adding a regular file's contents, once its path is accepted. */
  function AddFile(u: Unpacking, path: string, size: Option<nat>, contents: Option<Bytes>): Attempt<Unpacking> {
    if size.None? then Failed(Invalid("GitHub returned an unreadable source file header"))
    else if size.value > MAX_SOURCE_FILE_BYTES then
      Failed(SourceFailure("source-file-too-large", "a source file exceeds the materializer limit", None))
    else if u.total + size.value > MAX_TOTAL_SOURCE_BYTES then
      Failed(SourceFailure("source-package-too-large", "the source package exceeds the materializer limit", None))
    else if contents.None? then Failed(Invalid("GitHub returned an unreadable source file"))
    else if |contents.value| != size.value then Failed(Invalid("GitHub returned a truncated source file"))
    else if Lower(path) in u.folded then
      Failed(Invalid("GitHub returned case-insensitive duplicate source paths: " + u.folded[Lower(path)] + " and " + path))
    else if Has(u.files, path) then Failed(Invalid("GitHub returned duplicate source paths"))
    else
      Done(Unpacking(Insert(u.files, ArtifactFile(path, contents.value)), u.root, u.folded[Lower(path) := path],
                     u.total + size.value))
  }

  /** An entry at `below` its root. */
  function AddBelow(u: Unpacking, below: seq<string>, e: ArchiveEntry): Attempt<Unpacking>
    requires e.Entry?
  {
    var path := Join(below, '/');
    if below == [] then
      if e.kind == RegularFile then Failed(Invalid("GitHub returned a source file at the archive root")) else Done(u)
    else if exists i :: 0 <= i < |below| && !IsPlain(below[i]) then
      Failed(Invalid("GitHub returned an unsafe source path"))
    else if !IsPackagePath(path) then Failed(PathFailure(path))
    else if e.kind == Directory then Done(u)
    else if e.kind != RegularFile then
      Failed(Invalid("GitHub returned a source archive containing a link or unsupported entry"))
    else AddFile(u, path, e.size, e.contents)
  }

  /** One pass of the unpacking loop. */
  function AddEntry(u: Unpacking, e: ArchiveEntry): Attempt<Unpacking> {
    if e.Unreadable? then Failed(Invalid("GitHub returned an unreadable source archive"))
    else
      match Locate(e.path, u.root)
      case Misplaced(failure) => Failed(failure)
      case Located(root, below) => AddBelow(u.(root := Some(root)), below, e)
  }

  function AddEntries(u: Unpacking, entries: seq<ArchiveEntry>): Attempt<Unpacking>
    decreases |entries|
  {
    if entries == [] then Done(u)
    else
      match AddEntry(u, entries[0])
      case Failed(failure) => Failed(failure)
      case Done(next) => AddEntries(next, entries[1..])
  }

  /** `None` is an archive whose entries cannot be listed at all. */
  function Unpack(archive: Option<seq<ArchiveEntry>>): Attempt<seq<ArtifactFile>> {
    match archive
    case None => Failed(Invalid("GitHub returned an unreadable source archive"))
    case Some(entries) =>
      match AddEntries(EMPTY, entries)
      case Failed(failure) => Failed(failure)
      case Done(u) => Done(u.files)
  }

  method UnpackArchive(archive: Option<seq<ArchiveEntry>>) returns (r: Attempt<seq<ArtifactFile>>)
    ensures r == Unpack(archive)
  {
    if archive.None? {
      return Failed(Invalid("GitHub returned an unreadable source archive"));
    }
    var entries := archive.value;
    var u := EMPTY;
    for i := 0 to |entries|
      invariant AddEntries(EMPTY, entries) == AddEntries(u, entries[i..])
    {
      var rest := entries[i..];
      assert rest[0] == entries[i] && rest[1..] == entries[i + 1..];
      var added := AddEntry(u, entries[i]);
      if added.Failed? {
        return Failed(added.failure);
      }
      u := added.value;
    }
    r := Done(u.files);
  }

  // ----- why an archive is refused ---------------------------------------------------------

  /** Slashes at the end of a path do not count. */
  lemma TrimmedPath(path: string)
    ensures TrimSlashes(path + "/") == TrimSlashes(path)
    ensures path == "" || path[|path| - 1] != '/' ==> TrimSlashes(path) == path
  {
    assert (path + "/")[..|path|] == path;
  }

  ghost predicate IsInvalid(failure: SourceFailure) {
    failure.failureClass == "invalid-source-archive" && failure.exports == None
  }

  lemma InvalidIs(message: string)
    ensures IsInvalid(Invalid(message))
  {
  }

  /** A file that is neither too large itself nor with those before it is refused as invalid. */
  lemma FileRefused(u: Unpacking, path: string, size: Option<nat>, contents: Option<Bytes>)
    requires AddFile(u, path, size, contents).Failed?
    requires size.Some? ==> size.value <= 20 * 1024 * 1024 && u.total + size.value <= 20 * 1024 * 1024
    ensures IsInvalid(AddFile(u, path, size, contents).failure)
  {
    var failure := AddFile(u, path, size, contents).failure;
    assert failure == Invalid(failure.message);
    InvalidIs(failure.message);
  }

  lemma FileTooLarge(u: Unpacking, path: string, size: nat, contents: Option<Bytes>)
    ensures size > 20 * 1024 * 1024 ==>
              AddFile(u, path, Some(size), contents)
              == Failed(SourceFailure("source-file-too-large", "a source file exceeds the materializer limit", None))
    ensures size <= 20 * 1024 * 1024 && u.total + size > 20 * 1024 * 1024 ==>
              AddFile(u, path, Some(size), contents)
              == Failed(SourceFailure("source-package-too-large", "the source package exceeds the materializer limit", None))
  {
  }

  /** Whatever else an entry is refused for, it is as invalid; its exports are not known. */
  lemma BelowRefused(u: Unpacking, below: seq<string>, e: ArchiveEntry)
    requires e.Entry? && AddBelow(u, below, e).Failed?
    ensures || IsInvalid(AddBelow(u, below, e).failure)
            || (e.kind == RegularFile && AddBelow(u, below, e) == AddFile(u, Join(below, '/'), e.size, e.contents))
  {
    if below == [] {
      InvalidIs("GitHub returned a source file at the archive root");
    } else if exists i :: 0 <= i < |below| && !IsPlain(below[i]) {
      InvalidIs("GitHub returned an unsafe source path");
    } else if !IsPackagePath(Join(below, '/')) {
      assert AddBelow(u, below, e).failure == PathFailure(Join(below, '/'));
    } else if e.kind != RegularFile {
      InvalidIs("GitHub returned a source archive containing a link or unsupported entry");
    }
  }

  lemma MisplacedIsInvalid(path: Option<string>, root: Option<string>)
    requires Locate(path, root).Misplaced?
    ensures IsInvalid(Locate(path, root).failure)
  {
    var failure := Locate(path, root).failure;
    assert failure == Invalid(failure.message);
    InvalidIs(failure.message);
  }

  /** An archive failure: invalid, a file too large, or all of them. */
  ghost predicate IsArchiveFailure(failure: SourceFailure) {
    || IsInvalid(failure)
    || failure == SourceFailure("source-file-too-large", "a source file exceeds the materializer limit", None)
    || failure == SourceFailure("source-package-too-large", "the source package exceeds the materializer limit", None)
  }

  lemma FileFailure(u: Unpacking, path: string, size: Option<nat>, contents: Option<Bytes>)
    requires AddFile(u, path, size, contents).Failed?
    ensures IsArchiveFailure(AddFile(u, path, size, contents).failure)
  {
    if size.Some? && (size.value > 20 * 1024 * 1024 || u.total + size.value > 20 * 1024 * 1024) {
      FileTooLarge(u, path, size.value, contents);
    } else {
      FileRefused(u, path, size, contents);
    }
  }

  lemma EntryRefused(u: Unpacking, e: ArchiveEntry)
    requires AddEntry(u, e).Failed?
    ensures IsArchiveFailure(AddEntry(u, e).failure)
    ensures !(e.Entry? && e.kind == RegularFile) ==> IsInvalid(AddEntry(u, e).failure)
  {
    if e.Unreadable? {
      InvalidIs("GitHub returned an unreadable source archive");
    } else {
      match Locate(e.path, u.root)
      case Misplaced(_) => MisplacedIsInvalid(e.path, u.root);
      case Located(root, below) =>
        var rooted := u.(root := Some(root));
        BelowRefused(rooted, below, e);
        if AddBelow(rooted, below, e) == AddFile(rooted, Join(below, '/'), e.size, e.contents) {
          FileFailure(rooted, Join(below, '/'), e.size, e.contents);
        }
    }
  }

  lemma {:induction false} EntriesRefused(u: Unpacking, entries: seq<ArchiveEntry>)
    requires AddEntries(u, entries).Failed?
    ensures IsArchiveFailure(AddEntries(u, entries).failure)
    decreases |entries|
  {
    if AddEntry(u, entries[0]).Failed? {
      EntryRefused(u, entries[0]);
    } else {
      EntriesRefused(AddEntry(u, entries[0]).value, entries[1..]);
    }
  }

  /** An archive is refused as invalid or as too large, and its exports are never known then. */
  lemma ArchiveRefused(archive: Option<seq<ArchiveEntry>>)
    requires Unpack(archive).Failed?
    ensures IsArchiveFailure(Unpack(archive).failure)
    ensures archive == None ==> Unpack(archive).failure.message == "GitHub returned an unreadable source archive"
  {
    if archive.Some? {
      EntriesRefused(EMPTY, archive.value);
    } else {
      InvalidIs("GitHub returned an unreadable source archive");
    }
  }

  // ----- what unpacking yields -------------------------------------------------------------

  /** The path of an entry below its root. */
  function RelativePath(e: ArchiveEntry): Option<string> {
    if e.Entry? && e.path.Some? then Some(Join(Split(TrimSlashes(e.path.value), '/')[1..], '/')) else None
  }

  ghost predicate FileEntry(e: ArchiveEntry, path: string, bytes: Bytes) {
    e.Entry? && e.kind == RegularFile && RelativePath(e) == Some(path) && e.contents == Some(bytes)
  }

  ghost predicate HasFileEntry(entries: seq<ArchiveEntry>, path: string, bytes: Bytes) {
    exists i :: 0 <= i < |entries| && FileEntry(entries[i], path, bytes)
  }

  lemma AddFileContents(u: Unpacking, at: string, size: Option<nat>, contents: Option<Bytes>, path: string, bytes: Bytes)
    requires AddFile(u, at, size, contents).Done?
    ensures Lookup(AddFile(u, at, size, contents).value.files, path) == Some(bytes) <==>
            (Lookup(u.files, path) == Some(bytes) || (path == at && contents == Some(bytes)))
  {
    LookupInsert(u.files, ArtifactFile(at, contents.value), path);
  }

  lemma AddBelowFile(u: Unpacking, below: seq<string>, e: ArchiveEntry, path: string, bytes: Bytes)
    requires e.Entry? && AddBelow(u, below, e).Done?
    ensures Lookup(AddBelow(u, below, e).value.files, path) == Some(bytes) <==>
            (Lookup(u.files, path) == Some(bytes)
             || (e.kind == RegularFile && path == Join(below, '/') && e.contents == Some(bytes)))
  {
    if e.kind == RegularFile {
      AddFileContents(u, Join(below, '/'), e.size, e.contents, path, bytes);
    }
  }

  lemma AddEntryFile(u: Unpacking, e: ArchiveEntry, path: string, bytes: Bytes)
    requires AddEntry(u, e).Done?
    ensures Lookup(AddEntry(u, e).value.files, path) == Some(bytes) <==>
            (Lookup(u.files, path) == Some(bytes) || FileEntry(e, path, bytes))
  {
    var parts := Split(TrimSlashes(e.path.value), '/');
    AddBelowFile(u.(root := Some(parts[0])), parts[1..], e, path, bytes);
  }

  lemma {:induction false} AddEntriesFiles(u: Unpacking, entries: seq<ArchiveEntry>, path: string, bytes: Bytes)
    requires AddEntries(u, entries).Done?
    ensures Lookup(AddEntries(u, entries).value.files, path) == Some(bytes) <==>
            (Lookup(u.files, path) == Some(bytes) || HasFileEntry(entries, path, bytes))
    decreases |entries|
  {
    if entries != [] {
      var rest := entries[1..];
      AddEntryFile(u, entries[0], path, bytes);
      AddEntriesFiles(AddEntry(u, entries[0]).value, rest, path, bytes);
      assert forall i :: 0 <= i < |rest| ==> rest[i] == entries[i + 1];
      assert forall i :: 0 < i < |entries| ==> entries[i] == rest[i - 1];
    }
  }

  /** An accepted archive unpacks to exactly its regular files, each below the one root. */
  lemma UnpackedFilesAreEntries(entries: seq<ArchiveEntry>, path: string, bytes: Bytes)
    requires Unpack(Some(entries)).Done?
    ensures Lookup(Unpack(Some(entries)).value, path) == Some(bytes) <==> HasFileEntry(entries, path, bytes)
  {
    AddEntriesFiles(EMPTY, entries, path, bytes);
  }

  // ----- which archives are accepted -------------------------------------------------------

  function Parts(e: ArchiveEntry): (r: seq<string>)
    requires e.Entry? && e.path.Some?
    ensures |r| >= 1
  {
    Split(TrimSlashes(e.path.value), '/')
  }

  predicate IsFile(e: ArchiveEntry) {
    e.Entry? && e.kind == RegularFile
  }

  /** Size and contents agree and are within the limit of one file. */
  predicate WholeFile(e: ArchiveEntry) {
    && e.Entry? && e.size.Some? && e.contents.Some?
    && e.size.value == |e.contents.value| <= MAX_SOURCE_FILE_BYTES
  }

  /** Plain components that make a portable path, for an entry that is no link. */
  predicate PlacedBelow(below: seq<string>, e: ArchiveEntry)
    requires e.Entry?
  {
    (forall i :: 0 <= i < |below| ==> IsPlain(below[i])) && IsPackagePath(Join(below, '/')) && e.kind != Link
  }

  /** No file at the root itself; below it, directories and whole files. */
  predicate BelowRoot(below: seq<string>, e: ArchiveEntry)
    requires e.Entry?
  {
    if below == [] then e.kind != RegularFile
    else PlacedBelow(below, e) && (e.kind == RegularFile ==> WholeFile(e))
  }

  predicate WellPlaced(e: ArchiveEntry, root: string) {
    && e.Entry? && e.path.Some?
    && IsPlain(root) && Parts(e)[0] == root
    && BelowRoot(Parts(e)[1..], e)
  }

  function Below(e: ArchiveEntry): string {
    if RelativePath(e).Some? then RelativePath(e).value else ""
  }

  function FoldedPath(e: ArchiveEntry): string {
    Lower(Below(e))
  }

  function FileBytes(entries: seq<ArchiveEntry>): nat {
    if entries == [] then 0
    else (if WholeFile(entries[0]) && IsFile(entries[0]) then entries[0].size.value else 0) + FileBytes(entries[1..])
  }

  ghost predicate AllWellPlaced(entries: seq<ArchiveEntry>, root: string) {
    forall i :: 0 <= i < |entries| ==> WellPlaced(entries[i], root)
  }

  /** Files differ from each other, and from those seen before, even without regard to case. */
  ghost predicate FilesApart(entries: seq<ArchiveEntry>, seen: set<string>) {
    && (forall i :: 0 <= i < |entries| && IsFile(entries[i]) ==> FoldedPath(entries[i]) !in seen)
    && (forall i, j :: 0 <= i < j < |entries| && IsFile(entries[i]) && IsFile(entries[j]) ==>
                         FoldedPath(entries[i]) != FoldedPath(entries[j]))
  }

  /** Every file unpacked so far is remembered by its folded path. */
  ghost predicate Remembered(u: Unpacking) {
    forall path :: Has(u.files, path) ==> Lower(path) in u.folded
  }

  function RootFor(u: Unpacking, entries: seq<ArchiveEntry>): string {
    if u.root.Some? then u.root.value
    else if entries != [] && entries[0].Entry? && entries[0].path.Some? then Parts(entries[0])[0]
    else ""
  }

  lemma AddFileExact(u: Unpacking, e: ArchiveEntry, path: string)
    requires e.Entry? && Remembered(u)
    ensures AddFile(u, path, e.size, e.contents).Done? <==>
            (WholeFile(e) && u.total + e.size.value <= MAX_TOTAL_SOURCE_BYTES && Lower(path) !in u.folded)
    ensures AddFile(u, path, e.size, e.contents).Done? ==>
              Remembered(AddFile(u, path, e.size, e.contents).value)
  {
    if AddFile(u, path, e.size, e.contents).Done? {
      var next := AddFile(u, path, e.size, e.contents).value;
      forall p | Has(next.files, p)
        ensures Lower(p) in next.folded
      {
        LookupInsert(u.files, ArtifactFile(path, e.contents.value), p);
      }
    }
  }

  lemma LocateExact(u: Unpacking, e: ArchiveEntry)
    requires e.Entry?
    ensures Locate(e.path, u.root).Located? <==>
            (e.path.Some? && IsPlain(Parts(e)[0]) && Parts(e)[0] == RootFor(u, [e]))
    ensures Locate(e.path, u.root).Located? ==>
              Locate(e.path, u.root) == Located(RootFor(u, [e]), Parts(e)[1..])
  {
  }

  ghost predicate FileFits(u: Unpacking, e: ArchiveEntry, path: string) {
    IsFile(e) && e.size.Some? ==> u.total + e.size.value <= MAX_TOTAL_SOURCE_BYTES && Lower(path) !in u.folded
  }

  lemma AddBelowCases(u: Unpacking, below: seq<string>, e: ArchiveEntry)
    requires e.Entry?
    ensures below == [] ==> (AddBelow(u, below, e) == Done(u) <==> e.kind != RegularFile)
    ensures below == [] && e.kind == RegularFile ==> AddBelow(u, below, e).Failed?
    ensures below != [] && !PlacedBelow(below, e) ==> AddBelow(u, below, e).Failed?
    ensures below != [] && PlacedBelow(below, e) ==>
              AddBelow(u, below, e)
              == if e.kind == Directory then Done(u) else AddFile(u, Join(below, '/'), e.size, e.contents)
  {
  }

  lemma AddBelowExact(u: Unpacking, below: seq<string>, e: ArchiveEntry)
    requires Remembered(u) && e.Entry?
    ensures AddBelow(u, below, e).Done? <==> BelowRoot(below, e) && FileFits(u, e, Join(below, '/'))
  {
    AddBelowCases(u, below, e);
    if below != [] {
      if PlacedBelow(below, e) {
        PlacedExact(u, below, e);
      }
    }
  }

  lemma PlacedExact(u: Unpacking, below: seq<string>, e: ArchiveEntry)
    requires Remembered(u) && e.Entry? && below != [] && PlacedBelow(below, e)
    ensures AddBelow(u, below, e).Done? <==> (IsFile(e) ==> WholeFile(e)) && FileFits(u, e, Join(below, '/'))
  {
    AddBelowCases(u, below, e);
    AddFileExact(u, e, Join(below, '/'));
  }

  lemma AddBelowEffect(u: Unpacking, below: seq<string>, e: ArchiveEntry)
    requires Remembered(u) && e.Entry? && AddBelow(u, below, e).Done?
    ensures var next := AddBelow(u, below, e).value;
            && next.root == u.root && Remembered(next)
            && next.folded.Keys == (if IsFile(e) then u.folded.Keys + {Lower(Join(below, '/'))} else u.folded.Keys)
            && next.total == u.total + FileBytes([e])
  {
    AddBelowCases(u, below, e);
    OneFileBytes(e);
    if IsFile(e) {
      AddFileExact(u, e, Join(below, '/'));
      assert AddBelow(u, below, e) == AddFile(u, Join(below, '/'), e.size, e.contents);
    } else {
      assert AddBelow(u, below, e) == Done(u);
    }
  }

  lemma OneFileBytes(e: ArchiveEntry)
    ensures FileBytes([e]) == if WholeFile(e) && IsFile(e) then e.size.value else 0
  {
    assert [e][1..] == [];
  }

  /** One entry is accepted exactly when it is well placed under the root and its file is new and fits. */
  lemma AddEntryExact(u: Unpacking, e: ArchiveEntry)
    requires Remembered(u)
    ensures AddEntry(u, e).Done? <==> WellPlaced(e, RootFor(u, [e])) && FileFits(u, e, Below(e))
  {
    if e.Entry? && e.path.Some? {
      LocateExact(u, e);
      var rooted := u.(root := Some(RootFor(u, [e])));
      assert Remembered(rooted);
      AddBelowExact(rooted, Parts(e)[1..], e);
    }
  }

  lemma AddEntryEffect(u: Unpacking, e: ArchiveEntry)
    requires Remembered(u) && AddEntry(u, e).Done?
    ensures var next := AddEntry(u, e).value;
            && next.root == Some(RootFor(u, [e])) && Remembered(next)
            && next.folded.Keys == (if IsFile(e) then u.folded.Keys + {FoldedPath(e)} else u.folded.Keys)
            && next.total == u.total + FileBytes([e])
  {
    LocateExact(u, e);
    var rooted := u.(root := Some(RootFor(u, [e])));
    assert Remembered(rooted);
    AddBelowEffect(rooted, Parts(e)[1..], e);
  }

  lemma ConsApart(entries: seq<ArchiveEntry>, seen: set<string>)
    requires entries != []
    ensures FilesApart(entries, seen) <==>
            ((IsFile(entries[0]) ==> FoldedPath(entries[0]) !in seen)
             && FilesApart(entries[1..], if IsFile(entries[0]) then seen + {FoldedPath(entries[0])} else seen))
  {
    var rest := entries[1..];
    assert forall i :: 0 <= i < |rest| ==> rest[i] == entries[i + 1];
    assert forall i :: 0 < i < |entries| ==> entries[i] == rest[i - 1];
  }

  lemma ConsWellPlaced(entries: seq<ArchiveEntry>, root: string)
    requires entries != []
    ensures AllWellPlaced(entries, root) <==> WellPlaced(entries[0], root) && AllWellPlaced(entries[1..], root)
  {
    var rest := entries[1..];
    assert forall i :: 0 < i < |entries| ==> entries[i] == rest[i - 1];
  }

  lemma {:induction false} AddEntriesExact(u: Unpacking, entries: seq<ArchiveEntry>)
    requires Remembered(u) && u.total <= MAX_TOTAL_SOURCE_BYTES
    ensures AddEntries(u, entries).Done? <==>
            (AllWellPlaced(entries, RootFor(u, entries)) && FilesApart(entries, u.folded.Keys)
             && u.total + FileBytes(entries) <= MAX_TOTAL_SOURCE_BYTES)
    decreases |entries|
  {
    if entries != [] {
      var first, rest := entries[0], entries[1..];
      AddEntryExact(u, first);
      ConsApart(entries, u.folded.Keys);
      ConsWellPlaced(entries, RootFor(u, entries));
      assert RootFor(u, [first]) == RootFor(u, entries);
      assert [first][1..] == [];
      if AddEntry(u, first).Done? {
        AddEntryEffect(u, first);
        AddEntriesExact(AddEntry(u, first).value, rest);
      }
    }
  }

  /**
   * An archive is accepted exactly when its entries are whole files and directories at portable
   * paths below one root, the files differ without regard to case, and they fit in 20 MiB.
   */
  lemma UnpackAcceptsExactly(entries: seq<ArchiveEntry>)
    ensures Unpack(Some(entries)).Done? <==>
            (AllWellPlaced(entries, RootFor(EMPTY, entries)) && FilesApart(entries, {})
             && FileBytes(entries) <= 20 * 1024 * 1024)
  {
    AddEntriesExact(EMPTY, entries);
    assert EMPTY.folded.Keys == {};
  }
}
