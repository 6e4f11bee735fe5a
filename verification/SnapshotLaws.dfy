/**
 * Reading back any stored snapshot, one of this system's or not (src/version-allocator.ts,
 * src/package-registry.ts): when it is accepted, and what it then says.
 */
module SnapshotLaws {
  import opened Common
  import opened Text
  import opened VersionAllocation
  import opened PackageRegistryModel

  // ----- the allocator's inputs ------------------------------------------------------------

  /** What an allocation is refused for; then nothing changes. */
  lemma RefusedInputs(ms: Majors, major: int, commitSha: string, committedAt: int)
    ensures major < 0 || major > 0x1F_FFFF_FFFF_FFFF ==>
              AllocateStep(ms, major, commitSha, committedAt)
              == Outcome(ms, Err("major must be a non-negative safe integer"))
    ensures 0 <= major <= 0x1F_FFFF_FFFF_FFFF && commitSha == "" ==>
              AllocateStep(ms, major, commitSha, committedAt) == Outcome(ms, Err("commit SHA must not be empty"))
    ensures 0 <= major <= 0x1F_FFFF_FFFF_FFFF && commitSha != ""
            && (committedAt < 0 || committedAt > 0x1F_FFFF_FFFF_FFFF) ==>
              AllocateStep(ms, major, commitSha, committedAt)
              == Outcome(ms, Err("commit timestamp must be a non-negative whole Unix second"))
  {
  }

  /** A known commit cannot be recovered into a major that never saw it. */
  lemma UnknownCommitRefused(ms: Majors, major: int, commitSha: string, committedAt: int)
    requires 0 <= major <= 0x1F_FFFF_FFFF_FFFF && commitSha != "" && 0 <= committedAt <= 0x1F_FFFF_FFFF_FFFF
    requires commitSha !in ForMajor(ms, major).currentAttempts
    ensures RecoverStep(ms, major, commitSha, committedAt).result
         == Err("cannot recover a commit without an existing assignment")
  {
  }

  // ----- rows ------------------------------------------------------------------------------

  /** Numbers in the safe range, a commit, and the version text of major and sequence. */
  ghost predicate SoundRow(x: Assignment) {
    && 0 <= x.major <= 0x1F_FFFF_FFFF_FFFF && 0 <= x.sequence <= 0x1F_FFFF_FFFF_FFFF
    && 0 <= x.attempt <= 0x1F_FFFF_FFFF_FFFF && x.commitSha != ""
    && x.version == Decimal(x.major) + ".1." + Decimal(x.sequence)
  }

  ghost predicate AllSound(rows: seq<Assignment>) {
    forall i :: 0 <= i < |rows| ==> SoundRow(rows[i])
  }

  ghost predicate SameRowKey(x: Assignment, y: Assignment) {
    x.major == y.major && x.commitSha == y.commitSha && x.attempt == y.attempt
  }

  ghost predicate RowsDiffer(rows: seq<Assignment>) {
    forall i, j :: 0 <= i < j < |rows| ==> !SameRowKey(rows[i], rows[j])
  }

  lemma SoundIsStorable(x: Assignment)
    ensures SoundRow(x) <==> StorableRow(x)
  {
  }

  lemma KeysOfRows(x: Assignment, y: Assignment)
    ensures x.major == y.major && KeyOf(x) == KeyOf(y) <==> SameRowKey(x, y)
  {
    if KeyOf(x) == KeyOf(y) {
      KeyInjective(x.commitSha, x.attempt, y.commitSha, y.attempt);
    }
  }

  ghost predicate HoldsKey(ms: Majors, x: Assignment) {
    KeyOf(x) in ForMajor(ms, x.major).assignments
  }

  lemma InsertedHolds(ms: Majors, x: Assignment, y: Assignment)
    requires InsertRow(ms, x).Ok?
    ensures !HoldsKey(ms, x) && HoldsKey(InsertRow(ms, x).value, x)
    ensures HoldsKey(ms, y) ==> HoldsKey(InsertRow(ms, x).value, y)
    ensures SameRowKey(x, y) ==> HoldsKey(InsertRow(ms, x).value, y)
  {
    KeysOfRows(x, y);
  }

  lemma {:induction false} RebuiltDiffer(ms: Majors, rows: seq<Assignment>)
    requires RebuildFrom(ms, rows).Ok?
    ensures forall i :: 0 <= i < |rows| ==> !HoldsKey(ms, rows[i])
    ensures RowsDiffer(rows)
    decreases |rows|
  {
    if rows != [] {
      var rest := rows[1..];
      var next := InsertRow(ms, rows[0]).value;
      RebuiltDiffer(next, rest);
      forall i | 0 <= i < |rows|
        ensures !HoldsKey(ms, rows[i])
        ensures i > 0 ==> !SameRowKey(rows[0], rows[i])
      {
        InsertedHolds(ms, rows[0], rows[i]);
        assert i > 0 ==> rows[i] == rest[i - 1];
      }
      assert forall i :: 0 < i < |rows| ==> rows[i] == rest[i - 1];
    }
  }

  lemma SameRowSameIndex(rows: seq<Assignment>, i: nat, j: nat)
    requires RowsDiffer(rows) && i < |rows| && j < |rows| && SameRowKey(rows[i], rows[j])
    ensures i == j
  {
  }

  lemma DifferentRows(rows: seq<Assignment>)
    requires RowsDiffer(rows)
    ensures NoDuplicates(rows) && KeysDiffer({} + Elements(rows))
  {
    forall i, j | 0 <= i < j < |rows|
      ensures rows[i] != rows[j]
    {
      assert !SameRowKey(rows[i], rows[j]);
    }
    forall x, y | x in rows && y in rows && x.major == y.major && KeyOf(x) == KeyOf(y)
      ensures x == y
    {
      KeysOfRows(x, y);
      var i :| 0 <= i < |rows| && rows[i] == x;
      var j :| 0 <= j < |rows| && rows[j] == y;
      SameRowSameIndex(rows, i, j);
    }
  }

  /**
   * Any rows, in any order, are read back exactly when each is sound and no two are one commit's
   * one attempt in one major; and then the allocator is the one those rows describe.
   */
  lemma RebuildsExactly(rows: seq<Assignment>)
    ensures RebuildFrom(map[], rows).Ok? <==> AllSound(rows) && RowsDiffer(rows)
    ensures RebuildFrom(map[], rows).Ok? ==> Represents(RebuildFrom(map[], rows).value, Elements(rows))
  {
    forall i | 0 <= i < |rows|
      ensures SoundRow(rows[i]) <==> StorableRow(rows[i])
    {
      SoundIsStorable(rows[i]);
    }
    if AllSound(rows) && RowsDiffer(rows) {
      DifferentRows(rows);
      RebuildRepresents(map[], {}, rows);
      assert {} + Elements(rows) == Elements(rows);
    }
    if RebuildFrom(map[], rows).Ok? {
      RebuiltDiffer(map[], rows);
      RebuiltRowsAreStorable(map[], rows);
    }
  }

  // ----- records ---------------------------------------------------------------------------

  function VersionsOf(records: seq<VersionRecord>): seq<string> {
    seq(|records|, i requires 0 <= i < |records| => records[i].job.version)
  }

  /** `t` is `s` with the records added in order, each under its own version. */
  ghost predicate WithRecords(s: Registry, t: Registry, records: seq<VersionRecord>) {
    && t == s.(versions := t.versions, order := s.order + VersionsOf(records))
    && (forall v :: v in t.versions <==> v in s.versions || v in VersionsOf(records))
    && (forall v :: v in s.versions ==> t.versions[v] == s.versions[v])
    && (forall i :: 0 <= i < |records| ==>
          records[i].job.version in t.versions && t.versions[records[i].job.version] == records[i])
  }

  ghost predicate NewVersions(s: Registry, records: seq<VersionRecord>) {
    && NoDuplicates(VersionsOf(records))
    && forall i :: 0 <= i < |records| ==> records[i].job.version !in s.versions
  }

  lemma NewVersionsCons(s: Registry, records: seq<VersionRecord>)
    requires records != []
    ensures NewVersions(s, records) <==>
            records[0].job.version !in s.versions && NewVersions(Put(s, records[0]), records[1..])
  {
    var rest := records[1..];
    assert VersionsOf(records) == [records[0].job.version] + VersionsOf(rest);
    assert forall i :: 0 < i < |records| ==> records[i] == rest[i - 1];
    if NewVersions(s, records) {
      forall i | 0 <= i < |rest|
        ensures rest[i].job.version !in Put(s, records[0]).versions
      {
        assert VersionsOf(records)[0] != VersionsOf(records)[i + 1];
        assert rest[i] == records[i + 1];
      }
      forall i, j | 0 <= i < j < |rest|
        ensures VersionsOf(rest)[i] != VersionsOf(rest)[j]
      {
        assert VersionsOf(records)[i + 1] != VersionsOf(records)[j + 1];
      }
    }
    if records[0].job.version !in s.versions && NewVersions(Put(s, records[0]), rest) {
      forall i, j | 0 <= i < j < |records|
        ensures VersionsOf(records)[i] != VersionsOf(records)[j]
      {
        assert records[j] == rest[j - 1];
        if i > 0 {
          assert VersionsOf(rest)[i - 1] != VersionsOf(rest)[j - 1];
        }
      }
    }
  }

  lemma WithRecordsCons(s: Registry, t: Registry, records: seq<VersionRecord>)
    requires records != [] && records[0].job.version !in s.versions
    requires WithRecords(Put(s, records[0]), t, records[1..])
    ensures WithRecords(s, t, records)
  {
    var rest := records[1..];
    assert VersionsOf(records) == [records[0].job.version] + VersionsOf(rest);
    assert forall i :: 0 < i < |records| ==> records[i] == rest[i - 1];
    assert s.order + VersionsOf(records) == s.order + [records[0].job.version] + VersionsOf(rest);
  }

  lemma {:induction false} RecordsRestored(s: Registry, records: seq<VersionRecord>)
    ensures RestoreRecords(s, records).Ok? <==> NewVersions(s, records)
    ensures RestoreRecords(s, records).Ok? ==> WithRecords(s, RestoreRecords(s, records).value, records)
    decreases |records|
  {
    if records == [] {
      assert s.order + VersionsOf(records) == s.order;
    } else {
      NewVersionsCons(s, records);
      if records[0].job.version !in s.versions {
        RecordsRestored(Put(s, records[0]), records[1..]);
        if RestoreRecords(s, records).Ok? {
          WithRecordsCons(s, RestoreRecords(s, records).value, records);
        }
      }
    }
  }

  /**
   * A stored registry is read back exactly when its rows are and no version is recorded twice; it
   * then has the stored name, branches and log, and exactly the stored records, in their order.
   */
  lemma RestoresExactly(snap: RegistrySnapshot)
    ensures Restore(snap).Ok? <==>
            AllSound(snap.rows) && RowsDiffer(snap.rows) && NoDuplicates(VersionsOf(snap.versions))
    ensures Restore(snap).Ok? ==>
              var s := Restore(snap).value;
              && s.name == snap.name && s.branches == snap.branches
              && s.recoveries == (if snap.recoveries == None then [] else snap.recoveries.value)
              && s.order == VersionsOf(snap.versions)
              && (forall v :: v in s.versions <==> v in VersionsOf(snap.versions))
              && (forall i :: 0 <= i < |snap.versions| ==>
                    snap.versions[i].job.version in s.versions
                    && s.versions[snap.versions[i].job.version] == snap.versions[i])
              && Represents(s.majors, Elements(snap.rows))
  {
    RebuildsExactly(snap.rows);
    if RebuildFrom(map[], snap.rows).Ok? {
      var empty := Registry(snap.name, snap.branches, RebuildFrom(map[], snap.rows).value, map[], [], []);
      RecordsRestored(empty, snap.versions);
      assert empty.order + VersionsOf(snap.versions) == VersionsOf(snap.versions);
    }
  }
}
