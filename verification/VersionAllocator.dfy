/**
 * The per-major version allocator (src/version-allocator.ts): a monotone high-water mark per
 * major, assignment rows keyed by commit and attempt, and a current attempt per commit.
 *
 * `AllocateStep`, `RecoverStep` and `RebuildFrom` say what each operation does to the rows; the
 * class updates them in place. Numbers are integers; `JsSuccessor` keeps JavaScript's rounding.
 */
module VersionAllocation {
  import opened Common
  import opened Text

  datatype Assignment = Assignment(major: int, sequence: int, attempt: int, commitSha: string, version: string)

  datatype MajorAllocations = MajorAllocations(
    highWater: int,
    assignments: map<string, Assignment>,
    currentAttempts: map<string, int>)

  type Majors = map<int, MajorAllocations>

  const EMPTY_MAJOR := MajorAllocations(-1, map[], map[])

  // ----- rendering -------------------------------------------------------------------------

  /** `${n}` for an integer. */
  function Render(n: int): string {
    if n < 0 then "-" + Decimal(-n) else Decimal(n)
  }

  function RenderVersion(major: int, sequence: int): string {
    Render(major) + ".1." + Render(sequence)
  }

  function Key(commitSha: string, attempt: int): string {
    commitSha + ['\0'] + Render(attempt)
  }

  function KeyOf(a: Assignment): string {
    Key(a.commitSha, a.attempt)
  }

  lemma RenderChars(n: int)
    ensures '\0' !in Render(n) && '.' !in Render(n)
    ensures Render(n) != "" && (Render(n)[0] == '-' <==> n < 0)
  {
    DecimalCanonical(if n < 0 then -n else n);
    assert forall c :: c in Render(n) ==> c == '-' || IsDigit(c);
    assert n >= 0 ==> Render(n)[0] in Render(n);
  }

  lemma RenderInjective(m: int, n: int)
    requires Render(m) == Render(n)
    ensures m == n
  {
    RenderChars(m);
    RenderChars(n);
    if m < 0 {
      SamePrefix("-", Decimal(-m), Decimal(-n));
      DecimalInjective(-m, -n);
    } else {
      DecimalInjective(m, n);
    }
  }

  /** A commit hash may hold any characters, even the separator: the last one still splits. */
  lemma KeyInjective(c1: string, i1: int, c2: string, i2: int)
    requires Key(c1, i1) == Key(c2, i2)
    ensures c1 == c2 && i1 == i2
  {
    RenderChars(i1);
    RenderChars(i2);
    LastSplitUnique(c1, c2, '\0', Render(i1), Render(i2));
    RenderInjective(i1, i2);
  }

  lemma VersionPieces(m: int, s: int)
    ensures RenderVersion(m, s) == Render(m) + ['.'] + ("1." + Render(s))
  {
    assert ".1." == ['.'] + "1.";
  }

  lemma VersionInjective(m1: int, s1: int, m2: int, s2: int)
    requires RenderVersion(m1, s1) == RenderVersion(m2, s2)
    ensures m1 == m2 && s1 == s2
  {
    RenderChars(m1);
    RenderChars(m2);
    VersionPieces(m1, s1);
    VersionPieces(m2, s2);
    FirstSplitUnique(Render(m1), Render(m2), '.', "1." + Render(s1), "1." + Render(s2));
    SamePrefix("1.", Render(s1), Render(s2));
    RenderInjective(m1, m2);
    RenderInjective(s1, s2);
  }

  // ----- what each operation does ----------------------------------------------------------

  function ForMajor(ms: Majors, major: int): MajorAllocations {
    if major in ms then ms[major] else EMPTY_MAJOR
  }

  function InputError(major: int, commitSha: string, committedAt: int): Option<string> {
    if !IsSafeInteger(major) || major < 0 then Some("major must be a non-negative safe integer")
    else if |commitSha| == 0 then Some("commit SHA must not be empty")
    else if !IsSafeInteger(committedAt) || committedAt < 0 then
      Some("commit timestamp must be a non-negative whole Unix second")
    else None
  }

  function NextAssignment(a: MajorAllocations, major: int, commitSha: string, committedAt: int, attempt: int): Assignment {
    var sequence := Max(committedAt, JsSuccessor(a.highWater));
    Assignment(major, sequence, attempt, commitSha, RenderVersion(major, sequence))
  }

  function Appended(a: MajorAllocations, x: Assignment): MajorAllocations {
    MajorAllocations(
      x.sequence,
      a.assignments[KeyOf(x) := x],
      a.currentAttempts[x.commitSha := x.attempt])
  }

  /** A known commit keeps its current assignment; a new one gets attempt zero. */
  function AllocateIn(a: MajorAllocations, major: int, commitSha: string, committedAt: int): Outcome<MajorAllocations, Assignment> {
    if commitSha in a.currentAttempts then
      var k := Key(commitSha, a.currentAttempts[commitSha]);
      Outcome(a, if k in a.assignments then Ok(a.assignments[k]) else Err("undefined"))
    else
      var x := NextAssignment(a, major, commitSha, committedAt, 0);
      Outcome(Appended(a, x), Ok(x))
  }

  /** A known commit gets its next attempt. */
  function RecoverIn(a: MajorAllocations, major: int, commitSha: string, committedAt: int): Outcome<MajorAllocations, Assignment> {
    if commitSha !in a.currentAttempts then
      Outcome(a, Err("cannot recover a commit without an existing assignment"))
    else
      var x := NextAssignment(a, major, commitSha, committedAt, a.currentAttempts[commitSha] + 1);
      Outcome(Appended(a, x), Ok(x))
  }

  function AllocateStep(ms: Majors, major: int, commitSha: string, committedAt: int): Outcome<Majors, Assignment> {
    match InputError(major, commitSha, committedAt)
    case Some(message) => Outcome(ms, Err(message))
    case None =>
      var r := AllocateIn(ForMajor(ms, major), major, commitSha, committedAt);
      Outcome(ms[major := r.state], r.result)
  }

  function RecoverStep(ms: Majors, major: int, commitSha: string, committedAt: int): Outcome<Majors, Assignment> {
    match InputError(major, commitSha, committedAt)
    case Some(message) => Outcome(ms, Err(message))
    case None =>
      var r := RecoverIn(ForMajor(ms, major), major, commitSha, committedAt);
      Outcome(ms[major := r.state], r.result)
  }

  /** One row of a snapshot, checked and entered. */
  function InsertRow(ms: Majors, x: Assignment): Result<Majors> {
    match InputError(x.major, x.commitSha, x.sequence)
    case Some(message) => Err(message)
    case None =>
      if !IsSafeInteger(x.attempt) || x.attempt < 0 then Err("assignment attempt must be a non-negative safe integer")
      else if x.version != RenderVersion(x.major, x.sequence) then Err("assignment has an invalid version: " + x.version)
      else
        var a := ForMajor(ms, x.major);
        if KeyOf(x) in a.assignments then Err("duplicate assignment: " + x.version)
        else Ok(ms[x.major := Entered(a, x)])
  }

  function Entered(a: MajorAllocations, x: Assignment): MajorAllocations {
    MajorAllocations(
      Max(a.highWater, x.sequence),
      a.assignments[KeyOf(x) := x],
      if x.commitSha !in a.currentAttempts || x.attempt > a.currentAttempts[x.commitSha]
      then a.currentAttempts[x.commitSha := x.attempt] else a.currentAttempts)
  }

  function RebuildFrom(ms: Majors, rows: seq<Assignment>): Result<Majors>
    decreases |rows|
  {
    if rows == [] then Ok(ms)
    else match InsertRow(ms, rows[0])
      case Err(message) => Err(message)
      case Ok(next) => RebuildFrom(next, rows[1..])
  }

  /** Every assignment row, whatever its major. */
  function AllRows(ms: Majors): set<Assignment> {
    set m, k | m in ms && k in ms[m].assignments :: ms[m].assignments[k]
  }

  /** The rows of `ms`, each once, in the order `before` puts their versions in. */
  ghost predicate IsSnapshot(before: (string, string) -> bool, ms: Majors, rows: seq<Assignment>) {
    && Elements(rows) == AllRows(ms)
    && NoDuplicates(rows)
    && forall i, j :: 0 <= i < j < |rows| ==> !before(rows[j].version, rows[i].version)
  }

  /** A comparison that sorting can rely on; JavaScript's `localeCompare` on version strings. */
  ghost predicate StrictOrder(before: (string, string) -> bool) {
    && (forall a :: !before(a, a))
    && (forall a, b, c :: before(a, b) && before(b, c) ==> before(a, c))
  }

  // ----- the invariant ---------------------------------------------------------------------

  ghost predicate ValidRow(m: int, a: MajorAllocations, k: string)
    requires k in a.assignments
  {
    var x := a.assignments[k];
    && k == KeyOf(x)
    && x.major == m
    && 0 <= x.attempt <= x.sequence <= a.highWater
    && x.commitSha != ""
    && x.version == RenderVersion(m, x.sequence)
    && x.commitSha in a.currentAttempts
    && x.attempt <= a.currentAttempts[x.commitSha]
  }

  /** Two rows of one major: different sequences, and a later attempt has a later sequence. */
  ghost predicate Apart(x: Assignment, y: Assignment) {
    && x.sequence != y.sequence
    && (x.commitSha == y.commitSha && x.attempt < y.attempt ==> x.sequence < y.sequence)
  }

  ghost predicate ValidRows(m: int, a: MajorAllocations) {
    forall k :: k in a.assignments ==> ValidRow(m, a, k)
  }

  ghost predicate RowsApart(a: MajorAllocations) {
    forall j, k :: j in a.assignments && k in a.assignments && j != k ==> Apart(a.assignments[j], a.assignments[k])
  }

  ghost predicate HasRow(a: MajorAllocations, c: string, i: int) {
    && Key(c, i) in a.assignments
    && a.assignments[Key(c, i)].commitSha == c
    && a.assignments[Key(c, i)].attempt == i
  }

  /** Each known commit has a row for every attempt up to its current one. */
  ghost predicate AttemptsCovered(a: MajorAllocations) {
    forall c :: c in a.currentAttempts ==>
      a.currentAttempts[c] >= 0 && forall i :: 0 <= i <= a.currentAttempts[c] ==> HasRow(a, c, i)
  }

  ghost predicate HighWaterReached(a: MajorAllocations) {
    && -1 <= a.highWater <= MAX_SAFE + 1
    && (a.highWater >= 0 ==> exists k :: k in a.assignments && a.assignments[k].sequence == a.highWater)
  }

  ghost predicate ValidMajor(m: int, a: MajorAllocations) {
    ValidRows(m, a) && RowsApart(a) && AttemptsCovered(a) && HighWaterReached(a)
  }

  /**
   * What every reachable allocator satisfies: rows sit under their own key, attempts of a commit
   * are exactly 0..current with increasing sequences, no two rows of a major share a sequence,
   * and the high-water mark is the greatest sequence.
   */
  ghost predicate ValidMajors(ms: Majors) {
    forall m :: m in ms ==> 0 <= m <= MAX_SAFE && ValidMajor(m, ms[m])
  }

  /** No number has left the safe range yet, so the rows can be stored and read back. */
  ghost predicate SafeMajors(ms: Majors) {
    forall m :: m in ms ==> ms[m].highWater <= MAX_SAFE
  }

  /** The attempt number the next row of a commit carries. */
  function NextAttempt(a: MajorAllocations, commitSha: string): int {
    if commitSha in a.currentAttempts then a.currentAttempts[commitSha] + 1 else 0
  }

  lemma NextRowIsFresh(m: int, a: MajorAllocations, commitSha: string)
    requires ValidMajor(m, a)
    ensures Key(commitSha, NextAttempt(a, commitSha)) !in a.assignments
    ensures 0 <= NextAttempt(a, commitSha) <= a.highWater + 1
  {
    var attempt := NextAttempt(a, commitSha);
    if attempt > 0 {
      assert HasRow(a, commitSha, attempt - 1);
      assert ValidRow(m, a, Key(commitSha, attempt - 1));
    }
    if Key(commitSha, attempt) in a.assignments {
      var y := a.assignments[Key(commitSha, attempt)];
      assert ValidRow(m, a, Key(commitSha, attempt));
      KeyInjective(y.commitSha, y.attempt, commitSha, attempt);
    }
  }

  lemma AppendKeepsRows(m: int, a: MajorAllocations, x: Assignment)
    requires ValidRows(m, a) && x.sequence > a.highWater
    requires x.major == m && 0 <= x.attempt <= x.sequence && x.commitSha != ""
    requires x.version == RenderVersion(m, x.sequence)
    requires x.attempt == NextAttempt(a, x.commitSha)
    ensures ValidRows(m, Appended(a, x))
  {
    var b := Appended(a, x);
    forall k | k in b.assignments ensures ValidRow(m, b, k) {
      if k != KeyOf(x) {
        assert ValidRow(m, a, k);
      }
    }
  }

  lemma AppendKeepsApart(m: int, a: MajorAllocations, x: Assignment)
    requires ValidRows(m, a) && RowsApart(a) && x.sequence > a.highWater
    requires x.attempt == NextAttempt(a, x.commitSha)
    ensures RowsApart(Appended(a, x))
  {
    var b := Appended(a, x);
    forall j, k | j in b.assignments && k in b.assignments && j != k
      ensures Apart(b.assignments[j], b.assignments[k])
    {
      assert j != KeyOf(x) ==> ValidRow(m, a, j);
      assert k != KeyOf(x) ==> ValidRow(m, a, k);
    }
  }

  lemma AppendKeepsAttempts(a: MajorAllocations, x: Assignment)
    requires AttemptsCovered(a) && KeyOf(x) !in a.assignments
    requires x.attempt == NextAttempt(a, x.commitSha)
    ensures AttemptsCovered(Appended(a, x))
  {
    var b := Appended(a, x);
    forall c, i | c in b.currentAttempts && 0 <= i <= b.currentAttempts[c]
      ensures HasRow(b, c, i)
    {
      if c != x.commitSha || i != x.attempt {
        assert HasRow(a, c, i);
      }
    }
  }

  /** Appending to a major whose high-water mark is safe takes a fresh, larger sequence. */
  lemma AppendValid(m: int, a: MajorAllocations, commitSha: string, committedAt: int)
    requires ValidMajor(m, a) && a.highWater <= MAX_SAFE
    requires commitSha != "" && 0 <= committedAt <= MAX_SAFE
    ensures var x := NextAssignment(a, m, commitSha, committedAt, NextAttempt(a, commitSha));
            KeyOf(x) !in a.assignments && x.sequence > a.highWater && ValidMajor(m, Appended(a, x))
  {
    var x := NextAssignment(a, m, commitSha, committedAt, NextAttempt(a, commitSha));
    var b := Appended(a, x);
    NextRowIsFresh(m, a, commitSha);
    AppendKeepsRows(m, a, x);
    AppendKeepsApart(m, a, x);
    AppendKeepsAttempts(a, x);
    assert b.assignments[KeyOf(x)].sequence == b.highWater;
  }

  lemma AllocateValid(ms: Majors, major: int, commitSha: string, committedAt: int)
    requires ValidMajors(ms) && ForMajor(ms, major).highWater <= MAX_SAFE
    ensures ValidMajors(AllocateStep(ms, major, commitSha, committedAt).state)
  {
    var a := ForMajor(ms, major);
    if InputError(major, commitSha, committedAt).None? && commitSha !in a.currentAttempts {
      AppendValid(major, a, commitSha, committedAt);
    }
  }

  lemma RecoverValid(ms: Majors, major: int, commitSha: string, committedAt: int)
    requires ValidMajors(ms) && ForMajor(ms, major).highWater <= MAX_SAFE
    ensures ValidMajors(RecoverStep(ms, major, commitSha, committedAt).state)
  {
    var a := ForMajor(ms, major);
    if InputError(major, commitSha, committedAt).None? && commitSha in a.currentAttempts {
      AppendValid(major, a, commitSha, committedAt);
    }
  }

  // ----- storing and reading back ----------------------------------------------------------

  /** Some row of `rows` belongs to `m`. */
  ghost predicate MajorIn(rows: set<Assignment>, m: int) {
    exists x :: x in rows && x.major == m
  }

  ghost predicate RowsAre(m: int, a: MajorAllocations, rows: set<Assignment>) {
    && (forall x :: x in rows && x.major == m ==> KeyOf(x) in a.assignments && a.assignments[KeyOf(x)] == x)
    && (forall k :: k in a.assignments ==>
          a.assignments[k] in rows && a.assignments[k].major == m && KeyOf(a.assignments[k]) == k)
  }

  ghost predicate HasSequence(m: int, s: int, rows: set<Assignment>) {
    exists x :: x in rows && x.major == m && x.sequence == s
  }

  ghost predicate HasAttempt(m: int, c: string, i: int, rows: set<Assignment>) {
    exists x :: x in rows && x.major == m && x.commitSha == c && x.attempt == i
  }

  ghost predicate HighWaterIs(m: int, a: MajorAllocations, rows: set<Assignment>) {
    && (forall x :: x in rows && x.major == m ==> x.sequence <= a.highWater)
    && HasSequence(m, a.highWater, rows)
  }

  ghost predicate CurrentIs(m: int, a: MajorAllocations, rows: set<Assignment>) {
    && (forall x :: x in rows && x.major == m ==>
          x.commitSha in a.currentAttempts && x.attempt <= a.currentAttempts[x.commitSha])
    && (forall c :: c in a.currentAttempts ==> HasAttempt(m, c, a.currentAttempts[c], rows))
  }

  /** `a` is what the rows of major `m` determine: rows, greatest sequence, greatest attempts. */
  ghost predicate Describes(m: int, a: MajorAllocations, rows: set<Assignment>) {
    RowsAre(m, a, rows) && HighWaterIs(m, a, rows) && CurrentIs(m, a, rows)
  }

  ghost predicate Represents(ms: Majors, rows: set<Assignment>) {
    && (forall m :: m in ms <==> MajorIn(rows, m))
    && (forall m :: m in ms ==> Describes(m, ms[m], rows))
  }

  /** Majors a failed recovery touched but never filled; a snapshot has no row for them. */
  function WithoutEmpty(ms: Majors): Majors {
    map m | m in ms && ms[m].assignments != map[] :: ms[m]
  }

  ghost predicate KeysDiffer(rows: set<Assignment>) {
    forall x, y :: x in rows && y in rows && x.major == y.major && KeyOf(x) == KeyOf(y) ==> x == y
  }

  predicate StorableRow(x: Assignment) {
    && InputError(x.major, x.commitSha, x.sequence).None?
    && IsSafeInteger(x.attempt) && x.attempt >= 0
    && x.version == RenderVersion(x.major, x.sequence)
  }

  lemma MoreRows(m: int, rows: set<Assignment>, x: Assignment)
    ensures forall s :: HasSequence(m, s, rows) ==> HasSequence(m, s, rows + {x})
    ensures forall c, i :: HasAttempt(m, c, i, rows) ==> HasAttempt(m, c, i, rows + {x})
    ensures HasSequence(x.major, x.sequence, rows + {x})
    ensures HasAttempt(x.major, x.commitSha, x.attempt, rows + {x})
  {
    forall s | HasSequence(m, s, rows)
      ensures HasSequence(m, s, rows + {x})
    {
      var y :| y in rows && y.major == m && y.sequence == s;
      assert y in rows + {x};
    }
    forall c, i | HasAttempt(m, c, i, rows)
      ensures HasAttempt(m, c, i, rows + {x})
    {
      var y :| y in rows && y.major == m && y.commitSha == c && y.attempt == i;
      assert y in rows + {x};
    }
    assert x in rows + {x};
  }

  /** The state of a major before any, or after some, of `rows`. */
  ghost predicate DescribesSoFar(m: int, a: MajorAllocations, rows: set<Assignment>) {
    if MajorIn(rows, m) then Describes(m, a, rows) else a == EMPTY_MAJOR
  }

  lemma EnterRows(a: MajorAllocations, x: Assignment, rows: set<Assignment>)
    requires x !in rows && KeysDiffer(rows + {x}) && DescribesSoFar(x.major, a, rows)
    ensures KeyOf(x) !in a.assignments
    ensures RowsAre(x.major, Entered(a, x), rows + {x})
  {
    var all := rows + {x};
    assert x in all;
    forall y | y in rows && y.major == x.major
      ensures KeyOf(y) != KeyOf(x)
    {
      assert y in all;
    }
  }

  lemma EnterHighWater(a: MajorAllocations, x: Assignment, rows: set<Assignment>)
    requires x.sequence >= 0 && DescribesSoFar(x.major, a, rows)
    ensures HighWaterIs(x.major, Entered(a, x), rows + {x})
  {
    MoreRows(x.major, rows, x);
  }

  lemma EnterCurrent(a: MajorAllocations, x: Assignment, rows: set<Assignment>)
    requires DescribesSoFar(x.major, a, rows)
    ensures CurrentIs(x.major, Entered(a, x), rows + {x})
  {
    MoreRows(x.major, rows, x);
  }

  lemma EnterOther(m: int, a: MajorAllocations, x: Assignment, rows: set<Assignment>)
    requires Describes(m, a, rows) && x.major != m
    ensures Describes(m, a, rows + {x})
  {
    MoreRows(m, rows, x);
  }

  lemma EnterDescribes(a: MajorAllocations, x: Assignment, rows: set<Assignment>)
    requires x !in rows && x.sequence >= 0 && KeysDiffer(rows + {x}) && DescribesSoFar(x.major, a, rows)
    ensures Describes(x.major, Entered(a, x), rows + {x})
  {
    EnterRows(a, x, rows);
    EnterHighWater(a, x, rows);
    EnterCurrent(a, x, rows);
  }

  lemma MajorInMore(m: int, x: Assignment, rows: set<Assignment>)
    ensures MajorIn(rows + {x}, m) <==> m == x.major || MajorIn(rows, m)
  {
    assert x in rows + {x};
    if MajorIn(rows, m) {
      var y :| y in rows && y.major == m;
      assert y in rows + {x};
    }
  }

  lemma InsertRepresents(ms: Majors, x: Assignment, rows: set<Assignment>)
    requires Represents(ms, rows) && StorableRow(x) && x !in rows && KeysDiffer(rows + {x})
    ensures InsertRow(ms, x).Ok? && Represents(InsertRow(ms, x).value, rows + {x})
  {
    var a, all := ForMajor(ms, x.major), rows + {x};
    assert x.major in ms ==> Describes(x.major, ms[x.major], rows);
    EnterRows(a, x, rows);
    EnterDescribes(a, x, rows);
    var next := ms[x.major := Entered(a, x)];
    assert InsertRow(ms, x) == Ok(next);
    forall m
      ensures m in next <==> MajorIn(all, m)
    {
      MajorInMore(m, x, rows);
    }
    forall m | m in next
      ensures Describes(m, next[m], all)
    {
      if m != x.major {
        EnterOther(m, ms[m], x, rows);
      }
    }
  }

  /** Rows in any order rebuild to what they describe. */
  lemma {:induction false} RebuildRepresents(ms: Majors, done: set<Assignment>, rows: seq<Assignment>)
    requires Represents(ms, done) && NoDuplicates(rows) && done !! Elements(rows)
    requires KeysDiffer(done + Elements(rows))
    requires forall x :: x in rows ==> StorableRow(x)
    ensures RebuildFrom(ms, rows).Ok? && Represents(RebuildFrom(ms, rows).value, done + Elements(rows))
    decreases |rows|
  {
    if rows == [] {
      assert done + Elements(rows) == done;
    } else {
      var x, rest := rows[0], rows[1..];
      assert x in Elements(rows);
      assert x !in rest;
      assert Elements(rows) == {x} + Elements(rest);
      assert done + Elements(rows) == done + {x} + Elements(rest);
      assert forall y, z :: y in done + {x} && z in done + {x} ==> y in done + Elements(rows) && z in done + Elements(rows);
      InsertRepresents(ms, x, done);
      RebuildRepresents(InsertRow(ms, x).value, done + {x}, rest);
    }
  }

  /** Rebuilding succeeds only on rows that pass every check. */
  lemma {:induction false} RebuiltRowsAreStorable(ms: Majors, rows: seq<Assignment>)
    requires RebuildFrom(ms, rows).Ok?
    ensures forall x :: x in rows ==> StorableRow(x)
    decreases |rows|
  {
    if rows != [] {
      RebuiltRowsAreStorable(InsertRow(ms, rows[0]).value, rows[1..]);
      assert rows == [rows[0]] + rows[1..];
    }
  }

  lemma DescriptionUnique(m: int, a: MajorAllocations, b: MajorAllocations, rows: set<Assignment>)
    requires Describes(m, a, rows) && Describes(m, b, rows)
    ensures a == b
  {
    assert a.assignments == b.assignments;
    assert a.highWater == b.highWater;
    forall c | c in a.currentAttempts || c in b.currentAttempts
      ensures c in a.currentAttempts && c in b.currentAttempts && a.currentAttempts[c] == b.currentAttempts[c]
    {
      assert c in a.currentAttempts ==> HasAttempt(m, c, a.currentAttempts[c], rows);
      assert c in b.currentAttempts ==> HasAttempt(m, c, b.currentAttempts[c], rows);
    }
    assert a.currentAttempts == b.currentAttempts;
  }

  /** The rows leave no freedom: the representation is unique. */
  lemma RepresentationUnique(ms: Majors, ns: Majors, rows: set<Assignment>)
    requires Represents(ms, rows) && Represents(ns, rows)
    ensures ms == ns
  {
    forall m
      ensures m in ms <==> m in ns
      ensures m in ms ==> ms[m] == ns[m]
    {
      assert m in ms <==> MajorIn(rows, m);
      assert m in ns <==> MajorIn(rows, m);
      if m in ms {
        DescriptionUnique(m, ms[m], ns[m], rows);
      }
    }
  }

  lemma RowOfMajor(ms: Majors, m: int, x: Assignment)
    requires ValidMajors(ms) && x in AllRows(ms) && x.major == m
    ensures m in ms && KeyOf(x) in ms[m].assignments && ms[m].assignments[KeyOf(x)] == x
  {
    var n, k :| n in ms && k in ms[n].assignments && ms[n].assignments[k] == x;
    assert ValidRow(n, ms[n], k);
  }

  lemma MajorRows(ms: Majors, m: int)
    requires ValidMajors(ms) && m in ms
    ensures RowsAre(m, ms[m], AllRows(ms))
  {
    var a, rows := ms[m], AllRows(ms);
    forall x | x in rows && x.major == m
      ensures KeyOf(x) in a.assignments && a.assignments[KeyOf(x)] == x
    {
      RowOfMajor(ms, m, x);
    }
    forall k | k in a.assignments
      ensures a.assignments[k] in rows && a.assignments[k].major == m && KeyOf(a.assignments[k]) == k
    {
      assert ValidRow(m, a, k);
    }
  }

  lemma MajorHighWater(ms: Majors, m: int)
    requires ValidMajors(ms) && m in ms && ms[m].assignments != map[]
    ensures HighWaterIs(m, ms[m], AllRows(ms))
  {
    var a, rows := ms[m], AllRows(ms);
    forall x | x in rows && x.major == m
      ensures x.sequence <= a.highWater
    {
      RowOfMajor(ms, m, x);
      assert ValidRow(m, a, KeyOf(x));
    }
    var k0 :| k0 in a.assignments;
    assert ValidRow(m, a, k0);
    var k :| k in a.assignments && a.assignments[k].sequence == a.highWater;
    assert ValidRow(m, a, k) && a.assignments[k] in rows;
  }

  lemma MajorCurrent(ms: Majors, m: int)
    requires ValidMajors(ms) && m in ms
    ensures CurrentIs(m, ms[m], AllRows(ms))
  {
    var a, rows := ms[m], AllRows(ms);
    forall x | x in rows && x.major == m
      ensures x.commitSha in a.currentAttempts && x.attempt <= a.currentAttempts[x.commitSha]
    {
      RowOfMajor(ms, m, x);
      assert ValidRow(m, a, KeyOf(x));
    }
    forall c | c in a.currentAttempts
      ensures HasAttempt(m, c, a.currentAttempts[c], rows)
    {
      assert HasRow(a, c, a.currentAttempts[c]);
      var k := Key(c, a.currentAttempts[c]);
      assert ValidRow(m, a, k) && a.assignments[k] in rows;
    }
  }

  lemma ValidMajorDescribed(ms: Majors, m: int)
    requires ValidMajors(ms) && m in ms && ms[m].assignments != map[]
    ensures Describes(m, ms[m], AllRows(ms))
  {
    MajorRows(ms, m);
    MajorHighWater(ms, m);
    MajorCurrent(ms, m);
  }

  lemma ValidRepresented(ms: Majors)
    requires ValidMajors(ms)
    ensures Represents(WithoutEmpty(ms), AllRows(ms))
  {
    var ns := WithoutEmpty(ms);
    forall m
      ensures m in ns <==> MajorIn(AllRows(ms), m)
      ensures m in ns ==> Describes(m, ns[m], AllRows(ms))
    {
      if m in ns {
        ValidMajorDescribed(ms, m);
        var k :| k in ms[m].assignments;
        assert ms[m].assignments[k] in AllRows(ms);
      }
      if MajorIn(AllRows(ms), m) {
        var x :| x in AllRows(ms) && x.major == m;
        RowOfMajor(ms, m, x);
      }
    }
  }

  lemma ValidRowsAreKeyed(ms: Majors)
    requires ValidMajors(ms)
    ensures KeysDiffer(AllRows(ms))
  {
    forall x, y | x in AllRows(ms) && y in AllRows(ms) && x.major == y.major && KeyOf(x) == KeyOf(y)
      ensures x == y
    {
      RowOfMajor(ms, x.major, x);
      RowOfMajor(ms, x.major, y);
    }
  }

  lemma RowStorable(m: int, a: MajorAllocations, k: string)
    requires 0 <= m <= MAX_SAFE && ValidMajor(m, a) && k in a.assignments
    ensures StorableRow(a.assignments[k]) <==> a.assignments[k].sequence <= MAX_SAFE
  {
    assert ValidRow(m, a, k);
  }

  /**
   * A stored allocator reads back exactly when no sequence has left the safe range, and then to
   * the same rows, high-water marks and current attempts; only majors without rows are gone.
   */
  lemma SnapshotRoundTrip(before: (string, string) -> bool, ms: Majors, rows: seq<Assignment>)
    requires ValidMajors(ms) && IsSnapshot(before, ms, rows)
    ensures RebuildFrom(map[], rows).Ok? <==> SafeMajors(ms)
    ensures SafeMajors(ms) ==> RebuildFrom(map[], rows) == Ok(WithoutEmpty(ms))
  {
    forall x | x in rows
      ensures SafeMajors(ms) ==> StorableRow(x)
      ensures StorableRow(x) ==> x.sequence <= MAX_SAFE
    {
      assert x in Elements(rows);
      var m, k :| m in ms && k in ms[m].assignments && ms[m].assignments[k] == x;
      RowStorable(m, ms[m], k);
      assert ValidRow(m, ms[m], k);
    }
    if SafeMajors(ms) {
      assert {} + Elements(rows) == AllRows(ms);
      ValidRowsAreKeyed(ms);
      RebuildRepresents(map[], {}, rows);
      ValidRepresented(ms);
      RepresentationUnique(RebuildFrom(map[], rows).value, WithoutEmpty(ms), AllRows(ms));
    } else {
      UnsafeRowExists(ms);
      var x :| x in AllRows(ms) && x.sequence > MAX_SAFE;
      assert x in Elements(rows);
      if RebuildFrom(map[], rows).Ok? {
        RebuiltRowsAreStorable(map[], rows);
      }
    }
  }

  lemma UnsafeRowExists(ms: Majors)
    requires ValidMajors(ms) && !SafeMajors(ms)
    ensures exists x :: x in AllRows(ms) && x.sequence > MAX_SAFE
  {
    var m :| m in ms && ms[m].highWater > MAX_SAFE;
    var k :| k in ms[m].assignments && ms[m].assignments[k].sequence == ms[m].highWater;
    assert ms[m].assignments[k] in AllRows(ms);
  }

  lemma EmptyMajorIsFresh(a: MajorAllocations, m: int)
    requires ValidMajor(m, a) && a.assignments == map[]
    ensures a == EMPTY_MAJOR
  {
    assert forall c :: c in a.currentAttempts ==> HasRow(a, c, 0);
    assert a.currentAttempts == map[];
  }

  lemma WithoutEmptyUpdate(ms: Majors, m: int, a: MajorAllocations)
    ensures WithoutEmpty(WithoutEmpty(ms)[m := a]) == WithoutEmpty(ms[m := a])
  {
  }

  lemma WithoutEmptyMajor(ms: Majors, m: int)
    requires ValidMajors(ms)
    ensures ForMajor(WithoutEmpty(ms), m) == ForMajor(ms, m)
    ensures WithoutEmpty(WithoutEmpty(ms)) == WithoutEmpty(ms)
  {
    if m in ms && ms[m].assignments == map[] {
      EmptyMajorIsFresh(ms[m], m);
    }
  }

  /** Dropping empty majors is invisible to `Allocate`: same answer, and the relation is kept. */
  lemma EmptyMajorsInvisibleToAllocate(ms: Majors, major: int, commitSha: string, committedAt: int)
    requires ValidMajors(ms)
    ensures var r, q := AllocateStep(ms, major, commitSha, committedAt), AllocateStep(WithoutEmpty(ms), major, commitSha, committedAt);
            q.result == r.result && WithoutEmpty(q.state) == WithoutEmpty(r.state)
  {
    WithoutEmptyMajor(ms, major);
    WithoutEmptyUpdate(ms, major, AllocateIn(ForMajor(ms, major), major, commitSha, committedAt).state);
  }

  /** The same for `Recover`. */
  lemma EmptyMajorsInvisibleToRecover(ms: Majors, major: int, commitSha: string, committedAt: int)
    requires ValidMajors(ms)
    ensures var r, q := RecoverStep(ms, major, commitSha, committedAt), RecoverStep(WithoutEmpty(ms), major, commitSha, committedAt);
            q.result == r.result && WithoutEmpty(q.state) == WithoutEmpty(r.state)
  {
    WithoutEmptyMajor(ms, major);
    WithoutEmptyUpdate(ms, major, RecoverIn(ForMajor(ms, major), major, commitSha, committedAt).state);
  }

  // ----- the class -------------------------------------------------------------------------

  ghost predicate IsFirst(before: (string, string) -> bool, x: Assignment, rows: set<Assignment>) {
    x in rows && forall y :: y in rows ==> !before(y.version, x.version)
  }

  lemma {:induction false} FirstExists(before: (string, string) -> bool, rows: set<Assignment>)
    requires StrictOrder(before) && rows != {}
    ensures exists x :: IsFirst(before, x, rows)
  {
    var x :| x in rows;
    var rest := rows - {x};
    if rest == {} {
      assert rows == {x};
      assert IsFirst(before, x, rows);
    } else {
      FirstExists(before, rest);
      var y :| IsFirst(before, y, rest);
      if before(x.version, y.version) {
        forall z | z in rows
          ensures !before(z.version, x.version)
        {
          assert before(z.version, x.version) ==> before(z.version, y.version);
        }
        assert IsFirst(before, x, rows);
      } else {
        assert IsFirst(before, y, rows);
      }
    }
  }

  class VersionAllocator {
    var majors: Majors

    constructor ()
      ensures majors == map[]
    {
      majors := map[];
    }

    /** Enters a major on first use. */
    method EnsureMajor(major: int) returns (a: MajorAllocations)
      modifies this
      ensures a == ForMajor(old(majors), major) && majors == old(majors)[major := a]
    {
      if major !in majors {
        majors := majors[major := EMPTY_MAJOR];
      }
      a := majors[major];
    }

    method Append(a: MajorAllocations, major: int, commitSha: string, committedAt: int, attempt: int) returns (x: Assignment)
      modifies this
      ensures x == NextAssignment(a, major, commitSha, committedAt, attempt)
      ensures majors == old(majors)[major := Appended(a, x)]
    {
      var sequence := Max(committedAt, JsSuccessor(a.highWater));
      x := Assignment(major, sequence, attempt, commitSha, RenderVersion(major, sequence));
      majors := majors[major := a.(highWater := sequence)];
      majors := majors[major := majors[major].(assignments := a.assignments[Key(commitSha, attempt) := x])];
      majors := majors[major := majors[major].(currentAttempts := a.currentAttempts[commitSha := attempt])];
    }

    method Allocate(major: int, commitSha: string, committedAt: int) returns (r: Result<Assignment>)
      modifies this
      ensures Outcome(majors, r) == AllocateStep(old(majors), major, commitSha, committedAt)
    {
      var invalid := InputError(major, commitSha, committedAt);
      if invalid.Some? {
        return Err(invalid.value);
      }
      var a := EnsureMajor(major);
      if commitSha in a.currentAttempts {
        var k := Key(commitSha, a.currentAttempts[commitSha]);
        return if k in a.assignments then Ok(a.assignments[k]) else Err("undefined");
      }
      var x := Append(a, major, commitSha, committedAt, 0);
      assert majors == old(majors)[major := Appended(a, x)];
      return Ok(x);
    }

    method Recover(major: int, commitSha: string, committedAt: int) returns (r: Result<Assignment>)
      modifies this
      ensures Outcome(majors, r) == RecoverStep(old(majors), major, commitSha, committedAt)
    {
      var invalid := InputError(major, commitSha, committedAt);
      if invalid.Some? {
        return Err(invalid.value);
      }
      var a := EnsureMajor(major);
      if commitSha !in a.currentAttempts {
        return Err("cannot recover a commit without an existing assignment");
      }
      var x := Append(a, major, commitSha, committedAt, a.currentAttempts[commitSha] + 1);
      assert majors == old(majors)[major := Appended(a, x)];
      return Ok(x);
    }

    method Snapshot(before: (string, string) -> bool) returns (rows: seq<Assignment>)
      requires StrictOrder(before)
      ensures IsSnapshot(before, majors, rows)
    {
      rows := [];
      var rest := set m, k | m in majors && k in majors[m].assignments :: majors[m].assignments[k];
      while rest != {}
        invariant Elements(rows) + rest == AllRows(majors) && Elements(rows) !! rest
        invariant NoDuplicates(rows)
        invariant forall i, j :: 0 <= i < j < |rows| ==> !before(rows[j].version, rows[i].version)
        invariant forall x, y :: x in rows && y in rest ==> !before(y.version, x.version)
      {
        FirstExists(before, rest);
        var x :| x in rest && forall y | y in rest :: !before(y.version, x.version);
        assert Elements(rows + [x]) == Elements(rows) + {x};
        rows, rest := rows + [x], rest - {x};
      }
    }

    static method FromSnapshot(rows: seq<Assignment>) returns (r: Result<VersionAllocator>)
      ensures match RebuildFrom(map[], rows)
              case Ok(ms) => r.Ok? && fresh(r.value) && r.value.majors == ms
              case Err(message) => r == Err(message)
    {
      var allocator := new VersionAllocator();
      for i := 0 to |rows|
        invariant fresh(allocator)
        invariant RebuildFrom(map[], rows) == RebuildFrom(allocator.majors, rows[i..])
      {
        var x := rows[i];
        assert rows[i..][0] == x && rows[i..][1..] == rows[i + 1..];
        var invalid := InputError(x.major, x.commitSha, x.sequence);
        if invalid.Some? {
          return Err(invalid.value);
        }
        if !IsSafeInteger(x.attempt) || x.attempt < 0 {
          return Err("assignment attempt must be a non-negative safe integer");
        }
        if x.version != RenderVersion(x.major, x.sequence) {
          return Err("assignment has an invalid version: " + x.version);
        }
        var a := ForMajor(allocator.majors, x.major);
        if KeyOf(x) in a.assignments {
          return Err("duplicate assignment: " + x.version);
        }
        allocator.majors := allocator.majors[x.major := Entered(a, x)];
      }
      return Ok(allocator);
    }
  }
}
