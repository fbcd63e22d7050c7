/**
 The migration runner (cmd/hm-db-migrate/main.go:49-164): check, apply in one
 transaction, stop at the first failure. A run may be interrupted anywhere; the
 transaction makes one migration atomic.
 */
module MigrationRunner {
  import opened SqlSplitter
  import opened Wrappers

  datatype Migration = Migration(version: int, name: string, sql: string, checksum: string)
  datatype Applied = Applied(name: string, checksum: string)

  /** schema_migrations, and every statement ever committed. */
  datatype Tables = Tables(rows: map<int, Applied>, executed: seq<string>)

  /** What goes wrong while one migration is handled, and when. */
  datatype Fault = NoFault | BeforeCommit | AfterCommit

  datatype Lookup = Absent | Present | ChecksumMismatch

  function FaultAt(faults: seq<Fault>, i: nat): Fault {
    if i < |faults| then faults[i] else NoFault
  }

  function LookUp(t: Tables, m: Migration): Lookup {
    if m.version !in t.rows then Absent
    else if t.rows[m.version].checksum == m.checksum then Present
    else ChecksumMismatch
  }

  function Committed(t: Tables, m: Migration, statements: seq<string>): Tables {
    Tables(t.rows[m.version := Applied(m.name, m.checksum)], t.executed + statements)
  }

  /** What each migration file splits into. */
  type Parts = seq<Result<seq<string>, Error>>

  function PartsOf(ms: seq<Migration>): (parts: Parts)
    ensures |parts| == |ms| && forall i :: 0 <= i < |ms| ==> parts[i] == Split(ms[i].sql)
  {
    seq(|ms|, i requires 0 <= i < |ms| => Split(ms[i].sql))
  }

  /** One run over the migrations from index i: the tables it leaves, and whether it completes. */
  function Run(t: Tables, ms: seq<Migration>, parts: Parts, faults: seq<Fault>, i: nat): (Tables, bool)
    requires i <= |ms| == |parts|
    decreases |ms| - i
  {
    if i == |ms| then (t, true)
    else if FaultAt(faults, i) == BeforeCommit || LookUp(t, ms[i]) == ChecksumMismatch then (t, false)
    else if LookUp(t, ms[i]) == Present then
      if FaultAt(faults, i) == AfterCommit then (t, false) else Run(t, ms, parts, faults, i + 1)
    else if parts[i].Err? then (t, false)
    else
      var t' := Committed(t, ms[i], parts[i].value);
      if FaultAt(faults, i) == AfterCommit then (t', false) else Run(t', ms, parts, faults, i + 1)
  }

  class Database {
    var rows: map<int, Applied>
    var executed: seq<string>

    constructor ()
      ensures State() == Tables(map[], [])
    {
      rows, executed := map[], [];
    }

    function State(): Tables
      reads this
    {
      Tables(rows, executed)
    }

    /** Executes the statements and records the migration, or changes nothing. */
    method ApplyMigration(m: Migration, fault: Fault) returns (ok: bool)
      requires m.version !in rows
      modifies this
      ensures State() ==
        if fault == BeforeCommit || Split(m.sql).Err? then old(State())
        else Committed(old(State()), m, Split(m.sql).value)
      ensures ok == (fault == NoFault && Split(m.sql).Ok?)
    {
      var statements := SplitSQLStatements(m.sql);
      if statements.Err? || fault == BeforeCommit {
        return false;
      }
      Transact(m, statements.value);
      return fault == NoFault;
    }

    /** The statements and the row of one migration, committed together. */
    method Transact(m: Migration, statements: seq<string>)
      modifies this
      ensures State() == Committed(old(State()), m, statements)
    {
      var written := executed;
      for i := 0 to |statements|
        invariant written == executed + statements[..i]
        invariant State() == old(State())
      {
        written := written + [statements[i]];
      }
      executed, rows := written, rows[m.version := Applied(m.name, m.checksum)];
    }

    method RunMigrations(ms: seq<Migration>, faults: seq<Fault>) returns (completed: bool)
      modifies this
      ensures (State(), completed) == Run(old(State()), ms, PartsOf(ms), faults, 0)
    {
      for i := 0 to |ms|
        invariant Run(State(), ms, PartsOf(ms), faults, i) == Run(old(State()), ms, PartsOf(ms), faults, 0)
      {
        var fault := FaultAt(faults, i);
        if fault == BeforeCommit || LookUp(State(), ms[i]) == ChecksumMismatch {
          return false;
        }
        if LookUp(State(), ms[i]) == Present {
          if fault == AfterCommit {
            return false;
          }
        } else {
          var ok := ApplyMigration(ms[i], fault);
          if !ok {
            return false;
          }
        }
      }
      return true;
    }
  }

  // ---------------------------------------------------------------- crash and resume

  /** The migrations in the order `loadMigrations` sorts them, with distinct versions. */
  ghost predicate Ordered(ms: seq<Migration>) {
    forall i, j :: 0 <= i < j < |ms| ==> ms[i].version < ms[j].version
  }

  ghost predicate AllSplit(parts: Parts, k: nat)
    requires k <= |parts|
  {
    forall i :: 0 <= i < k ==> parts[i].Ok?
  }

  /** The tables after exactly the first k migrations, each applied once. */
  ghost function Prefix(ms: seq<Migration>, parts: Parts, k: nat): Tables
    requires k <= |ms| == |parts| && AllSplit(parts, k)
  {
    if k == 0 then Tables(map[], [])
    else Committed(Prefix(ms, parts, k - 1), ms[k - 1], parts[k - 1].value)
  }

  lemma {:induction false} PrefixRows(ms: seq<Migration>, parts: Parts, k: nat)
    requires Ordered(ms) && k <= |ms| == |parts| && AllSplit(parts, k)
    ensures forall i :: 0 <= i < |ms| ==> (ms[i].version in Prefix(ms, parts, k).rows <==> i < k)
    ensures forall i :: 0 <= i < k ==> Prefix(ms, parts, k).rows[ms[i].version] == Applied(ms[i].name, ms[i].checksum)
  {
    if k == 0 {
    } else {
      PrefixRows(ms, parts, k - 1);
    }
  }

  /** From a prefix, any run, interrupted or not, ends at a prefix at least as long. */
  lemma {:induction false} RunExtendsPrefix(ms: seq<Migration>, parts: Parts, k: nat, faults: seq<Fault>, i: nat)
    returns (k': nat)
    requires Ordered(ms) && i <= k <= |ms| == |parts| && AllSplit(parts, k)
    ensures k <= k' <= |ms| && AllSplit(parts, k')
      && Run(Prefix(ms, parts, k), ms, parts, faults, i).0 == Prefix(ms, parts, k')
    ensures Run(Prefix(ms, parts, k), ms, parts, faults, i).1 ==> k' == |ms|
    ensures faults == [] && AllSplit(parts, |ms|) ==> Run(Prefix(ms, parts, k), ms, parts, faults, i).1
    decreases |ms| - i
  {
    PrefixLookUp(ms, parts, k, i);
    k' := k;
    if i < |ms| && FaultAt(faults, i) != BeforeCommit {
      if i < k {
        if FaultAt(faults, i) == NoFault {
          k' := RunExtendsPrefix(ms, parts, k, faults, i + 1);
        }
      } else if parts[i].Ok? {
        k' := k + 1;
        if FaultAt(faults, i) == NoFault {
          k' := RunExtendsPrefix(ms, parts, k + 1, faults, i + 1);
        }
      }
    }
  }

  lemma {:induction false} PrefixLookUp(ms: seq<Migration>, parts: Parts, k: nat, i: nat)
    requires Ordered(ms) && k <= |ms| == |parts| && AllSplit(parts, k)
    ensures i < |ms| ==> LookUp(Prefix(ms, parts, k), ms[i]) == if i < k then Present else Absent
  {
    PrefixRows(ms, parts, k);
  }

  /** The tables after a list of runs from an empty database. */
  ghost function Runs(ms: seq<Migration>, parts: Parts, runs: seq<seq<Fault>>): Tables
    requires |ms| == |parts|
  {
    if runs == [] then Tables(map[], [])
    else Run(Runs(ms, parts, runs[..|runs| - 1]), ms, parts, runs[|runs| - 1], 0).0
  }

  lemma {:induction false} RunsLeavePrefix(ms: seq<Migration>, parts: Parts, runs: seq<seq<Fault>>) returns (k: nat)
    requires Ordered(ms) && |ms| == |parts|
    ensures k <= |ms| && AllSplit(parts, k) && Runs(ms, parts, runs) == Prefix(ms, parts, k)
  {
    if runs == [] {
      k := 0;
    } else {
      k := RunsLeavePrefix(ms, parts, runs[..|runs| - 1]);
      k := RunExtendsPrefix(ms, parts, k, runs[|runs| - 1], 0);
    }
  }

  /** However often earlier runs were interrupted, a completing run ends as one clean run would. */
  lemma {:induction false} ResumedRunsMatchOneRun(ms: seq<Migration>, parts: Parts, runs: seq<seq<Fault>>,
                                                  last: seq<Fault>)
    requires Ordered(ms) && |ms| == |parts| && Run(Runs(ms, parts, runs), ms, parts, last, 0).1
    ensures Run(Runs(ms, parts, runs), ms, parts, last, 0) == Run(Tables(map[], []), ms, parts, [], 0)
  {
    var k := RunsLeavePrefix(ms, parts, runs);
    var resumed := RunExtendsPrefix(ms, parts, k, last, 0);
    var clean := RunExtendsPrefix(ms, parts, 0, [], 0);
  }

  /** What the run executed beyond `before` comes from the migrations from index i up to, not including, `bad`. */
  ghost predicate ExecutedBelow(before: seq<string>, after: seq<string>, parts: Parts, i: nat, bad: nat)
    requires bad <= |parts|
  {
    before <= after && forall s :: s in after[|before|..] ==> ComesFrom(s, parts, i, bad)
  }

  ghost predicate ComesFrom(s: string, parts: Parts, i: nat, bad: nat)
    requires bad <= |parts|
  {
    exists j :: i <= j < bad && parts[j].Ok? && s in parts[j].value
  }

  lemma {:induction false} ExecutedNext(before: seq<string>, after: seq<string>, parts: Parts, i: nat, bad: nat)
    requires i < bad <= |parts| && parts[i].Ok? && ExecutedBelow(before + parts[i].value, after, parts, i + 1, bad)
    ensures ExecutedBelow(before, after, parts, i, bad)
  {
    var own := parts[i].value;
    assert after[|before|..] == own + after[|before + own|..];
    forall s | s in after[|before|..] ensures ComesFrom(s, parts, i, bad) {
      if s !in own {
        assert ComesFrom(s, parts, i + 1, bad);
      }
    }
  }

  /**
   A changed checksum stops the run there: that version and all later ones stay as they
   were, and the run is the one over the migrations before it.
   */
  lemma {:induction false} MismatchStopsLaterVersions(t: Tables, ms: seq<Migration>, parts: Parts, faults: seq<Fault>,
                                                      i: nat, bad: nat)
    requires Ordered(ms) && i <= bad < |ms| == |parts| && LookUp(t, ms[bad]) == ChecksumMismatch
    ensures !Run(t, ms, parts, faults, i).1
    ensures forall v :: v >= ms[bad].version ==>
      (v in Run(t, ms, parts, faults, i).0.rows <==> v in t.rows)
        && (v in t.rows ==> Run(t, ms, parts, faults, i).0.rows[v] == t.rows[v])
    ensures ExecutedBelow(t.executed, Run(t, ms, parts, faults, i).0.executed, parts, i, bad)
    ensures Run(t, ms, parts, faults, i).0 == Run(t, ms[..bad], parts[..bad], faults, i).0
    decreases |ms| - i
  {
    if i < bad && FaultAt(faults, i) != BeforeCommit {
      if LookUp(t, ms[i]) == Present && FaultAt(faults, i) == NoFault {
        MismatchStopsLaterVersions(t, ms, parts, faults, i + 1, bad);
      } else if LookUp(t, ms[i]) == Absent && parts[i].Ok? {
        if FaultAt(faults, i) == NoFault {
          MismatchStopsLaterVersions(Committed(t, ms[i], parts[i].value), ms, parts, faults, i + 1, bad);
        }
        ExecutedNext(t.executed, Run(t, ms, parts, faults, i).0.executed, parts, i, bad);
      }
    }
  }

  // ---------------------------------------------------------------- loading order

  ghost predicate Ascending(ms: seq<Migration>) {
    forall i, j :: 0 <= i < j < |ms| ==> ms[i].version <= ms[j].version
  }

  ghost predicate DistinctVersions(ms: seq<Migration>) {
    forall i, j :: 0 <= i < j < |ms| ==> ms[i].version != ms[j].version
  }

  /** Sorts by version, as `loadMigrations` does with the files of a directory. */
  method LoadMigrations(files: seq<Migration>) returns (ms: seq<Migration>)
    ensures Ascending(ms) && multiset(ms) == multiset(files)
    ensures DistinctVersions(files) ==> Ordered(ms)
  {
    ms := [];
    for i := 0 to |files|
      invariant Ascending(ms) && multiset(ms) == multiset(files[..i])
    {
      ms := InsertByVersion(ms, files[i]);
      assert files[..i + 1] == files[..i] + [files[i]];
    }
    assert files[..|files|] == files;
    if DistinctVersions(files) {
      SortedDistinct(files, ms);
    }
  }

  method InsertByVersion(ms: seq<Migration>, m: Migration) returns (r: seq<Migration>)
    requires Ascending(ms)
    ensures Ascending(r) && multiset(r) == multiset(ms) + multiset{m}
  {
    var j := 0;
    while j < |ms| && ms[j].version < m.version
      invariant 0 <= j <= |ms|
      invariant forall k :: 0 <= k < j ==> ms[k].version < m.version
    {
      j := j + 1;
    }
    r := ms[..j] + [m] + ms[j..];
    InsertedAt(ms, m, j, r);
  }

  lemma {:induction false} InsertedAt(ms: seq<Migration>, m: Migration, j: nat, r: seq<Migration>)
    requires Ascending(ms) && j <= |ms| && r == ms[..j] + [m] + ms[j..]
    requires forall k :: 0 <= k < j ==> ms[k].version < m.version
    requires j < |ms| ==> m.version <= ms[j].version
    ensures Ascending(r) && multiset(r) == multiset(ms) + multiset{m}
  {
    forall k, l | 0 <= k < l < |r| ensures r[k].version <= r[l].version {
      assert r[k] == if k < j then ms[k] else if k == j then m else ms[k - 1];
      assert r[l] == if l < j then ms[l] else if l == j then m else ms[l - 1];
    }
    SameMigrations(ms[..j], ms[j..], m, ms);
  }

  lemma {:induction false} SameMigrations(before: seq<Migration>, after: seq<Migration>, m: Migration,
                                          ms: seq<Migration>)
    requires ms == before + after
    ensures multiset(before + [m] + after) == multiset(ms) + multiset{m}
  {
  }

  /** Sorting files with distinct versions leaves no two versions equal. */
  lemma {:induction false} SortedDistinct(files: seq<Migration>, ms: seq<Migration>)
    requires DistinctVersions(files) && Ascending(ms) && multiset(ms) == multiset(files)
    ensures Ordered(ms)
  {
    forall i, j | 0 <= i < j < |ms| ensures ms[i].version != ms[j].version {
      EqualVersionsClash(files, ms, i, j);
    }
  }

  lemma {:induction false} EqualVersionsClash(files: seq<Migration>, ms: seq<Migration>, i: nat, j: nat)
    requires DistinctVersions(files) && multiset(ms) == multiset(files) && i < j < |ms|
    ensures ms[i].version != ms[j].version
  {
    if ms[i] == ms[j] {
      TwiceIn(ms, i, j);
      OnceIn(files, ms[i]);
    } else {
      assert ms[i] in multiset(files) && ms[j] in multiset(files);
      var k :| 0 <= k < |files| && files[k] == ms[i];
      var l :| 0 <= l < |files| && files[l] == ms[j];
      assert k < l || l < k;
    }
  }

  lemma {:induction false} TwiceIn(ms: seq<Migration>, i: nat, j: nat)
    requires i < j < |ms| && ms[i] == ms[j]
    ensures multiset(ms)[ms[i]] >= 2
  {
    assert ms == ms[..j] + [ms[j]] + ms[j + 1..];
    assert ms[i] in ms[..j];
  }

  lemma {:induction false} OnceIn(files: seq<Migration>, m: Migration)
    requires DistinctVersions(files)
    ensures multiset(files)[m] <= 1
  {
    if files == [] {
    } else {
      var front := files[..|files| - 1];
      OnceIn(front, m);
      assert files == front + [files[|files| - 1]];
      if m == files[|files| - 1] {
        assert m !in front;
      }
    }
  }

  /**
   Two files of one version with different checksums: no run ever completes, and versions
   after them stay unapplied.
   */
  lemma {:induction false} DuplicateVersionNeverCompletes(t: Tables, ms: seq<Migration>, parts: Parts,
                                                          faults: seq<Fault>, i: nat, a: nat, b: nat)
    requires Ascending(ms) && i <= |ms| == |parts| && a < b < |ms|
    requires ms[a].version == ms[b].version && ms[a].checksum != ms[b].checksum
    requires i <= a || (i <= b && ms[a].version in t.rows && t.rows[ms[a].version].checksum == ms[a].checksum)
    ensures !Run(t, ms, parts, faults, i).1
    ensures forall v :: v > ms[a].version ==> (v in Run(t, ms, parts, faults, i).0.rows <==> v in t.rows)
    decreases |ms| - i
  {
    if FaultAt(faults, i) != BeforeCommit {
      if LookUp(t, ms[i]) == Present && FaultAt(faults, i) == NoFault {
        DuplicateVersionNeverCompletes(t, ms, parts, faults, i + 1, a, b);
      } else if LookUp(t, ms[i]) == Absent && parts[i].Ok? && FaultAt(faults, i) == NoFault {
        DuplicateVersionNeverCompletes(Committed(t, ms[i], parts[i].value), ms, parts, faults, i + 1, a, b);
      }
    }
  }

  /** Nothing stops migration j: it is recorded unchanged, or it is the first of its version and splits. */
  ghost predicate Passable(t: Tables, ms: seq<Migration>, parts: Parts, i: nat, j: nat)
    requires i <= j < |ms| == |parts|
  {
    && LookUp(t, ms[j]) != ChecksumMismatch
    && (ms[j].version !in t.rows && FirstOfVersion(ms, i, j) ==> parts[j].Ok?)
    && forall k :: i <= k < j && ms[k].version == ms[j].version ==> ms[k].checksum == ms[j].checksum
  }

  ghost predicate FirstOfVersion(ms: seq<Migration>, i: nat, j: nat)
    requires j < |ms|
  {
    forall k :: i <= k < j ==> ms[k].version != ms[j].version
  }

  /** From any tables, with any faults: exactly when a run completes. */
  lemma {:induction false} CompletesIff(t: Tables, ms: seq<Migration>, parts: Parts, faults: seq<Fault>, i: nat)
    requires i <= |ms| == |parts|
    ensures Run(t, ms, parts, faults, i).1
      <==> forall j :: i <= j < |ms| ==> FaultAt(faults, j) == NoFault && Passable(t, ms, parts, i, j)
    decreases |ms| - i
  {
    if i == |ms| {
    } else if FaultAt(faults, i) != NoFault || LookUp(t, ms[i]) == ChecksumMismatch {
      assert !(FaultAt(faults, i) == NoFault && Passable(t, ms, parts, i, i));
    } else if LookUp(t, ms[i]) == Present {
      CompletesIff(t, ms, parts, faults, i + 1);
      forall j | i < j < |ms| ensures Passable(t, ms, parts, i, j) <==> Passable(t, ms, parts, i + 1, j) {
        PassableAfterPresent(t, ms, parts, i, j);
      }
      assert Passable(t, ms, parts, i, i);
    } else if parts[i].Err? {
      assert !Passable(t, ms, parts, i, i);
    } else {
      var t' := Committed(t, ms[i], parts[i].value);
      CompletesIff(t', ms, parts, faults, i + 1);
      forall j | i < j < |ms| ensures Passable(t, ms, parts, i, j) <==> Passable(t', ms, parts, i + 1, j) {
        PassableAfterCommit(t, ms, parts, i, j);
      }
      assert Passable(t, ms, parts, i, i);
    }
  }

  lemma {:induction false} PassableAfterPresent(t: Tables, ms: seq<Migration>, parts: Parts, i: nat, j: nat)
    requires i < j < |ms| == |parts| && LookUp(t, ms[i]) == Present
    ensures Passable(t, ms, parts, i, j) <==> Passable(t, ms, parts, i + 1, j)
  {
  }

  lemma {:induction false} PassableAfterCommit(t: Tables, ms: seq<Migration>, parts: Parts, i: nat, j: nat)
    requires i < j < |ms| == |parts| && LookUp(t, ms[i]) == Absent && parts[i].Ok?
    ensures Passable(t, ms, parts, i, j) <==> Passable(Committed(t, ms[i], parts[i].value), ms, parts, i + 1, j)
  {
  }

  ghost predicate OneChecksumPerVersion(ms: seq<Migration>) {
    forall i, j :: 0 <= i < j < |ms| && ms[i].version == ms[j].version ==> ms[i].checksum == ms[j].checksum
  }

  ghost predicate FirstFilesSplit(ms: seq<Migration>, parts: Parts)
    requires |ms| == |parts|
  {
    forall j :: 0 <= j < |ms| && FirstOfVersion(ms, 0, j) ==> parts[j].Ok?
  }

  /** On an empty database an undisturbed run completes exactly if no version has two checksums and the files split. */
  lemma {:induction false} FreshRunCompletesIff(ms: seq<Migration>, parts: Parts)
    requires |ms| == |parts|
    ensures Run(Tables(map[], []), ms, parts, [], 0).1 <==> OneChecksumPerVersion(ms) && FirstFilesSplit(ms, parts)
  {
    var empty := Tables(map[], []);
    CompletesIff(empty, ms, parts, [], 0);
    if Run(empty, ms, parts, [], 0).1 {
      forall i, j | 0 <= i < j < |ms| && ms[i].version == ms[j].version ensures ms[i].checksum == ms[j].checksum {
        assert Passable(empty, ms, parts, 0, j);
      }
      forall j | 0 <= j < |ms| && FirstOfVersion(ms, 0, j) ensures parts[j].Ok? {
        assert Passable(empty, ms, parts, 0, j);
      }
    } else {
      var j :| 0 <= j < |ms| && !(FaultAt([], j) == NoFault && Passable(empty, ms, parts, 0, j));
      assert !OneChecksumPerVersion(ms) || !FirstFilesSplit(ms, parts);
    }
  }

  /** Any two different files of one version: the run applies the first and then fails. */
  lemma {:induction false} TwoFilesOfOneVersion(a: Migration, b: Migration)
    requires a.version == b.version && a.checksum != b.checksum && Split(a.sql).Ok?
    ensures Run(Tables(map[], []), [a, b], PartsOf([a, b]), [], 0)
      == (Committed(Tables(map[], []), a, Split(a.sql).value), false)
  {
    var ms, parts := [a, b], PartsOf([a, b]);
    var empty := Tables(map[], []);
    var t := Committed(empty, a, parts[0].value);
    assert LookUp(empty, ms[0]) == Absent && LookUp(t, ms[1]) == ChecksumMismatch;
    assert Run(t, ms, parts, [], 1) == (t, false);
    assert Run(empty, ms, parts, [], 0) == Run(t, ms, parts, [], 1);
  }

  /** The order is determined by the files alone, whatever order the directory lists them in. */
  lemma {:induction false} LoadingOrderIsUnique(a: seq<Migration>, b: seq<Migration>)
    requires Ordered(a) && Ordered(b) && multiset(a) == multiset(b)
    ensures a == b
  {
    if a == [] {
      assert |multiset(b)| == 0;
    } else {
      assert a[0] in multiset(b) && |multiset(b)| == |b|;
      assert b[0] in multiset(a);
      assert a[0] == b[0];
      WithoutFirst(a);
      WithoutFirst(b);
      LoadingOrderIsUnique(a[1..], b[1..]);
    }
  }

  lemma {:induction false} WithoutFirst(ms: seq<Migration>)
    requires ms != []
    ensures ms == [ms[0]] + ms[1..] && multiset(ms[1..]) == multiset(ms) - multiset{ms[0]}
  {
    assert ms == [ms[0]] + ms[1..];
  }
}
