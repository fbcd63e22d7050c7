/**
 Which statements a run of the migrations executes (cmd/hm-db-migrate/main.go:49-62 and
 142-164): those of every version that it records, in order, each once.
 */
module MigrationStatements {
  import opened MigrationRunner

  /** The statements of the first k files, one after the other. */
  ghost function StatementsOf(parts: Parts, k: nat): seq<string>
    requires k <= |parts| && AllSplit(parts, k)
  {
    if k == 0 then [] else StatementsOf(parts, k - 1) + parts[k - 1].value
  }

  lemma {:induction false} PrefixExecutes(ms: seq<Migration>, parts: Parts, k: nat)
    requires k <= |ms| == |parts| && AllSplit(parts, k)
    ensures Prefix(ms, parts, k).executed == StatementsOf(parts, k)
  {
    if k == 0 {
    } else {
      PrefixExecutes(ms, parts, k - 1);
    }
  }

  /** However often it was interrupted, a completed run has executed every statement of every file once, in order. */
  lemma {:induction false} CompletionExecutesEverything(ms: seq<Migration>, parts: Parts, runs: seq<seq<Fault>>,
                                                        last: seq<Fault>)
    requires Ordered(ms) && |ms| == |parts| && Run(Runs(ms, parts, runs), ms, parts, last, 0).1
    ensures AllSplit(parts, |ms|)
    ensures Run(Runs(ms, parts, runs), ms, parts, last, 0).0.executed == StatementsOf(parts, |ms|)
  {
    var k := RunsLeavePrefix(ms, parts, runs);
    var done := RunExtendsPrefix(ms, parts, k, last, 0);
    PrefixExecutes(ms, parts, done);
  }

  /** After any interrupted runs, the recorded versions are those whose statements were executed. */
  lemma {:induction false} InterruptionExecutesPrefix(ms: seq<Migration>, parts: Parts, runs: seq<seq<Fault>>)
    returns (k: nat)
    requires Ordered(ms) && |ms| == |parts|
    ensures k <= |ms| && AllSplit(parts, k) && Runs(ms, parts, runs).executed == StatementsOf(parts, k)
    ensures forall i :: 0 <= i < |ms| ==> (ms[i].version in Runs(ms, parts, runs).rows <==> i < k)
  {
    k := RunsLeavePrefix(ms, parts, runs);
    PrefixExecutes(ms, parts, k);
    PrefixRows(ms, parts, k);
  }

  // ---------------------------------------------------------------- from any tables

  /** The statements of the versions that are recorded afterwards and were not before. */
  function NewStatements(before: map<int, Applied>, after: map<int, Applied>, ms: seq<Migration>, parts: Parts,
                         i: nat): seq<string>
    requires i <= |ms| == |parts|
    decreases |ms| - i
  {
    if i == |ms| then []
    else
      var own := if ms[i].version !in before && ms[i].version in after && parts[i].Ok? then parts[i].value else [];
      own + NewStatements(before, after, ms, parts, i + 1)
  }

  lemma {:induction false} NothingNew(rows: map<int, Applied>, ms: seq<Migration>, parts: Parts, i: nat)
    requires i <= |ms| == |parts|
    ensures NewStatements(rows, rows, ms, parts, i) == []
    decreases |ms| - i
  {
    if i == |ms| {
    } else {
      NothingNew(rows, ms, parts, i + 1);
    }
  }

  /** A version of no later file does not matter. */
  lemma {:induction false} OtherVersions(before: map<int, Applied>, after: map<int, Applied>, ms: seq<Migration>,
                                         parts: Parts, i: nat, version: int, row: Applied)
    requires i <= |ms| == |parts| && forall j :: i <= j < |ms| ==> ms[j].version != version
    ensures NewStatements(before[version := row], after, ms, parts, i) == NewStatements(before, after, ms, parts, i)
    decreases |ms| - i
  {
    if i == |ms| {
    } else {
      OtherVersions(before, after, ms, parts, i + 1, version, row);
    }
  }

  /** No run removes or changes a row. */
  lemma {:induction false} RowsStay(t: Tables, ms: seq<Migration>, parts: Parts, faults: seq<Fault>, i: nat,
                                    version: int)
    requires i <= |ms| == |parts| && version in t.rows
    ensures version in Run(t, ms, parts, faults, i).0.rows
    ensures Run(t, ms, parts, faults, i).0.rows[version] == t.rows[version]
    decreases |ms| - i
  {
    if i == |ms| {
    } else if FaultAt(faults, i) == NoFault && LookUp(t, ms[i]) == Present {
      RowsStay(t, ms, parts, faults, i + 1, version);
    } else if FaultAt(faults, i) == NoFault && LookUp(t, ms[i]) == Absent && parts[i].Ok? {
      RowsStay(Committed(t, ms[i], parts[i].value), ms, parts, faults, i + 1, version);
    }
  }

  /** From any tables and with any faults, a run executes exactly the statements of the versions that it records. */
  lemma {:induction false} RunExecutesWhatItRecords(t: Tables, ms: seq<Migration>, parts: Parts, faults: seq<Fault>,
                                                    i: nat)
    requires Ordered(ms) && i <= |ms| == |parts|
    ensures var after := Run(t, ms, parts, faults, i).0;
      after.executed == t.executed + NewStatements(t.rows, after.rows, ms, parts, i)
    decreases |ms| - i
  {
    NothingNew(t.rows, ms, parts, i);
    if i == |ms| {
    } else if FaultAt(faults, i) == NoFault && LookUp(t, ms[i]) == Present {
      RunExecutesWhatItRecords(t, ms, parts, faults, i + 1);
    } else if FaultAt(faults, i) != BeforeCommit && LookUp(t, ms[i]) == Absent && parts[i].Ok? {
      CommitExecutes(t, ms, parts, faults, i);
    }
  }

  lemma {:induction false} CommitExecutes(t: Tables, ms: seq<Migration>, parts: Parts, faults: seq<Fault>, i: nat)
    requires Ordered(ms) && i < |ms| == |parts| && parts[i].Ok?
    requires FaultAt(faults, i) != BeforeCommit && LookUp(t, ms[i]) == Absent
    ensures var after := Run(t, ms, parts, faults, i).0;
      after.executed == t.executed + NewStatements(t.rows, after.rows, ms, parts, i)
    decreases |ms| - i, 0
  {
    var m, t', after := ms[i], Committed(t, ms[i], parts[i].value), Run(t, ms, parts, faults, i).0;
    if FaultAt(faults, i) == NoFault {
      RunExecutesWhatItRecords(t', ms, parts, faults, i + 1);
      RowsStay(t', ms, parts, faults, i + 1, m.version);
    } else {
      NothingNew(t'.rows, ms, parts, i + 1);
    }
    OtherVersions(t.rows, after.rows, ms, parts, i + 1, m.version, Applied(m.name, m.checksum));
    assert after.executed == t.executed + parts[i].value + NewStatements(t.rows, after.rows, ms, parts, i + 1);
  }
}
