/**
 The operation logs of the sandboxes (mcp_qso_edu/sandbox_persistence.py), one
 hash-chained file each, and the verifier that walks them all
 (`_verify_sandbox_root`, tools/mesh_integrity_check.py).
 */
module OperationLogs {
  import opened Common
  import opened HashChain

  /** An operation with its event id and time stamp filled in. */
  type Row = Link<string>
  type Hashing = Hasher<string>

  /** Lines that are not blank, file by file. */
  type Logs = map<string, seq<Row>>

  function RowsOf(logs: Logs, sandbox: string): seq<Row> {
    if sandbox in logs then logs[sandbox] else []
  }

  class OperationStore {
    var logs: Logs

    constructor ()
      ensures logs == map[]
    {
      logs := map[];
    }

    /** `append_op`, under the lock of the sandbox's file. */
    method AppendOp(h: Hashing, sandbox: string, operation: string)
      modifies this
      ensures logs == Appended(h, old(logs), Append(sandbox, operation))
    {
      var rows := RowsOf(logs, sandbox);
      var prev := if rows == [] then GENESIS else rows[|rows| - 1].hash;
      if rows != [] && prev == "" {
        prev := h(rows[|rows| - 1].body, rows[|rows| - 1].prev);
      }
      logs := logs[sandbox := rows + [Link(operation, prev, h(operation, prev))]];
    }
  }

  datatype Append = Append(sandbox: string, operation: string)

  function Appended(h: Hashing, logs: Logs, a: Append): Logs {
    logs[a.sandbox := RowsOf(logs, a.sandbox) + [Sealed(h, RowsOf(logs, a.sandbox), a.operation)]]
  }

  /** Appends by any number of writers, in the order in which they got the locks. */
  function AppendedAll(h: Hashing, logs: Logs, run: seq<Append>): Logs {
    if run == [] then logs else Appended(h, AppendedAll(h, logs, run[..|run| - 1]), run[|run| - 1])
  }

  predicate AllChained(h: Hashing, logs: Logs) {
    forall s | s in logs :: Chained(h, logs[s])
  }

  /** The operations appended to one sandbox, in order. */
  function OperationsFor(run: seq<Append>, sandbox: string): seq<string> {
    if run == [] then []
    else
      var n := |run| - 1;
      if run[n].sandbox == sandbox then OperationsFor(run[..n], sandbox) + [run[n].operation]
      else OperationsFor(run[..n], sandbox)
  }

  function Bodies(rows: seq<Row>): seq<string> {
    seq(|rows|, i requires 0 <= i < |rows| => rows[i].body)
  }

  lemma AppendedKeeps(h: Hashing, logs: Logs, a: Append, sandbox: string)
    requires AllChained(h, logs)
    ensures var after := Appended(h, logs, a);
      && AllChained(h, after)
      && Bodies(RowsOf(after, sandbox)) ==
           Bodies(RowsOf(logs, sandbox)) + if a.sandbox == sandbox then [a.operation] else []
  {
    AppendStaysChained(h, RowsOf(logs, a.sandbox), a.operation);
  }

  /** However the writers interleave, every file verifies and holds exactly its own operations in order. */
  lemma {:induction false} AppendsVerify(h: Hashing, run: seq<Append>, sandbox: string)
    ensures AllChained(h, AppendedAll(h, map[], run))
    ensures Bodies(RowsOf(AppendedAll(h, map[], run), sandbox)) == OperationsFor(run, sandbox)
    decreases |run|
  {
    if run != [] {
      var n := |run| - 1;
      AppendsVerify(h, run[..n], sandbox);
      AppendedKeeps(h, AppendedAll(h, map[], run[..n]), run[n], sandbox);
    }
  }

  // ----- the verifier

  datatype Fault = PrevHashMismatch(file: nat, row: nat) | HashMismatch(file: nat, row: nat)

  function Total(files: seq<seq<Row>>): nat {
    if files == [] then 0 else Total(files[..|files| - 1]) + |files[|files| - 1]|
  }

  /** Counting the rows of files one after another. */
  lemma {:induction false} TotalSplits(a: seq<seq<Row>>, b: seq<seq<Row>>)
    ensures Total(a + b) == Total(a) + Total(b)
    ensures |b| == 1 ==> Total(b) == |b[0]|
    decreases |b|
  {
    if b == [] {
      assert a + b == a;
    } else {
      assert (a + b)[..|a + b| - 1] == a + b[..|b| - 1];
      TotalSplits(a, b[..|b| - 1]);
    }
  }

  /** The rows before the fault are sound and counted; its own row breaks the chain in the way it says. */
  ghost predicate FirstFault(h: Hashing, files: seq<seq<Row>>, checked: nat, fault: Fault) {
    && fault.file < |files| && fault.row < |files[fault.file]|
    && (forall f :: 0 <= f < fault.file ==> Chained(h, files[f]))
    && var rows := files[fault.file];
      && Chained(h, rows[..fault.row]) && checked == Total(files[..fault.file]) + fault.row
      && (fault.PrevHashMismatch? <==> rows[fault.row].prev != EndHash(rows[..fault.row]))
      && (fault.HashMismatch? ==> rows[fault.row].hash != h(rows[fault.row].body, rows[fault.row].prev))
  }

  lemma ChainedSnoc(h: Hashing, rows: seq<Row>, i: nat)
    requires i < |rows|
    ensures Chained(h, rows[..i + 1]) <==>
      Chained(h, rows[..i]) && rows[i].prev == EndHash(rows[..i]) && rows[i].hash == h(rows[i].body, rows[i].prev)
    ensures EndHash(rows[..i + 1]) == rows[i].hash
  {
    assert rows[..i + 1][..i] == rows[..i];
  }

  lemma BadPrefix(h: Hashing, rows: seq<Row>, k: nat)
    requires k <= |rows| && !Chained(h, rows[..k])
    ensures !Chained(h, rows)
  {
    if Chained(h, rows) { ChainedPrefix(h, rows, k); }
  }

  /** One file: `bad` is the first row that breaks the chain. */
  method VerifyFile(h: Hashing, rows: seq<Row>) returns (bad: Option<nat>)
    ensures bad.None? <==> Chained(h, rows)
    ensures bad.Some? ==> bad.value < |rows| && Chained(h, rows[..bad.value]) && !Chained(h, rows[..bad.value + 1])
  {
    var prevHash := GENESIS;
    for i := 0 to |rows|
      invariant Chained(h, rows[..i]) && prevHash == EndHash(rows[..i])
    {
      ChainedSnoc(h, rows, i);
      var expected := h(rows[i].body, rows[i].prev);
      if rows[i].prev != prevHash || rows[i].hash != expected {
        BadPrefix(h, rows, i + 1);
        return Some(i);
      }
      prevHash := expected;
    }
    assert rows[..|rows|] == rows;
    return None;
  }

  /** `_verify_sandbox_root`, on the files in their sorted order. */
  method VerifyRoot(h: Hashing, files: seq<seq<Row>>) returns (ok: bool, checked: nat, fault: Option<Fault>)
    ensures ok <==> forall f :: 0 <= f < |files| ==> Chained(h, files[f])
    ensures ok ==> checked == Total(files) && fault == None
    ensures !ok ==> fault.Some? && FirstFault(h, files, checked, fault.value)
  {
    checked := 0;
    for f := 0 to |files|
      invariant forall g :: 0 <= g < f ==> Chained(h, files[g])
      invariant checked == Total(files[..f])
    {
      assert files[..f + 1][..f] == files[..f];
      var bad := VerifyFile(h, files[f]);
      if bad.Some? {
        var rows, i := files[f], bad.value;
        ChainedSnoc(h, rows, i);
        var prevHash := if i == 0 then GENESIS else rows[i - 1].hash;
        assert i > 0 ==> rows[..i][i - 1] == rows[i - 1];
        fault := Some(if rows[i].prev != prevHash then PrevHashMismatch(f, i) else HashMismatch(f, i));
        return false, checked + i, fault;
      }
      checked := checked + |files[f]|;
    }
    assert files[..|files|] == files;
    return true, checked, None;
  }
}
