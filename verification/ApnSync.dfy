/** `sync_apn_database` (tools/solis_orange_county_apn_db.py). */
module ApnSync {
  // Batches above a cursor are upserted and committed, then the checkpoint is written. The source is a
  // sequence of rows in id order; a fetch returns its first `batchSize` rows above the cursor.

  import opened Common

  /**
   `apn` is the text of the assessment number after strip(): "None" for a null, empty for a missing or blank one.
   Rows where it is empty are skipped.
   */
  datatype SourceRow = SourceRow(objectId: int, apn: string, details: string)

  datatype Record = Record(apn: string, apnNorm: string, details: string)

  type Table = map<int, Record>

  predicate IsAlnum(c: char) {
    '0' <= c <= '9' || 'a' <= c <= 'z' || 'A' <= c <= 'Z'
  }

  function NormalizeApn(s: string): string {
    if s == [] then [] else (if IsAlnum(s[0]) then [s[0]] else []) + NormalizeApn(s[1..])
  }

  function RecordOf(row: SourceRow): Record {
    Record(row.apn, NormalizeApn(row.apn), row.details)
  }

  predicate Blank(row: SourceRow) {
    row.apn == ""
  }

  ghost predicate InIdOrder(source: seq<SourceRow>) {
    forall i, j :: 0 <= i < j < |source| ==> source[i].objectId < source[j].objectId
  }

  // ----- one batch

  /** The rows above the cursor. */
  function Above(source: seq<SourceRow>, cursor: int): seq<SourceRow> {
    if source == [] then []
    else if source[0].objectId > cursor then source
    else Above(source[1..], cursor)
  }

  function Fetch(source: seq<SourceRow>, cursor: int, batchSize: nat): seq<SourceRow> {
    var rest := Above(source, cursor);
    if |rest| <= batchSize then rest else rest[..batchSize]
  }

  lemma {:induction false} AboveIsSuffix(source: seq<SourceRow>, cursor: int) returns (k: nat)
    requires InIdOrder(source)
    ensures k <= |source| && Above(source, cursor) == source[k..]
    ensures forall i :: 0 <= i < |source| ==> (source[i].objectId > cursor <==> i >= k)
  {
    if source == [] || source[0].objectId > cursor {
      k := 0;
    } else {
      var m := AboveIsSuffix(source[1..], cursor);
      k := m + 1;
      forall i | 0 <= i < |source| ensures source[i].objectId > cursor <==> i >= k {
        if i > 0 { assert source[i] == source[1..][i - 1]; }
      }
    }
  }

  function Useful(rows: seq<SourceRow>): seq<SourceRow> {
    if rows == [] then []
    else
      var n := |rows| - 1;
      if Blank(rows[n]) then Useful(rows[..n]) else Useful(rows[..n]) + [rows[n]]
  }

  lemma {:induction false} UsefulMembers(rows: seq<SourceRow>)
    requires InIdOrder(rows)
    ensures InIdOrder(Useful(rows)) && forall r :: r in Useful(rows) <==> r in rows && !Blank(r)
  {
    if rows != [] {
      var n := |rows| - 1;
      UsefulMembers(rows[..n]);
      assert rows == rows[..n] + [rows[n]];
      forall r | r in Useful(rows[..n]) ensures r.objectId < rows[n].objectId {
        var i :| 0 <= i < n && rows[..n][i] == r;
      }
    }
  }

  // ----- what a table holds

  function Get(table: Table, id: int): Option<Record> {
    if id in table then Some(table[id]) else None
  }

  /** The record the source has for an id. */
  function Lookup(rows: seq<SourceRow>, id: int): Option<Record> {
    if rows == [] then None
    else
      var last := rows[|rows| - 1];
      if last.objectId == id && !Blank(last) then Some(RecordOf(last)) else Lookup(rows[..|rows| - 1], id)
  }

  ghost predicate HasUseful(rows: seq<SourceRow>, r: SourceRow, id: int) {
    r in rows && r.objectId == id && !Blank(r)
  }

  lemma {:induction false} LookupIs(rows: seq<SourceRow>, id: int)
    requires InIdOrder(rows)
    ensures forall r :: HasUseful(rows, r, id) ==> Lookup(rows, id) == Some(RecordOf(r))
    ensures Lookup(rows, id).Some? ==> exists r :: HasUseful(rows, r, id)
  {
    if rows != [] {
      var n := |rows| - 1;
      LookupIs(rows[..n], id);
      assert rows == rows[..n] + [rows[n]];
      forall r | HasUseful(rows, r, id) ensures Lookup(rows, id) == Some(RecordOf(r)) {
        if r != rows[n] {
          assert HasUseful(rows[..n], r, id);
          var i :| 0 <= i < n && rows[i] == r;
          assert rows[i].objectId < rows[n].objectId;
        }
      }
      if Lookup(rows, id).Some? {
        if rows[n].objectId == id && !Blank(rows[n]) {
          assert HasUseful(rows, rows[n], id);
        } else {
          var r :| HasUseful(rows[..n], r, id);
          assert HasUseful(rows, r, id);
        }
      }
    }
  }

  /** `executemany` of the upsert: later rows win. */
  function Upserted(table: Table, rows: seq<SourceRow>): Table {
    if rows == [] then table
    else
      var n := |rows| - 1;
      Upserted(table, rows[..n])[rows[n].objectId := RecordOf(rows[n])]
  }

  lemma {:induction false} UpsertedGet(table: Table, rows: seq<SourceRow>, id: int)
    requires InIdOrder(rows) && forall r :: r in rows ==> !Blank(r)
    ensures Get(Upserted(table, rows), id) == if Lookup(rows, id).Some? then Lookup(rows, id) else Get(table, id)
  {
    if rows != [] {
      var n := |rows| - 1;
      assert forall r :: r in rows[..n] ==> r in rows;
      UpsertedGet(table, rows[..n], id);
      assert rows[n] in rows;
    }
  }

  /** The table is `start` with the source's rows of lo < id <= hi laid over it. */
  ghost predicate Overlaid(source: seq<SourceRow>, start: Table, lo: int, hi: int, table: Table) {
    forall id :: Get(table, id) ==
      if lo < id <= hi && Lookup(source, id).Some? then Lookup(source, id) else Get(start, id)
  }

  /** Everything above lo laid over the start. */
  ghost predicate Complete(source: seq<SourceRow>, start: Table, lo: int, table: Table) {
    forall id :: Get(table, id) == if lo < id && Lookup(source, id).Some? then Lookup(source, id) else Get(start, id)
  }

  lemma SameGetSameTable(a: Table, b: Table)
    requires forall id :: Get(a, id) == Get(b, id)
    ensures a == b
  {
    forall id ensures id in a <==> id in b { assert Get(a, id) == Get(b, id); }
    forall id | id in a ensures a[id] == b[id] { assert Get(a, id) == Get(b, id); }
  }

  // ----- one batch laid over a table

  /** The cursor after a batch: the last id the loop kept, or the old cursor. */
  function MaxSeen(cursor: int, rows: seq<SourceRow>): int
    decreases rows
  {
    if rows == [] then cursor
    else
      var m := MaxSeen(cursor, rows[..|rows| - 1]);
      if rows[|rows| - 1].objectId > m then rows[|rows| - 1].objectId else m
  }

  lemma {:induction false} MaxSeenIsLast(cursor: int, rows: seq<SourceRow>)
    requires InIdOrder(rows) && forall r :: r in rows ==> r.objectId > cursor
    ensures MaxSeen(cursor, rows) == if rows == [] then cursor else rows[|rows| - 1].objectId
  {
    if rows != [] {
      var n := |rows| - 1;
      assert forall r :: r in rows[..n] ==> r in rows;
      MaxSeenIsLast(cursor, rows[..n]);
      assert rows[n] in rows;
    }
  }

  lemma StretchInOrder(source: seq<SourceRow>, k: nat, n: nat)
    requires InIdOrder(source) && k + n <= |source|
    ensures InIdOrder(source[k..k + n])
  {
  }

  lemma StretchAbove(source: seq<SourceRow>, k: nat, n: nat, cursor: int)
    requires k + n <= |source| && forall i :: k <= i < |source| ==> source[i].objectId > cursor
    ensures forall r :: r in source[k..k + n] ==> r in source && r.objectId > cursor
  {
    forall r | r in source[k..k + n] ensures r in source && r.objectId > cursor {
      var i :| 0 <= i < n && source[k..k + n][i] == r;
      assert source[k + i] == r;
    }
  }

  /** A stretch that begins behind the cursor holds every row from there up to its last. */
  lemma StretchHolds(source: seq<SourceRow>, k: nat, n: nat, cursor: int, r: SourceRow)
    requires InIdOrder(source) && 0 < n <= k + n <= |source|
    requires forall i :: 0 <= i < k ==> source[i].objectId <= cursor
    requires r in source && cursor < r.objectId <= source[k + n - 1].objectId
    ensures r in source[k..k + n]
  {
    var i :| 0 <= i < |source| && source[i] == r;
    assert k <= i < k + n;
    assert source[k..k + n][i - k] == r;
  }

  lemma FetchIsStretch(source: seq<SourceRow>, cursor: int, batchSize: nat) returns (k: nat)
    requires InIdOrder(source)
    ensures var batch := Fetch(source, cursor, batchSize);
      && k + |batch| <= |source| && batch == source[k..k + |batch|]
    ensures forall i :: 0 <= i < |source| ==> (source[i].objectId > cursor <==> i >= k)
  {
    k := AboveIsSuffix(source, cursor);
  }

  lemma FetchAbove(source: seq<SourceRow>, cursor: int, batchSize: nat)
    requires InIdOrder(source)
    ensures var batch := Fetch(source, cursor, batchSize);
      InIdOrder(batch) && forall r :: r in batch ==> r in source && r.objectId > cursor
  {
    var k := FetchIsStretch(source, cursor, batchSize);
    var n := |Fetch(source, cursor, batchSize)|;
    StretchInOrder(source, k, n);
    StretchAbove(source, k, n, cursor);
  }

  lemma FetchReaches(source: seq<SourceRow>, cursor: int, batchSize: nat, r: SourceRow)
    requires InIdOrder(source) && Fetch(source, cursor, batchSize) != [] && r in source
    requires var batch := Fetch(source, cursor, batchSize); cursor < r.objectId <= batch[|batch| - 1].objectId
    ensures r in Fetch(source, cursor, batchSize)
  {
    var k := FetchIsStretch(source, cursor, batchSize);
    StretchHolds(source, k, |Fetch(source, cursor, batchSize)|, cursor, r);
  }

  lemma NothingAbove(source: seq<SourceRow>, cursor: int)
    requires InIdOrder(source) && Above(source, cursor) == []
    ensures forall r :: r in source ==> r.objectId <= cursor
  {
    var k := AboveIsSuffix(source, cursor);
  }

  lemma FetchFacts(source: seq<SourceRow>, cursor: int, batchSize: nat)
    requires InIdOrder(source)
    ensures var batch := Fetch(source, cursor, batchSize);
      && InIdOrder(batch) && (forall r :: r in batch ==> r in source && r.objectId > cursor)
      && (batch != [] ==> forall r :: r in source && cursor < r.objectId <= batch[|batch| - 1].objectId ==> r in batch)
      && (batchSize > 0 ==> (batch == [] <==> Above(source, cursor) == []))
      && (Above(source, cursor) == [] ==> forall r :: r in source ==> r.objectId <= cursor)
  {
    var batch := Fetch(source, cursor, batchSize);
    FetchAbove(source, cursor, batchSize);
    forall r | batch != [] && r in source && cursor < r.objectId <= batch[|batch| - 1].objectId ensures r in batch {
      FetchReaches(source, cursor, batchSize, r);
    }
    if Above(source, cursor) == [] { NothingAbove(source, cursor); }
  }

  /** What a batch's useful rows hold is what the source holds between the old and the new cursor. */
  lemma BatchLookup(source: seq<SourceRow>, cursor: int, batchSize: nat, id: int)
    requires InIdOrder(source)
    ensures var rows := Useful(Fetch(source, cursor, batchSize));
      Lookup(rows, id) == if cursor < id <= MaxSeen(cursor, rows) then Lookup(source, id) else None
  {
    var batch := Fetch(source, cursor, batchSize);
    var rows := Useful(batch);
    FetchFacts(source, cursor, batchSize);
    UsefulMembers(batch);
    assert forall r :: r in rows ==> r.objectId > cursor;
    MaxSeenIsLast(cursor, rows);
    LookupIs(rows, id);
    LookupIs(source, id);
    if Lookup(rows, id).Some? {
      var r :| HasUseful(rows, r, id);
      assert HasUseful(source, r, id);
      var i :| 0 <= i < |rows| && rows[i] == r;
    } else if cursor < id <= MaxSeen(cursor, rows) && Lookup(source, id).Some? {
      var r :| HasUseful(source, r, id);
      assert rows[|rows| - 1] in rows && rows[|rows| - 1] in batch;
      LastBounds(batch, rows[|rows| - 1]);
      assert HasUseful(rows, r, id);
    }
  }

  lemma LastBounds(rows: seq<SourceRow>, r: SourceRow)
    requires InIdOrder(rows) && r in rows
    ensures r.objectId <= rows[|rows| - 1].objectId
  {
  }

  /** Committing a batch extends the overlay; repeating one already laid down changes nothing. */
  lemma BatchOverlays(source: seq<SourceRow>, start: Table, lo: int, high: int, cursor: int, batchSize: nat,
                      table: Table)
    requires InIdOrder(source) && lo <= cursor <= high && Overlaid(source, start, lo, high, table)
    ensures var rows := Useful(Fetch(source, cursor, batchSize));
      var next := MaxSeen(cursor, rows);
      Overlaid(source, start, lo, if next > high then next else high, Upserted(table, rows)) && cursor <= next
  {
    var rows := Useful(Fetch(source, cursor, batchSize));
    var next := MaxSeen(cursor, rows);
    var top := if next > high then next else high;
    UsefulAbove(source, cursor, batchSize);
    forall id ensures Get(Upserted(table, rows), id)
      == if lo < id <= top && Lookup(source, id).Some? then Lookup(source, id) else Get(start, id)
    {
      UpsertedGet(table, rows, id);
      BatchLookup(source, cursor, batchSize, id);
    }
  }

  /** The useful rows of a batch lie above the cursor, in order, and raise it if there are any. */
  lemma UsefulAbove(source: seq<SourceRow>, cursor: int, batchSize: nat)
    requires InIdOrder(source)
    ensures var rows := Useful(Fetch(source, cursor, batchSize));
      && InIdOrder(rows) && (forall r :: r in rows ==> !Blank(r) && r.objectId > cursor)
      && MaxSeen(cursor, rows) >= cursor && (MaxSeen(cursor, rows) > cursor <==> rows != [])
      && (rows != [] ==> MaxSeen(cursor, rows) == rows[|rows| - 1].objectId)
  {
    var batch := Fetch(source, cursor, batchSize);
    var rows := Useful(batch);
    FetchFacts(source, cursor, batchSize);
    UsefulMembers(batch);
    assert forall r :: r in rows ==> r.objectId > cursor;
    MaxSeenIsLast(cursor, rows);
    assert rows != [] ==> rows[|rows| - 1] in rows;
  }

  // ----- a run

  datatype Ending = Exhausted | Capped | Raised | Crashed | BadBatchSize

  datatype Outcome = Outcome(table: Table, cursor: int, ending: Ending)

  /** One less of an optional count. */
  function Less(n: Option<nat>): Option<nat> {
    if n.Some? && n.value > 0 then Some(n.value - 1) else n
  }

  /**
   The loop from a table and a cursor. `cap` bounds the batches; `crash` is the number of batches after
   which the process dies between the commit of the rows and the write of the checkpoint.
   */
  ghost function SyncFrom(source: seq<SourceRow>, batchSize: nat, table: Table, cursor: int,
                          cap: Option<nat>, crash: Option<nat>): Outcome
    requires InIdOrder(source) && batchSize > 0
    decreases |Above(source, cursor)|
  {
    if cap == Some(0) then Outcome(table, cursor, Capped)
    else
      var batch := Fetch(source, cursor, batchSize);
      var rows := Useful(batch);
      var next := MaxSeen(cursor, rows);
      if batch == [] then Outcome(table, cursor, Exhausted)
      else if next <= cursor then Outcome(table, cursor, Raised)
      else if crash == Some(0) then Outcome(Upserted(table, rows), cursor, Crashed)
      else
        AboveShrinks(source, cursor, batchSize);
        SyncFrom(source, batchSize, Upserted(table, rows), next, Less(cap), Less(crash))
  }

  /** The last useful row of a list, and nothing useful behind it. */
  lemma LastUseful(rows: seq<SourceRow>) returns (k: nat)
    requires InIdOrder(rows) && Useful(rows) != []
    ensures k < |rows| && rows[k] == Useful(rows)[|Useful(rows)| - 1] && !Blank(rows[k])
    ensures forall j :: k < j < |rows| ==> Blank(rows[j])
  {
    UsefulMembers(rows);
    var last := Useful(rows)[|Useful(rows)| - 1];
    assert last in Useful(rows);
    k :| 0 <= k < |rows| && rows[k] == last;
    forall j | k < j < |rows| ensures Blank(rows[j]) {
      if !Blank(rows[j]) {
        assert rows[j] in Useful(rows);
        LastBounds(Useful(rows), rows[j]);
      }
    }
  }

  lemma AboveOfRow(source: seq<SourceRow>, cursor: int, k: nat)
    requires InIdOrder(source) && k < |Above(source, cursor)|
    ensures Above(source, Above(source, cursor)[k].objectId) == Above(source, cursor)[k + 1..]
  {
    var at := AboveIsSuffix(source, cursor);
    var row := source[at + k];
    var from := AboveIsSuffix(source, row.objectId);
    assert forall i :: 0 <= i < |source| ==> (source[i].objectId > row.objectId <==> i > at + k);
    assert from == at + k + 1;
  }

  /** Where a batch leaves off: after its last useful row. */
  lemma AboveAfterBatch(source: seq<SourceRow>, cursor: int, batchSize: nat) returns (k: nat)
    requires InIdOrder(source) && Useful(Fetch(source, cursor, batchSize)) != []
    ensures var rest := Above(source, cursor);
      && k < |rest| && k < batchSize && !Blank(rest[k])
      && (forall j :: k < j < |rest| && j < batchSize ==> Blank(rest[j]))
      && MaxSeen(cursor, Useful(Fetch(source, cursor, batchSize))) == rest[k].objectId
      && Above(source, rest[k].objectId) == rest[k + 1..]
  {
    var rest, batch := Above(source, cursor), Fetch(source, cursor, batchSize);
    UsefulAbove(source, cursor, batchSize);
    FetchAbove(source, cursor, batchSize);
    k := LastUseful(batch);
    assert forall j :: 0 <= j < |batch| ==> batch[j] == rest[j];
    AboveOfRow(source, cursor, k);
  }

  lemma AboveShrinks(source: seq<SourceRow>, cursor: int, batchSize: nat)
    requires InIdOrder(source) && MaxSeen(cursor, Useful(Fetch(source, cursor, batchSize))) > cursor
    ensures |Above(source, MaxSeen(cursor, Useful(Fetch(source, cursor, batchSize))))| < |Above(source, cursor)|
  {
    var k := AboveAfterBatch(source, cursor, batchSize);
  }

  class SyncState {
    var table: Table
    var checkpoint: int

    constructor ()
      ensures table == map[] && checkpoint == 0
    {
      table, checkpoint := map[], 0;
    }

    method UpsertRows(rows: seq<SourceRow>)
      modifies this`table
      ensures table == Upserted(old(table), rows)
    {
      for k := 0 to |rows|
        invariant table == Upserted(old(table), rows[..k])
      {
        assert rows[..k + 1][..k] == rows[..k];
        table := table[rows[k].objectId := RecordOf(rows[k])];
      }
      assert rows[..|rows|] == rows;
    }

    /** One turn of the loop: fetch, commit, checkpoint; `stop` ends the process between commit and checkpoint. */
    method SyncBatch(source: seq<SourceRow>, batchSize: nat, lastObjectId: int, stop: bool)
      returns (ending: Option<Ending>)
      requires lastObjectId == checkpoint
      modifies this
      ensures ending == TurnEnding(source, batchSize, lastObjectId, stop)
      ensures table ==
        if ending.None? || ending == Some(Crashed) then
          Upserted(old(table), Useful(Fetch(source, lastObjectId, batchSize)))
        else old(table)
      ensures checkpoint ==
        if ending.None? then MaxSeen(lastObjectId, Useful(Fetch(source, lastObjectId, batchSize))) else lastObjectId
    {
      var batch := Fetch(source, lastObjectId, batchSize);
      if batch == [] {
        return Some(Exhausted);
      }
      var rows := Useful(batch);
      var maxSeen := MaxSeen(lastObjectId, rows);
      if maxSeen <= lastObjectId {
        return Some(Raised);
      }
      UpsertRows(rows);
      if stop {
        return Some(Crashed);
      }
      checkpoint := maxSeen;
      return None;
    }

    /** The sync loop and its checkpointing. */
    method Sync(source: seq<SourceRow>, batchSize: int, maxBatches: Option<int>, crash: Option<nat>)
      returns (ending: Ending)
      requires InIdOrder(source)
      modifies this
      ensures batchSize <= 0 ==> ending == BadBatchSize && table == old(table) && checkpoint == old(checkpoint)
      ensures batchSize > 0 ==>
        Outcome(table, checkpoint, ending)
          == SyncFrom(source, batchSize, old(table), old(checkpoint), Cap(maxBatches), crash)
    {
      if batchSize <= 0 {
        return BadBatchSize;
      }
      var completed := 0;
      ghost var goal := SyncFrom(source, batchSize, table, checkpoint, Cap(maxBatches), crash);
      while true
        invariant completed >= 0 && (crash.Some? ==> completed <= crash.value)
        invariant Leads(source, batchSize, table, checkpoint, maxBatches, crash, completed, goal)
        decreases |Above(source, checkpoint)|
      {
        TurnLeads(source, batchSize, table, checkpoint, maxBatches, crash, completed, goal);
        if maxBatches.Some? && completed >= maxBatches.value {
          return Capped;
        }
        var stop := crash.Some? && completed == crash.value;
        var ended := SyncBatch(source, batchSize, checkpoint, stop);
        if ended.Some? {
          return ended.value;
        }
        completed := completed + 1;
      }
    }
  }

  /** From here, after so many batches, the run ends in `goal`. */
  ghost predicate Leads(source: seq<SourceRow>, batchSize: nat, table: Table, cursor: int,
                        maxBatches: Option<int>, crash: Option<nat>, completed: nat, goal: Outcome)
    requires InIdOrder(source) && batchSize > 0 && (crash.Some? ==> completed <= crash.value)
  {
    SyncFrom(source, batchSize, table, cursor, BatchesLeft(maxBatches, completed), StopsIn(crash, completed)) == goal
  }

  function BatchesLeft(maxBatches: Option<int>, completed: nat): Option<nat> {
    Cap(if maxBatches.Some? then Some(maxBatches.value - completed) else None)
  }

  function StopsIn(crash: Option<nat>, completed: nat): Option<nat>
    requires crash.Some? ==> completed <= crash.value
  {
    if crash.Some? then Some(crash.value - completed) else None
  }

  lemma OneBatchLess(maxBatches: Option<int>, crash: Option<nat>, completed: nat)
    requires crash.Some? ==> completed <= crash.value
    ensures BatchesLeft(maxBatches, completed) == Some(0) <==> maxBatches.Some? && completed >= maxBatches.value
    ensures StopsIn(crash, completed) == Some(0) <==> crash.Some? && completed == crash.value
    ensures BatchesLeft(maxBatches, completed) != Some(0) ==>
      Less(BatchesLeft(maxBatches, completed)) == BatchesLeft(maxBatches, completed + 1)
    ensures StopsIn(crash, completed) != Some(0) ==>
      (crash.Some? ==> completed + 1 <= crash.value) && Less(StopsIn(crash, completed)) == StopsIn(crash, completed + 1)
  {
  }

  /** One turn on the way: the cap ends the run, the turn ends it, or it goes on from the turn's table and cursor. */
  lemma TurnLeads(source: seq<SourceRow>, batchSize: nat, table: Table, cursor: int,
                  maxBatches: Option<int>, crash: Option<nat>, completed: nat, goal: Outcome)
    requires InIdOrder(source) && batchSize > 0 && (crash.Some? ==> completed <= crash.value)
    requires Leads(source, batchSize, table, cursor, maxBatches, crash, completed, goal)
    ensures var rows := Useful(Fetch(source, cursor, batchSize));
      var ending := TurnEnding(source, batchSize, cursor, crash.Some? && completed == crash.value);
      var next := MaxSeen(cursor, rows);
      if maxBatches.Some? && completed >= maxBatches.value then goal == Outcome(table, cursor, Capped)
      else if ending.Some? then
        goal == Outcome(if ending == Some(Crashed) then Upserted(table, rows) else table, cursor, ending.value)
      else
        && (crash.Some? ==> completed + 1 <= crash.value)
        && Leads(source, batchSize, Upserted(table, rows), next, maxBatches, crash, completed + 1, goal)
        && |Above(source, next)| < |Above(source, cursor)|
  {
    OneBatchLess(maxBatches, crash, completed);
    if BatchesLeft(maxBatches, completed) != Some(0) {
      SyncTurn(source, batchSize, table, cursor, BatchesLeft(maxBatches, completed), StopsIn(crash, completed));
    }
  }

  /** How a turn that starts at this cursor ends the run, if it does. */
  function TurnEnding(source: seq<SourceRow>, batchSize: nat, cursor: int, stop: bool): Option<Ending> {
    var batch := Fetch(source, cursor, batchSize);
    if batch == [] then Some(Exhausted)
    else if MaxSeen(cursor, Useful(batch)) <= cursor then Some(Raised)
    else if stop then Some(Crashed)
    else None
  }

  /** A run is its first turn, and the rest from there. */
  lemma SyncTurn(source: seq<SourceRow>, batchSize: nat, table: Table, cursor: int, cap: Option<nat>,
                 crash: Option<nat>)
    requires InIdOrder(source) && batchSize > 0 && cap != Some(0)
    ensures var rows := Useful(Fetch(source, cursor, batchSize));
      var ending := TurnEnding(source, batchSize, cursor, crash == Some(0));
      SyncFrom(source, batchSize, table, cursor, cap, crash) ==
        if ending.None? then
          SyncFrom(source, batchSize, Upserted(table, rows), MaxSeen(cursor, rows), Less(cap), Less(crash))
        else Outcome(if ending == Some(Crashed) then Upserted(table, rows) else table, cursor, ending.value)
    ensures TurnEnding(source, batchSize, cursor, crash == Some(0)).None? ==>
      |Above(source, MaxSeen(cursor, Useful(Fetch(source, cursor, batchSize))))| < |Above(source, cursor)|
  {
    if TurnEnding(source, batchSize, cursor, crash == Some(0)).None? { AboveShrinks(source, cursor, batchSize); }
  }

  /** A batch limit below one allows no batch. */
  function Cap(maxBatches: Option<int>): Option<nat> {
    if maxBatches.None? then None else if maxBatches.value < 0 then Some(0) else Some(maxBatches.value)
  }

  // ----- what a run does to the table

  /**
   A run, capped or crashed or not, keeps the table an overlay of the source over the starting table, at
   least up to the checkpoint, and never lowers the checkpoint; a run that exhausts the source completes it.
   */
  lemma {:induction false} RunOverlays(source: seq<SourceRow>, batchSize: nat, start: Table, lo: int, high: int,
                                       table: Table, cursor: int, cap: Option<nat>, crash: Option<nat>)
    returns (high': int)
    requires InIdOrder(source) && batchSize > 0
    requires lo <= cursor <= high && Overlaid(source, start, lo, high, table)
    ensures var out := SyncFrom(source, batchSize, table, cursor, cap, crash);
      && cursor <= out.cursor <= high' && Overlaid(source, start, lo, high', out.table)
      && (out.ending.Exhausted? ==> Complete(source, start, lo, out.table))
    decreases |Above(source, cursor)|
  {
    high' := high;
    var batch := Fetch(source, cursor, batchSize);
    var rows := Useful(batch);
    var next := MaxSeen(cursor, rows);
    FetchFacts(source, cursor, batchSize);
    if cap == Some(0) {
    } else if batch == [] {
      ExhaustedIsComplete(source, start, lo, high, cursor, table);
    } else if next > cursor {
      BatchOverlays(source, start, lo, high, cursor, batchSize, table);
      high' := if next > high then next else high;
      if crash != Some(0) {
        AboveShrinks(source, cursor, batchSize);
        high' := RunOverlays(source, batchSize, start, lo, high', Upserted(table, rows), next, Less(cap), Less(crash));
      }
    }
  }

  lemma ExhaustedIsComplete(source: seq<SourceRow>, start: Table, lo: int, high: int, cursor: int, table: Table)
    requires InIdOrder(source) && cursor <= high && Overlaid(source, start, lo, high, table)
    requires forall r :: r in source ==> r.objectId <= cursor
    ensures Complete(source, start, lo, table)
  {
    forall id | Lookup(source, id).Some? ensures id <= high {
      LookupIs(source, id);
      var r :| HasUseful(source, r, id);
    }
  }

  // ----- when a run raises

  predicate BlankRun(rows: seq<SourceRow>, i: nat, n: nat) {
    i + n <= |rows| && forall j :: i <= j < i + n ==> Blank(rows[j])
  }

  /** A batch-long stretch of blank rows, or a blank row at the very end. */
  predicate Stalls(rows: seq<SourceRow>, batchSize: nat) {
    rows != [] && (Blank(rows[|rows| - 1]) || exists i :: 0 <= i < |rows| && BlankRun(rows, i, batchSize))
  }

  /** Cutting after a useful row that no batch-long stretch can straddle changes nothing. */
  lemma StallsAfter(rows: seq<SourceRow>, batchSize: nat, k: nat)
    requires batchSize > 0 && k < |rows| && k < batchSize && !Blank(rows[k])
    ensures Stalls(rows, batchSize) <==> Stalls(rows[k + 1..], batchSize)
  {
    var rest := rows[k + 1..];
    if Stalls(rows, batchSize) {
      if Blank(rows[|rows| - 1]) {
        assert rest[|rest| - 1] == rows[|rows| - 1];
      } else {
        var i :| 0 <= i < |rows| && BlankRun(rows, i, batchSize);
        assert i > k;
        forall j | i - k - 1 <= j < i - k - 1 + batchSize ensures Blank(rest[j]) { assert rest[j] == rows[j + k + 1]; }
        assert BlankRun(rest, i - k - 1, batchSize);
      }
    }
    if Stalls(rest, batchSize) {
      if Blank(rest[|rest| - 1]) {
        assert rows[|rows| - 1] == rest[|rest| - 1];
      } else {
        var i :| 0 <= i < |rest| && BlankRun(rest, i, batchSize);
        forall j | i + k + 1 <= j < i + k + 1 + batchSize ensures Blank(rows[j]) { assert rows[j] == rest[j - k - 1]; }
        assert BlankRun(rows, i + k + 1, batchSize);
      }
    }
  }

  /** A batch without a useful row is a stall. */
  lemma BlankBatchStalls(source: seq<SourceRow>, cursor: int, batchSize: nat)
    requires InIdOrder(source) && batchSize > 0
    requires Fetch(source, cursor, batchSize) != [] && Useful(Fetch(source, cursor, batchSize)) == []
    ensures Stalls(Above(source, cursor), batchSize)
  {
    var rest, batch := Above(source, cursor), Fetch(source, cursor, batchSize);
    FetchFacts(source, cursor, batchSize);
    UsefulMembers(batch);
    forall j | 0 <= j < |batch| ensures Blank(rest[j]) {
      assert batch[j] == rest[j] && batch[j] in batch && batch[j] !in Useful(batch);
    }
    if |rest| > batchSize { assert BlankRun(rest, 0, batchSize); }
  }

  /** How the rows ahead stall before and after a batch. */
  lemma BatchStall(source: seq<SourceRow>, cursor: int, batchSize: nat)
    requires InIdOrder(source) && batchSize > 0
    ensures var batch := Fetch(source, cursor, batchSize);
      var next := MaxSeen(cursor, Useful(batch));
      && (batch == [] ==> !Stalls(Above(source, cursor), batchSize))
      && (batch != [] && next <= cursor ==> Stalls(Above(source, cursor), batchSize))
      && (next > cursor ==> (Stalls(Above(source, cursor), batchSize) <==> Stalls(Above(source, next), batchSize)))
  {
    FetchFacts(source, cursor, batchSize);
    UsefulAbove(source, cursor, batchSize);
    if Fetch(source, cursor, batchSize) == [] {
    } else if Useful(Fetch(source, cursor, batchSize)) == [] {
      BlankBatchStalls(source, cursor, batchSize);
    } else {
      var k := AboveAfterBatch(source, cursor, batchSize);
      StallsAfter(Above(source, cursor), batchSize, k);
    }
  }

  /** A full run ends by exhausting the source unless the rows above its cursor stall it, and then it raises. */
  lemma {:induction false} RaisesIffStalls(source: seq<SourceRow>, batchSize: nat, table: Table, cursor: int)
    requires InIdOrder(source) && batchSize > 0
    ensures SyncFrom(source, batchSize, table, cursor, None, None).ending
      == if Stalls(Above(source, cursor), batchSize) then Raised else Exhausted
    decreases |Above(source, cursor)|
  {
    var rows := Useful(Fetch(source, cursor, batchSize));
    var next := MaxSeen(cursor, rows);
    BatchStall(source, cursor, batchSize);
    if Fetch(source, cursor, batchSize) != [] && next > cursor {
      AboveShrinks(source, cursor, batchSize);
      RaisesIffStalls(source, batchSize, Upserted(table, rows), next);
    }
  }

  /** No run moves the cursor across a stall or away from one. */
  lemma {:induction false} RunKeepsStall(source: seq<SourceRow>, batchSize: nat, table: Table, cursor: int,
                                         cap: Option<nat>, crash: Option<nat>)
    requires InIdOrder(source) && batchSize > 0
    ensures Stalls(Above(source, SyncFrom(source, batchSize, table, cursor, cap, crash).cursor), batchSize)
      <==> Stalls(Above(source, cursor), batchSize)
    decreases |Above(source, cursor)|
  {
    var rows := Useful(Fetch(source, cursor, batchSize));
    var next := MaxSeen(cursor, rows);
    if cap != Some(0) && Fetch(source, cursor, batchSize) != [] && next > cursor && crash != Some(0) {
      BatchStall(source, cursor, batchSize);
      AboveShrinks(source, cursor, batchSize);
      RunKeepsStall(source, batchSize, Upserted(table, rows), next, Less(cap), Less(crash));
    }
  }

  // ----- any schedule of runs

  datatype Plan = Plan(cap: Option<nat>, crash: Option<nat>)

  /** Run after run, each from the table and checkpoint the last one left. */
  ghost function Schedule(source: seq<SourceRow>, batchSize: nat, table: Table, cursor: int, plans: seq<Plan>): Outcome
    requires InIdOrder(source) && batchSize > 0
    decreases plans
  {
    if plans == [] then Outcome(table, cursor, Capped)
    else
      var out := SyncFrom(source, batchSize, table, cursor, plans[0].cap, plans[0].crash);
      Schedule(source, batchSize, out.table, out.cursor, plans[1..])
  }

  /** The last run of a schedule goes on from the table and checkpoint that the runs before it left. */
  lemma {:induction false} ScheduleSnoc(source: seq<SourceRow>, batchSize: nat, table: Table, cursor: int,
                                        plans: seq<Plan>, last: Plan)
    requires InIdOrder(source) && batchSize > 0
    ensures var before := Schedule(source, batchSize, table, cursor, plans);
      Schedule(source, batchSize, table, cursor, plans + [last]) ==
        var out := SyncFrom(source, batchSize, before.table, before.cursor, last.cap, last.crash);
        Outcome(out.table, out.cursor, Capped)
    decreases plans
  {
    var all := plans + [last];
    if plans == [] {
      assert all == [last] && all[1..] == [];
    } else {
      var out := SyncFrom(source, batchSize, table, cursor, plans[0].cap, plans[0].crash);
      assert all[1..] == plans[1..] + [last];
      ScheduleSnoc(source, batchSize, out.table, out.cursor, plans[1..], last);
    }
  }

  /** Committing a batch again changes nothing. */
  lemma UpsertTwice(source: seq<SourceRow>, cursor: int, batchSize: nat, table: Table)
    requires InIdOrder(source)
    ensures var rows := Useful(Fetch(source, cursor, batchSize));
      Upserted(Upserted(table, rows), rows) == Upserted(table, rows)
  {
    var batch := Fetch(source, cursor, batchSize);
    var rows := Useful(batch);
    FetchFacts(source, cursor, batchSize);
    UsefulMembers(batch);
    var once := Upserted(table, rows);
    forall id ensures Get(Upserted(once, rows), id) == Get(once, id) {
      UpsertedGet(table, rows, id);
      UpsertedGet(once, rows, id);
    }
    SameGetSameTable(Upserted(once, rows), once);
  }

  /** A full run after a capped or crashed one ends as a full run in its place: table, cursor and ending. */
  lemma {:induction false} RunThenFull(source: seq<SourceRow>, batchSize: nat, table: Table, cursor: int,
                                       cap: Option<nat>, crash: Option<nat>)
    requires InIdOrder(source) && batchSize > 0
    ensures var out := SyncFrom(source, batchSize, table, cursor, cap, crash);
      SyncFrom(source, batchSize, out.table, out.cursor, None, None)
      == SyncFrom(source, batchSize, table, cursor, None, None)
    decreases |Above(source, cursor)|
  {
    if cap != Some(0) {
      var rows := Useful(Fetch(source, cursor, batchSize));
      var next := MaxSeen(cursor, rows);
      SyncTurn(source, batchSize, table, cursor, cap, crash);
      SyncTurn(source, batchSize, table, cursor, None, None);
      var ending := TurnEnding(source, batchSize, cursor, crash == Some(0));
      if ending == Some(Crashed) {
        UpsertTwice(source, cursor, batchSize, table);
        SyncTurn(source, batchSize, Upserted(table, rows), cursor, None, None);
      } else if ending.None? {
        RunThenFull(source, batchSize, Upserted(table, rows), next, Less(cap), Less(crash));
      }
    }
  }

  /**
   Resumability: however the work is split into capped and crashed runs, a full run afterwards ends exactly as one
   full run from the start: with the same table, the same cursor and the same ending, raised or not.
   */
  lemma {:induction false} AnyScheduleSameTable(source: seq<SourceRow>, batchSize: nat, table: Table, cursor: int,
                                                plans: seq<Plan>)
    requires InIdOrder(source) && batchSize > 0
    ensures var mid := Schedule(source, batchSize, table, cursor, plans);
      var once := SyncFrom(source, batchSize, table, cursor, None, None);
      && SyncFrom(source, batchSize, mid.table, mid.cursor, None, None) == once
      && (once.ending.Exhausted? ==> Complete(source, table, cursor, once.table))
    decreases plans
  {
    assert Overlaid(source, table, cursor, cursor, table);
    var high := RunOverlays(source, batchSize, table, cursor, cursor, table, cursor, None, None);
    if plans != [] {
      var out := SyncFrom(source, batchSize, table, cursor, plans[0].cap, plans[0].crash);
      RunThenFull(source, batchSize, table, cursor, plans[0].cap, plans[0].crash);
      AnyScheduleSameTable(source, batchSize, out.table, out.cursor, plans[1..]);
    }
  }

  // ----- before the loop: rollover and pruning against the source's id window

  /** Count, smallest and largest id. */
  datatype Stats = Stats(rowCount: nat, minId: int, maxId: int)

  ghost predicate IsStatsOf(ids: set<int>, stats: Stats) {
    && stats.rowCount == |ids|
    && (ids != {} ==> stats.minId in ids && stats.maxId in ids)
    && forall id :: id in ids ==> stats.minId <= id <= stats.maxId
  }

  predicate RangesOverlap(leftMin: int, leftMax: int, rightMin: int, rightMax: int) {
    !(leftMax < rightMin || rightMax < leftMin)
  }

  /** The table to sync into, the cursor to start from, and the checkpoint file's new content if it is rewritten now. */
  datatype Preparation = Preparation(table: Table, cursor: int, written: Option<int>)

  function Prepare(table: Table, checkpoint: int, local: Stats, source: Stats): Preparation {
    if source.rowCount > 0 && local.rowCount > 0
      && !RangesOverlap(local.minId, local.maxId, source.minId, source.maxId) then
      Preparation(map[], 0, None)
    else if source.rowCount > 0 then
      var kept := map id | id in table && source.minId <= id <= source.maxId :: table[id];
      if (exists id :: id in table && id > source.maxId) && checkpoint > source.maxId then
        var reset := if source.minId - 1 > 0 then source.minId - 1 else 0;
        Preparation(kept, reset, Some(reset))
      else Preparation(kept, checkpoint, None)
    else Preparation(table, checkpoint, None)
  }

  predicate Within(id: int, lo: int, hi: int) {
    lo <= id <= hi
  }

  /** Some number lies in both windows. */
  ghost predicate Meet(a: Stats, b: Stats) {
    exists id :: Within(id, a.minId, a.maxId) && Within(id, b.minId, b.maxId)
  }

  lemma OverlapIff(a: Stats, b: Stats)
    requires a.minId <= a.maxId && b.minId <= b.maxId
    ensures RangesOverlap(a.minId, a.maxId, b.minId, b.maxId) <==> Meet(a, b)
  {
    var top := if a.minId < b.minId then b.minId else a.minId;
    if RangesOverlap(a.minId, a.maxId, b.minId, b.maxId) {
      assert Within(top, a.minId, a.maxId) && Within(top, b.minId, b.maxId);
    }
  }

  /**
   Whichever branch is taken, the preparation leaves just the rows inside the source's window. It starts over from 0
   if there were rows and their window does not meet the source's, from just below the source's window if rows were cut
   off above it and the checkpoint lay above it too, and from the checkpoint otherwise. Only the second is written.
   Without rows in the source nothing is prepared.
   */
  lemma PrepareExplained(table: Table, checkpoint: int, local: Stats, stats: Stats)
    requires IsStatsOf(table.Keys, local) && (stats.rowCount > 0 ==> stats.minId <= stats.maxId)
    ensures var p := Prepare(table, checkpoint, local, stats);
      if stats.rowCount == 0 then p == Preparation(table, checkpoint, None)
      else
        && (forall id :: Get(p.table, id) == if Within(id, stats.minId, stats.maxId) then Get(table, id) else None)
        && (if table != map[] && !Meet(local, stats) then p.cursor == 0 && p.written == None
            else if table != map[] && local.maxId > stats.maxId && checkpoint > stats.maxId then
              && p.written == Some(p.cursor) && p.cursor >= 0
              && (p.cursor == stats.minId - 1 || stats.minId - 1 < p.cursor == 0)
            else p.written == None && p.cursor == checkpoint)
  {
    if table == map[] {
      assert table.Keys == {};
    } else if stats.rowCount > 0 {
      var x := MemberOf(table.Keys);
      assert local.minId <= x <= local.maxId && local.rowCount > 0;
      OverlapIff(local, stats);
      assert local.maxId in table;
      assert forall id :: id in table ==> id in table.Keys;
      if !Meet(local, stats) {
        forall id | id in table ensures !Within(id, stats.minId, stats.maxId) {
          assert Within(id, local.minId, local.maxId);
        }
      }
    }
  }

  /** The ranges of two non-empty tables overlap whenever one id of the first lies in the second's range. */
  lemma InsideOverlaps(ids: set<int>, local: Stats, source: Stats)
    requires IsStatsOf(ids, local)
    requires exists id :: id in ids && source.minId <= id <= source.maxId
    ensures RangesOverlap(local.minId, local.maxId, source.minId, source.maxId)
  {
  }

  /** On a table inside the source's window the preparation does nothing: repeated runs on one source only loop. */
  lemma InsideWindowUntouched(table: Table, checkpoint: int, local: Stats, source: Stats)
    requires IsStatsOf(table.Keys, local)
    requires forall id :: id in table ==> source.minId <= id <= source.maxId
    ensures Prepare(table, checkpoint, local, source) == Preparation(table, checkpoint, None)
  {
    if table != map[] {
      var id :| id in table;
      assert id in table.Keys;
      InsideOverlaps(table.Keys, local, source);
    } else {
      assert table.Keys == {};
    }
    if source.rowCount > 0 {
      assert (map id | id in table && source.minId <= id <= source.maxId :: table[id]) == table;
    }
  }

  /** A rollover that runs through rebuilds the table from the source alone. */
  lemma RolloverRebuilds(source: seq<SourceRow>, batchSize: nat, table: Table, checkpoint: int, local: Stats,
                         stats: Stats)
    requires InIdOrder(source) && batchSize > 0 && !Stalls(Above(source, 0), batchSize)
    requires stats.rowCount > 0 && local.rowCount > 0
      && !RangesOverlap(local.minId, local.maxId, stats.minId, stats.maxId)
    ensures var p := Prepare(table, checkpoint, local, stats);
      var out := SyncFrom(source, batchSize, p.table, p.cursor, None, None);
      out.ending == Exhausted && forall id :: Get(out.table, id) == if id > 0 then Lookup(source, id) else None
  {
    RaisesIffStalls(source, batchSize, map[], 0);
    var high := RunOverlays(source, batchSize, map[], 0, 0, map[], 0, None, None);
  }

  /**
   The checkpoint file keeps its old content until a batch completes. If the process dies before that,
   after the old table is gone or pruned, the next run starts from the stale checkpoint with whatever
   table is left. It then ends with every useful row of the source exactly when the rows at or below the
   stale checkpoint were already there.
   */
  lemma StaleCheckpointCompleteIff(source: seq<SourceRow>, batchSize: nat, left: Table, stale: int)
    requires InIdOrder(source) && batchSize > 0 && !Stalls(Above(source, stale), batchSize)
    ensures var out := SyncFrom(source, batchSize, left, stale, None, None);
      && out.ending == Exhausted
      && ((forall id :: Lookup(source, id).Some? ==> Get(out.table, id) == Lookup(source, id))
          <==> (forall id :: id <= stale && Lookup(source, id).Some? ==> Get(left, id) == Lookup(source, id)))
  {
    RaisesIffStalls(source, batchSize, left, stale);
    assert Overlaid(source, left, stale, stale, left);
    var high := RunOverlays(source, batchSize, left, stale, stale, left, stale, None, None);
    var out := SyncFrom(source, batchSize, left, stale, None, None);
    assert forall id :: id <= stale ==> Get(out.table, id) == Get(left, id);
  }

  /**
   The worst of these: a rollover to smaller ids, interrupted before its first batch, leaves the
   table empty for good.
   */
  lemma InterruptedRolloverStaysEmpty(source: seq<SourceRow>, batchSize: nat, stale: int, local: Stats, stats: Stats)
    requires InIdOrder(source) && batchSize > 0
    requires forall r :: r in source ==> r.objectId <= stale
    requires IsStatsOf({}, local)
    ensures var p := Prepare(map[], stale, local, stats);
      SyncFrom(source, batchSize, p.table, p.cursor, None, None) == Outcome(map[], stale, Exhausted)
  {
    var k := AboveIsSuffix(source, stale);
    assert forall i :: 0 <= i < |source| ==> source[i] in source;
  }

  ghost predicate StatsOfSource(source: seq<SourceRow>, stats: Stats) {
    stats.rowCount == |source| > 0 && forall r :: r in source ==> stats.minId <= r.objectId <= stats.maxId
  }

  /** The table holds the source's useful rows and nothing else. */
  ghost predicate MirrorsSource(source: seq<SourceRow>, table: Table) {
    forall id :: Get(table, id) == Lookup(source, id)
  }

  /**
   Pruning followed by a full run: above the cursor the source's rows, elsewhere what stood inside the source's
   window. The table ends as a mirror of the source exactly when, inside the window, the old rows up to the cursor
   were the source's, and those above it are rows the source still has.
   */
  lemma PrunedThenSynced(source: seq<SourceRow>, batchSize: nat, table: Table, checkpoint: int,
      local: Stats, stats: Stats)
    requires InIdOrder(source) && batchSize > 0 && StatsOfSource(source, stats)
    requires local.rowCount > 0 ==> RangesOverlap(local.minId, local.maxId, stats.minId, stats.maxId)
    requires !Stalls(Above(source, Prepare(table, checkpoint, local, stats).cursor), batchSize)
    ensures var p := Prepare(table, checkpoint, local, stats);
      var out := SyncFrom(source, batchSize, p.table, p.cursor, None, None);
      && out.ending == Exhausted
      && (forall id :: Get(out.table, id) ==
            if id > p.cursor && Lookup(source, id).Some? then Lookup(source, id)
            else if stats.minId <= id <= stats.maxId then Get(table, id) else None)
      && (MirrorsSource(source, out.table) <==>
            forall id :: stats.minId <= id <= stats.maxId ==>
              if id <= p.cursor then Get(table, id) == Lookup(source, id)
              else id in table ==> Lookup(source, id).Some?)
  {
    var p := Prepare(table, checkpoint, local, stats);
    var out := SyncFrom(source, batchSize, p.table, p.cursor, None, None);
    RaisesIffStalls(source, batchSize, p.table, p.cursor);
    assert Overlaid(source, p.table, p.cursor, p.cursor, p.table);
    var high := RunOverlays(source, batchSize, p.table, p.cursor, p.cursor, p.table, p.cursor, None, None);
    forall id | Lookup(source, id).Some? ensures stats.minId <= id <= stats.maxId { LookupIs(source, id); }
    assert forall id :: Get(p.table, id) == if stats.minId <= id <= stats.maxId then Get(table, id) else None;
    WindowMirrorsIff(source, stats, p.cursor, table, out.table);
  }

  lemma WindowMirrorsIff(source: seq<SourceRow>, stats: Stats, cursor: int, before: Table, after: Table)
    requires forall id :: Lookup(source, id).Some? ==> stats.minId <= id <= stats.maxId
    requires forall id ::
      Get(after, id) == if id > cursor && Lookup(source, id).Some? then Lookup(source, id)
                        else if stats.minId <= id <= stats.maxId then Get(before, id)
                        else None
    ensures MirrorsSource(source, after) <==>
      forall id :: stats.minId <= id <= stats.maxId ==>
        if id <= cursor then Get(before, id) == Lookup(source, id)
        else id in before ==> Lookup(source, id).Some?
  {
    if MirrorsSource(source, after) {
      forall id | stats.minId <= id <= stats.maxId
        ensures if id <= cursor then Get(before, id) == Lookup(source, id)
                else id in before ==> Lookup(source, id).Some?
      {
        assert Get(after, id) == Lookup(source, id);
      }
    }
  }

  // ----- whole runs: preparation and loop

  /** Count, smallest and largest id of a table; of an empty one only the count means anything. */
  ghost function StatsOf(ids: set<int>): (stats: Stats)
    ensures IsStatsOf(ids, stats)
  {
    if ids == {} then Stats(0, 0, 0)
    else
      EndsExist(ids);
      var lo, hi :| lo in ids && hi in ids && forall id :: id in ids ==> lo <= id <= hi;
      Stats(|ids|, lo, hi)
  }

  lemma MemberOf<T>(s: set<T>) returns (x: T)
    requires s != {}
    ensures x in s
  {
    x :| x in s;
  }

  lemma {:induction false} Ends(ids: set<int>) returns (lo: int, hi: int)
    requires ids != {}
    ensures lo in ids && hi in ids && forall id :: id in ids ==> lo <= id <= hi
    decreases ids
  {
    var x := MemberOf(ids);
    var rest := ids - {x};
    assert forall id :: id in ids ==> id == x || id in rest;
    lo, hi := x, x;
    if rest != {} {
      var low, high := Ends(rest);
      lo, hi := if x < low then x else low, if x > high then x else high;
    }
  }

  lemma EndsExist(ids: set<int>)
    requires ids != {}
    ensures exists lo, hi :: lo in ids && hi in ids && forall id :: id in ids ==> lo <= id <= hi
  {
    var lo, hi := Ends(ids);
  }

  /** `sync_apn_database`: the table's own window is read, the preparation made, and the loop run. */
  ghost function WholeRun(source: seq<SourceRow>, batchSize: nat, table: Table, checkpoint: int, stats: Stats,
                          cap: Option<nat>, crash: Option<nat>): Outcome
    requires InIdOrder(source) && batchSize > 0
  {
    var p := Prepare(table, checkpoint, StatsOf(table.Keys), stats);
    SyncFrom(source, batchSize, p.table, p.cursor, cap, crash)
  }

  ghost function WholeSchedule(source: seq<SourceRow>, batchSize: nat, table: Table, checkpoint: int, stats: Stats,
                               plans: seq<Plan>): Outcome
    requires InIdOrder(source) && batchSize > 0
    decreases plans
  {
    if plans == [] then Outcome(table, checkpoint, Capped)
    else
      var out := WholeRun(source, batchSize, table, checkpoint, stats, plans[0].cap, plans[0].crash);
      WholeSchedule(source, batchSize, out.table, out.cursor, stats, plans[1..])
  }

  lemma {:induction false} WholeScheduleSnoc(source: seq<SourceRow>, batchSize: nat, table: Table, checkpoint: int,
                                             stats: Stats, plans: seq<Plan>, last: Plan)
    requires InIdOrder(source) && batchSize > 0
    ensures var before := WholeSchedule(source, batchSize, table, checkpoint, stats, plans);
      WholeSchedule(source, batchSize, table, checkpoint, stats, plans + [last]) ==
        var out := WholeRun(source, batchSize, before.table, before.cursor, stats, last.cap, last.crash);
        Outcome(out.table, out.cursor, Capped)
    decreases plans
  {
    var all := plans + [last];
    if plans == [] {
      assert all == [last] && all[1..] == [];
    } else {
      var out := WholeRun(source, batchSize, table, checkpoint, stats, plans[0].cap, plans[0].crash);
      assert all[1..] == plans[1..] + [last];
      WholeScheduleSnoc(source, batchSize, out.table, out.cursor, stats, plans[1..], last);
    }
  }

  ghost predicate InsideWindow(table: Table, stats: Stats) {
    forall id :: id in table ==> stats.minId <= id <= stats.maxId
  }

  /** A run over a source inside its window keeps the table inside it, and on such a table it is only the loop. */
  lemma WholeRunLoops(source: seq<SourceRow>, batchSize: nat, table: Table, checkpoint: int, stats: Stats,
                      cap: Option<nat>, crash: Option<nat>)
    requires InIdOrder(source) && batchSize > 0 && InsideWindow(table, stats)
    requires forall r :: r in source ==> stats.minId <= r.objectId <= stats.maxId
    ensures var out := SyncFrom(source, batchSize, table, checkpoint, cap, crash);
      WholeRun(source, batchSize, table, checkpoint, stats, cap, crash) == out && InsideWindow(out.table, stats)
  {
    InsideWindowUntouched(table, checkpoint, StatsOf(table.Keys), stats);
    assert Overlaid(source, table, checkpoint, checkpoint, table);
    var high := RunOverlays(source, batchSize, table, checkpoint, checkpoint, table, checkpoint, cap, crash);
    var out := SyncFrom(source, batchSize, table, checkpoint, cap, crash);
    forall id | id in out.table ensures stats.minId <= id <= stats.maxId {
      LookupIs(source, id);
      assert Get(out.table, id).Some?;
      assert Lookup(source, id).Some? || Get(table, id).Some?;
    }
  }

  /**
   Resumability of whole runs, preparation included: on a table inside the window of an unchanging source, however
   the work is split, a full run afterwards ends exactly as one full run from the start.
   */
  lemma {:induction false} AnyWholeScheduleSameTable(source: seq<SourceRow>, batchSize: nat, table: Table,
                                                     checkpoint: int, stats: Stats, plans: seq<Plan>)
    requires InIdOrder(source) && batchSize > 0 && InsideWindow(table, stats)
    requires forall r :: r in source ==> stats.minId <= r.objectId <= stats.maxId
    ensures var mid := WholeSchedule(source, batchSize, table, checkpoint, stats, plans);
      WholeRun(source, batchSize, mid.table, mid.cursor, stats, None, None)
      == WholeRun(source, batchSize, table, checkpoint, stats, None, None)
    decreases plans
  {
    if plans != [] {
      var cap, crash := plans[0].cap, plans[0].crash;
      var out := SyncFrom(source, batchSize, table, checkpoint, cap, crash);
      WholeRunLoops(source, batchSize, table, checkpoint, stats, cap, crash);
      WholeRunLoops(source, batchSize, table, checkpoint, stats, None, None);
      WholeRunLoops(source, batchSize, out.table, out.cursor, stats, None, None);
      RunThenFull(source, batchSize, table, checkpoint, cap, crash);
      AnyWholeScheduleSameTable(source, batchSize, out.table, out.cursor, stats, plans[1..]);
    }
  }

  // ----- two inputs

  /** A single row without an assessment number makes a full run raise, and every run after it. */
  lemma BlankRowRaises(id: int, details: string, batchSize: nat, table: Table, cursor: int)
    requires batchSize > 0 && id > cursor
    ensures SyncFrom([SourceRow(id, "", details)], batchSize, table, cursor, None, None)
      == Outcome(table, cursor, Raised)
  {
    var source := [SourceRow(id, "", details)];
    assert source[..0] == [] && source[..1] == source;
    assert Fetch(source, cursor, batchSize) == source && Useful(source) == [];
  }

  /**
   The source has ids 1 and 3, the table 2 and 5, the checkpoint is 5: pruning cuts off 5 and resets the checkpoint,
   the run completes, and the row 2, which the source no longer has, is still there.
   */
  lemma PrunedKeepsGoneRow(one: SourceRow, three: SourceRow, two: Record, five: Record)
    requires one.objectId == 1 && three.objectId == 3 && !Blank(one) && !Blank(three)
    ensures var table, stats := map[2 := two, 5 := five], Stats(2, 1, 3);
      var p := Prepare(table, 5, Stats(2, 2, 5), stats);
      var out := SyncFrom([one, three], 10, p.table, p.cursor, None, None);
      && IsStatsOf(table.Keys, Stats(2, 2, 5)) && p.written == Some(0) && out.ending == Exhausted
      && Get(out.table, 2) == Some(two) && Lookup([one, three], 2) == None
      && !MirrorsSource([one, three], out.table)
  {
    var source, table, stats := [one, three], map[2 := two, 5 := five], Stats(2, 1, 3);
    assert table.Keys == {2, 5} && 5 in table;
    assert source[..1] == [one] && [one][..0] == [];
    assert source == [one] + [three];
    var p := Prepare(table, 5, Stats(2, 2, 5), stats);
    assert Above(source, p.cursor) == source;
    PrunedThenSynced(source, 10, table, 5, Stats(2, 2, 5), stats);
    LookupIs(source, 2);
    assert Lookup(source, 2) == None;
    var out := SyncFrom(source, 10, p.table, p.cursor, None, None);
    assert Get(out.table, 2) == Get(table, 2) == Some(two);
  }

  // ----- what a row becomes

  lemma Associates(a: string, b: string, c: string)
    ensures a + b + c == a + (b + c)
  {
  }

  /** Normalising works character by character. */
  lemma {:induction false} NormalizeConcat(a: string, b: string)
    ensures NormalizeApn(a + b) == NormalizeApn(a) + NormalizeApn(b)
    decreases |a|
  {
    if a == "" {
      assert a + b == b;
    } else {
      var head := if IsAlnum(a[0]) then [a[0]] else [];
      NormalizeConcat(a[1..], b);
      assert (a + b)[0] == a[0] && (a + b)[1..] == a[1..] + b;
      Associates(head, NormalizeApn(a[1..]), NormalizeApn(b));
    }
  }

  /** Of one character, a letter or digit stays and anything else goes. */
  lemma NormalizeOne(c: char)
    ensures NormalizeApn([c]) == if '0' <= c <= '9' || 'a' <= c <= 'z' || 'A' <= c <= 'Z' then [c] else ""
  {
    assert [c][1..] == "";
  }

  /**
   After a full run that exhausts the source, every useful row above the first cursor is in the table under its id, with
   its number as it is, its number normalised, and its details.
   */
  lemma RowsAreStored(source: seq<SourceRow>, batchSize: nat, table: Table, cursor: int, row: SourceRow)
    requires InIdOrder(source) && batchSize > 0 && !Stalls(Above(source, cursor), batchSize)
    requires row in source && row.apn != "" && row.objectId > cursor
    ensures Get(SyncFrom(source, batchSize, table, cursor, None, None).table, row.objectId)
      == Some(Record(row.apn, NormalizeApn(row.apn), row.details))
  {
    RaisesIffStalls(source, batchSize, table, cursor);
    assert Overlaid(source, table, cursor, cursor, table);
    var high := RunOverlays(source, batchSize, table, cursor, cursor, table, cursor, None, None);
    LookupIs(source, row.objectId);
    assert HasUseful(source, row, row.objectId);
  }
}
