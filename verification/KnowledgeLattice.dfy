/** The knowledge lattice (qso_xr/knowledge_lattice.py). */
module KnowledgeLattice {
  // Claims folded from a hash-chained event file, reopening the file, and merging a sandbox's claims.

  import opened Common
  import opened HashChain
  import opened Ordering
  import opened Text
  import Sorting

  // ----- claims

  datatype Claim = Claim(section: string, claimId: string, statement: string, confidence: real)

  /** A row as it arrives: any field may be missing, and a confidence that is not a number counts as missing. */
  datatype RawClaim = RawClaim(section: Option<string>, claimId: Option<string>, statement: Option<string>,
      confidence: Option<real>)

  datatype Error = BlankId | ChainBroken | HashMismatch | Conflict(count: nat)

  const MICRO := 1_000_000.0

  /** `round(x, 6)`: to the nearest millionth, halves to the even one. */
  function Round6(x: real): real {
    var y := x * MICRO;
    var n := y.Floor;
    var f := y - n as real;
    (if f < 0.5 || (f == 0.5 && n % 2 == 0) then n else n + 1) as real / MICRO
  }

  /** `_safe_confidence` */
  function SafeConfidence(value: Option<real>): real {
    var f := if value.Some? then value.value else 0.5;
    if f < 0.0 then 0.0 else if f > 1.0 then 1.0 else Round6(f)
  }

  function OrElse(field: Option<string>, missing: string): string {
    if field.Some? then field.value else missing
  }

  /** `_normalize_claim` */
  function Normalize(row: RawClaim): Result<Claim, Error> {
    var id := Strip(OrElse(row.claimId, ""));
    if id == "" then Err(BlankId)
    else Ok(Claim(OrElse(row.section, "unknown"), id, OrElse(row.statement, ""), SafeConfidence(row.confidence)))
  }

  function AsRow(c: Claim): RawClaim {
    RawClaim(Some(c.section), Some(c.claimId), Some(c.statement), Some(c.confidence))
  }

  lemma RoundTwice(x: real)
    requires 0.0 <= x <= 1.0
    ensures 0.0 <= Round6(x) <= 1.0 && Round6(Round6(x)) == Round6(x)
  {
    var n := (x * MICRO).Floor;
    var k := if x * MICRO - n as real < 0.5 || (x * MICRO - n as real == 0.5 && n % 2 == 0) then n else n + 1;
    assert 0 <= k <= 1_000_000;
    assert (k as real / MICRO) * MICRO == k as real;
  }

  /** A claim that has been normalised is written, read back and normalised to itself. */
  lemma NormalizeTwice(row: RawClaim)
    requires Normalize(row).Ok?
    ensures Normalize(AsRow(Normalize(row).value)) == Normalize(row)
  {
    StripTwice(OrElse(row.claimId, ""));
    var f := if row.confidence.Some? then row.confidence.value else 0.5;
    if 0.0 <= f <= 1.0 { RoundTwice(f); } else { RoundTwice(0.0); RoundTwice(1.0); ExactEnds(); }
  }

  /** x lies within half a step of this number of steps, and halfway only if the number is even. */
  predicate Nearest(x: real, n: int) {
    -0.5 <= x - n as real <= 0.5 && (x - n as real == 0.5 || x - n as real == -0.5 ==> n % 2 == 0)
  }

  lemma RoundsToNearest(x: real) returns (n: int)
    ensures Nearest(x * MICRO, n) && Round6(x) == n as real / MICRO
  {
    var y := x * MICRO;
    var f := y - y.Floor as real;
    n := if f < 0.5 || (f == 0.5 && y.Floor % 2 == 0) then y.Floor else y.Floor + 1;
  }

  /**
   A row is refused exactly when its id is blank. The claim it gives has the id without the space around it, the section
   or "unknown", the statement or nothing, and the confidence, a half when there is none, moved into 0 to 1 and rounded
   to the nearest millionth.
   */
  lemma NormalizeGives(row: RawClaim) returns (n: int)
    ensures Normalize(row).Err? <==> row.claimId.None? || AllSpace(row.claimId.value)
    ensures Normalize(row).Ok? ==>
      var c, given := Normalize(row).value, if row.confidence.Some? then row.confidence.value else 0.5;
      && row.claimId == Some(row.claimId.value) && c.claimId == Strip(row.claimId.value) != ""
      && (if row.section.Some? then Some(c.section) == row.section else c.section == "unknown")
      && (if row.statement.Some? then Some(c.statement) == row.statement else c.statement == "")
      && (if given < 0.0 then c.confidence == 0.0 else if given > 1.0 then c.confidence == 1.0
          else c.confidence == n as real / MICRO && Nearest(given * MICRO, n))
  {
    n := RoundsToNearest(if row.confidence.Some? then row.confidence.value else 0.5);
    var left, right := StripIs(OrElse(row.claimId, ""));
  }

  lemma ExactEnds()
    ensures Round6(0.0) == 0.0 && Round6(1.0) == 1.0
  {
    assert (1.0 * MICRO).Floor == 1_000_000;
  }

  predicate Normal(c: Claim) {
    Normalize(AsRow(c)) == Ok(c)
  }

  predicate AllNormal(rows: seq<Claim>) {
    forall c :: c in rows ==> Normal(c)
  }

  // ----- events

  datatype Event =
    | ClaimAdd(eventId: nat, ts: string, row: RawClaim)
    | ClaimUpdate(eventId: nat, ts: string, row: RawClaim)
    | Snapshot(eventId: nat, ts: string, branch: string, stateHash: string)

  type Row = Link<Event>
  type Hashing = Hasher<Event>
  type Claims = map<string, Claim>

  /** A file with one event appended, naming the hash before it. */
  function Appended(h: Hashing, rows: seq<Row>, event: Event): seq<Row> {
    rows + [Link(event, EndHash(rows), h(event, EndHash(rows)))]
  }

  function Put(claims: Claims, c: Claim): Claims {
    claims[c.claimId := c]
  }

  /** The claims a file stands for; None when a claim event names no claim. */
  function Folded(rows: seq<Row>): Option<Claims> {
    if rows == [] then Some(map[])
    else
      match Folded(rows[..|rows| - 1])
      case None => None
      case Some(claims) =>
        var event := rows[|rows| - 1].body;
        if event.Snapshot? then Some(claims)
        else match Normalize(event.row)
          case Err(_) => None
          case Ok(c) => Some(Put(claims, c))
  }

  datatype Memory = Memory(claims: Claims, count: nat, last: string)

  /** What opening a file leaves in memory; None when it is refused. */
  function Reload(h: Hashing, rows: seq<Row>): Option<Memory> {
    if Chained(h, rows) && Folded(rows).Some? then Some(Memory(Folded(rows).value, |rows|, EndHash(rows))) else None
  }

  lemma ReloadSnoc(h: Hashing, rows: seq<Row>, i: nat)
    requires i < |rows|
    ensures Chained(h, rows[..i + 1]) <==>
      Chained(h, rows[..i]) && rows[i].prev == EndHash(rows[..i]) && rows[i].hash == h(rows[i].body, rows[i].prev)
    ensures EndHash(rows[..i + 1]) == rows[i].hash
    ensures Folded(rows[..i + 1]) ==
      match Folded(rows[..i])
      case None => None
      case Some(claims) =>
        if rows[i].body.Snapshot? then Some(claims)
        else match Normalize(rows[i].body.row) case Err(_) => None case Ok(c) => Some(Put(claims, c))
  {
    assert rows[..i + 1][..i] == rows[..i];
  }

  /** What one more row does to what a file stands for. */
  lemma ReloadAppended(h: Hashing, rows: seq<Row>, row: Row)
    requires Reload(h, rows).Some? && row == Link(row.body, EndHash(rows), h(row.body, EndHash(rows)))
    requires row.body.Snapshot? || Normalize(row.body.row).Ok?
    ensures var before := Reload(h, rows).value;
      var claims := if row.body.Snapshot? then before.claims else Put(before.claims, Normalize(row.body.row).value);
      Reload(h, rows + [row]) == Some(Memory(claims, before.count + 1, row.hash))
  {
    var more := rows + [row];
    assert more[..|rows|] == rows && more[..|more|] == more;
    ReloadSnoc(h, more, |rows|);
  }

  /** A file that is refused early is refused. */
  lemma {:induction false} RefusedEarly(h: Hashing, rows: seq<Row>, k: nat)
    requires k <= |rows| && Reload(h, rows[..k]).None?
    ensures Reload(h, rows).None?
    decreases |rows| - k
  {
    if k < |rows| {
      ReloadSnoc(h, rows, k);
      RefusedEarly(h, rows, k + 1);
    } else {
      assert rows[..k] == rows;
    }
  }

  /** What is wrong with a row behind a file that opens, the chain looked at first. */
  function Fault(h: Hashing, before: seq<Row>, row: Row): Option<Error> {
    if row.prev != EndHash(before) then Some(ChainBroken)
    else if row.hash != h(row.body, row.prev) then Some(HashMismatch)
    else if !row.body.Snapshot? && Normalize(row.body.row).Err? then Some(BlankId)
    else None
  }

  /** The rows before this one open, and the next one does not for this reason. */
  ghost predicate FirstFault(h: Hashing, rows: seq<Row>, i: nat, e: Error) {
    i < |rows| && Reload(h, rows[..i]).Some? && Fault(h, rows[..i], rows[i]) == Some(e)
  }

  /** `_load` */
  method Load(h: Hashing, rows: seq<Row>) returns (r: Result<Memory, Error>)
    ensures r.Ok? <==> Reload(h, rows).Some?
    ensures r.Ok? ==> Reload(h, rows) == Some(r.value)
    ensures r.Err? ==> exists i: nat :: FirstFault(h, rows, i, r.error)
  {
    var claims: Claims, count, last := map[], 0, GENESIS;
    for i := 0 to |rows|
      invariant Reload(h, rows[..i]) == Some(Memory(claims, count, last))
    {
      ReloadSnoc(h, rows, i);
      count := count + 1;
      if rows[i].prev != last {
        assert FirstFault(h, rows, i, ChainBroken);
        RefusedEarly(h, rows, i + 1);
        return Err(ChainBroken);
      }
      if rows[i].hash != h(rows[i].body, rows[i].prev) {
        assert FirstFault(h, rows, i, HashMismatch);
        RefusedEarly(h, rows, i + 1);
        return Err(HashMismatch);
      }
      last := rows[i].hash;
      if !rows[i].body.Snapshot? {
        var normalized := Normalize(rows[i].body.row);
        if normalized.Err? {
          assert FirstFault(h, rows, i, BlankId);
          RefusedEarly(h, rows, i + 1);
          return Err(BlankId);
        }
        claims := Put(claims, normalized.value);
      }
    }
    assert rows[..|rows|] == rows;
    return Ok(Memory(claims, count, last));
  }

  // ----- merging

  /** Sort key `(claim_id, section, statement)`. */
  predicate KeyLe(a: Claim, b: Claim) {
    if a.claimId != b.claimId then Le(a.claimId, b.claimId)
    else if a.section != b.section then Le(a.section, b.section)
    else Le(a.statement, b.statement)
  }

  /** The rows normalised, or the first blank id. */
  function NormalizeAll(rows: seq<RawClaim>): Result<seq<Claim>, Error> {
    if rows == [] then Ok([])
    else
      match Normalize(rows[0])
      case Err(e) => Err(e)
      case Ok(c) => match NormalizeAll(rows[1..]) case Err(e) => Err(e) case Ok(rest) => Ok([c] + rest)
  }

  function NewOnes(claims: Claims, incoming: seq<Claim>): seq<Claim> {
    if incoming == [] then []
    else
      var n := |incoming| - 1;
      if incoming[n].claimId !in claims then NewOnes(claims, incoming[..n]) + [incoming[n]]
      else NewOnes(claims, incoming[..n])
  }

  predicate Contradicts(claims: Claims, c: Claim) {
    c.claimId in claims && claims[c.claimId].statement != c.statement
  }

  function Modified(claims: Claims, incoming: seq<Claim>): seq<Claim> {
    if incoming == [] then []
    else
      var n := |incoming| - 1;
      if Contradicts(claims, incoming[n]) then Modified(claims, incoming[..n]) + [incoming[n]]
      else Modified(claims, incoming[..n])
  }

  function PutAll(claims: Claims, more: seq<Claim>): Claims {
    if more == [] then claims else Put(PutAll(claims, more[..|more| - 1]), more[|more| - 1])
  }

  /** The claims after an approved merge: new ones first, then the changed ones. */
  function Merged(claims: Claims, incoming: seq<Claim>): Claims {
    PutAll(PutAll(claims, NewOnes(claims, incoming)), Modified(claims, incoming))
  }

  /** Rows whose claim is there already with this statement. */
  function Same(claims: Claims, incoming: seq<Claim>): nat {
    if incoming == [] then 0
    else
      var n := |incoming| - 1;
      var rest := Same(claims, incoming[..n]);
      var c := incoming[n];
      if c.claimId in claims && claims[c.claimId].statement == c.statement then rest + 1 else rest
  }

  /** The batch as it is merged: normalised, in key order. */
  function Incoming(rows: seq<RawClaim>): seq<Claim> {
    if NormalizeAll(rows).Ok? then Sorting.Sort(KeyLe, NormalizeAll(rows).value) else []
  }

  function ReportOn(claims: Claims, incoming: seq<Claim>, approved: bool): Report {
    Report(approved, |NewOnes(claims, incoming)|, |Modified(claims, incoming)|, Same(claims, incoming))
  }

  /** The comparison loop of `merge_sandbox`. */
  method Compare(claims: Claims, incoming: seq<Claim>) returns (newClaims: seq<Claim>, modified: seq<Claim>, same: nat)
    ensures newClaims == NewOnes(claims, incoming) && modified == Modified(claims, incoming)
      && same == Same(claims, incoming)
  {
    newClaims, modified, same := [], [], 0;
    for i := 0 to |incoming|
      invariant newClaims == NewOnes(claims, incoming[..i]) && modified == Modified(claims, incoming[..i])
        && same == Same(claims, incoming[..i])
    {
      var row := incoming[i];
      assert incoming[..i + 1][..i] == incoming[..i];
      if row.claimId !in claims {
        newClaims := newClaims + [row];
      } else if claims[row.claimId].statement != row.statement {
        modified := modified + [row];
      } else {
        same := same + 1;
      }
    }
    assert incoming[..|incoming|] == incoming;
  }

  /** Each row of a batch is new, changed or the same. */
  lemma {:induction false} CompareCoversAll(claims: Claims, incoming: seq<Claim>)
    ensures |NewOnes(claims, incoming)| + |Modified(claims, incoming)| + Same(claims, incoming) == |incoming|
    decreases |incoming|
  {
    if incoming != [] { CompareCoversAll(claims, incoming[..|incoming| - 1]); }
  }

  /** What `append_claim` logs for a claim. */
  function EventFor(claims: Claims, count: nat, ts: string, c: Claim): Event {
    if c.claimId !in claims then ClaimAdd(count + 1, ts, AsRow(c)) else ClaimUpdate(count + 1, ts, AsRow(c))
  }

  /** A file with these claims appended in turn: an add the first time an id is seen, an update from then on. */
  function Logged(h: Hashing, rows: seq<Row>, claims: Claims, count: nat, ts: string, more: seq<Claim>): seq<Row> {
    if more == [] then rows
    else
      var n := |more| - 1;
      Appended(h, Logged(h, rows, claims, count, ts, more[..n]),
        EventFor(PutAll(claims, more[..n]), count + n, ts, more[n]))
  }

  lemma LoggedSnoc(h: Hashing, rows: seq<Row>, claims: Claims, count: nat, ts: string, more: seq<Claim>, i: nat)
    requires i < |more|
    ensures PutAll(claims, more[..i + 1]) == Put(PutAll(claims, more[..i]), more[i])
    ensures Logged(h, rows, claims, count, ts, more[..i + 1]) ==
      Appended(h, Logged(h, rows, claims, count, ts, more[..i]),
        EventFor(PutAll(claims, more[..i]), count + i, ts, more[i]))
  {
    assert more[..i + 1][..i] == more[..i];
  }

  /** The first i claims are put in and logged. */
  ghost predicate AppendedSoFar(h: Hashing, file0: seq<Row>, claims0: Claims, count0: nat, ts: string, more: seq<Claim>,
      i: nat, file: seq<Row>, claims: Claims, count: nat)
    requires i <= |more|
  {
    && claims == PutAll(claims0, more[..i]) && count == count0 + i
    && file == Logged(h, file0, claims0, count0, ts, more[..i])
  }

  lemma AppendedNext(h: Hashing, file0: seq<Row>, claims0: Claims, count0: nat, ts: string, more: seq<Claim>,
      i: nat, file: seq<Row>, claims: Claims, count: nat)
    requires i < |more| && AppendedSoFar(h, file0, claims0, count0, ts, more, i, file, claims, count)
    ensures AppendedSoFar(h, file0, claims0, count0, ts, more, i + 1,
      Appended(h, file, EventFor(claims, count, ts, more[i])), Put(claims, more[i]), count + 1)
  {
    LoggedSnoc(h, file0, claims0, count0, ts, more, i);
  }

  function BothLogged(h: Hashing, rows: seq<Row>, claims: Claims, count: nat, ts: string, newClaims: seq<Claim>,
      modified: seq<Claim>): seq<Row>
  {
    var added := Logged(h, rows, claims, count, ts, newClaims);
    Logged(h, added, PutAll(claims, newClaims), count + |newClaims|, ts, modified)
  }

  /** The file after an approved merge: an event for each new claim, one for each changed one, and a snapshot. */
  function MergedFile(h: Hashing, rows: seq<Row>, claims: Claims, count: nat, ts: string, newClaims: seq<Claim>,
      modified: seq<Claim>, branch: string, stateHash: string): seq<Row>
  {
    Appended(h, BothLogged(h, rows, claims, count, ts, newClaims, modified),
      Snapshot(count + |newClaims| + |modified| + 1, ts, branch, stateHash))
  }

  lemma {:induction false} LoggedKeeps(h: Hashing, rows: seq<Row>, claims: Claims, count: nat, ts: string,
      more: seq<Claim>)
    ensures rows <= Logged(h, rows, claims, count, ts, more)
    ensures |Logged(h, rows, claims, count, ts, more)| == |rows| + |more|
    decreases |more|
  {
    if more != [] { LoggedKeeps(h, rows, claims, count, ts, more[..|more| - 1]); }
  }

  /** A merge only appends: an event for each new and each changed claim, and the snapshot's. */
  lemma MergedFileKeeps(h: Hashing, rows: seq<Row>, claims: Claims, count: nat, ts: string, newClaims: seq<Claim>,
      modified: seq<Claim>, branch: string, stateHash: string)
    ensures var after := MergedFile(h, rows, claims, count, ts, newClaims, modified, branch, stateHash);
      rows <= after && |after| == |rows| + |newClaims| + |modified| + 1
  {
    var added := Logged(h, rows, claims, count, ts, newClaims);
    LoggedKeeps(h, rows, claims, count, ts, newClaims);
    LoggedKeeps(h, added, PutAll(claims, newClaims), count + |newClaims|, ts, modified);
  }

  /** Row i behind the first n is the event of this claim, with this time stamp. */
  predicate LogsClaim(rows: seq<Row>, i: nat, ts: string, c: Claim) {
    && i < |rows| && !rows[i].body.Snapshot?
    && rows[i].body.eventId == i + 1 && rows[i].body.ts == ts && rows[i].body.row == AsRow(c)
  }

  lemma {:induction false} LoggedHolds(h: Hashing, rows: seq<Row>, claims: Claims, count: nat, ts: string,
      more: seq<Claim>, i: nat)
    requires i < |more| && count == |rows|
    ensures LogsClaim(Logged(h, rows, claims, count, ts, more), |rows| + i, ts, more[i])
    decreases |more|
  {
    var n := |more| - 1;
    LoggedKeeps(h, rows, claims, count, ts, more[..n]);
    if i < n { LoggedHolds(h, rows, claims, count, ts, more[..n], i); }
  }

  /** The rows a merge appends: the new claims in their order, then the changed ones in theirs, then the snapshot. */
  lemma MergedFileHolds(h: Hashing, rows: seq<Row>, claims: Claims, count: nat, ts: string, newClaims: seq<Claim>,
      modified: seq<Claim>, branch: string, stateHash: string)
    requires count == |rows|
    ensures var after, n := MergedFile(h, rows, claims, count, ts, newClaims, modified, branch, stateHash), |rows|;
      && (forall i: nat :: i < |newClaims| ==> LogsClaim(after, n + i, ts, newClaims[i]))
      && (forall i: nat :: i < |modified| ==> LogsClaim(after, n + |newClaims| + i, ts, modified[i]))
      && after != [] && after[|after| - 1].body == Snapshot(|after|, ts, branch, stateHash)
  {
    var added := Logged(h, rows, claims, count, ts, newClaims);
    var after := MergedFile(h, rows, claims, count, ts, newClaims, modified, branch, stateHash);
    LoggedKeeps(h, rows, claims, count, ts, newClaims);
    LoggedKeeps(h, added, PutAll(claims, newClaims), count + |newClaims|, ts, modified);
    assert added <= after;
    forall i: nat | i < |newClaims| ensures LogsClaim(after, |rows| + i, ts, newClaims[i]) {
      LoggedHolds(h, rows, claims, count, ts, newClaims, i);
    }
    forall i: nat | i < |modified| ensures LogsClaim(after, |rows| + |newClaims| + i, ts, modified[i]) {
      LoggedHolds(h, added, PutAll(claims, newClaims), count + |newClaims|, ts, modified, i);
    }
  }

  datatype Report = Report(approved: bool, added: nat, changed: nat, same: nat)

  class Lattice {
    const h: Hashing
    var file: seq<Row>
    var claims: Claims
    var count: nat
    var last: string

    /** What is in memory is what reopening the file would give. */
    ghost predicate Valid()
      reads this
    {
      && Reload(h, file) == Some(Memory(claims, count, last))
      && forall id :: id in claims ==> claims[id].claimId == id && Normal(claims[id])
    }

    constructor Open(h: Hashing, file: seq<Row>, memory: Memory)
      requires Reload(h, file) == Some(memory)
      ensures Valid() && this.h == h && this.file == file
    {
      this.h, this.file := h, file;
      claims, count, last := memory.claims, memory.count, memory.last;
      FoldedNormal(file);
    }

    /** `_append_event` */
    method AppendEvent(event: Event) returns (row: Row)
      requires last == EndHash(file)
      modifies `file, `count, `last
      ensures row == Link(event, old(last), h(event, old(last)))
      ensures file == Appended(h, old(file), event) == old(file) + [row]
      ensures count == old(count) + 1 && last == row.hash
    {
      row := Link(event, last, h(event, last));
      file := file + [row];
      count := count + 1;
      last := row.hash;
    }

    /** `append_claim` */
    method AppendClaim(row: RawClaim, ts: string) returns (r: Result<Row, Error>)
      requires Valid() && row.section.Some? && row.statement.Some?
      modifies this
      ensures Valid()
      ensures r.Ok? <==> Normalize(row).Ok?
      ensures r.Err? ==> r.error == BlankId && file == old(file) && claims == old(claims)
      ensures r.Ok? ==> claims == Put(old(claims), Normalize(row).value) && count == old(count) + 1
      ensures r.Ok? ==> file == old(file) + [r.value]
      ensures r.Ok? ==>
        file == Appended(h, old(file), EventFor(old(claims), old(count), ts, Normalize(row).value))
    {
      var key := Strip(OrElse(row.claimId, ""));
      if key == "" {
        return Err(BlankId);
      }
      var record := Claim(row.section.value, key, row.statement.value, SafeConfidence(row.confidence));
      NormalizeTwice(row);
      var event := if key !in claims then ClaimAdd(count + 1, ts, AsRow(record))
        else ClaimUpdate(count + 1, ts, AsRow(record));
      ghost var before := file;
      var added := AppendEvent(event);
      claims := Put(claims, record);
      ReloadAppended(h, before, added);
      return Ok(added);
    }

    /** `append_claim` for a claim that is normalised already. */
    method AppendNormal(c: Claim, ts: string)
      requires Valid() && Normal(c)
      modifies this
      ensures Valid() && claims == Put(old(claims), c) && count == old(count) + 1
      ensures file == Appended(h, old(file), EventFor(old(claims), old(count), ts, c))
    {
      var added := AppendClaim(AsRow(c), ts);
    }

    method AppendAll(rows: seq<Claim>, ts: string)
      requires Valid() && AllNormal(rows)
      modifies this
      ensures Valid() && claims == PutAll(old(claims), rows) && count == old(count) + |rows|
      ensures file == Logged(h, old(file), old(claims), old(count), ts, rows)
    {
      for i := 0 to |rows|
        invariant Valid() && AppendedSoFar(h, old(file), old(claims), old(count), ts, rows, i, file, claims, count)
      {
        AppendedNext(h, old(file), old(claims), old(count), ts, rows, i, file, claims, count);
        AppendNormal(rows[i], ts);
      }
      assert rows[..|rows|] == rows;
    }

    method AppendSnapshot(branch: string, ts: string, stateHash: string)
      requires Valid()
      modifies `file, `count, `last
      ensures Valid() && file == Appended(h, old(file), Snapshot(old(count) + 1, ts, branch, stateHash))
    {
      ghost var before := file;
      var row := AppendEvent(Snapshot(count + 1, ts, branch, stateHash));
      ReloadAppended(h, before, row);
    }

    method AppendBoth(newClaims: seq<Claim>, modified: seq<Claim>, ts: string)
      requires Valid() && AllNormal(newClaims) && AllNormal(modified)
      modifies this
      ensures Valid() && claims == PutAll(PutAll(old(claims), newClaims), modified)
      ensures count == old(count) + |newClaims| + |modified|
      ensures file == BothLogged(h, old(file), old(claims), old(count), ts, newClaims, modified)
    {
      AppendAll(newClaims, ts);
      AppendAll(modified, ts);
    }

    /** The appends of an approved merge. */
    method Apply(newClaims: seq<Claim>, modified: seq<Claim>, branch: string, ts: string, stateHash: string)
      requires Valid() && AllNormal(newClaims) && AllNormal(modified)
      modifies this
      ensures Valid() && claims == PutAll(PutAll(old(claims), newClaims), modified)
      ensures file ==
        MergedFile(h, old(file), old(claims), old(count), ts, newClaims, modified, branch, stateHash)
    {
      AppendBoth(newClaims, modified, ts);
      assert count + 1 == old(count) + |newClaims| + |modified| + 1;
      AppendSnapshot(branch, ts, stateHash);
    }

    /** `merge_sandbox` */
    method MergeSandbox(branch: string, rows: seq<RawClaim>, approved: bool, ts: string, stateHash: string)
      returns (r: Result<Report, Error>)
      requires Valid()
      modifies this
      ensures Valid()
      ensures r == if NormalizeAll(rows).Err? then Err(BlankId)
                   else if Modified(old(claims), Incoming(rows)) != [] && !approved then
                     Err(Conflict(|Modified(old(claims), Incoming(rows))|))
                   else Ok(ReportOn(old(claims), Incoming(rows), approved))
      ensures r.Ok? && approved ==>
        && claims == Merged(old(claims), Incoming(rows))
        && file == MergedFile(h, old(file), old(claims), old(count), ts, NewOnes(old(claims), Incoming(rows)),
             Modified(old(claims), Incoming(rows)), branch, stateHash)
      ensures r.Err? || !approved ==>
        claims == old(claims) && file == old(file) && count == old(count) && last == old(last)
    {
      NormalizedSound(rows);
      var normalized := NormalizeAll(rows);
      if normalized.Err? {
        return Err(BlankId);
      }
      var incoming := Sorting.Sort(KeyLe, normalized.value);
      Sorting.SameElements(incoming, normalized.value);
      var newClaims, modified, same := Compare(claims, incoming);
      if |modified| > 0 && !approved {
        return Err(Conflict(|modified|));
      }
      if !approved {
        return Ok(Report(false, |newClaims|, |modified|, same));
      }
      PartsAreIncoming(claims, incoming);
      Apply(newClaims, modified, branch, ts, stateHash);
      return Ok(Report(true, |newClaims|, |modified|, same));
    }
  }

  lemma {:induction false} FoldedNormal(rows: seq<Row>)
    requires Folded(rows).Some?
    ensures forall id :: id in Folded(rows).value ==>
      Folded(rows).value[id].claimId == id && Normal(Folded(rows).value[id])
    decreases |rows|
  {
    if rows != [] {
      FoldedNormal(rows[..|rows| - 1]);
      var event := rows[|rows| - 1].body;
      if !event.Snapshot? { NormalizeTwice(event.row); }
    }
  }

  lemma {:induction false} NormalizedSound(rows: seq<RawClaim>)
    ensures NormalizeAll(rows).Err? ==> NormalizeAll(rows) == Err(BlankId)
    ensures NormalizeAll(rows).Ok? ==>
      |NormalizeAll(rows).value| == |rows| && forall c :: c in NormalizeAll(rows).value ==> Normal(c)
  {
    if rows != [] {
      NormalizedSound(rows[1..]);
      if Normalize(rows[0]).Ok? { NormalizeTwice(rows[0]); }
    }
  }

  lemma {:induction false} PartsAreIncoming(claims: Claims, incoming: seq<Claim>)
    ensures forall c :: c in NewOnes(claims, incoming) <==> c in incoming && c.claimId !in claims
    ensures forall c :: c in Modified(claims, incoming) <==> c in incoming && Contradicts(claims, c)
    decreases |incoming|
  {
    if incoming != [] {
      var n := |incoming| - 1;
      PartsAreIncoming(claims, incoming[..n]);
      assert incoming == incoming[..n] + [incoming[n]];
    }
  }

  // ----- what a merge leaves under an id

  /** A merge puts the row in: its claim is new, or there with another statement. */
  predicate Applies(claims: Claims, c: Claim) {
    c.claimId !in claims || Contradicts(claims, c)
  }

  function OfId(id: string): Claim -> bool {
    (c: Claim) => c.claimId == id
  }

  function AppliesTo(claims: Claims, id: string): Claim -> bool {
    (c: Claim) => c.claimId == id && Applies(claims, c)
  }

  function Lookup(claims: Claims, id: string): Option<Claim> {
    if id in claims then Some(claims[id]) else None
  }

  function OrLookup(found: Option<Claim>, claims: Claims, id: string): Option<Claim> {
    if found.Some? then found else Lookup(claims, id)
  }

  lemma {:induction false} PutAllAt(claims: Claims, more: seq<Claim>, id: string)
    ensures Lookup(PutAll(claims, more), id) == OrLookup(Sorting.LastOf(OfId(id), more), claims, id)
    decreases |more|
  {
    if more != [] {
      var n := |more| - 1;
      PutAllAt(claims, more[..n], id);
      Sorting.LastOfSnoc(OfId(id), more[..n], more[n]);
      assert more == more[..n] + [more[n]];
    }
  }

  lemma {:induction false} PartsAt(claims: Claims, incoming: seq<Claim>, id: string)
    ensures Sorting.LastOf(OfId(id), NewOnes(claims, incoming)) ==
      if id in claims then None else Sorting.LastOf(AppliesTo(claims, id), incoming)
    ensures Sorting.LastOf(OfId(id), Modified(claims, incoming)) ==
      if id in claims then Sorting.LastOf(AppliesTo(claims, id), incoming) else None
    decreases |incoming|
  {
    if incoming != [] {
      var n := |incoming| - 1;
      var row := incoming[n];
      PartsAt(claims, incoming[..n], id);
      Sorting.LastOfSnoc(AppliesTo(claims, id), incoming[..n], row);
      Sorting.LastOfSnoc(OfId(id), NewOnes(claims, incoming[..n]), row);
      Sorting.LastOfSnoc(OfId(id), Modified(claims, incoming[..n]), row);
      assert incoming == incoming[..n] + [row];
    }
  }

  /** After a merge an id holds the last row of it that was put in, or what it held before. */
  lemma MergedAt(claims: Claims, incoming: seq<Claim>, id: string)
    ensures Lookup(Merged(claims, incoming), id) ==
      OrLookup(Sorting.LastOf(AppliesTo(claims, id), incoming), claims, id)
  {
    PartsAt(claims, incoming, id);
    PutAllAt(claims, NewOnes(claims, incoming), id);
    PutAllAt(PutAll(claims, NewOnes(claims, incoming)), Modified(claims, incoming), id);
  }

  // ----- merging the same batch again

  /** No two rows of the batch give one claim different statements. */
  ghost predicate Consistent(incoming: seq<Claim>) {
    forall c, d :: c in incoming && d in incoming && c.claimId == d.claimId ==> c.statement == d.statement
  }

  /** Every claim of the batch is there after the merge, with the statement of one of its rows. */
  lemma MergedHolds(claims: Claims, incoming: seq<Claim>, row: Claim)
    requires row in incoming
    ensures row.claimId in Merged(claims, incoming)
    ensures var found := Merged(claims, incoming)[row.claimId];
      exists c :: c in incoming && c.claimId == row.claimId && c.statement == found.statement
  {
    MergedAt(claims, incoming, row.claimId);
    var last := Sorting.LastOf(AppliesTo(claims, row.claimId), incoming);
    assert last.None? ==> !AppliesTo(claims, row.claimId)(row);
  }

  lemma {:induction false} NothingNew(claims: Claims, incoming: seq<Claim>)
    requires forall row :: row in incoming ==> row.claimId in claims
    ensures NewOnes(claims, incoming) == []
    decreases |incoming|
  {
    if incoming != [] {
      assert incoming[|incoming| - 1] in incoming;
      NothingNew(claims, incoming[..|incoming| - 1]);
    }
  }

  lemma NothingModifiedIff(claims: Claims, incoming: seq<Claim>)
    ensures Modified(claims, incoming) == [] <==> forall row :: row in incoming ==> !Contradicts(claims, row)
  {
    PartsAreIncoming(claims, incoming);
    var changed := Modified(claims, incoming);
    assert changed != [] ==> changed[0] in changed;
  }

  /**
   Merging the same batch again finds no new claim, and no changed claim exactly when
   no two of its rows give one claim different statements.
   */
  lemma SecondMergeFindsNothingIff(claims: Claims, incoming: seq<Claim>)
    ensures NewOnes(Merged(claims, incoming), incoming) == []
    ensures Modified(Merged(claims, incoming), incoming) == [] <==> Consistent(incoming)
  {
    var after := Merged(claims, incoming);
    forall row | row in incoming
      ensures row.claimId in after
      ensures exists c :: c in incoming && c.claimId == row.claimId && c.statement == after[row.claimId].statement
    {
      MergedHolds(claims, incoming, row);
    }
    NothingNew(after, incoming);
    NothingModifiedIff(after, incoming);
  }

  /** Then the claims stay as they are, and only a snapshot is logged. */
  lemma SecondMergeChangesNothing(claims: Claims, incoming: seq<Claim>)
    requires Consistent(incoming)
    ensures Merged(Merged(claims, incoming), incoming) == Merged(claims, incoming)
  {
    SecondMergeFindsNothingIff(claims, incoming);
  }

  // ----- the order of the batch

  lemma KeyOrderTotal()
    ensures Sorting.TotalOrder(KeyLe)
  {
    forall a, b ensures KeyLe(a, b) || KeyLe(b, a) {
      LeTotal(a.claimId, b.claimId);
      LeTotal(a.section, b.section);
      LeTotal(a.statement, b.statement);
    }
    forall a, b, c | KeyLe(a, b) && KeyLe(b, c) ensures KeyLe(a, c) {
      KeyLeTransitive(a, b, c);
    }
  }

  lemma KeyLeTransitive(a: Claim, b: Claim, c: Claim)
    requires KeyLe(a, b) && KeyLe(b, c)
    ensures KeyLe(a, c)
  {
    if a.claimId != b.claimId && b.claimId != c.claimId {
      LeTransitive(a.claimId, b.claimId, c.claimId);
      LeTotal(a.claimId, b.claimId);
    } else if a.claimId == b.claimId == c.claimId {
      if a.section != b.section && b.section != c.section {
        LeTransitive(a.section, b.section, c.section);
        LeTotal(a.section, b.section);
      } else if a.section == b.section == c.section {
        LeTransitive(a.statement, b.statement, c.statement);
      }
    }
  }

  /** Rows of one id, section and statement carry one confidence. */
  ghost predicate OneConfidence(rows: seq<Claim>) {
    forall c, d ::
      c in rows && d in rows && (c.claimId, c.section, c.statement) == (d.claimId, d.section, d.statement)
      ==> c.confidence == d.confidence
  }

  lemma KeysTieIff(c: Claim, d: Claim)
    ensures KeyLe(c, d) && KeyLe(d, c) <==>
      (c.claimId, c.section, c.statement) == (d.claimId, d.section, d.statement)
  {
    LeTotal(c.claimId, d.claimId);
    LeTotal(c.section, d.section);
    LeTotal(c.statement, d.statement);
  }

  lemma NoTiesIff(rows: seq<Claim>)
    ensures Sorting.NoTies(KeyLe, rows) <==> OneConfidence(rows)
  {
    if Sorting.NoTies(KeyLe, rows) {
      forall c, d | c in rows && d in rows
        && (c.claimId, c.section, c.statement) == (d.claimId, d.section, d.statement)
        ensures c.confidence == d.confidence
      {
        KeysTieIff(c, d);
      }
    }
    if OneConfidence(rows) {
      forall c, d | c in rows && d in rows && KeyLe(c, d) && KeyLe(d, c) ensures c == d { KeysTieIff(c, d); }
    }
  }

  /** Every arrival order of a batch is sorted into one, exactly when equal keys carry equal confidence. */
  lemma BatchSortsAlikeIff(rows: seq<Claim>)
    ensures (forall other :: multiset(other) == multiset(rows) ==>
        Sorting.Sort(KeyLe, other) == Sorting.Sort(KeyLe, rows))
      <==> OneConfidence(rows)
  {
    KeyOrderTotal();
    NoTiesIff(rows);
    Sorting.SortsAlikeIff(KeyLe, rows);
  }

  /** Of the rows of its id that a merge puts in, this one has the greatest key. */
  ghost predicate Top(claims: Claims, rows: seq<Claim>, c: Claim) {
    && c in rows && Applies(claims, c)
    && forall d :: d in rows && d.claimId == c.claimId && Applies(claims, d) ==> KeyLe(d, c)
  }

  /** Rows of one id that share its greatest key carry one confidence. */
  ghost predicate OneTopConfidence(claims: Claims, rows: seq<Claim>) {
    forall c, d :: Top(claims, rows, c) && Top(claims, rows, d) && c.claimId == d.claimId ==>
      c.confidence == d.confidence
  }

  /** However a batch arrives, the row an id ends up with is one of those with its greatest key. */
  lemma LastSortedIsTop(claims: Claims, rows: seq<Claim>, other: seq<Claim>, id: string)
    requires multiset(other) == multiset(rows)
    ensures var found := Sorting.LastOf(AppliesTo(claims, id), Sorting.Sort(KeyLe, other));
      if found.Some? then Top(claims, rows, found.value) && found.value.claimId == id
      else forall c :: c in rows && c.claimId == id ==> !Applies(claims, c)
  {
    var sorted := Sorting.Sort(KeyLe, other);
    KeyOrderTotal();
    Sorting.SortOrders(KeyLe, other);
    Sorting.SameElements(sorted, rows);
    if Sorting.LastOf(AppliesTo(claims, id), sorted).Some? {
      Sorting.LastIsGreatest(KeyLe, AppliesTo(claims, id), sorted);
    } else {
      forall c | c in rows && c.claimId == id ensures !Applies(claims, c) {
        assert c in sorted;
        assert !AppliesTo(claims, id)(c);
      }
    }
  }

  /** Any row with its id's greatest key is the one that stays, when it arrives last. */
  lemma TopArrivingLastStays(claims: Claims, rows: seq<Claim>, c: Claim)
    requires Top(claims, rows, c)
    ensures Lookup(Merged(claims, Sorting.Sort(KeyLe, Sorting.MovedLast(rows, c))), c.claimId) == Some(c)
  {
    Sorting.MovedLastStays(KeyLe, AppliesTo(claims, c.claimId), rows, c);
    MergedAt(claims, Sorting.Sort(KeyLe, Sorting.MovedLast(rows, c)), c.claimId);
  }

  lemma SameLookups(a: Claims, b: Claims)
    requires forall id :: Lookup(a, id) == Lookup(b, id)
    ensures a == b
  {
    forall id ensures id in a <==> id in b { assert Lookup(a, id) == Lookup(b, id); }
    forall id | id in a ensures a[id] == b[id] { assert Lookup(a, id) == Lookup(b, id); }
  }

  lemma OneTopMergesAlike(claims: Claims, rows: seq<Claim>, other: seq<Claim>)
    requires OneTopConfidence(claims, rows) && multiset(other) == multiset(rows)
    ensures Merged(claims, Sorting.Sort(KeyLe, other)) == Merged(claims, Sorting.Sort(KeyLe, rows))
  {
    var x, y := Sorting.Sort(KeyLe, other), Sorting.Sort(KeyLe, rows);
    forall id ensures Lookup(Merged(claims, x), id) == Lookup(Merged(claims, y), id) {
      LastSortedIsTop(claims, rows, other, id);
      LastSortedIsTop(claims, rows, rows, id);
      MergedAt(claims, x, id);
      MergedAt(claims, y, id);
      var c, d := Sorting.LastOf(AppliesTo(claims, id), x), Sorting.LastOf(AppliesTo(claims, id), y);
      if c.Some? && d.Some? { KeysTieIff(c.value, d.value); }
    }
    SameLookups(Merged(claims, x), Merged(claims, y));
  }

  /**
   The arrival order of a batch makes no difference to the merged claims, exactly when the rows an id may end up
   with, those put in with its greatest key, carry one confidence.
   */
  lemma ArrivalOrderIrrelevantIff(claims: Claims, rows: seq<Claim>)
    ensures (forall other :: multiset(other) == multiset(rows) ==>
        Merged(claims, Sorting.Sort(KeyLe, other)) == Merged(claims, Sorting.Sort(KeyLe, rows)))
      <==> OneTopConfidence(claims, rows)
  {
    if OneTopConfidence(claims, rows) {
      forall other | multiset(other) == multiset(rows)
        ensures Merged(claims, Sorting.Sort(KeyLe, other)) == Merged(claims, Sorting.Sort(KeyLe, rows))
      {
        OneTopMergesAlike(claims, rows, other);
      }
    } else {
      var c, d :| Top(claims, rows, c) && Top(claims, rows, d) && c.claimId == d.claimId
        && c.confidence != d.confidence;
      TopArrivingLastStays(claims, rows, c);
      TopArrivingLastStays(claims, rows, d);
      assert Merged(claims, Sorting.Sort(KeyLe, Sorting.MovedLast(rows, c)))
          != Merged(claims, Sorting.Sort(KeyLe, Sorting.MovedLast(rows, d)));
    }
  }

  /** One statement of a new claim with two confidences: the later row stays. */
  lemma TwoConfidencesOrderMatters()
    ensures var low, high := Claim("s", "c", "t", 0.0), Claim("s", "c", "t", 1.0);
      && Lookup(Merged(map[], Sorting.Sort(KeyLe, [low, high])), "c") == Some(high)
      && Lookup(Merged(map[], Sorting.Sort(KeyLe, [high, low])), "c") == Some(low)
  {
    var low, high := Claim("s", "c", "t", 0.0), Claim("s", "c", "t", 1.0);
    KeysTieIff(low, high);
    LaterOfTwoStays(low, high);
    LaterOfTwoStays(high, low);
  }

  /** Of a statement that is there already neither row is put in, so then their order makes no difference. */
  lemma KnownStatementOrderIrrelevant(claims: Claims, rows: seq<Claim>, other: seq<Claim>)
    requires multiset(other) == multiset(rows)
    requires forall c :: c in rows ==> c.claimId in claims && claims[c.claimId].statement == c.statement
    ensures Merged(claims, Sorting.Sort(KeyLe, other)) == Merged(claims, Sorting.Sort(KeyLe, rows))
  {
    assert OneTopConfidence(claims, rows);
    OneTopMergesAlike(claims, rows, other);
  }

  lemma LaterOfTwoStays(first: Claim, second: Claim)
    requires first.claimId == second.claimId && KeyLe(first, second)
    ensures Lookup(Merged(map[], Sorting.Sort(KeyLe, [first, second])), first.claimId) == Some(second)
  {
    assert [first] + [second] == [first, second];
    Sorting.LastArrivalStays(KeyLe, AppliesTo(map[], first.claimId), [first], second);
    MergedAt(map[], Sorting.Sort(KeyLe, [first, second]), first.claimId);
  }

  /** One claim with two statements: whatever is there, merging the batch again always finds a change. */
  lemma TwoStatementsNeverSettle(claims: Claims)
    ensures var incoming := Sorting.Sort(KeyLe, [Claim("s", "c", "t", 1.0), Claim("s", "c", "u", 1.0)]);
      Modified(Merged(claims, incoming), incoming) != []
  {
    var c, d := Claim("s", "c", "t", 1.0), Claim("s", "c", "u", 1.0);
    var incoming := Sorting.Sort(KeyLe, [c, d]);
    Sorting.SameElements(incoming, [c, d]);
    assert c in [c, d] && d in [c, d] && c.statement[0] != d.statement[0];
    SecondMergeFindsNothingIff(claims, incoming);
  }

  /** Of one claim, this row's section is less, or the same and its statement less. */
  predicate Below(c: Claim, d: Claim) {
    if c.section != d.section then Le(c.section, d.section)
    else c.statement != d.statement && Le(c.statement, d.statement)
  }

  /** Of the rows of one claim in a batch that are put in, the greatest stays, in whatever order they arrive. */
  lemma GreatestRowStays(claims: Claims, batch: seq<Claim>, d: Claim)
    requires d in batch && Applies(claims, d)
    requires forall c :: c in batch && c.claimId == d.claimId && c != d && Applies(claims, c) ==> Below(c, d)
    ensures Lookup(Merged(claims, Sorting.Sort(KeyLe, batch)), d.claimId) == Some(d)
  {
    LastSortedIsTop(claims, batch, batch, d.claimId);
    MergedAt(claims, Sorting.Sort(KeyLe, batch), d.claimId);
    var found := Sorting.LastOf(AppliesTo(claims, d.claimId), Sorting.Sort(KeyLe, batch));
    assert found.Some? && KeyLe(d, found.value);
    if found.value != d { NotBelow(found.value, d); }
  }

  lemma NotBelow(c: Claim, d: Claim)
    requires c.claimId == d.claimId && KeyLe(d, c)
    ensures !Below(c, d)
  {
    LeTotal(c.section, d.section);
    LeTotal(c.statement, d.statement);
  }

  // ----- the kinds and numbers of the events

  function IdOf(row: RawClaim): string {
    Strip(OrElse(row.claimId, ""))
  }

  predicate NamesAt(row: Row, id: string) {
    !row.body.Snapshot? && IdOf(row.body.row) == id
  }

  /** Some claim event of the file is about this claim. */
  predicate Names(rows: seq<Row>, id: string)
    decreases |rows|
  {
    rows != [] && (NamesAt(rows[|rows| - 1], id) || Names(rows[..|rows| - 1], id))
  }

  /** Events are numbered from one; a claim's first event adds it, and every later one updates it. */
  predicate NextIsRight(before: seq<Row>, row: Row) {
    && row.body.eventId == |before| + 1
    && (!row.body.Snapshot? ==> (row.body.ClaimAdd? <==> !Names(before, IdOf(row.body.row))))
  }

  predicate WellLogged(rows: seq<Row>)
    decreases |rows|
  {
    rows == [] || (WellLogged(rows[..|rows| - 1]) && NextIsRight(rows[..|rows| - 1], rows[|rows| - 1]))
  }

  /** The claims a file stands for are those its claim events name. */
  lemma {:induction false} FoldedNames(rows: seq<Row>, id: string)
    requires Folded(rows).Some?
    ensures id in Folded(rows).value <==> Names(rows, id)
    decreases |rows|
  {
    if rows != [] { FoldedNames(rows[..|rows| - 1], id); }
  }

  lemma WellLoggedSnoc(rows: seq<Row>, row: Row)
    requires WellLogged(rows) && NextIsRight(rows, row)
    ensures WellLogged(rows + [row])
  {
    assert (rows + [row])[..|rows|] == rows;
  }

  /** The claims in memory are those the file names. */
  ghost predicate NamesKeys(rows: seq<Row>, claims: Claims) {
    forall id :: id in claims <==> Names(rows, id)
  }

  /** The ids carry no space around them. */
  predicate Trimmed(more: seq<Claim>) {
    forall c :: c in more ==> Strip(c.claimId) == c.claimId
  }

  lemma NamesSnoc(rows: seq<Row>, row: Row, id: string)
    ensures Names(rows + [row], id) <==> NamesAt(row, id) || Names(rows, id)
  {
    assert (rows + [row])[..|rows|] == rows;
  }

  /** Appending a claim keeps a file well logged. */
  lemma ClaimWellLogged(h: Hashing, rows: seq<Row>, claims: Claims, ts: string, c: Claim)
    requires WellLogged(rows) && NamesKeys(rows, claims) && Trimmed([c])
    ensures var after := Appended(h, rows, EventFor(claims, |rows|, ts, c));
      WellLogged(after) && NamesKeys(after, Put(claims, c))
  {
    var event := EventFor(claims, |rows|, ts, c);
    var row := Link(event, EndHash(rows), h(event, EndHash(rows)));
    assert c in [c];
    WellLoggedSnoc(rows, row);
    forall id ensures id in Put(claims, c) <==> Names(rows + [row], id) { NamesSnoc(rows, row, id); }
  }

  /** A file that names just these claims, well logged. */
  ghost predicate Keeps(rows: seq<Row>, claims: Claims, count: nat) {
    WellLogged(rows) && NamesKeys(rows, claims) && |rows| == count
  }

  lemma KeepsNext(h: Hashing, rows: seq<Row>, claims: Claims, count: nat, ts: string, c: Claim)
    requires Keeps(rows, claims, count) && Trimmed([c])
    ensures Keeps(Appended(h, rows, EventFor(claims, count, ts, c)), Put(claims, c), count + 1)
  {
    ClaimWellLogged(h, rows, claims, ts, c);
  }

  lemma {:induction false} ClaimsWellLogged(h: Hashing, rows: seq<Row>, claims: Claims, count: nat, ts: string,
      more: seq<Claim>, i: nat)
    requires Keeps(rows, claims, count) && Trimmed(more) && i <= |more|
    ensures Keeps(Logged(h, rows, claims, count, ts, more[..i]), PutAll(claims, more[..i]), count + i)
  {
    if i > 0 {
      var n: nat := i - 1;
      assert more[n] in more;
      ClaimsWellLogged(h, rows, claims, count, ts, more, n);
      LoggedSnoc(h, rows, claims, count, ts, more, n);
      KeepsNext(h, Logged(h, rows, claims, count, ts, more[..n]), PutAll(claims, more[..n]), count + n, ts, more[n]);
    }
  }

  lemma AllWellLogged(h: Hashing, rows: seq<Row>, claims: Claims, count: nat, ts: string, more: seq<Claim>)
    requires Keeps(rows, claims, count) && Trimmed(more)
    ensures Keeps(Logged(h, rows, claims, count, ts, more), PutAll(claims, more), count + |more|)
  {
    ClaimsWellLogged(h, rows, claims, count, ts, more, |more|);
    assert more[..|more|] == more;
  }

  lemma BothWellLogged(h: Hashing, rows: seq<Row>, claims: Claims, count: nat, ts: string, newClaims: seq<Claim>,
      modified: seq<Claim>)
    requires Keeps(rows, claims, count) && Trimmed(newClaims) && Trimmed(modified)
    ensures Keeps(BothLogged(h, rows, claims, count, ts, newClaims, modified),
      PutAll(PutAll(claims, newClaims), modified), count + |newClaims| + |modified|)
  {
    AllWellLogged(h, rows, claims, count, ts, newClaims);
    AllWellLogged(h, Logged(h, rows, claims, count, ts, newClaims), PutAll(claims, newClaims), count + |newClaims|, ts,
      modified);
  }

  lemma SnapshotWellLogged(h: Hashing, rows: seq<Row>, ts: string, branch: string, stateHash: string)
    requires WellLogged(rows)
    ensures WellLogged(Appended(h, rows, Snapshot(|rows| + 1, ts, branch, stateHash)))
  {
    var event := Snapshot(|rows| + 1, ts, branch, stateHash);
    WellLoggedSnoc(rows, Link(event, EndHash(rows), h(event, EndHash(rows))));
  }

  lemma FoldedNamesKeys(rows: seq<Row>)
    requires Folded(rows).Some?
    ensures NamesKeys(rows, Folded(rows).value)
  {
    forall id ensures id in Folded(rows).value <==> Names(rows, id) { FoldedNames(rows, id); }
  }

  lemma NormalTrimmed(more: seq<Claim>)
    requires AllNormal(more)
    ensures Trimmed(more)
  {
  }

  /** A merge keeps a file well logged, its snapshot included. */
  lemma MergeWellLogged(h: Hashing, rows: seq<Row>, claims: Claims, count: nat, ts: string, newClaims: seq<Claim>,
      modified: seq<Claim>, branch: string, stateHash: string)
    requires WellLogged(rows) && Folded(rows) == Some(claims) && count == |rows|
    requires AllNormal(newClaims) && AllNormal(modified)
    ensures WellLogged(MergedFile(h, rows, claims, count, ts, newClaims, modified, branch, stateHash))
  {
    var changed := BothLogged(h, rows, claims, count, ts, newClaims, modified);
    FoldedNamesKeys(rows);
    NormalTrimmed(newClaims);
    NormalTrimmed(modified);
    BothWellLogged(h, rows, claims, count, ts, newClaims, modified);
    assert count + |newClaims| + |modified| + 1 == |changed| + 1;
    SnapshotWellLogged(h, changed, ts, branch, stateHash);
  }
}
