/** The shared conversation log and its verifier. */
module ConversationBridge {
  // `ConversationBridge.append` and `read` (mcp_qso_edu/conversation_bridge.py) and `_verify_bridge`
  // (tools/mesh_integrity_check.py).

  import opened Common
  import opened HashChain

  /** Everything in a row besides its number and hashes; texts are already stripped. */
  datatype Message = Message(eventId: string, ts: string, sessionId: string, source: string, content: string,
      metadata: string)
  datatype Numbered = Numbered(seqNo: int, message: Message)
  type Row = Link<Numbered>
  type Hashing = Hasher<Numbered>

  datatype Line = Blank | Text(row: Row)

  function Rows(lines: seq<Line>): seq<Row> {
    if lines == [] then []
    else
      var n := |lines| - 1;
      Rows(lines[..n]) + if lines[n].Text? then [lines[n].row] else []
  }

  function LastSeq(rows: seq<Row>): int {
    if rows == [] then 0 else rows[|rows| - 1].body.seqNo
  }

  /** Numbers start above 0 and rise. */
  predicate Rising(rows: seq<Row>)
    decreases rows
  {
    rows == [] || (Rising(rows[..|rows| - 1]) && rows[|rows| - 1].body.seqNo > LastSeq(rows[..|rows| - 1]))
  }

  predicate Accepted(h: Hashing, rows: seq<Row>) {
    Rising(rows) && Chained(h, rows)
  }

  // ----- the verifier

  datatype Detail = AllGood | NonMonotonicSeq(line: nat) | PrevHashMismatch(line: nat) | HashMismatch(line: nat)

  lemma RowsSnoc(lines: seq<Line>, i: nat)
    requires i < |lines|
    ensures Rows(lines[..i + 1]) == if lines[i].Text? then Rows(lines[..i]) + [lines[i].row] else Rows(lines[..i])
  {
    assert lines[..i + 1][..i] == lines[..i];
  }

  lemma {:induction false} AcceptedPrefix(h: Hashing, rows: seq<Row>, k: nat)
    requires k <= |rows| && Accepted(h, rows)
    ensures Accepted(h, rows[..k])
    decreases |rows|
  {
    if k < |rows| {
      var n := |rows| - 1;
      assert rows == rows[..n] + [rows[n]];
      AcceptedPrefix(h, rows[..n], k);
      assert rows[..n][..k] == rows[..k];
    } else {
      assert rows[..k] == rows;
    }
  }

  lemma {:induction false} RowsPrefix(lines: seq<Line>, i: nat)
    requires i <= |lines|
    ensures Rows(lines[..i]) <= Rows(lines)
    decreases |lines| - i
  {
    if i < |lines| {
      RowsPrefix(lines, i + 1);
      RowsSnoc(lines, i);
    } else {
      assert lines[..i] == lines;
    }
  }

  /** The fault the report names is in the first row that is not acceptable, and the count is of the rows before it. */
  ghost predicate FirstFault(h: Hashing, lines: seq<Line>, rows: nat, line: nat) {
    && 0 < line <= |lines| && rows == |Rows(lines[..line - 1])|
    && Accepted(h, Rows(lines[..line - 1])) && !Accepted(h, Rows(lines[..line]))
  }

  /** The reason given is the first of the three that holds of that row. */
  predicate Explains(h: Hashing, before: seq<Row>, row: Row, detail: Detail) {
    match detail
    case AllGood => false
    case NonMonotonicSeq(_) => row.body.seqNo <= LastSeq(before)
    case PrevHashMismatch(_) => row.body.seqNo > LastSeq(before) && row.prev != EndHash(before)
    case HashMismatch(_) =>
      row.body.seqNo > LastSeq(before) && row.prev == EndHash(before) && row.hash != h(row.body, row.prev)
  }

  lemma BadRowRejects(h: Hashing, lines: seq<Line>, i: nat)
    requires i <= |lines| && !Accepted(h, Rows(lines[..i]))
    ensures !Accepted(h, Rows(lines))
  {
    RowsPrefix(lines, i);
    var all, part := Rows(lines), Rows(lines[..i]);
    assert all[..|part|] == part;
    if Accepted(h, all) {
      AcceptedPrefix(h, all, |part|);
    }
  }

  /** `_verify_bridge`, on a file that exists. */
  method VerifyBridge(h: Hashing, lines: seq<Line>) returns (ok: bool, rows: nat, detail: Detail)
    ensures ok <==> Accepted(h, Rows(lines))
    ensures ok ==> rows == |Rows(lines)| && detail == AllGood
    ensures !ok ==> detail != AllGood && FirstFault(h, lines, rows, detail.line)
    ensures !ok ==>
      lines[detail.line - 1].Text? && Explains(h, Rows(lines[..detail.line - 1]), lines[detail.line - 1].row, detail)
  {
    var prevHash, lastSeq := GENESIS, 0;
    rows := 0;
    for i := 0 to |lines|
      invariant Accepted(h, Rows(lines[..i])) && rows == |Rows(lines[..i])|
      invariant prevHash == EndHash(Rows(lines[..i])) && lastSeq == LastSeq(Rows(lines[..i]))
    {
      RowsSnoc(lines, i);
      if lines[i].Blank? {
        continue;
      }
      var row := lines[i].row;
      var expected := h(row.body, row.prev);
      if row.body.seqNo <= lastSeq || row.prev != prevHash || row.hash != expected {
        BadRowRejects(h, lines, i + 1);
        detail := if row.body.seqNo <= lastSeq then NonMonotonicSeq(i + 1)
                  else if row.prev != prevHash then PrevHashMismatch(i + 1)
                  else HashMismatch(i + 1);
        return false, rows, detail;
      }
      prevHash, lastSeq, rows := expected, row.body.seqNo, rows + 1;
    }
    assert lines[..|lines|] == lines;
    return true, rows, AllGood;
  }

  // ----- the writers

  datatype Refusal = EmptySource | EmptyContent

  /** The row appended after `rows`, whoever writes it. */
  function NextRow(h: Hashing, rows: seq<Row>, message: Message): Row {
    Sealed(h, rows, Numbered(LastSeq(rows) + 1, message))
  }

  /** Rows numbered 1, 2, 3, ... */
  predicate NumberedFromOne(rows: seq<Row>) {
    forall i :: 0 <= i < |rows| ==> rows[i].body.seqNo == i + 1
  }

  /** A locked append keeps an accepted log accepted, and a log numbered 1..n numbered 1..n+1. */
  lemma AppendKeeps(h: Hashing, rows: seq<Row>, message: Message)
    requires Accepted(h, rows)
    ensures Accepted(h, rows + [NextRow(h, rows, message)])
    ensures NumberedFromOne(rows) ==> NumberedFromOne(rows + [NextRow(h, rows, message)])
  {
  }

  class LogFile {
    var lines: seq<Line>

    constructor ()
      ensures lines == []
    {
      lines := [];
    }
  }

  /** One process's handle on the shared file; the cached tail is never trusted for writing. */
  class Bridge {
    const file: LogFile
    var lastSeq: int
    var lastHash: string

    constructor (h: Hashing, file: LogFile)
      ensures this.file == file
      ensures lastSeq == LastSeq(Rows(file.lines)) && lastHash == TailHash(h, Rows(file.lines))
    {
      this.file := file;
      var tailSeq, tailHash := TailState(h, file.lines);
      lastSeq, lastHash := tailSeq, tailHash;
    }

    method Append(h: Hashing, message: Message) returns (r: Result<Row, Refusal>)
      modifies this, file
      ensures message.source == "" ==> r == Err(EmptySource)
      ensures message.source != "" && message.content == "" ==> r == Err(EmptyContent)
      ensures r.Err? <==> message.source == "" || message.content == ""
      ensures r.Err? ==> file.lines == old(file.lines)
      ensures r.Ok? ==> r.value == NextRow(h, Rows(old(file.lines)), message)
      ensures r.Ok? ==> file.lines == old(file.lines) + [Text(r.value)]
      ensures r.Ok? ==> Rows(file.lines) == Rows(old(file.lines)) + [r.value]
      ensures r.Ok? ==> lastSeq == r.value.body.seqNo && lastHash == r.value.hash
    {
      if message.source == "" {
        return Err(EmptySource);
      }
      if message.content == "" {
        return Err(EmptyContent);
      }
      var tailSeq, tailHash := TailState(h, file.lines);
      var body := Numbered(tailSeq + 1, message);
      var row := Link(body, tailHash, h(body, tailHash));
      file.lines := file.lines + [Text(row)];
      lastSeq, lastHash := row.body.seqNo, row.hash;
      return Ok(row);
    }
  }

  /** `_tail_state_unlocked`: scan for the last non-empty line. */
  method TailState(h: Hashing, lines: seq<Line>) returns (seqNo: int, hash: string)
    ensures seqNo == LastSeq(Rows(lines)) && hash == TailHash(h, Rows(lines))
  {
    var last: Option<Row> := None;
    for i := 0 to |lines|
      invariant if Rows(lines[..i]) == [] then last == None else last == Some(Rows(lines[..i])[|Rows(lines[..i])| - 1])
    {
      RowsSnoc(lines, i);
      if lines[i].Text? {
        last := Some(lines[i].row);
      }
    }
    assert lines[..|lines|] == lines;
    if last.None? {
      return 0, GENESIS;
    }
    var row := last.value;
    return row.body.seqNo, if row.hash != "" then row.hash else h(row.body, row.prev);
  }

  // ----- paging

  function After(rows: seq<Row>, after: int): seq<Row> {
    if rows == [] then []
    else
      var n := |rows| - 1;
      After(rows[..n], after) + if rows[n].body.seqNo > after then [rows[n]] else []
  }

  function Clamp(limit: int): nat {
    if limit < 1 then 1 else if limit > 500 then 500 else limit
  }

  function Page(rows: seq<Row>, after: int, limit: int): seq<Row> {
    var rest := After(rows, after);
    if |rest| <= Clamp(limit) then rest else rest[..Clamp(limit)]
  }

  function Distance(a: int, b: int): nat {
    if a < b then b - a else a - b
  }

  /** A limit is moved to the nearest number from 1 to 500, and no page is longer. */
  lemma ClampIsNearest(limit: int, n: int)
    requires 1 <= n <= 500
    ensures 1 <= Clamp(limit) <= 500 && Distance(limit, Clamp(limit)) <= Distance(limit, n)
  {
  }

  lemma AfterSnoc(lines: seq<Line>, i: nat, after: int)
    requires i < |lines|
    ensures After(Rows(lines[..i + 1]), after) == After(Rows(lines[..i]), after) +
      if lines[i].Text? && lines[i].row.body.seqNo > after then [lines[i].row] else []
  {
    RowsSnoc(lines, i);
    if lines[i].Text? { assert (Rows(lines[..i]) + [lines[i].row])[..|Rows(lines[..i])|] == Rows(lines[..i]); }
  }

  lemma {:induction false} AfterPrefix(rows: seq<Row>, k: nat, after: int)
    requires k <= |rows|
    ensures After(rows[..k], after) <= After(rows, after)
    decreases |rows|
  {
    if k < |rows| {
      AfterPrefix(rows[..|rows| - 1], k, after);
      assert rows[..|rows| - 1][..k] == rows[..k];
    } else {
      assert rows[..k] == rows;
    }
  }

  /** A full part of what follows is the page. */
  lemma PartIsPage(lines: seq<Line>, i: nat, after: int, limit: int)
    requires i <= |lines|
    requires |After(Rows(lines[..i]), after)| == Clamp(limit)
      || (i == |lines| && |After(Rows(lines), after)| < Clamp(limit))
    ensures After(Rows(lines[..i]), after) == Page(Rows(lines), after, limit)
  {
    RowsPrefix(lines, i);
    var all, part := Rows(lines), Rows(lines[..i]);
    assert all[..|part|] == part;
    AfterPrefix(all, |part|, after);
    assert lines[..|lines|] == lines;
  }

  /** `read(after_seq, limit)`: the loop stops at the limit. */
  method Read(lines: seq<Line>, afterSeq: int, limit: int) returns (messages: seq<Row>, nextSeq: int)
    ensures var after := if afterSeq < 0 then 0 else afterSeq;
      && messages == Page(Rows(lines), after, limit)
      && nextSeq == if messages == [] then after else messages[|messages| - 1].body.seqNo
  {
    var boundedAfter := if afterSeq < 0 then 0 else afterSeq;
    var boundedLimit := Clamp(limit);
    messages := [];
    var i := 0;
    while i < |lines| && |messages| < boundedLimit
      invariant i <= |lines| && messages == After(Rows(lines[..i]), boundedAfter)
      invariant |messages| <= boundedLimit
    {
      AfterSnoc(lines, i, boundedAfter);
      if lines[i].Text? {
        if lines[i].row.body.seqNo > boundedAfter {
          messages := messages + [lines[i].row];
        }
      }
      i := i + 1;
    }
    if i == |lines| { assert lines[..i] == lines; }
    PartIsPage(lines, i, boundedAfter, limit);
    nextSeq := if messages == [] then boundedAfter else messages[|messages| - 1].body.seqNo;
  }

  /** A reader pages through the log while writers append to it. */
  datatype Session = Session(rows: seq<Row>, after: int, collected: seq<Row>)
  datatype Turn = Write(message: Message) | ReadPage(limit: int)

  function TakeTurn(h: Hashing, s: Session, turn: Turn): Session {
    match turn
    case Write(message) => s.(rows := s.rows + [NextRow(h, s.rows, message)])
    case ReadPage(limit) =>
      var page := Page(s.rows, s.after, limit);
      s.(collected := s.collected + page, after := if page == [] then s.after else page[|page| - 1].body.seqNo)
  }

  function TakeTurns(h: Hashing, s: Session, turns: seq<Turn>): Session
    decreases turns
  {
    if turns == [] then s else TakeTurns(h, TakeTurn(h, s, turns[0]), turns[1..])
  }

  /** What has been read is a prefix of the log, and the cursor stands at its end. */
  ghost predicate ReadSoFar(h: Hashing, s: Session) {
    Accepted(h, s.rows) && s.collected <= s.rows && s.after == LastSeq(s.collected)
  }

  /** In a rising log, what follows the number of the k-th row is what follows the k-th row. */
  lemma {:induction false} AfterIsRest(rows: seq<Row>, k: nat)
    requires Rising(rows) && k <= |rows|
    ensures After(rows, LastSeq(rows[..k])) == rows[k..]
    ensures LastSeq(rows[..k]) <= LastSeq(rows)
    decreases |rows|
  {
    if k == |rows| {
      assert rows[..k] == rows;
      LastNonNegative(rows);
      NothingAfterLast(rows, LastSeq(rows));
    } else {
      var n := |rows| - 1;
      assert rows[..n][..k] == rows[..k];
      AfterIsRest(rows[..n], k);
      assert rows[k..] == rows[..n][k..] + [rows[n]];
    }
  }

  lemma {:induction false} NothingAfterLast(rows: seq<Row>, bound: int)
    requires Rising(rows) && LastSeq(rows) <= bound && 0 <= bound
    ensures After(rows, bound) == []
    decreases |rows|
  {
    if rows != [] {
      var n := |rows| - 1;
      LastNonNegative(rows[..n]);
      NothingAfterLast(rows[..n], bound);
    }
  }

  lemma {:induction false} LastNonNegative(rows: seq<Row>)
    requires Rising(rows)
    ensures LastSeq(rows) >= 0
    decreases |rows|
  {
    if rows != [] { LastNonNegative(rows[..|rows| - 1]); }
  }

  lemma TurnKeepsPlace(h: Hashing, s: Session, turn: Turn)
    requires ReadSoFar(h, s)
    ensures ReadSoFar(h, TakeTurn(h, s, turn))
    ensures turn.ReadPage? && TakeTurn(h, s, turn).collected == s.collected ==> s.collected == s.rows
  {
    match turn
    case Write(message) => AppendKeeps(h, s.rows, message);
    case ReadPage(limit) => PageIsNext(s.rows, s.collected, limit);
  }

  /** The page after the rows read so far is the next stretch of the log; it is empty only at the end. */
  lemma PageIsNext(rows: seq<Row>, collected: seq<Row>, limit: int)
    requires Rising(rows) && collected <= rows
    ensures var page := Page(rows, LastSeq(collected), limit);
      && collected + page <= rows
      && LastSeq(collected + page) == (if page == [] then LastSeq(collected) else page[|page| - 1].body.seqNo)
      && (collected + page == collected ==> collected == rows)
  {
    var k := |collected|;
    assert rows[..k] == collected;
    AfterIsRest(rows, k);
    var page := Page(rows, LastSeq(collected), limit);
    assert page == rows[k..k + |page|];
    assert collected + page == rows[..k + |page|];
  }

  /**
   Paging under concurrent appends: whatever limits are used and whatever is written meanwhile, the
   rows read so far are the log's first rows, each once and in order; an empty page means all of it.
   */
  lemma {:induction false} PagingReadsAll(h: Hashing, s: Session, turns: seq<Turn>)
    requires ReadSoFar(h, s)
    ensures ReadSoFar(h, TakeTurns(h, s, turns))
    ensures forall limit :: Page(TakeTurns(h, s, turns).rows, TakeTurns(h, s, turns).after, limit) == [] ==>
      TakeTurns(h, s, turns).collected == TakeTurns(h, s, turns).rows
    decreases turns
  {
    if turns == [] {
      forall limit | Page(s.rows, s.after, limit) == [] ensures s.collected == s.rows {
        TurnKeepsPlace(h, s, ReadPage(limit));
        assert s.collected + [] == s.collected;
      }
    } else {
      TurnKeepsPlace(h, s, turns[0]);
      PagingReadsAll(h, TakeTurn(h, s, turns[0]), turns[1..]);
    }
  }

  /**
   Whatever is written and read in turn, a log numbered from one stays so, and the reader's cursor is the number of
   rows it has read.
   */
  lemma {:induction false} CursorCounts(h: Hashing, s: Session, turns: seq<Turn>)
    requires ReadSoFar(h, s) && NumberedFromOne(s.rows)
    ensures var end := TakeTurns(h, s, turns); NumberedFromOne(end.rows) && end.after == |end.collected|
    decreases turns
  {
    if turns == [] {
      assert s.collected != [] ==> s.collected[|s.collected| - 1] == s.rows[|s.collected| - 1];
    } else {
      TurnKeepsPlace(h, s, turns[0]);
      if turns[0].Write? { AppendKeeps(h, s.rows, turns[0].message); }
      CursorCounts(h, TakeTurn(h, s, turns[0]), turns[1..]);
    }
  }

  function Messages(rows: seq<Row>): seq<Message> {
    seq(|rows|, i requires 0 <= i < |rows| => rows[i].body.message)
  }

  function Sent(turns: seq<Turn>): seq<Message> {
    if turns == [] then [] else (if turns[0].Write? then [turns[0].message] else []) + Sent(turns[1..])
  }

  lemma MessagesAppend(rows: seq<Row>, row: Row)
    ensures Messages(rows + [row]) == Messages(rows) + [row.body.message]
  {
  }

  lemma TurnSends(h: Hashing, s: Session, turn: Turn)
    ensures Messages(TakeTurn(h, s, turn).rows) == Messages(s.rows) + if turn.Write? then [turn.message] else []
  {
    if turn.Write? { MessagesAppend(s.rows, NextRow(h, s.rows, turn.message)); }
  }

  lemma Regroup(a: seq<Message>, b: seq<Message>, c: seq<Message>)
    ensures a + b + c == a + (b + c)
  {
  }

  /** The log holds the messages that were there and then those sent, in order and as they were sent. */
  lemma {:induction false} LogHoldsMessages(h: Hashing, s: Session, turns: seq<Turn>)
    ensures Messages(TakeTurns(h, s, turns).rows) == Messages(s.rows) + Sent(turns)
    decreases turns
  {
    if turns == [] {
      assert Sent(turns) == [];
    } else {
      LogHoldsMessages(h, TakeTurn(h, s, turns[0]), turns[1..]);
      TurnSends(h, s, turns[0]);
      Regroup(Messages(s.rows), if turns[0].Write? then [turns[0].message] else [], Sent(turns[1..]));
    }
  }
}
