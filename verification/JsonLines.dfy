/**
 One JSON object a line (qso_xr/knowledge_lattice.py): what the writer's `json.dumps(..., ensure_ascii=False)`
 puts into a line, and what the reader's `splitlines` makes of the file.
 */
module JsonLines {
  import opened Common
  import opened Text

  // ----- reading: `str.splitlines`, `strip`, blank lines skipped

  /** Where `str.splitlines` ends a line: ten characters, of which JSON escapes all but three. */
  predicate IsBreak(c: char) {
    var n := c as int;
    0x0A <= n <= 0x0D || 0x1C <= n <= 0x1E || IsBareBreak(c)
  }

  /** Next line, line separator and paragraph separator, which JSON writes as they are. */
  predicate IsBareBreak(c: char) {
    c as int in {0x85, 0x2028, 0x2029}
  }

  lemma BreaksAre(c: char)
    ensures IsBreak(c) <==> c as int in {0x0A, 0x0B, 0x0C, 0x0D, 0x1C, 0x1D, 0x1E, 0x85, 0x2028, 0x2029}
  {
  }

  predicate Breaks(s: string) {
    exists i :: 0 <= i < |s| && IsBreak(s[i])
  }

  function LineEnd(s: string): (end: nat)
    ensures end <= |s| && !Breaks(s[..end]) && (end < |s| ==> IsBreak(s[end]))
  {
    if s == "" || IsBreak(s[0]) then 0
    else
      var end := 1 + LineEnd(s[1..]);
      assert forall i :: 0 < i < end ==> s[..end][i] == s[1..][..end - 1][i - 1];
      end
  }

  /** `s.splitlines()` */
  function SplitLines(s: string): seq<string> {
    if s == "" then []
    else
      var end := LineEnd(s);
      var next :=
        if end == |s| then end
        else if s[end] == '\r' && end + 1 < |s| && s[end + 1] == '\n' then end + 2
        else end + 1;
      [s[..end]] + SplitLines(s[next..])
  }

  /** The lines handed to `json.loads`. */
  function Loaded(lines: seq<string>): seq<string> {
    if lines == [] then []
    else
      var line := Strip(lines[0]);
      (if line == "" then [] else [line]) + Loaded(lines[1..])
  }

  /** The file that one append after another leaves. */
  function Written(lines: seq<string>): string {
    if lines == [] then "" else lines[0] + "\n" + Written(lines[1..])
  }

  predicate Framed(line: string) {
    |line| >= 2 && line[0] == '{' && line[|line| - 1] == '}'
  }

  lemma {:induction false} StripKeepsHead(s: string)
    requires s != "" && !IsSpace(s[0])
    ensures Strip(s) != "" && Strip(s) <= s
  {
    if IsSpace(s[|s| - 1]) { StripKeepsHead(s[..|s| - 1]); }
  }

  lemma NoBreakBefore(s: string, a: nat, b: nat)
    requires a <= |s| && b <= |s| && !Breaks(s[..a]) && !Breaks(s[..b])
    ensures b < a ==> !IsBreak(s[b])
    ensures a < b ==> !IsBreak(s[a])
  {
    if b < a { assert s[..a][b] == s[b]; }
    if a < b { assert s[..b][a] == s[a]; }
  }

  lemma LineEndIs(s: string, end: nat)
    requires end < |s| && !Breaks(s[..end]) && IsBreak(s[end])
    ensures LineEnd(s) == end
  {
    NoBreakBefore(s, end, LineEnd(s));
  }

  /** A line ends at its first break; a carriage return and the line feed behind it are one. */
  lemma FirstLine(line: string, mark: string, rest: string)
    requires !Breaks(line)
    requires mark == "\r\n" || (|mark| == 1 && IsBreak(mark[0]) && (mark == "\r" && rest != "" ==> rest[0] != '\n'))
    ensures SplitLines(line + mark + rest) == [line] + SplitLines(rest)
  {
    var s, k := line + mark + rest, |line| + |mark|;
    assert s[..|line|] == line && s[|line|] == mark[0] && s[k..] == rest;
    assert IsBreak('\r');
    LineEndIs(s, |line|);
    assert |mark| == 2 ==> s[|line| + 1] == '\n';
    assert |mark| == 1 && rest != "" ==> s[|line| + 1] == rest[0];
  }

  lemma FirstLineWhole(line: string, rest: string)
    requires Framed(line) && !Breaks(line)
    ensures SplitLines(line + "\n" + rest) == [line] + SplitLines(rest)
  {
    FirstLine(line, "\n", rest);
  }

  /** Blank lines are skipped, and others lose the space around them. */
  lemma {:induction false} LoadedConcat(a: seq<string>, b: seq<string>)
    ensures Loaded(a + b) == Loaded(a) + Loaded(b)
    decreases |a|
  {
    if a == [] {
      assert a + b == b;
    } else {
      assert (a + b)[0] == a[0] && (a + b)[1..] == a[1..] + b;
      LoadedConcat(a[1..], b);
    }
  }

  lemma LoadedOne(line: string)
    ensures Loaded([line]) == if AllSpace(line) then [] else [Strip(line)]
  {
    var left, right := StripIs(line);
    assert [line][1..] == [];
  }

  /** A line that holds a line break comes back as a proper beginning of itself. */
  lemma FirstLineTorn(line: string, rest: string)
    requires Framed(line) && Breaks(line)
    ensures var torn := Loaded(SplitLines(line + "\n" + rest)); torn != [] && |torn[0]| < |line| && torn[0] <= line
  {
    var s, end := line + "\n" + rest, LineEnd(line);
    assert line[..|line|] == line;
    assert s[..end] == line[..end] && s[end] == line[end];
    LineEndIs(s, end);
    assert end > 0 by { assert !IsBreak('{'); }
    StripKeepsHead(s[..end]);
  }

  lemma StripWhole(line: string)
    requires Framed(line)
    ensures Strip(line) == line
  {
  }

  lemma FirstLineLoads(line: string, rest: string)
    requires Framed(line) && !Breaks(line)
    ensures Loaded(SplitLines(line + "\n" + rest)) == [line] + Loaded(SplitLines(rest))
  {
    FirstLineWhole(line, rest);
    StripWhole(line);
    var whole := [line] + SplitLines(rest);
    assert whole[1..] == SplitLines(rest);
  }

  lemma SameRest(line: string, a: seq<string>, b: seq<string>)
    ensures [line] + a == [line] + b <==> a == b
  {
    assert ([line] + a)[1..] == a && ([line] + b)[1..] == b;
  }

  /** A file gives its lines back exactly when none of them holds a line break. */
  lemma {:induction false} LinesReadBackIff(lines: seq<string>)
    requires forall i :: 0 <= i < |lines| ==> Framed(lines[i])
    ensures Loaded(SplitLines(Written(lines))) == lines <==> forall i :: 0 <= i < |lines| ==> !Breaks(lines[i])
  {
    if lines != [] {
      var line, rest := lines[0], lines[1..];
      LinesReadBackIff(rest);
      if Breaks(line) {
        FirstLineTorn(line, Written(rest));
      } else {
        FirstLineLoads(line, Written(rest));
        SameRest(line, Loaded(SplitLines(Written(rest))), rest);
        assert lines == [line] + rest;
      }
    }
  }

  // ----- writing

  predicate InLiteral(c: char) {
    '0' <= c <= '9' || 'a' <= c <= 'z' || 'A' <= c <= 'Z' || c == '+' || c == '-' || c == '.'
  }

  type Plain = s: string | s != "" && forall i :: 0 <= i < |s| ==> InLiteral(s[i]) witness "0"

  /** An event as the writer encodes it; numbers, `true`, `false` and `null` are literals. */
  datatype Json = Text(s: string) | Literal(text: Plain) | Object(members: Members)

  datatype Members = End | Member(key: string, value: Json, rest: Members)

  function HexDigit(n: nat): char
    requires n < 16
  {
    "0123456789abcdef"[n]
  }

  function Escape(c: char): string {
    if c == '"' then "\\\""
    else if c == '\\' then "\\\\"
    else if c == '\n' then "\\n"
    else if c == '\r' then "\\r"
    else if c == '\t' then "\\t"
    else if c as int == 0x08 then "\\b"
    else if c as int == 0x0C then "\\f"
    else if c as int < 0x20 then "\\u00" + [HexDigit(c as int / 16), HexDigit(c as int % 16)]
    else [c]
  }

  function Escaped(s: string): string {
    if s == "" then "" else Escape(s[0]) + Escaped(s[1..])
  }

  function Quoted(s: string): string {
    "\"" + Escaped(s) + "\""
  }

  /** `_canonical_json` */
  function Encoded(j: Json): string {
    match j
    case Text(s) => Quoted(s)
    case Literal(text) => text
    case Object(members) => "{" + EncodedMembers(members) + "}"
  }

  function EncodedMembers(members: Members): string {
    match members
    case End => ""
    case Member(key, value, rest) =>
      Quoted(key) + ":" + Encoded(value) + (if rest.End? then "" else ",") + EncodedMembers(rest)
  }

  predicate HoldsBare(s: string) {
    exists i :: 0 <= i < |s| && IsBareBreak(s[i])
  }

  /** Some key or text of the event holds one of the three characters. */
  predicate Tearing(j: Json) {
    match j
    case Text(s) => HoldsBare(s)
    case Literal(_) => false
    case Object(members) => TearingMembers(members)
  }

  predicate TearingMembers(members: Members) {
    match members
    case End => false
    case Member(key, value, rest) => HoldsBare(key) || Tearing(value) || TearingMembers(rest)
  }

  lemma BreaksConcat(a: string, b: string)
    ensures Breaks(a + b) <==> Breaks(a) || Breaks(b)
  {
    if i :| 0 <= i < |a| && IsBreak(a[i]) { assert IsBreak((a + b)[i]); }
    if i :| 0 <= i < |b| && IsBreak(b[i]) { assert IsBreak((a + b)[|a| + i]); }
  }

  lemma HexIsPlain(n: nat)
    requires n < 16
    ensures !IsBreak(HexDigit(n))
  {
  }

  lemma EscapeBreaksIff(c: char)
    ensures Breaks(Escape(c)) <==> IsBareBreak(c)
  {
    if c as int < 0x20 {
      HexIsPlain(c as int / 16);
      HexIsPlain(c as int % 16);
    } else if IsBareBreak(c) {
      assert IsBreak(Escape(c)[0]);
    }
  }

  lemma {:induction false} EscapedBreaksIff(s: string)
    ensures Breaks(Escaped(s)) <==> HoldsBare(s)
  {
    if s != "" {
      EscapeBreaksIff(s[0]);
      EscapedBreaksIff(s[1..]);
      BreaksConcat(Escape(s[0]), Escaped(s[1..]));
      assert forall i :: 0 < i < |s| ==> s[i] == s[1..][i - 1];
    }
  }

  lemma QuotedBreaksIff(s: string)
    ensures Breaks(Quoted(s)) <==> HoldsBare(s)
  {
    EscapedBreaksIff(s);
    BreaksConcat("\"" + Escaped(s), "\"");
    BreaksConcat("\"", Escaped(s));
  }

  /** A line holds a line break exactly when one of the event's texts holds one of the three characters. */
  lemma {:induction false} EncodedBreaksIff(j: Json)
    ensures Breaks(Encoded(j)) <==> Tearing(j)
  {
    match j
    case Text(s) => QuotedBreaksIff(s);
    case Literal(_) =>
    case Object(members) =>
      MembersBreakIff(members);
      BreaksConcat("{" + EncodedMembers(members), "}");
      BreaksConcat("{", EncodedMembers(members));
  }

  lemma {:induction false} MembersBreakIff(members: Members)
    ensures Breaks(EncodedMembers(members)) <==> TearingMembers(members)
  {
    match members
    case End =>
    case Member(key, value, rest) =>
      var comma := if rest.End? then "" else ",";
      QuotedBreaksIff(key);
      EncodedBreaksIff(value);
      MembersBreakIff(rest);
      BreaksConcat(Quoted(key), ":");
      BreaksConcat(Quoted(key) + ":", Encoded(value));
      BreaksConcat(Quoted(key) + ":" + Encoded(value), comma);
      BreaksConcat(Quoted(key) + ":" + Encoded(value) + comma, EncodedMembers(rest));
  }

  function Lines(events: seq<Json>): seq<string> {
    seq(|events|, i requires 0 <= i < |events| => Encoded(events[i]))
  }

  /**
   A file of events gives its lines back exactly when no key or text in it holds U+0085, U+2028 or U+2029:
   the writer leaves those as they are, and the reader ends a line at each.
   */
  lemma FileReadsBackIff(events: seq<Json>)
    requires forall i :: 0 <= i < |events| ==> events[i].Object?
    ensures Loaded(SplitLines(Written(Lines(events)))) == Lines(events) <==>
      forall i :: 0 <= i < |events| ==> !Tearing(events[i])
  {
    var lines := Lines(events);
    forall i | 0 <= i < |lines| ensures Framed(lines[i]) && (Breaks(lines[i]) <==> Tearing(events[i])) {
      EncodedBreaksIff(events[i]);
    }
    LinesReadBackIff(lines);
  }

  /** A claim whose statement holds a line separator: what comes back is not what was written. */
  lemma SeparatorTearsFile()
    ensures var events := [Object(Member("statement", Text("a\U{2028}b"), End))];
      Loaded(SplitLines(Written(Lines(events)))) != Lines(events)
  {
    var statement := "a\U{2028}b";
    var event := Object(Member("statement", Text(statement), End));
    assert IsBareBreak(statement[1]);
    assert Tearing(event);
    FileReadsBackIff([event]);
  }

  // ----- reading a line back

  /** What was read, and the characters behind it. */
  datatype Parsed<T> = Parsed(value: T, rest: string)

  function HexValue(c: char): Option<nat> {
    if '0' <= c <= '9' then Some(c as int - '0' as int)
    else if 'a' <= c <= 'f' then Some(c as int - 'a' as int + 10)
    else None
  }

  /** Reads a text behind its opening quote, with the escapes that the writer uses. */
  function ReadText(s: string): (r: Option<Parsed<string>>)
    ensures r.Some? ==> |r.value.rest| < |s|
  {
    if s == "" then None
    else if s[0] == '"' then Some(Parsed("", s[1..]))
    else if s[0] != '\\' then Before(s[0], ReadText(s[1..]))
    else if |s| < 2 then None
    else if s[1] == 'u' then
      if |s| < 6 || s[2..4] != "00" || HexValue(s[4]).None? || HexValue(s[5]).None? then None
      else Before((HexValue(s[4]).value * 16 + HexValue(s[5]).value) as char, ReadText(s[6..]))
    else if Meant(s[1]).None? then None
    else Before(Meant(s[1]).value, ReadText(s[2..]))
  }

  function Before(c: char, read: Option<Parsed<string>>): Option<Parsed<string>> {
    if read.None? then None else Some(Parsed([c] + read.value.value, read.value.rest))
  }

  /** The character that a one-letter escape stands for. */
  function Meant(c: char): Option<char> {
    if c == '"' || c == '\\' then Some(c)
    else if c == 'n' then Some('\n')
    else if c == 'r' then Some('\r')
    else if c == 't' then Some('\t')
    else if c == 'b' then Some(0x08 as char)
    else if c == 'f' then Some(0x0C as char)
    else None
  }

  function LiteralEnd(s: string): (end: nat)
    ensures end <= |s| && (end < |s| ==> !InLiteral(s[end]))
    ensures forall i :: 0 <= i < end ==> InLiteral(s[i])
  {
    if s == "" || !InLiteral(s[0]) then 0 else 1 + LiteralEnd(s[1..])
  }

  function ReadJson(s: string): (r: Option<Parsed<Json>>)
    ensures r.Some? ==> |r.value.rest| < |s|
    decreases |s|
  {
    if s == "" then None
    else if s[0] == '"' then
      var text := ReadText(s[1..]);
      if text.None? then None else Some(Parsed(Text(text.value.value), text.value.rest))
    else if s[0] == '{' then
      if |s| > 1 && s[1] == '}' then Some(Parsed(Object(End), s[2..]))
      else
        var members := ReadMembers(s[1..]);
        if members.None? then None else Some(Parsed(Object(members.value.value), members.value.rest))
    else if InLiteral(s[0]) then Some(Parsed(Literal(s[..LiteralEnd(s)]), s[LiteralEnd(s)..]))
    else None
  }

  /** One member at least, and the closing brace. */
  function ReadMembers(s: string): (r: Option<Parsed<Members>>)
    ensures r.Some? ==> |r.value.rest| < |s|
    decreases |s|
  {
    if s == "" || s[0] != '"' then None
    else
      var key := ReadText(s[1..]);
      if key.None? || key.value.rest == "" || key.value.rest[0] != ':' then None
      else
        var value := ReadJson(key.value.rest[1..]);
        if value.None? || value.value.rest == "" then None
        else if value.value.rest[0] == '}' then
          Some(Parsed(Member(key.value.value, value.value.value, End), value.value.rest[1..]))
        else if value.value.rest[0] != ',' then None
        else
          var more := ReadMembers(value.value.rest[1..]);
          if more.None? then None
          else Some(Parsed(Member(key.value.value, value.value.value, more.value.value), more.value.rest))
  }

  lemma HexReads(n: nat)
    requires n < 16
    ensures HexValue(HexDigit(n)) == Some(n)
  {
  }

  lemma PlainReads(c: char, rest: string)
    requires |Escape(c)| == 1
    ensures ReadText(Escape(c) + rest) == Before(c, ReadText(rest))
  {
    assert Escape(c) == [c];
    assert ([c] + rest)[1..] == rest;
  }

  lemma HexEscapeReads(c: char, rest: string)
    requires |Escape(c)| == 6
    ensures ReadText(Escape(c) + rest) == Before(c, ReadText(rest))
  {
    var s, n := Escape(c) + rest, c as int;
    HexReads(n / 16);
    HexReads(n % 16);
    assert s[6..] == rest && s[2..4] == "00" && s[4] == HexDigit(n / 16) && s[5] == HexDigit(n % 16);
  }

  lemma ShortEscapeReads(c: char, rest: string)
    requires |Escape(c)| == 2
    ensures ReadText(Escape(c) + rest) == Before(c, ReadText(rest))
  {
    var s := Escape(c) + rest;
    assert s[2..] == rest && s[0] == '\\' && s[1] == Escape(c)[1];
    assert s[1] != 'u' && Meant(s[1]) == Some(c);
  }

  /** An escaped character reads back as itself, whatever comes behind it. */
  lemma EscapeReads(c: char, rest: string)
    ensures ReadText(Escape(c) + rest) == Before(c, ReadText(rest))
  {
    if |Escape(c)| == 6 {
      HexEscapeReads(c, rest);
    } else if |Escape(c)| == 2 {
      ShortEscapeReads(c, rest);
    } else {
      PlainReads(c, rest);
    }
  }

  lemma Regrouped(a: string, b: string, rest: string)
    ensures a + b + "\"" + rest == a + (b + "\"" + rest)
  {
  }

  lemma {:induction false} TextReads(s: string, rest: string)
    ensures ReadText(Escaped(s) + "\"" + rest) == Some(Parsed(s, rest))
  {
    if s == "" {
      assert Escaped(s) + "\"" + rest == "\"" + rest;
    } else {
      TextReads(s[1..], rest);
      EscapeReads(s[0], Escaped(s[1..]) + "\"" + rest);
      Regrouped(Escape(s[0]), Escaped(s[1..]), rest);
      assert [s[0]] + s[1..] == s;
    }
  }

  lemma OpenedQuote(inside: string, rest: string)
    ensures var s := "\"" + inside + "\"" + rest; s[0] == '"' && s[1..] == inside + "\"" + rest
  {
  }

  lemma QuotedReads(s: string, rest: string)
    ensures (Quoted(s) + rest)[0] == '"' && ReadText((Quoted(s) + rest)[1..]) == Some(Parsed(s, rest))
  {
    TextReads(s, rest);
    OpenedQuote(Escaped(s), rest);
  }

  lemma LiteralReads(text: Plain, rest: string)
    requires rest == "" || !InLiteral(rest[0])
    ensures ReadJson(text + rest) == Some(Parsed(Literal(text), rest))
  {
    var s := text + rest;
    var end := LiteralEnd(s);
    assert forall i :: 0 <= i < |text| ==> s[i] == text[i];
    assert |text| < |s| ==> s[|text|] == rest[0];
    assert end == |text|;
    assert s[..|text|] == text && s[|text|..] == rest;
  }

  lemma OpenedBrace(inside: string, rest: string)
    ensures var s := "{" + inside + "}" + rest;
      && s[0] == '{' && s[1..] == inside + "}" + rest
      && (inside == "" ==> s[1] == '}' && s[2..] == rest) && (inside != "" ==> s[1] == inside[0])
  {
  }

  lemma ObjectReads(members: Members, rest: string)
    requires members.Member? ==>
      var inside := EncodedMembers(members);
      inside[0] == '"' && ReadMembers(inside + "}" + rest) == Some(Parsed(members, rest))
    ensures ReadJson(Encoded(Object(members)) + rest) == Some(Parsed(Object(members), rest))
  {
    var inside := EncodedMembers(members);
    var s := "{" + inside + "}" + rest;
    OpenedBrace(inside, rest);
    assert Encoded(Object(members)) + rest == s;
    if members.End? {
      assert inside == "";
    } else {
      assert s[1] == inside[0] == '"';
    }
  }

  /** An event that was encoded reads back as itself, whatever comes behind it. */
  lemma {:induction false} EventReadsBack(j: Json, rest: string)
    requires rest == "" || !InLiteral(rest[0])
    ensures ReadJson(Encoded(j) + rest) == Some(Parsed(j, rest))
    decreases j, 1
  {
    match j
    case Text(s) => QuotedReads(s, rest);
    case Literal(text) => LiteralReads(text, rest);
    case Object(members) =>
      if members.Member? {
        MembersBegin(members, rest);
        MembersReadBack(members, rest);
      }
      ObjectReads(members, rest);
  }

  /** What stands behind a member's value. */
  function Behind(others: Members, rest: string): string {
    if others.End? then ['}'] + rest else [','] + (EncodedMembers(others) + "}" + rest)
  }

  lemma GroupedEnd(a: string, b: string, e: string)
    ensures a + ":" + b + "" + "" + "}" + e == a + (":" + (b + (['}'] + e)))
  {
  }

  lemma GroupedMore(a: string, b: string, d: string, e: string)
    ensures a + ":" + b + "," + d + "}" + e == a + (":" + (b + ([','] + (d + "}" + e))))
  {
  }

  lemma MembersBegin(members: Members, rest: string)
    requires members.Member?
    ensures EncodedMembers(members)[0] == '"'
    ensures EncodedMembers(members) + "}" + rest ==
      Quoted(members.key) + (":" + (Encoded(members.value) + Behind(members.rest, rest)))
  {
    var a, b := Quoted(members.key), Encoded(members.value);
    if members.rest.End? {
      GroupedEnd(a, b, rest);
    } else {
      GroupedMore(a, b, EncodedMembers(members.rest), rest);
    }
  }

  /** The first member is read: what is left is what stands behind its value. */
  lemma FirstRead(key: string, value: Json, after: string)
    requires ReadJson(Encoded(value) + after) == Some(Parsed(value, after)) && after != ""
    ensures ReadMembers(Quoted(key) + (":" + (Encoded(value) + after))) ==
      if after[0] == '}' then Some(Parsed(Member(key, value, End), after[1..]))
      else if after[0] != ',' then None
      else
        var more := ReadMembers(after[1..]);
        if more.None? then None else Some(Parsed(Member(key, value, more.value.value), more.value.rest))
  {
    var behind := ":" + (Encoded(value) + after);
    QuotedReads(key, behind);
    assert behind[0] == ':' && behind[1..] == Encoded(value) + after;
  }

  lemma {:induction false} MembersReadBack(members: Members, rest: string)
    requires members.Member?
    ensures ReadMembers(EncodedMembers(members) + "}" + rest) == Some(Parsed(members, rest))
    decreases members, 0
  {
    var Member(key, value, others) := members;
    var after := Behind(others, rest);
    MembersBegin(members, rest);
    EventReadsBack(value, after);
    FirstRead(key, value, after);
    if others.Member? { MembersReadBack(others, rest); }
  }

  /** What the reader makes of a file: an event a line, or nothing of a line that is none. */
  function Restored(file: string): seq<Option<Json>> {
    var lines := Loaded(SplitLines(file));
    seq(|lines|, i requires 0 <= i < |lines| =>
      var read := ReadJson(lines[i]);
      if read.Some? && read.value.rest == "" then Some(read.value.value) else None)
  }

  /** A file of events none of which holds one of the three characters gives just these events back, in order. */
  lemma EventsRestored(events: seq<Json>)
    requires forall i :: 0 <= i < |events| ==> events[i].Object? && !Tearing(events[i])
    ensures Restored(Written(Lines(events))) == seq(|events|, i requires 0 <= i < |events| => Some(events[i]))
  {
    FileReadsBackIff(events);
    forall i | 0 <= i < |events| ensures ReadJson(Lines(events)[i]) == Some(Parsed(events[i], "")) {
      EventReadsBack(events[i], "");
      assert Encoded(events[i]) + "" == Encoded(events[i]);
    }
  }
}
