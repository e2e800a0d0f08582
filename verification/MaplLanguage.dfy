/**
 MAPL commands: the tokenizer (mapl/tokenizer.py), the parser (mapl/parser.py), and the exact language the two accept
 together.
 */
module MaplLanguage {
  import opened Common
  import opened Text

  // ----- characters

  predicate IsIdentStart(c: char) {
    'A' <= c <= 'Z' || 'a' <= c <= 'z' || c == '_'
  }

  predicate IsIdentPart(c: char) {
    IsIdentStart(c) || '0' <= c <= '9'
  }

  predicate IsIdentifier(s: string) {
    s != "" && IsIdentStart(s[0]) && forall i :: 0 <= i < |s| ==> IsIdentPart(s[i])
  }

  // ----- tokens

  datatype Token = At | Greater | Plus | Arrow | Comma | Ident(name: string)

  function TextOf(t: Token): string {
    match t
    case At => "@"
    case Greater => ">"
    case Plus => "+"
    case Arrow => "->"
    case Comma => ","
    case Ident(name) => name
  }

  predicate ValidToken(t: Token) {
    t.Ident? ==> IsIdentifier(t.name)
  }

  /** The end of the longest stretch from pos on which `p` holds: greedy repetition. */
  function Stretch(s: string, pos: nat, p: char -> bool): (end: nat)
    requires pos <= |s|
    ensures pos <= end <= |s|
    ensures forall i :: pos <= i < end ==> p(s[i])
    ensures end < |s| ==> !p(s[end])
    decreases |s| - pos
  {
    if pos < |s| && p(s[pos]) then Stretch(s, pos + 1, p) else pos
  }

  /** The pattern `(@|>|\+|->|,|identifier)` at a position: the token and where it ends. */
  function MatchToken(s: string, pos: nat): Option<(Token, nat)>
    requires pos <= |s|
  {
    if pos == |s| then None
    else if s[pos] == '@' then Some((At, pos + 1))
    else if s[pos] == '>' then Some((Greater, pos + 1))
    else if s[pos] == '+' then Some((Plus, pos + 1))
    else if s[pos] == '-' && pos + 1 < |s| && s[pos + 1] == '>' then Some((Arrow, pos + 2))
    else if s[pos] == ',' then Some((Comma, pos + 1))
    else if IsIdentStart(s[pos]) then
      var end := Stretch(s, pos, IsIdentPart);
      Some((Ident(s[pos..end]), end))
    else None
  }

  /** The whole pattern: leading space, then a token. Space never begins a token, so greedy is the only way. */
  function MatchAt(s: string, pos: nat): (m: Option<(Token, nat)>)
    requires pos <= |s|
    ensures m.Some? ==> pos < m.value.1 <= |s|
  {
    MatchToken(s, Stretch(s, pos, IsSpace))
  }

  /** The tokens of s from pos on; None when some position does not match. */
  function Tokens(s: string, pos: nat): Option<seq<Token>>
    requires pos <= |s|
    decreases |s| - pos
  {
    if pos == |s| then Some([])
    else match MatchAt(s, pos)
      case None => None
      case Some((t, end)) =>
        match Tokens(s, end)
        case None => None
        case Some(rest) => Some([t] + rest)
  }

  datatype Error = UnexpectedToken(position: nat) | Expected(kind: string) | TrailingTokens

  /** Where scanning from pos on stops matching; None when it reaches the end. */
  function StuckAt(s: string, pos: nat): (stuck: Option<nat>)
    requires pos <= |s|
    ensures stuck.Some? <==> Tokens(s, pos).None?
    ensures stuck.Some? ==> pos <= stuck.value < |s|
    decreases |s| - pos
  {
    if pos == |s| then None
    else match MatchAt(s, pos)
      case None => Some(pos)
      case Some((_, end)) => StuckAt(s, end)
  }

  /** The longest part of a text, from its start, that scans. */
  ghost predicate LongestScan(s: string, p: nat) {
    && p < |s| && Tokens(s[..p], 0).Some?
    && forall q :: p < q <= |s| ==> Tokens(s[..q], 0).None?
  }

  /** `tokenize(source)`: the position rises at every turn, and an error names the end of what does scan. */
  method Tokenize(source: string) returns (r: Result<seq<Token>, Error>)
    ensures r.Ok? <==> Tokens(source, 0).Some?
    ensures r.Ok? ==> Tokens(source, 0) == Some(r.value)
    ensures r.Err? ==> r.error.UnexpectedToken? && LongestScan(source, r.error.position)
  {
    var tokens: seq<Token>, pos := [], 0;
    assert forall rest: seq<Token> :: [] + rest == rest;
    while pos < |source|
      invariant pos <= |source|
      invariant Tokens(source, 0) == match Tokens(source, pos) case None => None case Some(rest) => Some(tokens + rest)
      invariant StuckAt(source, 0) == StuckAt(source, pos)
      decreases |source| - pos
    {
      var m := MatchAt(source, pos);
      if m.None? {
        StuckIsLongest(source, pos);
        return Err(UnexpectedToken(pos));
      }
      ghost var before := tokens;
      tokens := tokens + [m.value.0];
      assert forall rest :: before + ([m.value.0] + rest) == tokens + rest;
      pos := m.value.1;
    }
    assert tokens + [] == tokens;
    return Ok(tokens);
  }

  lemma {:induction false} StretchPrefix(s: string, pos: nat, p: char -> bool, q: nat)
    requires pos <= q <= |s|
    ensures Stretch(s[..q], pos, p) == if Stretch(s, pos, p) <= q then Stretch(s, pos, p) else q
    decreases q - pos
  {
    if pos < q { StretchPrefix(s, pos + 1, p, q); }
  }

  lemma MatchTokenPrefix(s: string, pos: nat, q: nat)
    requires pos <= q <= |s|
    ensures MatchToken(s, pos).Some? && MatchToken(s, pos).value.1 <= q ==>
      MatchToken(s[..q], pos) == MatchToken(s, pos)
    ensures MatchToken(s, pos).None? ==> MatchToken(s[..q], pos).None?
  {
    StretchPrefix(s, pos, IsIdentPart, q);
    var end := Stretch(s, pos, IsIdentPart);
    if end <= q { assert s[..q][pos..end] == s[pos..end]; }
  }

  /** Cutting a text off behind a match leaves the match alone, and cutting it off anywhere makes no new one. */
  lemma MatchAtPrefix(s: string, pos: nat, q: nat)
    requires pos <= q <= |s|
    ensures MatchAt(s, pos).Some? && MatchAt(s, pos).value.1 <= q ==> MatchAt(s[..q], pos) == MatchAt(s, pos)
    ensures MatchAt(s, pos).None? ==> MatchAt(s[..q], pos).None?
  {
    StretchPrefix(s, pos, IsSpace, q);
    var start := Stretch(s, pos, IsSpace);
    if start <= q { MatchTokenPrefix(s, start, q); }
  }

  /** Of the prefixes that go at least as far as the scan, only the one it stops at scans. */
  lemma {:induction false} StuckPrefix(s: string, pos: nat, p: nat, q: nat)
    requires pos <= |s| && StuckAt(s, pos) == Some(p) && p <= q <= |s|
    ensures Tokens(s[..q], pos).Some? <==> q == p
    decreases |s| - pos
  {
    MatchAtPrefix(s, pos, q);
    if MatchAt(s, pos).Some? { StuckPrefix(s, MatchAt(s, pos).value.1, p, q); }
  }

  lemma StuckIsLongest(s: string, p: nat)
    requires StuckAt(s, 0) == Some(p)
    ensures LongestScan(s, p)
  {
    StuckPrefix(s, 0, p, p);
    forall q | p < q <= |s| ensures Tokens(s[..q], 0).None? { StuckPrefix(s, 0, p, q); }
  }

  // ----- texts: tokens with space before them

  /** A token and the space in front of it. */
  datatype Piece = Piece(gap: string, token: Token)

  function Render(pieces: seq<Piece>): string {
    if pieces == [] then "" else pieces[0].gap + TextOf(pieces[0].token) + Render(pieces[1..])
  }

  function TokensIn(pieces: seq<Piece>): seq<Token> {
    seq(|pieces|, i requires 0 <= i < |pieces| => pieces[i].token)
  }

  /** Valid tokens, gaps of space only, and space wherever two identifiers meet. */
  ghost predicate WellSpaced(pieces: seq<Piece>) {
    && (forall i :: 0 <= i < |pieces| ==> AllSpace(pieces[i].gap) && ValidToken(pieces[i].token))
    && forall i :: 0 < i < |pieces| && pieces[i - 1].token.Ident? && pieces[i].token.Ident? ==> pieces[i].gap != ""
  }

  lemma {:induction false} StretchIs(s: string, pos: nat, p: char -> bool, end: nat)
    requires pos <= end <= |s| && (forall i :: pos <= i < end ==> p(s[i])) && (end < |s| ==> !p(s[end]))
    ensures Stretch(s, pos, p) == end
    decreases end - pos
  {
    if pos < end { StretchIs(s, pos + 1, p, end); }
  }

  /** The first character of a token's text: no space, and for anything but an identifier no identifier character. */
  lemma FirstOfToken(t: Token)
    requires ValidToken(t)
    ensures TextOf(t) != "" && !IsSpace(TextOf(t)[0]) && (!t.Ident? ==> !IsIdentPart(TextOf(t)[0]))
  {
  }

  /** At the start of its own text, followed by something that cannot prolong it, a token matches itself. */
  lemma MatchesItself(s: string, pos: nat, t: Token)
    requires ValidToken(t) && pos + |TextOf(t)| <= |s| && s[pos..pos + |TextOf(t)|] == TextOf(t)
    requires t.Ident? && pos + |TextOf(t)| < |s| ==> !IsIdentPart(s[pos + |TextOf(t)|])
    ensures MatchToken(s, pos) == Some((t, pos + |TextOf(t)|))
  {
    var text, end := TextOf(t), pos + |TextOf(t)|;
    FirstOfToken(t);
    forall i | pos <= i < end ensures s[i] == text[i - pos] { assert s[pos..end][i - pos] == s[i]; }
    if t.Ident? {
      StretchIs(s, pos, IsIdentPart, end);
    }
  }

  /** The first piece is sound, and what follows it cannot prolong an identifier. */
  lemma FirstPiece(pieces: seq<Piece>)
    requires WellSpaced(pieces) && pieces != []
    ensures AllSpace(pieces[0].gap) && ValidToken(pieces[0].token)
    ensures pieces[0].token.Ident? && Render(pieces[1..]) != "" ==> !IsIdentPart(Render(pieces[1..])[0])
  {
    if pieces[0].token.Ident? && |pieces| > 1 {
      var next := pieces[1];
      assert pieces[1..][0] == next;
      FirstOfToken(next.token);
      if next.gap != "" { assert IsSpace(next.gap[0]); }
    }
  }

  lemma WellSpacedTail(pieces: seq<Piece>)
    requires pieces != [] && WellSpaced(pieces)
    ensures WellSpaced(pieces[1..])
  {
    var rest := pieces[1..];
    assert forall i :: 0 <= i < |rest| ==> rest[i] == pieces[i + 1];
    assert forall i :: 0 < i < |rest| ==> rest[i - 1] == pieces[i];
  }

  /** A gap, a token's text and what follows it, laid out from pos. */
  predicate LaidOut(s: string, pos: nat, gap: string, t: Token, after: string) {
    pos <= |s| && s[pos..] == gap + TextOf(t) + after
  }

  lemma WhereLaidOut(s: string, pos: nat, gap: string, t: Token, after: string)
    requires LaidOut(s, pos, gap, t, after)
    ensures var q := pos + |gap|; var end := q + |TextOf(t)|;
      end <= |s| && s[pos..q] == gap && s[q..end] == TextOf(t) && s[end..] == after
  {
    var tail, q := s[pos..], pos + |gap|;
    var end := q + |TextOf(t)|;
    assert |tail| == |gap| + |TextOf(t)| + |after|;
    assert s[pos..q] == tail[..|gap|] == gap;
    assert s[q..end] == tail[|gap|..|gap| + |TextOf(t)|] == TextOf(t);
    assert s[end..] == tail[|gap| + |TextOf(t)|..] == after;
  }

  /** The pattern skips the gap and matches the token laid out behind it. */
  lemma MatchesLaidOut(s: string, pos: nat, gap: string, t: Token, after: string)
    requires LaidOut(s, pos, gap, t, after) && AllSpace(gap) && ValidToken(t)
    requires t.Ident? && after != "" ==> !IsIdentPart(after[0])
    ensures var end := pos + |gap| + |TextOf(t)|;
      end <= |s| && MatchAt(s, pos) == Some((t, end)) && s[end..] == after
  {
    WhereLaidOut(s, pos, gap, t, after);
    var q := pos + |gap|;
    var end := q + |TextOf(t)|;
    FirstOfToken(t);
    assert s[q] == s[q..end][0];
    forall i | pos <= i < q ensures IsSpace(s[i]) { assert s[i] == s[pos..q][i - pos]; }
    StretchIs(s, pos, IsSpace, q);
    if end < |s| { assert s[end] == s[end..][0]; }
    MatchesItself(s, q, t);
  }

  /** Scanning a well-spaced text gives its tokens back. */
  lemma {:induction false} ReadsBack(s: string, pos: nat, pieces: seq<Piece>)
    requires pos <= |s| && s[pos..] == Render(pieces) && WellSpaced(pieces)
    ensures Tokens(s, pos) == Some(TokensIn(pieces))
    decreases pieces
  {
    if pieces != [] {
      var end := ReadsFirst(s, pos, pieces);
      WellSpacedTail(pieces);
      ReadsBack(s, end, pieces[1..]);
      TokensOfFirst(pieces);
    } else {
      assert |s[pos..]| == 0;
      assert TokensIn(pieces) == [];
    }
  }

  lemma ReadsFirst(s: string, pos: nat, pieces: seq<Piece>) returns (end: nat)
    requires pieces != [] && pos <= |s| && s[pos..] == Render(pieces) && WellSpaced(pieces)
    ensures pos < end <= |s| && MatchAt(s, pos) == Some((pieces[0].token, end)) && s[end..] == Render(pieces[1..])
  {
    var gap, t, rest := pieces[0].gap, pieces[0].token, pieces[1..];
    FirstPiece(pieces);
    MatchesLaidOut(s, pos, gap, t, Render(rest));
    end := pos + |gap| + |TextOf(t)|;
  }

  lemma TokensOfFirst(pieces: seq<Piece>)
    requires pieces != []
    ensures TokensIn(pieces) == [pieces[0].token] + TokensIn(pieces[1..])
  {
  }

  lemma MatchTokenValid(s: string, pos: nat)
    requires pos <= |s| && MatchToken(s, pos).Some?
    ensures var (t, end) := MatchToken(s, pos).value;
      ValidToken(t) && pos < end <= |s| && s[pos..end] == TextOf(t) && (t.Ident? && end < |s| ==> !IsIdentPart(s[end]))
  {
    var (t, end) := MatchToken(s, pos).value;
    if t.Ident? {
      assert end == Stretch(s, pos, IsIdentPart) && t.name == s[pos..end];
      assert IsIdentPart(s[pos]) && pos < end;
      assert t.name[0] == s[pos];
      forall i | 0 <= i < |t.name| ensures IsIdentPart(t.name[i]) { assert t.name[i] == s[pos + i]; }
    }
  }

  /** Every text that scans is a well-spaced text of its tokens. */
  lemma {:induction false} Splits(s: string, pos: nat) returns (pieces: seq<Piece>)
    requires pos <= |s| && Tokens(s, pos).Some?
    ensures WellSpaced(pieces) && s[pos..] == Render(pieces) && TokensIn(pieces) == Tokens(s, pos).value
    decreases |s| - pos
  {
    if pos == |s| {
      pieces := [];
    } else {
      var q := Stretch(s, pos, IsSpace);
      MatchTokenValid(s, q);
      var (t, end) := MatchToken(s, q).value;
      var rest := Splits(s, end);
      pieces := [Piece(s[pos..q], t)] + rest;
      assert pieces[1..] == rest;
      TokensOfFirst(pieces);
      RejoinsText(s, pos, q, end);
      SplitsWellSpaced(s, pos, q, t, end, rest);
    }
  }

  lemma RejoinsText(s: string, pos: nat, q: nat, end: nat)
    requires pos <= q <= end <= |s|
    ensures s[pos..] == s[pos..q] + s[q..end] + s[end..]
  {
  }

  /** A text with no gap in front opens with its first token; a token that is an identifier opens as one. */
  lemma GapFree(pieces: seq<Piece>)
    requires pieces != [] && WellSpaced(pieces) && pieces[0].gap == ""
    ensures Render(pieces) != "" && (pieces[0].token.Ident? ==> IsIdentPart(Render(pieces)[0]))
  {
    var text := TextOf(pieces[0].token);
    FirstPiece(pieces);
    FirstOfToken(pieces[0].token);
    assert Render(pieces) == "" + text + Render(pieces[1..]);
    assert Render(pieces)[0] == text[0];
  }

  lemma SplitsWellSpaced(s: string, pos: nat, q: nat, t: Token, end: nat, rest: seq<Piece>)
    requires pos <= q <= end <= |s| && AllSpace(s[pos..q]) && ValidToken(t)
    requires t.Ident? && end < |s| ==> !IsIdentPart(s[end])
    requires WellSpaced(rest) && s[end..] == Render(rest)
    ensures WellSpaced([Piece(s[pos..q], t)] + rest)
  {
    var pieces := [Piece(s[pos..q], t)] + rest;
    if rest != [] && t.Ident? && rest[0].gap == "" {
      GapFree(rest);
      assert s[end] == s[end..][0];
    }
    assert forall i :: 0 < i < |pieces| ==> pieces[i] == rest[i - 1];
  }

  /** The tokenizer's language, exactly. */
  lemma ScansIff(s: string, tokens: seq<Token>)
    ensures Tokens(s, 0) == Some(tokens) <==>
      exists pieces :: WellSpaced(pieces) && Render(pieces) == s && TokensIn(pieces) == tokens
  {
    assert s[0..] == s;
    if Tokens(s, 0) == Some(tokens) {
      var pieces := Splits(s, 0);
    }
    forall pieces | WellSpaced(pieces) && Render(pieces) == s && TokensIn(pieces) == tokens
      ensures Tokens(s, 0) == Some(tokens)
    {
      ReadsBack(s, 0, pieces);
    }
  }

  lemma {:induction false} EndsInToken(pieces: seq<Piece>)
    requires pieces != [] && WellSpaced(pieces)
    ensures Render(pieces) != "" && !IsSpace(Render(pieces)[|Render(pieces)| - 1])
    decreases pieces
  {
    var t := pieces[0].token;
    FirstOfToken(t);
    if |pieces| > 1 {
      WellSpacedTail(pieces);
      EndsInToken(pieces[1..]);
    } else {
      assert pieces[1..] == [];
      assert Render(pieces) == pieces[0].gap + TextOf(t);
      LastOfToken(t);
    }
  }

  lemma LastOfToken(t: Token)
    requires ValidToken(t)
    ensures TextOf(t) != "" && !IsSpace(TextOf(t)[|TextOf(t)| - 1])
  {
  }

  /** Space at the end, a final newline say, is never accepted, whatever comes before it. */
  lemma TrailingSpaceRejected(s: string, space: string)
    requires space != "" && AllSpace(space)
    ensures Tokens(s + space, 0) == None
  {
    var text := s + space;
    assert text[|text| - 1] == space[|space| - 1];
    if Tokens(text, 0).Some? {
      var pieces := Splits(text, 0);
      assert text[0..] == text;
      assert pieces != [];
      EndsInToken(pieces);
    }
  }

  // ----- the parser

  datatype Ast = Ast(context: string, task: string, modules: seq<string>, output: seq<string>)

  function ListTokens(names: seq<string>): seq<Token> {
    if names == [] then []
    else if |names| == 1 then [Ident(names[0])]
    else [Ident(names[0]), Comma] + ListTokens(names[1..])
  }

  /** The canonical tokens of a command. */
  function Unparse(ast: Ast): seq<Token> {
    [At, Ident(ast.context), Greater, Ident(ast.task), Plus]
    + ListTokens(ast.modules) + [Arrow] + ListTokens(ast.output)
  }

  /** A list already begun with `names`. */
  function Prefixed(names: seq<string>, rest: Option<(seq<string>, nat)>): Option<(seq<string>, nat)> {
    match rest
    case None => None
    case Some((more, j)) => Some((names + more, j))
  }

  lemma PrefixedTwice(names: seq<string>, name: string, rest: Option<(seq<string>, nat)>)
    ensures Prefixed(names, Prefixed([name], rest)) == Prefixed(names + [name], rest)
    ensures Prefixed([], rest) == rest
  {
    if rest.Some? {
      assert names + ([name] + rest.value.0) == names + [name] + rest.value.0;
      assert [] + rest.value.0 == rest.value.0;
    }
  }

  /** A list read from i: its names and where it stops. */
  function ListAt(tokens: seq<Token>, i: nat): (r: Option<(seq<string>, nat)>)
    ensures r.Some? ==> i < r.value.1 <= |tokens| && r.value.0 != []
    decreases |tokens| - i
  {
    if i >= |tokens| || !tokens[i].Ident? then None
    else if i + 1 < |tokens| && tokens[i + 1] == Comma then
      Prefixed([tokens[i].name], ListAt(tokens, i + 2))
    else Some(([tokens[i].name], i + 1))
  }

  /** The command the parser reads from a token list. */
  function ParseTokens(tokens: seq<Token>): Option<Ast> {
    if |tokens| >= 5 && tokens[0] == At && tokens[1].Ident? && tokens[2] == Greater && tokens[3].Ident?
      && tokens[4] == Plus then
      match ListAt(tokens, 5)
      case None => None
      case Some((modules, j)) =>
        if j < |tokens| && tokens[j] == Arrow then
          match ListAt(tokens, j + 1)
          case None => None
          case Some((output, k)) =>
            if k == |tokens| then Some(Ast(tokens[1].name, tokens[3].name, modules, output)) else None
        else None
    else None
  }

  class Cursor {
    const tokens: seq<Token>
    var index: nat

    constructor (tokens: seq<Token>)
      ensures this.tokens == tokens && index == 0
    {
      this.tokens, index := tokens, 0;
    }

    method Expect(kind: Token) returns (ok: bool)
      requires !kind.Ident? && index <= |tokens|
      modifies this
      ensures ok <==> old(index) < |tokens| && tokens[old(index)] == kind
      ensures index == if ok then old(index) + 1 else old(index)
    {
      if index >= |tokens| || tokens[index] != kind {
        return false;
      }
      index := index + 1;
      return true;
    }

    method ExpectIdent() returns (name: Option<string>)
      requires index <= |tokens|
      modifies this
      ensures name == if old(index) < |tokens| && tokens[old(index)].Ident? then Some(tokens[old(index)].name) else None
      ensures index == if name.Some? then old(index) + 1 else old(index)
    {
      if index >= |tokens| || !tokens[index].Ident? {
        return None;
      }
      name := Some(tokens[index].name);
      index := index + 1;
    }

    /** `_parse_list` */
    method ParseList() returns (names: Option<seq<string>>)
      requires index <= |tokens|
      modifies this
      ensures old(index) <= index <= |tokens|
      ensures match ListAt(tokens, old(index))
        case None => names == None
        case Some((values, j)) => names == Some(values) && index == j
    {
      var first := ExpectIdent();
      if first.None? {
        return None;
      }
      var values := [first.value];
      ghost var before: seq<string> := [];
      PrefixedTwice(before, first.value, ListAt(tokens, old(index)));
      while index < |tokens| && tokens[index] == Comma
        invariant old(index) < index <= |tokens| && tokens[index - 1].Ident?
        invariant values == before + [tokens[index - 1].name]
        invariant ListAt(tokens, old(index)) == Prefixed(before, ListAt(tokens, index - 1))
        decreases |tokens| - index
      {
        PrefixedTwice(before, tokens[index - 1].name, ListAt(tokens, index + 1));
        before := values;
        var comma := Expect(Comma);
        var name := ExpectIdent();
        if name.None? {
          return None;
        }
        values := values + [name.value];
      }
      return Some(values);
    }
  }

  /** `parse` behind its call of `tokenize`. */
  method ParseAll(tokens: seq<Token>) returns (r: Result<Ast, Error>)
    ensures r.Ok? <==> ParseTokens(tokens).Some?
    ensures r.Ok? ==> ParseTokens(tokens) == Some(r.value)
  {
    var cursor := new Cursor(tokens);
    var ok := cursor.Expect(At);
    if !ok { return Err(Expected("@")); }
    var context := cursor.ExpectIdent();
    if context.None? { return Err(Expected("IDENT")); }
    ok := cursor.Expect(Greater);
    if !ok { return Err(Expected(">")); }
    var task := cursor.ExpectIdent();
    if task.None? { return Err(Expected("IDENT")); }
    ok := cursor.Expect(Plus);
    if !ok { return Err(Expected("+")); }
    var modules := cursor.ParseList();
    if modules.None? { return Err(Expected("IDENT")); }
    ok := cursor.Expect(Arrow);
    if !ok { return Err(Expected("->")); }
    var output := cursor.ParseList();
    if output.None? { return Err(Expected("IDENT")); }
    if cursor.index != |tokens| { return Err(TrailingTokens); }
    return Ok(Ast(context.value, task.value, modules.value, output.value));
  }

  /** `parse(source)` */
  method Parse(source: string) returns (r: Result<Ast, Error>)
    ensures r.Ok? <==> Tokens(source, 0).Some? && ParseTokens(Tokens(source, 0).value).Some?
    ensures r.Ok? ==> ParseTokens(Tokens(source, 0).value) == Some(r.value)
  {
    var tokens :- Tokenize(source);
    r := ParseAll(tokens);
  }

  // ----- the language of the parser

  /** A command that can be written down: identifiers throughout and no empty list. */
  ghost predicate Writable(ast: Ast) {
    && ast.modules != [] && ast.output != []
    && IsIdentifier(ast.context) && IsIdentifier(ast.task)
    && (forall name :: name in ast.modules ==> IsIdentifier(name))
    && forall name :: name in ast.output ==> IsIdentifier(name)
  }

  lemma {:induction false} ListAtReads(tokens: seq<Token>, i: nat)
    requires ListAt(tokens, i).Some?
    ensures var (names, j) := ListAt(tokens, i).value; tokens[i..j] == ListTokens(names)
    decreases |tokens| - i
  {
    if i + 1 < |tokens| && tokens[i + 1] == Comma {
      ListAtReads(tokens, i + 2);
      var (names, j) := ListAt(tokens, i + 2).value;
      assert tokens[i..j] == [tokens[i], tokens[i + 1]] + tokens[i + 2..j];
      assert ([tokens[i].name] + names)[1..] == names;
    }
  }

  lemma {:induction false} ListAtFinds(tokens: seq<Token>, i: nat, names: seq<string>)
    requires names != [] && i + |ListTokens(names)| <= |tokens|
      && tokens[i..i + |ListTokens(names)|] == ListTokens(names)
    requires i + |ListTokens(names)| < |tokens| ==> tokens[i + |ListTokens(names)|] != Comma
    ensures ListAt(tokens, i) == Some((names, i + |ListTokens(names)|))
    decreases names
  {
    var list := ListTokens(names);
    var window := tokens[i..i + |list|];
    assert tokens[i] == window[0];
    if |names| > 1 {
      var rest := names[1..];
      assert tokens[i + 1] == window[1];
      assert tokens[i + 2..i + 2 + |ListTokens(rest)|] == window[2..] == ListTokens(rest);
      ListAtFinds(tokens, i + 2, rest);
      assert [names[0]] + rest == names;
    } else {
      assert names == [names[0]];
    }
  }

  lemma ParseReads(tokens: seq<Token>)
    requires ParseTokens(tokens).Some?
    ensures var ast := ParseTokens(tokens).value; ast.modules != [] && ast.output != [] && tokens == Unparse(ast)
  {
    ListAtReads(tokens, 5);
    var (modules, j) := ListAt(tokens, 5).value;
    ListAtReads(tokens, j + 1);
    FiveParts(tokens, j);
  }

  lemma FiveParts(tokens: seq<Token>, j: nat)
    requires 5 <= j < |tokens|
    ensures tokens == [tokens[0], tokens[1], tokens[2], tokens[3], tokens[4]]
                      + tokens[5..j] + [tokens[j]] + tokens[j + 1..|tokens|]
  {
  }

  lemma ParseFinds(ast: Ast)
    requires ast.modules != [] && ast.output != []
    ensures ParseTokens(Unparse(ast)) == Some(ast)
  {
    var tokens, first, second := Unparse(ast), ListTokens(ast.modules), ListTokens(ast.output);
    var j := 5 + |first|;
    assert tokens[5..5 + |first|] == first && tokens[j] == Arrow;
    assert tokens[j + 1..j + 1 + |second|] == second && |tokens| == j + 1 + |second|;
    ListAtFinds(tokens, 5, ast.modules);
    ListAtFinds(tokens, j + 1, ast.output);
  }

  /** The parser inverts `Unparse`: it accepts the canonical tokens of a command and nothing else. */
  lemma ParseIff(tokens: seq<Token>, ast: Ast)
    ensures ParseTokens(tokens) == Some(ast) <==> ast.modules != [] && ast.output != [] && tokens == Unparse(ast)
  {
    if ParseTokens(tokens) == Some(ast) { ParseReads(tokens); }
    if ast.modules != [] && ast.output != [] { ParseFinds(ast); }
  }

  /** What `parse` returns for a text. */
  ghost predicate Accepts(source: string, ast: Ast) {
    Tokens(source, 0).Some? && ParseTokens(Tokens(source, 0).value) == Some(ast)
  }

  lemma {:induction false} ListLength(names: seq<string>)
    requires names != []
    ensures |ListTokens(names)| == 2 * |names| - 1
    decreases names
  {
    if |names| > 1 { ListLength(names[1..]); }
  }

  lemma TwoBack(k: nat)
    requires k >= 2
    ensures (k - 2) % 2 == k % 2 && (k - 2) / 2 == k / 2 - 1
  {
  }

  /** In a list, names and commas alternate, beginning and ending with a name. */
  lemma {:induction false} ListAlternates(names: seq<string>, k: nat)
    requires names != [] && k < 2 * |names| - 1
    ensures |ListTokens(names)| == 2 * |names| - 1
    ensures ListTokens(names)[k] == if k % 2 == 0 then Ident(names[k / 2]) else Comma
    decreases names
  {
    ListLength(names);
    if k >= 2 {
      ListAlternates(names[1..], k - 2);
      TwoBack(k);
      assert ListTokens(names)[k] == ListTokens(names[1..])[k - 2];
    }
  }

  /** In a command, the identifiers are the odd tokens: no two are adjacent. */
  lemma CommandAlternates(ast: Ast, k: nat)
    requires ast.modules != [] && ast.output != [] && k < |Unparse(ast)|
    ensures Unparse(ast)[k].Ident? <==> k % 2 == 1
  {
    var first, second := ListTokens(ast.modules), ListTokens(ast.output);
    ListLength(ast.modules);
    ListLength(ast.output);
    ListAlternates(ast.modules, if 5 <= k < 5 + |first| then k - 5 else 0);
    if 6 + |first| <= k {
      ListAlternates(ast.output, k - 6 - |first|);
    }
  }

  lemma ListValid(names: seq<string>)
    requires names != []
    ensures (forall k :: 0 <= k < |ListTokens(names)| ==> ValidToken(ListTokens(names)[k])) <==>
      (forall name :: name in names ==> IsIdentifier(name))
  {
    var list := ListTokens(names);
    ListLength(names);
    forall k | 0 <= k < |list| ensures list[k] == if k % 2 == 0 then Ident(names[k / 2]) else Comma {
      ListAlternates(names, k);
    }
    forall i | 0 <= i < |names| ensures list[2 * i] == Ident(names[i]) { ListAlternates(names, 2 * i); }
    if forall k :: 0 <= k < |list| ==> ValidToken(list[k]) {
      forall i | 0 <= i < |names| ensures IsIdentifier(names[i]) { assert ValidToken(list[2 * i]); }
    }
  }

  /** The canonical tokens are valid exactly when the command is writable. */
  lemma CommandValid(ast: Ast)
    requires ast.modules != [] && ast.output != []
    ensures (forall t :: t in Unparse(ast) ==> ValidToken(t)) <==> Writable(ast)
  {
    var first, second, all := ListTokens(ast.modules), ListTokens(ast.output), Unparse(ast);
    ListValid(ast.modules);
    ListValid(ast.output);
    if forall t :: t in all ==> ValidToken(t) {
      assert ValidToken(all[1]) && ValidToken(all[3]);
      forall k | 0 <= k < |first| ensures ValidToken(first[k]) { assert all[5 + k] == first[k]; }
      forall k | 0 <= k < |second| ensures ValidToken(second[k]) { assert all[6 + |first| + k] == second[k]; }
    }
  }

  /**
   The language of `parse`, exactly: a text is read as a command just when it is the command's
   canonical tokens, each behind any space, or none, with nothing after the last.
   */
  lemma AcceptsIff(source: string, ast: Ast)
    ensures Accepts(source, ast) <==>
      Writable(ast) &&
      exists pieces :: SpaceOnly(pieces) && TokensIn(pieces) == Unparse(ast) && Render(pieces) == source
  {
    if Accepts(source, ast) {
      ParseIff(Tokens(source, 0).value, ast);
      var pieces := Splits(source, 0);
      assert source[0..] == source;
      forall t | t in Unparse(ast) ensures ValidToken(t) {
        var i :| 0 <= i < |pieces| && TokensIn(pieces)[i] == t;
        assert ValidToken(pieces[i].token);
      }
      CommandValid(ast);
      assert SpaceOnly(pieces);
    }
    if Writable(ast) {
      forall pieces | SpaceOnly(pieces) && TokensIn(pieces) == Unparse(ast) && Render(pieces) == source
        ensures Accepts(source, ast)
      {
        RoundTrip(ast, pieces);
      }
    }
  }

  ghost predicate SpaceOnly(pieces: seq<Piece>) {
    forall i :: 0 <= i < |pieces| ==> AllSpace(pieces[i].gap)
  }

  /** Writing a command with any space before any token and reading it back gives the command. */
  lemma RoundTrip(ast: Ast, pieces: seq<Piece>)
    requires Writable(ast) && SpaceOnly(pieces) && TokensIn(pieces) == Unparse(ast)
    ensures Accepts(Render(pieces), ast)
  {
    var all := Unparse(ast);
    CommandValid(ast);
    assert |pieces| == |all|;
    forall i | 0 <= i < |pieces|
      ensures pieces[i].token == all[i] && ValidToken(all[i]) && (all[i].Ident? <==> i % 2 == 1)
    {
      assert TokensIn(pieces)[i] == pieces[i].token;
      assert all[i] in all;
      CommandAlternates(ast, i);
    }
    WellSpacedIfAlternating(pieces);
    assert Render(pieces)[0..] == Render(pieces);
    ReadsBack(Render(pieces), 0, pieces);
    ParseIff(all, ast);
  }

  lemma WellSpacedIfAlternating(pieces: seq<Piece>)
    requires SpaceOnly(pieces)
    requires forall i :: 0 <= i < |pieces| ==> ValidToken(pieces[i].token) && (pieces[i].token.Ident? <==> i % 2 == 1)
    ensures WellSpaced(pieces)
  {
  }

  /** Two texts read as the same command have the same tokens. */
  lemma SameCommandSameTokens(first: string, second: string, ast: Ast)
    requires Accepts(first, ast) && Accepts(second, ast)
    ensures Tokens(first, 0) == Tokens(second, 0) == Some(Unparse(ast))
  {
    ParseIff(Tokens(first, 0).value, ast);
    ParseIff(Tokens(second, 0).value, ast);
  }
}
