/** The written grammar of MAPL (mapl/grammar.ebnf) beside the language that the parser accepts. */
module MaplGrammar {
  import opened Common
  import opened MaplLanguage
  import opened Text

  // ----- the grammar

  predicate IsLetter(c: char) {
    'A' <= c <= 'Z' || 'a' <= c <= 'z'
  }

  predicate IsDigit(c: char) {
    '0' <= c <= '9'
  }

  /** `identifier = letter , { letter | digit | "_" }` */
  predicate Identifier(s: string) {
    s != "" && IsLetter(s[0]) && forall i :: 0 < i < |s| ==> IsLetter(s[i]) || IsDigit(s[i]) || s[i] == '_'
  }

  /** `identifier , { "," , identifier }` */
  function Listed(names: seq<string>): string
    requires names != []
  {
    if |names| == 1 then names[0] else names[0] + "," + Listed(names[1..])
  }

  function Names(ast: Ast): seq<string> {
    [ast.context, ast.task] + ast.modules + ast.output
  }

  /** `command = context , task , modules , output` */
  function Written(ast: Ast): string
    requires ast.modules != [] && ast.output != []
  {
    "@" + ast.context + ">" + ast.task + "+" + Listed(ast.modules) + "->" + Listed(ast.output)
  }

  ghost predicate Derives(ast: Ast, text: string) {
    && ast.modules != [] && ast.output != [] && text == Written(ast)
    && forall name :: name in Names(ast) ==> Identifier(name)
  }

  /** The texts the grammar generates. */
  ghost predicate Sentence(text: string) {
    exists ast :: Derives(ast, text)
  }

  // ----- writing tokens without space

  function Texts(tokens: seq<Token>): string {
    if tokens == [] then "" else TextOf(tokens[0]) + Texts(tokens[1..])
  }

  lemma Regroup(a: string, b: string, c: string)
    ensures a + (b + c) == a + b + c
  {
  }

  lemma {:induction false} TextsConcat(a: seq<Token>, b: seq<Token>)
    ensures Texts(a + b) == Texts(a) + Texts(b)
  {
    if a == [] {
      assert a + b == b;
    } else {
      TextsConcat(a[1..], b);
      assert (a + b)[1..] == a[1..] + b;
      Regroup(TextOf(a[0]), Texts(a[1..]), Texts(b));
    }
  }

  lemma {:induction false} ListTexts(names: seq<string>)
    requires names != []
    ensures Texts(ListTokens(names)) == Listed(names)
  {
    if |names| == 1 {
      assert ListTokens(names)[1..] == [];
    } else {
      ListTexts(names[1..]);
      var list := ListTokens(names);
      assert list[1..][1..] == ListTokens(names[1..]);
      assert list[1..][0] == Comma;
      assert Texts(list) == names[0] + ("," + Listed(names[1..]));
    }
  }

  /** The text the grammar gives a command is its canonical tokens with nothing between them. */
  lemma WrittenIsTexts(ast: Ast)
    requires ast.modules != [] && ast.output != []
    ensures Written(ast) == Texts(Unparse(ast))
  {
    var head := [At, Ident(ast.context), Greater, Ident(ast.task), Plus];
    var first, second := ListTokens(ast.modules), ListTokens(ast.output);
    HeadTexts(ast.context, ast.task);
    ListTexts(ast.modules);
    ListTexts(ast.output);
    TextsConcat(head, first);
    TextsConcat(head + first, [Arrow]);
    TextsConcat(head + first + [Arrow], second);
    assert Texts([Arrow]) == "->";
  }

  lemma HeadTexts(context: string, task: string)
    ensures Texts([At, Ident(context), Greater, Ident(task), Plus]) == "@" + context + ">" + task + "+"
  {
    assert Texts([Plus]) == "+";
    assert Texts([Ident(task), Plus]) == task + "+" by { assert [Ident(task), Plus][1..] == [Plus]; }
    assert Texts([Greater, Ident(task), Plus]) == ">" + (task + "+") by {
      assert [Greater, Ident(task), Plus][1..] == [Ident(task), Plus];
    }
    var tail := [Ident(context), Greater, Ident(task), Plus];
    assert tail[1..] == [Greater, Ident(task), Plus];
    assert ([At] + tail)[1..] == tail;
    assert [At] + tail == [At, Ident(context), Greater, Ident(task), Plus];
  }

  /** Tokens with no space before any of them. */
  function Bare(tokens: seq<Token>): seq<Piece> {
    seq(|tokens|, i requires 0 <= i < |tokens| => Piece("", tokens[i]))
  }

  lemma {:induction false} BareTexts(tokens: seq<Token>)
    ensures TokensIn(Bare(tokens)) == tokens && SpaceOnly(Bare(tokens)) && Render(Bare(tokens)) == Texts(tokens)
  {
    if tokens != [] {
      BareTexts(tokens[1..]);
      assert Bare(tokens)[1..] == Bare(tokens[1..]);
    }
  }

  // ----- leaving out space

  function Squeezed(s: string): string {
    if s == "" then "" else if IsSpace(s[0]) then Squeezed(s[1..]) else [s[0]] + Squeezed(s[1..])
  }

  predicate NoSpace(s: string) {
    forall i :: 0 <= i < |s| ==> !IsSpace(s[i])
  }

  lemma {:induction false} SqueezedConcat(a: string, b: string)
    ensures Squeezed(a + b) == Squeezed(a) + Squeezed(b)
  {
    if a == "" {
      assert a + b == b;
    } else {
      SqueezedConcat(a[1..], b);
      assert (a + b)[1..] == a[1..] + b;
      Regroup([a[0]], Squeezed(a[1..]), Squeezed(b));
    }
  }

  lemma {:induction false} SqueezedSpace(s: string)
    requires AllSpace(s)
    ensures Squeezed(s) == ""
  {
    if s != "" { SqueezedSpace(s[1..]); }
  }

  lemma {:induction false} SqueezedIff(s: string)
    ensures NoSpace(Squeezed(s)) && (NoSpace(s) <==> Squeezed(s) == s)
  {
    if s != "" {
      SqueezedIff(s[1..]);
      if IsSpace(s[0]) {
        assert |Squeezed(s[1..])| < |s| by { SqueezedShorter(s[1..]); }
      } else {
        assert s == [s[0]] + s[1..];
        assert NoSpace(s) <==> NoSpace(s[1..]);
      }
    }
  }

  lemma {:induction false} SqueezedShorter(s: string)
    ensures |Squeezed(s)| <= |s|
  {
    if s != "" { SqueezedShorter(s[1..]); }
  }

  lemma {:induction false} SqueezedRender(pieces: seq<Piece>)
    requires SpaceOnly(pieces) && forall i :: 0 <= i < |pieces| ==> ValidToken(pieces[i].token)
    ensures Squeezed(Render(pieces)) == Texts(TokensIn(pieces))
  {
    if pieces == [] {
      assert TokensIn(pieces) == [];
    } else {
      SqueezedRender(pieces[1..]);
      SqueezedFirst(pieces[0].gap, pieces[0].token, Render(pieces[1..]));
      TokensOfFirst(pieces);
      assert TokensIn(pieces)[1..] == TokensIn(pieces[1..]);
    }
  }

  lemma SqueezedFirst(gap: string, t: Token, after: string)
    requires AllSpace(gap) && ValidToken(t)
    ensures Squeezed(gap + TextOf(t) + after) == TextOf(t) + Squeezed(after)
  {
    SqueezedConcat(gap + TextOf(t), after);
    SqueezedConcat(gap, TextOf(t));
    SqueezedSpace(gap);
    TokenHasNoSpace(t);
    SqueezedIff(TextOf(t));
  }

  lemma TokenHasNoSpace(t: Token)
    requires ValidToken(t)
    ensures NoSpace(TextOf(t))
  {
  }

  // ----- the two languages

  /** The space left out, a text read as a command is that command as the grammar writes it. */
  lemma AcceptedIsWritten(source: string, ast: Ast)
    requires Accepts(source, ast)
    ensures Writable(ast) && Squeezed(source) == Written(ast)
  {
    AcceptsIff(source, ast);
    var pieces: seq<Piece> :| SpaceOnly(pieces) && TokensIn(pieces) == Unparse(ast) && Render(pieces) == source;
    CommandValid(ast);
    forall i | 0 <= i < |pieces| ensures ValidToken(pieces[i].token) {
      assert TokensIn(pieces)[i] == pieces[i].token && TokensIn(pieces)[i] in Unparse(ast);
    }
    SqueezedRender(pieces);
    WrittenIsTexts(ast);
  }

  lemma WrittenIsAccepted(ast: Ast)
    requires Writable(ast)
    ensures Accepts(Written(ast), ast)
  {
    BareTexts(Unparse(ast));
    WrittenIsTexts(ast);
    RoundTrip(ast, Bare(Unparse(ast)));
  }

  /** No name of the command begins with an underscore. */
  ghost predicate PlainNames(ast: Ast) {
    forall name :: name in Names(ast) && name != "" ==> name[0] != '_'
  }

  lemma IdentifierIff(s: string)
    ensures Identifier(s) <==> IsIdentifier(s) && s[0] != '_'
  {
  }

  lemma DerivesIff(ast: Ast, text: string)
    ensures Derives(ast, text) <==> Writable(ast) && PlainNames(ast) && text == Written(ast)
  {
    forall name ensures Identifier(name) <==> IsIdentifier(name) && name[0] != '_' { IdentifierIff(name); }
    if Derives(ast, text) {
      assert ast.context == Names(ast)[0] && ast.task == Names(ast)[1];
      forall i | 0 <= i < |ast.modules| ensures IsIdentifier(ast.modules[i]) {
        assert Names(ast)[2 + i] == ast.modules[i];
      }
      forall i | 0 <= i < |ast.output| ensures IsIdentifier(ast.output[i]) {
        assert Names(ast)[2 + |ast.modules| + i] == ast.output[i];
      }
    }
  }

  /**
   Space aside, a text that is read as a command is a sentence of the written grammar exactly when
   no name in it begins with an underscore.
   */
  lemma AcceptedIsSentenceIff(source: string, ast: Ast)
    requires Accepts(source, ast)
    ensures Sentence(Squeezed(source)) <==> PlainNames(ast)
  {
    AcceptedIsWritten(source, ast);
    DerivesIff(ast, Written(ast));
    if other :| Derives(other, Written(ast)) {
      DerivesIff(other, Written(ast));
      WrittenIsAccepted(other);
      WrittenIsAccepted(ast);
    }
  }

  /** The written grammar, exactly: its sentences are the accepted texts without space and without such names. */
  lemma SentenceIff(text: string)
    ensures Sentence(text) <==> NoSpace(text) && exists ast :: Accepts(text, ast) && PlainNames(ast)
  {
    SqueezedIff(text);
    if ast :| Derives(ast, text) {
      DerivesIff(ast, text);
      WrittenIsAccepted(ast);
      AcceptedIsWritten(text, ast);
    }
    if NoSpace(text) {
      if ast :| Accepts(text, ast) && PlainNames(ast) { AcceptedIsSentenceIff(text, ast); }
    }
  }

  /** A text that the parser accepts and the grammar does not. */
  lemma UnderscoreOutsideGrammar()
    ensures Accepts("@_>a+b->c", Ast("_", "a", ["b"], ["c"])) && !Sentence("@_>a+b->c")
  {
    var ast := Ast("_", "a", ["b"], ["c"]);
    ShortWritten(ast);
    AcceptedIsWritten(Written(ast), ast);
    assert Names(ast)[0] == "_";
    AcceptedIsSentenceIff(Written(ast), ast);
    SqueezedWritten();
  }

  lemma ShortWritten(ast: Ast)
    requires ast == Ast("_", "a", ["b"], ["c"])
    ensures Written(ast) == "@_>a+b->c" && Accepts(Written(ast), ast)
  {
    assert Listed(["b"]) == "b" && Listed(["c"]) == "c";
    assert Writable(ast);
    WrittenIsAccepted(ast);
  }

  lemma SqueezedWritten()
    ensures Squeezed("@_>a+b->c") == "@_>a+b->c"
  {
    SqueezedIff("@_>a+b->c");
  }
}
