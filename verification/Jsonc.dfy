/** The JSONC reader: two passes that remove comments and trailing commas. What they keep is stated
    over the tokens of the text: string literals, comments and single characters. */
module Jsonc {
  datatype Token = Literal(text: string) | Line(text: string) | Block(text: string) | Plain(text: string)

  // ---------------------------------------------------------------- tokens

  /** The length of a string literal after its opening quote; all of the text when it never closes. */
  function LiteralTail(u: string): (n: nat)
    ensures n <= |u|
  {
    if u == "" then 0
    else if u[0] == '"' then 1
    else if u[0] == '\\' && |u| > 1 then 2 + LiteralTail(u[2..])
    else 1 + LiteralTail(u[1..])
  }

  predicate Closes(u: string) {
    if u == "" then false
    else if u[0] == '"' then true
    else if u[0] == '\\' && |u| > 1 then Closes(u[2..])
    else Closes(u[1..])
  }

  /** The length of a line comment: up to the next line break, which is not part of it. */
  function LineLength(u: string): (n: nat)
    ensures n <= |u|
  {
    if u == "" || u[0] == '\n' then 0 else 1 + LineLength(u[1..])
  }

  /** The length of a block comment after its opening mark; all of the text when it never closes. */
  function BlockTail(u: string): (n: nat)
    ensures n <= |u|
  {
    if u == "" then 0 else if u[0] == '*' && |u| > 1 && u[1] == '/' then 2 else 1 + BlockTail(u[1..])
  }

  predicate OpensComment(u: string) {
    |u| > 1 && u[0] == '/' && (u[1] == '/' || u[1] == '*')
  }

  /** The first token; `comments` says whether comments are recognised. */
  function First(u: string, comments: bool): (t: Token)
    requires u != ""
    ensures 0 < |t.text| <= |u| && t.text == u[..|t.text|]
  {
    if u[0] == '"' then Literal(u[..1 + LiteralTail(u[1..])])
    else if comments && OpensComment(u) then
      if u[1] == '/' then Line(u[..2 + LineLength(u[2..])]) else Block(u[..2 + BlockTail(u[2..])])
    else Plain(u[..1])
  }

  function Lex(u: string, comments: bool): seq<Token>
    decreases |u|
  {
    if u == "" then [] else var t := First(u, comments); [t] + Lex(u[|t.text|..], comments)
  }

  function Text(tokens: seq<Token>): string {
    if tokens == [] then "" else tokens[0].text + Text(tokens[1..])
  }

  function Literals(tokens: seq<Token>): seq<string> {
    if tokens == [] then []
    else (if tokens[0].Literal? then [tokens[0].text] else []) + Literals(tokens[1..])
  }

  function LineBreaks(u: string): string {
    if u == "" then "" else (if u[0] == '\n' then "\n" else "") + LineBreaks(u[1..])
  }

  /** What the first pass keeps of a token. */
  function Kept(t: Token): string {
    match t
    case Line(_) => ""
    case Block(text) => LineBreaks(text)
    case _ => t.text
  }

  function KeptText(tokens: seq<Token>): string {
    if tokens == [] then "" else Kept(tokens[0]) + KeptText(tokens[1..])
  }

  // ---------------------------------------------------------------- removing comments

  datatype Mode = Code | InString | InLine | InBlock

  /** The output still to come for the text `u` in a given mode. */
  function Coming(mode: Mode, u: string): string
    decreases |u|
  {
    if u == "" then ""
    else match mode
         case Code =>
           if u[0] == '"' then [u[0]] + Coming(InString, u[1..])
           else if OpensComment(u) then Coming(if u[1] == '/' then InLine else InBlock, u[2..])
           else [u[0]] + Coming(Code, u[1..])
         case InString =>
           if u[0] == '\\' && |u| > 1 then [u[0]] + [u[1]] + Coming(InString, u[2..])
           else [u[0]] + Coming(if u[0] == '"' then Code else InString, u[1..])
         case InLine =>
           if u[0] == '\n' then [u[0]] + Coming(Code, u[1..]) else Coming(InLine, u[1..])
         case InBlock =>
           if u[0] == '*' && |u| > 1 && u[1] == '/' then Coming(Code, u[2..])
           else (if u[0] == '\n' then "\n" else "") + Coming(InBlock, u[1..])
  }

  lemma Pushed(a: string, b: string, c: string)
    ensures (a + b) + c == a + (b + c)
  {
  }

  /** Removes `//` and block comments outside string literals. */
  method StripComments(src: string) returns (out: string)
    ensures out == KeptText(Lex(src, true))
  {
    ComingIsKept(src);
    out := "";
    var i := 0;
    var inString := false;
    assert src[0..] == src;
    while i < |src|
      invariant 0 <= i <= |src|
      invariant out + Coming(if inString then InString else Code, src[i..]) == Coming(Code, src)
    {
      var c := src[i];
      assert src[i..][1..] == src[i + 1..];
      if i + 1 < |src| { assert src[i..][2..] == src[i + 2..]; }
      if inString {
        ghost var before := out;
        out := out + [c];
        Pushed(before, [c], Coming(if c == '"' then Code else InString, src[i + 1..]));
        if c == '\\' {
          if i + 1 < |src| {
            out := out + [src[i + 1]];
            Pushed(before, [c] + [src[i + 1]], Coming(InString, src[i + 2..]));
            Pushed(before, [c], [src[i + 1]]);
            i := i + 1;
          }
        } else if c == '"' {
          inString := false;
        }
        i := i + 1;
      } else if c == '"' {
        inString := true;
        Pushed(out, [c], Coming(InString, src[i + 1..]));
        out := out + [c];
        i := i + 1;
      } else if c == '/' && i + 1 < |src| && src[i + 1] == '/' {
        i := SkipLine(src, i);
      } else if c == '/' && i + 1 < |src| && src[i + 1] == '*' {
        i, out := SkipBlock(src, i, out);
      } else {
        Pushed(out, [c], Coming(Code, src[i + 1..]));
        out := out + [c];
        i := i + 1;
      }
    }
    assert src[i..] == "";
    assert out + "" == out;
  }

  method SkipLine(src: string, start: nat) returns (i: nat)
    requires start + 1 < |src| && src[start] == '/' && src[start + 1] == '/'
    ensures start < i <= |src| && Coming(Code, src[start..]) == Coming(Code, src[i..])
  {
    i := start;
    assert src[start..][2..] == src[start + 2..];
    while i < |src|
      invariant start <= i <= |src|
      invariant i >= start + 2 || (i == start || i == start + 1)
      invariant i >= start + 2 ==> Coming(Code, src[start..]) == Coming(InLine, src[i..])
    {
      if src[i] == '\n' {
        assert src[i..][1..] == src[i + 1..];
        break;
      }
      assert src[i..][1..] == src[i + 1..];
      i := i + 1;
    }
  }

  method SkipBlock(src: string, start: nat, before: string) returns (i: nat, out: string)
    requires start + 1 < |src| && src[start] == '/' && src[start + 1] == '*'
    ensures start < i <= |src| && before + Coming(Code, src[start..]) == out + Coming(Code, src[i..])
  {
    i, out := start + 2, before;
    assert src[start..][2..] == src[i..];
    while i < |src|
      invariant start + 2 <= i <= |src|
      invariant before + Coming(Code, src[start..]) == out + Coming(InBlock, src[i..])
    {
      assert src[i..][1..] == src[i + 1..];
      if src[i] == '*' && i + 1 < |src| && src[i + 1] == '/' {
        assert src[i..][2..] == src[i + 2..];
        i := i + 2;
        return;
      }
      if src[i] == '\n' {
        Pushed(out, "\n", Coming(InBlock, src[i + 1..]));
        out := out + "\n";
      }
      i := i + 1;
    }
    assert src[i..] == "";
  }

  // ---------------------------------------------------------------- the automaton and the tokens

  lemma Slices(u: string, k: nat, n: nat)
    requires k <= n <= |u|
    ensures u[k..][..n - k] == u[k..n] && u[k..][n - k..] == u[n..] && u[..n] == u[..k] + u[k..n]
  {
  }

  lemma StringStep(u: string, k: nat)
    requires u != "" && u[0] != '"' && k == (if u[0] == '\\' && |u| > 1 then 2 else 1)
    ensures Coming(InString, u) == u[..k] + Coming(InString, u[k..])
  {
    assert k == 2 ==> u[..k] == [u[0]] + [u[1]];
    assert k == 1 ==> u[..k] == [u[0]];
  }

  lemma {:induction false} ComingInString(u: string)
    ensures Coming(InString, u) == u[..LiteralTail(u)] + Coming(Code, u[LiteralTail(u)..])
    decreases |u|
  {
    if u != "" && u[0] != '"' {
      var n := LiteralTail(u);
      var k := if u[0] == '\\' && |u| > 1 then 2 else 1;
      ComingInString(u[k..]);
      Slices(u, k, n);
      StringStep(u, k);
      Pushed(u[..k], u[k..n], Coming(Code, u[n..]));
    }
  }

  lemma {:induction false} ComingInLine(u: string)
    ensures Coming(InLine, u) == Coming(Code, u[LineLength(u)..])
    decreases |u|
  {
    if u != "" && u[0] != '\n' {
      ComingInLine(u[1..]);
      assert u[1..][LineLength(u) - 1..] == u[LineLength(u)..];
    }
  }

  lemma {:induction false} ComingInBlock(u: string)
    ensures Coming(InBlock, u) == LineBreaks(u[..BlockTail(u)]) + Coming(Code, u[BlockTail(u)..])
    decreases |u|
  {
    if u != "" {
      var n := BlockTail(u);
      if u[0] == '*' && |u| > 1 && u[1] == '/' {
        NoBreaks(u[..2]);
      } else {
        ComingInBlock(u[1..]);
        assert u[1..][..n - 1] == u[1..n] && u[1..][n - 1..] == u[n..] && u[..n][1..] == u[1..n];
        Pushed(if u[0] == '\n' then "\n" else "", LineBreaks(u[1..n]), Coming(Code, u[n..]));
      }
    }
  }

  lemma NoBreaks(u: string)
    requires |u| == 2 && u[0] != '\n' && u[1] != '\n'
    ensures forall v :: LineBreaks(u + v) == LineBreaks(v)
    ensures LineBreaks(u) == ""
  {
    forall v ensures LineBreaks(u + v) == LineBreaks(v) {
      assert (u + v)[1..][1..] == v;
    }
    assert u + "" == u;
  }

  lemma ComingLiteral(u: string)
    requires u != "" && u[0] == '"'
    ensures var t := First(u, true); Coming(Code, u) == t.text + Coming(Code, u[|t.text|..])
  {
    ComingInString(u[1..]);
    var n := LiteralTail(u[1..]);
    assert u[1..][..n] == u[1..1 + n] && u[1..][n..] == u[1 + n..] && u[..1 + n] == [u[0]] + u[1..1 + n];
    Pushed([u[0]], u[1..1 + n], Coming(Code, u[1 + n..]));
  }

  lemma ComingComment(u: string)
    requires OpensComment(u)
    ensures var t := First(u, true); Coming(Code, u) == Kept(t) + Coming(Code, u[|t.text|..])
  {
    var t := First(u, true);
    if u[1] == '/' {
      ComingInLine(u[2..]);
      assert u[2..][LineLength(u[2..])..] == u[|t.text|..];
    } else {
      ComingInBlock(u[2..]);
      var n := BlockTail(u[2..]);
      NoBreaks(u[..2]);
      assert u[2..][..n] == u[2..2 + n] && u[2..][n..] == u[|t.text|..] && t.text == u[..2] + u[2..2 + n];
    }
  }

  lemma {:induction false} ComingIsKept(u: string)
    ensures Coming(Code, u) == KeptText(Lex(u, true))
    decreases |u|
  {
    if u != "" {
      var t := First(u, true);
      FirstComing(u);
      ComingIsKept(u[|t.text|..]);
      KeptCons(t, Lex(u[|t.text|..], true));
    }
  }

  lemma FirstComing(u: string)
    requires u != ""
    ensures var t := First(u, true); Coming(Code, u) == Kept(t) + Coming(Code, u[|t.text|..])
  {
    if u[0] == '"' { ComingLiteral(u); } else if OpensComment(u) { ComingComment(u); }
  }

  lemma KeptCons(t: Token, tokens: seq<Token>)
    ensures KeptText([t] + tokens) == Kept(t) + KeptText(tokens)
  {
    assert ([t] + tokens)[1..] == tokens;
  }

  // ---------------------------------------------------------------- reading the output again

  /** The tokens of the output: comments gone, the line breaks of block comments left. */
  function Purged(tokens: seq<Token>): seq<Token> {
    if tokens == [] then [] else PurgedOne(tokens[0]) + Purged(tokens[1..])
  }

  function PurgedOne(t: Token): seq<Token> {
    match t
    case Line(_) => []
    case Block(text) => Singles(LineBreaks(text))
    case _ => [t]
  }

  function Singles(u: string): seq<Token> {
    if u == "" then [] else [Plain(u[..1])] + Singles(u[1..])
  }

  lemma {:induction false} LiteralTailStable(u: string, r: string)
    requires Closes(u)
    ensures LiteralTail(u[..LiteralTail(u)] + r) == LiteralTail(u)
    ensures |u| >= LiteralTail(u) > 0
    decreases |u|
  {
    var n := LiteralTail(u);
    var k := if u[0] == '\\' && |u| > 1 then 2 else 1;
    if u[0] != '"' {
      LiteralTailStable(u[k..], r);
      assert (u[..n] + r)[k..] == u[k..][..n - k] + r;
    }
  }

  lemma {:induction false} OpenTail(u: string)
    requires !Closes(u)
    ensures LiteralTail(u) == |u|
    decreases |u|
  {
    if u != "" { OpenTail(u[if u[0] == '\\' && |u| > 1 then 2 else 1..]); }
  }

  /** A literal that is kept is read again as the same literal, whatever follows it in the output. */
  lemma LiteralReadAgain(u: string, r: string, comments: bool)
    requires u != "" && u[0] == '"'
    requires var t := First(u, comments); |t.text| == |u| ==> r == ""
    ensures First(First(u, comments).text + r, comments) == First(u, comments)
  {
    var t := First(u, comments);
    var n := LiteralTail(u[1..]);
    assert u[1..][..n] == u[1..1 + n] && u[..1 + n] == [u[0]] + u[1..1 + n];
    if Closes(u[1..]) {
      LiteralTailStable(u[1..], r);
      assert (t.text + r)[1..] == u[1..][..n] + r;
      assert (t.text + r)[..1 + n] == t.text;
    } else {
      OpenReadAgain(u, comments);
      assert u + "" == u;
    }
  }

  /** A literal that never closes is the whole text. */
  lemma OpenReadAgain(u: string, comments: bool)
    requires u != "" && u[0] == '"' && !Closes(u[1..])
    ensures First(u, comments).text == u
  {
    OpenTail(u[1..]);
  }

  /** Reading a kept token first, then the rest. */
  lemma ReadThen(t: Token, r: string, comments: bool)
    requires t.text != "" && First(t.text + r, comments) == t
    ensures Lex(t.text + r, comments) == [t] + Lex(r, comments)
  {
    assert (t.text + r)[|t.text|..] == r;
  }

  predicate OnlyBreaks(b: string) {
    forall i :: 0 <= i < |b| ==> b[i] == '\n'
  }

  lemma {:induction u} LineBreaksOnly(u: string)
    ensures OnlyBreaks(LineBreaks(u))
  {
  }

  lemma BreakFirst(r: string)
    ensures Lex("\n" + r, true) == [Plain("\n")] + Lex(r, true)
  {
    assert ("\n" + r)[..1] == "\n";
    ReadThen(Plain("\n"), r, true);
  }

  lemma {:induction false} BreaksReadAgain(b: string, r: string)
    requires OnlyBreaks(b)
    ensures Lex(b + r, true) == Singles(b) + Lex(r, true)
    decreases |b|
  {
    if b == "" {
      assert "" + r == r;
    } else {
      BreaksReadAgain(b[1..], r);
      BreakFirst(b[1..] + r);
      assert b == "\n" + b[1..] && b[..1] == "\n";
      Pushed("\n", b[1..], r);
      var one, more := [Plain("\n")], Lex(r, true);
      assert Singles(b) == one + Singles(b[1..]);
      assert one + (Singles(b[1..]) + more) == (one + Singles(b[1..])) + more;
    }
  }

  /** The output never starts with a character its source did not start with, comments aside. */
  lemma KeptStart(u: string)
    requires u != "" && !OpensComment(u)
    ensures KeptText(Lex(u, true)) != "" && KeptText(Lex(u, true))[0] == u[0]
  {
    assert Lex(u, true)[0] == First(u, true);
  }

  /** Reading the output of the first pass finds the tokens of the source without the comments. */
  lemma {:induction false} ReadAgain(u: string)
    ensures Lex(KeptText(Lex(u, true)), true) == Purged(Lex(u, true))
    decreases |u|
  {
    if u != "" {
      var t := First(u, true);
      var rest := u[|t.text|..];
      var r := KeptText(Lex(rest, true));
      ReadAgain(rest);
      assert Lex(u, true)[1..] == Lex(rest, true);
      match t {
        case Literal(_) =>
          LiteralReadAgain(u, r, true);
          ReadThen(t, r, true);
        case Line(_) => assert "" + r == r;
        case Block(text) =>
          LineBreaksOnly(text);
          BreaksReadAgain(LineBreaks(text), r);
        case Plain(_) =>
          PlainReadAgain(u);
          ReadThen(t, r, true);
      }
    }
  }

  lemma PlainReadAgain(u: string)
    requires u != "" && First(u, true).Plain?
    ensures First(u[..1] + KeptText(Lex(u[1..], true)), true) == First(u, true)
  {
    var r := KeptText(Lex(u[1..], true));
    assert (u[..1] + r)[..1] == u[..1];
    if u[0] == '/' && |u| > 1 {
      if !OpensComment(u[1..]) {
        KeptStart(u[1..]);
        assert (u[..1] + r)[1] == u[1];
      }
    }
  }

  lemma {:induction false} PurgedTwice(tokens: seq<Token>)
    ensures KeptText(Purged(tokens)) == KeptText(tokens)
    ensures Literals(Purged(tokens)) == Literals(tokens)
  {
    if tokens != [] {
      PurgedTwice(tokens[1..]);
      if tokens[0].Block? {
        SinglesFacts(LineBreaks(tokens[0].text), Purged(tokens[1..]));
      } else if tokens[0].Line? {
        assert Purged(tokens) == Purged(tokens[1..]);
      } else {
        assert Purged(tokens)[1..] == Purged(tokens[1..]);
      }
    }
  }

  lemma {:induction false} SinglesFacts(u: string, more: seq<Token>)
    ensures KeptText(Singles(u) + more) == u + KeptText(more)
    ensures Literals(Singles(u) + more) == Literals(more)
  {
    if u == "" {
      assert Singles(u) + more == more;
    } else {
      SinglesFacts(u[1..], more);
      var rest := Singles(u[1..]) + more;
      assert Singles(u) + more == [Plain(u[..1])] + rest;
      KeptCons(Plain(u[..1]), rest);
      LiteralsCons(Plain(u[..1]), rest);
      Pushed(u[..1], u[1..], KeptText(more));
      assert u == u[..1] + u[1..];
    }
  }

  lemma LiteralsCons(t: Token, tokens: seq<Token>)
    ensures Literals([t] + tokens) == (if t.Literal? then [t.text] else []) + Literals(tokens)
  {
    assert ([t] + tokens)[1..] == tokens;
  }

  /** Removing comments twice removes nothing more, and every literal survives in its place. */
  lemma StripTwice(src: string)
    ensures var out := KeptText(Lex(src, true));
            && KeptText(Lex(out, true)) == out
            && Literals(Lex(out, true)) == Literals(Lex(src, true))
  {
    ReadAgain(src);
    PurgedTwice(Lex(src, true));
  }

  // ---------------------------------------------------------------- lines

  /** Every character with the number of line breaks before it. */
  function Numbered(u: string, line: nat): seq<(char, nat)> {
    if u == "" then [] else [(u[0], line)] + Numbered(u[1..], if u[0] == '\n' then line + 1 else line)
  }

  function BreakCount(u: string): nat {
    if u == "" then 0 else (if u[0] == '\n' then 1 else 0) + BreakCount(u[1..])
  }

  function KeptNumbered(t: Token, line: nat): seq<(char, nat)> {
    match t
    case Line(_) => []
    case Block(text) => Numbered(LineBreaks(text), line)
    case _ => Numbered(t.text, line)
  }

  /** The characters kept of the tokens, with the line each had in the source. */
  function KeptLines(tokens: seq<Token>, line: nat): seq<(char, nat)> {
    if tokens == [] then []
    else KeptNumbered(tokens[0], line) + KeptLines(tokens[1..], line + BreakCount(tokens[0].text))
  }

  lemma {:induction false} NumberedAppend(a: string, b: string, line: nat)
    ensures Numbered(a + b, line) == Numbered(a, line) + Numbered(b, line + BreakCount(a))
  {
    if a == "" {
      assert a + b == b;
    } else {
      assert (a + b)[1..] == a[1..] + b;
      NumberedAppend(a[1..], b, if a[0] == '\n' then line + 1 else line);
    }
  }

  lemma {:induction false} BreaksCount(u: string)
    ensures BreakCount(LineBreaks(u)) == BreakCount(u)
  {
    if u != "" {
      BreaksCount(u[1..]);
      if u[0] == '\n' {
        assert LineBreaks(u) == "\n" + LineBreaks(u[1..]) && LineBreaks(u)[1..] == LineBreaks(u[1..]);
      } else {
        assert LineBreaks(u) == LineBreaks(u[1..]);
      }
    }
  }

  lemma {:induction false} LineHasNoBreak(u: string)
    ensures BreakCount(u[..LineLength(u)]) == 0
  {
    if u != "" && u[0] != '\n' {
      LineHasNoBreak(u[1..]);
      assert u[..LineLength(u)][1..] == u[1..][..LineLength(u) - 1];
    }
  }

  lemma CommentBreaks(u: string)
    requires u != "" && First(u, true).Line?
    ensures BreakCount(First(u, true).text) == 0
  {
    LineHasNoBreak(u[2..]);
    var t := First(u, true).text;
    assert t[1..][1..] == u[2..][..LineLength(u[2..])];
  }

  /** A line comment holds no line break. */
  ghost predicate OneLine(t: Token) {
    t.Line? ==> BreakCount(t.text) == 0
  }

  lemma {:induction false} LexOneLine(u: string)
    ensures forall i :: 0 <= i < |Lex(u, true)| ==> OneLine(Lex(u, true)[i])
    decreases |u|
  {
    if u != "" {
      var t := First(u, true);
      if t.Line? { CommentBreaks(u); }
      LexOneLine(u[|t.text|..]);
    }
  }

  lemma TokenLines(t: Token, line: nat)
    requires OneLine(t)
    ensures Numbered(Kept(t), line) == KeptNumbered(t, line) && BreakCount(Kept(t)) == BreakCount(t.text)
  {
    if t.Block? { BreaksCount(t.text); }
  }

  ghost predicate AllOneLine(tokens: seq<Token>) { forall i :: 0 <= i < |tokens| ==> OneLine(tokens[i]) }

  lemma {:induction false} TokensKeepLines(tokens: seq<Token>, line: nat)
    requires AllOneLine(tokens)
    ensures Numbered(KeptText(tokens), line) == KeptLines(tokens, line)
    decreases |tokens|
  {
    if tokens != [] {
      var t, rest := tokens[0], tokens[1..];
      TokensKeepLines(rest, line + BreakCount(t.text));
      TokenMore(t, KeptText(rest), line);
    }
  }

  /** One token before a text whose line breaks are kept. */
  lemma TokenMore(t: Token, kept: string, line: nat)
    requires OneLine(t)
    ensures Numbered(Kept(t) + kept, line) == KeptNumbered(t, line) + Numbered(kept, line + BreakCount(t.text))
  {
    TokenLines(t, line);
    NumberedAppend(Kept(t), kept, line);
  }

  lemma {:induction false} TokensKeepBreaks(tokens: seq<Token>)
    requires AllOneLine(tokens)
    ensures BreakCount(KeptText(tokens)) == BreakCount(Text(tokens))
    decreases |tokens|
  {
    if tokens != [] {
      var t, rest := tokens[0], tokens[1..];
      TokensKeepBreaks(rest);
      TokenLines(t, 0);
      CountAppend(Kept(t), KeptText(rest));
      CountAppend(t.text, Text(rest));
    }
  }

  lemma TextCons(t: Token, tokens: seq<Token>)
    ensures Text([t] + tokens) == t.text + Text(tokens)
  {
    assert ([t] + tokens)[1..] == tokens;
  }

  /** The tokens of a text are the whole text. */
  lemma {:induction false} LexLossless(u: string, comments: bool)
    ensures Text(Lex(u, comments)) == u
    decreases |u|
  {
    if u != "" {
      var t := First(u, comments);
      LexLossless(u[|t.text|..], comments);
      TextCons(t, Lex(u[|t.text|..], comments));
      assert t.text + u[|t.text|..] == u;
    }
  }

  /** Every kept character stays on its line, however long the comments before it were, and no line
      break is lost or added. */
  lemma LinesKept(u: string, line: nat)
    ensures Numbered(KeptText(Lex(u, true)), line) == KeptLines(Lex(u, true), line)
    ensures BreakCount(KeptText(Lex(u, true))) == BreakCount(u)
  {
    LexOneLine(u);
    TokensKeepLines(Lex(u, true), line);
    TokensKeepBreaks(Lex(u, true));
    LexLossless(u, true);
  }

  lemma {:induction false} CountAppend(a: string, b: string)
    ensures BreakCount(a + b) == BreakCount(a) + BreakCount(b)
  {
    if a == "" {
      assert a + b == b;
    } else {
      assert (a + b)[1..] == a[1..] + b;
      CountAppend(a[1..], b);
    }
  }

  // ---------------------------------------------------------------- trailing commas

  /** The first character that is no white space closes a list or an object. */
  predicate ClosesNext(isSpace: char -> bool, u: string) {
    if u == "" then false
    else if isSpace(u[0]) then ClosesNext(isSpace, u[1..])
    else u[0] == ']' || u[0] == '}'
  }

  /** The tokens that stay: all but the commas before a closing bracket. */
  function WithoutCommas(isSpace: char -> bool, u: string): seq<Token>
    decreases |u|
  {
    if u == "" then []
    else
      var t := First(u, false);
      var rest := u[|t.text|..];
      (if t == Plain(",") && ClosesNext(isSpace, rest) then [] else [t]) + WithoutCommas(isSpace, rest)
  }

  function ComingCommas(isSpace: char -> bool, inString: bool, u: string): string
    decreases |u|
  {
    if u == "" then ""
    else if inString then
      if u[0] == '\\' && |u| > 1 then [u[0]] + [u[1]] + ComingCommas(isSpace, true, u[2..])
      else [u[0]] + ComingCommas(isSpace, u[0] != '"', u[1..])
    else if u[0] == ',' && ClosesNext(isSpace, u[1..]) then ComingCommas(isSpace, false, u[1..])
    else [u[0]] + ComingCommas(isSpace, u[0] == '"', u[1..])
  }

  method FindCloser(isSpace: char -> bool, src: string, start: nat) returns (closes: bool)
    requires start <= |src|
    ensures closes == ClosesNext(isSpace, src[start..])
  {
    var i := start;
    while i < |src| && isSpace(src[i])
      invariant start <= i <= |src|
      invariant ClosesNext(isSpace, src[i..]) == ClosesNext(isSpace, src[start..])
    {
      assert src[i..][1..] == src[i + 1..];
      i := i + 1;
    }
    closes := i < |src| && (src[i] == ']' || src[i] == '}');
  }

  /** Removes commas that directly precede a closing bracket or brace outside string literals. */
  method StripTrailingCommas(isSpace: char -> bool, src: string) returns (out: string)
    ensures out == Text(WithoutCommas(isSpace, src))
  {
    ComingIsWithoutCommas(isSpace, src);
    out := "";
    var inString := false;
    var i := 0;
    assert src[0..] == src;
    while i < |src|
      invariant 0 <= i <= |src|
      invariant out + ComingCommas(isSpace, inString, src[i..]) == ComingCommas(isSpace, false, src)
    {
      var c := src[i];
      assert src[i..][1..] == src[i + 1..];
      ghost var before := out;
      if inString {
        out := out + [c];
        Pushed(before, [c], ComingCommas(isSpace, c != '"', src[i + 1..]));
        if c == '\\' {
          if i + 1 < |src| {
            assert src[i..][2..] == src[i + 2..];
            out := out + [src[i + 1]];
            Pushed(before, [c] + [src[i + 1]], ComingCommas(isSpace, true, src[i + 2..]));
            Pushed(before, [c], [src[i + 1]]);
            i := i + 1;
          }
        } else if c == '"' {
          inString := false;
        }
      } else if c == '"' {
        inString := true;
        Pushed(before, [c], ComingCommas(isSpace, true, src[i + 1..]));
        out := out + [c];
      } else if c == ',' {
        var closes := FindCloser(isSpace, src, i + 1);
        if !closes {
          Pushed(before, [c], ComingCommas(isSpace, false, src[i + 1..]));
          out := out + [c];
        }
      } else {
        Pushed(before, [c], ComingCommas(isSpace, false, src[i + 1..]));
        out := out + [c];
      }
      i := i + 1;
    }
    assert src[i..] == "";
    assert out + "" == out;
  }

  lemma CommasStep(isSpace: char -> bool, u: string, k: nat)
    requires u != "" && u[0] != '"' && k == (if u[0] == '\\' && |u| > 1 then 2 else 1)
    ensures ComingCommas(isSpace, true, u) == u[..k] + ComingCommas(isSpace, true, u[k..])
  {
    assert k == 2 ==> u[..k] == [u[0]] + [u[1]];
    assert k == 1 ==> u[..k] == [u[0]];
  }

  lemma {:induction false} CommasInString(isSpace: char -> bool, u: string)
    ensures ComingCommas(isSpace, true, u) == u[..LiteralTail(u)] + ComingCommas(isSpace, false, u[LiteralTail(u)..])
    decreases |u|
  {
    if u != "" && u[0] != '"' {
      var n := LiteralTail(u);
      var k := if u[0] == '\\' && |u| > 1 then 2 else 1;
      CommasInString(isSpace, u[k..]);
      Slices(u, k, n);
      CommasStep(isSpace, u, k);
      Pushed(u[..k], u[k..n], ComingCommas(isSpace, false, u[n..]));
    }
  }

  lemma CommasFirst(isSpace: char -> bool, u: string)
    requires u != ""
    ensures var t := First(u, false);
            var rest := ComingCommas(isSpace, false, u[|t.text|..]);
            ComingCommas(isSpace, false, u) ==
            if t == Plain(",") && ClosesNext(isSpace, u[|t.text|..]) then rest else t.text + rest
  {
    if u[0] == '"' {
      CommasInString(isSpace, u[1..]);
      var n := LiteralTail(u[1..]);
      assert u[1..][..n] == u[1..1 + n] && u[1..][n..] == u[1 + n..] && u[..1 + n] == [u[0]] + u[1..1 + n];
      Pushed([u[0]], u[1..1 + n], ComingCommas(isSpace, false, u[1 + n..]));
    } else {
      assert First(u, false) == Plain([u[0]]);
    }
  }

  lemma {:induction false} ComingIsWithoutCommas(isSpace: char -> bool, u: string)
    ensures ComingCommas(isSpace, false, u) == Text(WithoutCommas(isSpace, u))
    decreases |u|
  {
    if u != "" {
      var t := First(u, false);
      var tokens := WithoutCommas(isSpace, u[|t.text|..]);
      ComingIsWithoutCommas(isSpace, u[|t.text|..]);
      CommasFirst(isSpace, u);
      assert ([t] + tokens)[1..] == tokens && [] + tokens == tokens;
    }
  }

  /** Reading the output of the second pass finds its tokens again: no literal is opened, closed,
      joined or cut. */
  lemma {:induction false} CommasReadAgain(isSpace: char -> bool, u: string)
    ensures Lex(Text(WithoutCommas(isSpace, u)), false) == WithoutCommas(isSpace, u)
    ensures Literals(WithoutCommas(isSpace, u)) == Literals(Lex(u, false))
    decreases |u|
  {
    if u != "" {
      var t := First(u, false);
      var rest := u[|t.text|..];
      CommasReadAgain(isSpace, rest);
      var tokens := WithoutCommas(isSpace, rest);
      assert Lex(u, false)[1..] == Lex(rest, false);
      if t == Plain(",") && ClosesNext(isSpace, rest) {
        assert [] + tokens == tokens;
      } else {
        assert ([t] + tokens)[1..] == tokens;
        if t.Literal? {
          LiteralReadAgain(u, Text(tokens), false);
        } else {
          assert (t.text + Text(tokens))[..1] == t.text;
        }
        ReadThen(t, Text(tokens), false);
      }
    }
  }

  // ---------------------------------------------------------------- a second pass

  /** A comma outside literals directly before a closing bracket. */
  predicate Trailing(isSpace: char -> bool, u: string)
    decreases |u|
  {
    u != "" &&
    var t := First(u, false);
    var rest := u[|t.text|..];
    (t == Plain(",") && ClosesNext(isSpace, rest)) || Trailing(isSpace, rest)
  }

  /** The first character that is no white space is a comma directly before a closing bracket. */
  predicate CommaCloses(isSpace: char -> bool, u: string) {
    if u == "" then false
    else if isSpace(u[0]) then CommaCloses(isSpace, u[1..])
    else u[0] == ',' && ClosesNext(isSpace, u[1..])
  }

  /** Two commas outside literals, with only white space between them, directly before a closing bracket. */
  predicate Doubled(isSpace: char -> bool, u: string)
    decreases |u|
  {
    u != "" &&
    var t := First(u, false);
    var rest := u[|t.text|..];
    (t == Plain(",") && CommaCloses(isSpace, rest)) || Doubled(isSpace, rest)
  }

  predicate ProperSpace(isSpace: char -> bool) { !isSpace(',') && !isSpace('"') }

  lemma FirstPlain(u: string)
    requires u != "" && u[0] != '"'
    ensures First(u, false) == Plain([u[0]])
  {
  }

  /** One token of the second pass. */
  lemma CommasToken(isSpace: char -> bool, u: string)
    requires u != ""
    ensures var t := First(u, false);
            var rest := Text(WithoutCommas(isSpace, u[|t.text|..]));
            Text(WithoutCommas(isSpace, u)) == if t == Plain(",") && ClosesNext(isSpace, u[|t.text|..]) then rest
                 else t.text + rest
  {
    var t := First(u, false);
    var tokens := WithoutCommas(isSpace, u[|t.text|..]);
    assert [] + tokens == tokens && ([t] + tokens)[1..] == tokens;
  }

  /** What closes after a pass: what closed before it, or followed one dropped comma. */
  lemma {:induction false} ClosesAfter(isSpace: char -> bool, u: string)
    requires ProperSpace(isSpace)
    ensures ClosesNext(isSpace, Text(WithoutCommas(isSpace, u))) <==> ClosesNext(isSpace, u) || CommaCloses(isSpace, u)
    decreases |u|
  {
    if u != "" {
      CommasToken(isSpace, u);
      var rest := Text(WithoutCommas(isSpace, u[|First(u, false).text|..]));
      if u[0] != '"' {
        FirstPlain(u);
        ClosesAfter(isSpace, u[1..]);
        assert ([u[0]] + rest)[1..] == rest;
      } else {
        assert First(u, false).text[0] == '"';
      }
    }
  }

  /** The output has its tokens back. */
  lemma FirstAgain(isSpace: char -> bool, u: string)
    requires u != "" && !(First(u, false) == Plain(",") && ClosesNext(isSpace, u[|First(u, false).text|..]))
    ensures var t := First(u, false);
            var rest := Text(WithoutCommas(isSpace, u[|t.text|..]));
            t.text + rest != "" && First(t.text + rest, false) == t && (t.text + rest)[|t.text|..] == rest
  {
    var t := First(u, false);
    var rest := Text(WithoutCommas(isSpace, u[|t.text|..]));
    if t.Literal? {
      LiteralReadAgain(u, rest, false);
    } else {
      assert (t.text + rest)[..1] == t.text;
    }
  }

  /** A pass leaves a trailing comma exactly where there were two. */
  lemma {:induction false} TrailingAfter(isSpace: char -> bool, u: string)
    requires ProperSpace(isSpace)
    ensures Trailing(isSpace, Text(WithoutCommas(isSpace, u))) <==> Doubled(isSpace, u)
    decreases |u|
  {
    if u != "" {
      var t := First(u, false);
      var rest := u[|t.text|..];
      TrailingAfter(isSpace, rest);
      CommasToken(isSpace, u);
      if t == Plain(",") && ClosesNext(isSpace, rest) {
        NotBoth(isSpace, rest);
      } else {
        FirstAgain(isSpace, u);
        ClosesAfter(isSpace, rest);
      }
    }
  }

  lemma {:induction false} NotBoth(isSpace: char -> bool, u: string)
    requires ClosesNext(isSpace, u)
    ensures !CommaCloses(isSpace, u)
    decreases |u|
  {
    if u != "" && isSpace(u[0]) { NotBoth(isSpace, u[1..]); }
  }

  /** A pass changes nothing exactly when there is no trailing comma. */
  lemma {:induction false} UnchangedIff(isSpace: char -> bool, u: string)
    ensures |Text(WithoutCommas(isSpace, u))| <= |u|
    ensures Text(WithoutCommas(isSpace, u)) == u <==> !Trailing(isSpace, u)
    decreases |u|
  {
    if u != "" {
      var t := First(u, false);
      var rest := u[|t.text|..];
      UnchangedIff(isSpace, rest);
      CommasToken(isSpace, u);
      var left := Text(WithoutCommas(isSpace, rest));
      assert u == t.text + rest;
      if !(t == Plain(",") && ClosesNext(isSpace, rest)) && t.text + left == u {
        assert left == (t.text + left)[|t.text|..] == rest;
      }
    }
  }

  /** The output is free of trailing commas, and a second pass changes nothing, exactly when the source
      has no two commas with only white space between them before a closing bracket. */
  lemma CommasTwice(isSpace: char -> bool, src: string)
    requires ProperSpace(isSpace)
    ensures var once := Text(WithoutCommas(isSpace, src));
            && (Trailing(isSpace, once) <==> Doubled(isSpace, src))
            && (Text(WithoutCommas(isSpace, once)) == once <==> !Doubled(isSpace, src))
  {
    TrailingAfter(isSpace, src);
    UnchangedIff(isSpace, Text(WithoutCommas(isSpace, src)));
  }

  // ---------------------------------------------------------------- both passes

  predicate NoComments(tokens: seq<Token>) {
    forall i :: 0 <= i < |tokens| ==> tokens[i].Literal? || tokens[i].Plain?
  }

  lemma {:induction false} PurgedHasNone(tokens: seq<Token>)
    ensures NoComments(Purged(tokens))
  {
    if tokens != [] {
      PurgedHasNone(tokens[1..]);
      if tokens[0].Block? { SinglesHaveNone(LineBreaks(tokens[0].text)); }
    }
  }

  lemma {:induction u} SinglesHaveNone(u: string)
    ensures NoComments(Singles(u))
  {
  }

  lemma {:induction false} SameWithoutComments(u: string)
    requires NoComments(Lex(u, true))
    ensures Lex(u, false) == Lex(u, true)
    decreases |u|
  {
    if u != "" {
      var tokens := Lex(u, true);
      assert tokens[0] == First(u, true);
      assert First(u, true) == First(u, false);
      var rest := u[|tokens[0].text|..];
      assert tokens[1..] == Lex(rest, true);
      SameWithoutComments(rest);
    }
  }

  /** What the JSON parser is handed has exactly the string literals of the JSONC source, in order. */
  method Clean(isSpace: char -> bool, src: string) returns (out: string)
    ensures Literals(Lex(out, false)) == Literals(Lex(src, true))
  {
    var stripped := StripComments(src);
    out := StripTrailingCommas(isSpace, stripped);
    CommasReadAgain(isSpace, stripped);
    ReadAgain(src);
    StripTwice(src);
    PurgedHasNone(Lex(src, true));
    SameWithoutComments(stripped);
  }
}
