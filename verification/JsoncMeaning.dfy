/** What the tokens of the JSONC reader are, over the characters of the text. */
module JsoncMeaning {
  import opened Jsonc

  /** How many backslashes a text ends with. */
  function Slashes(u: string): nat {
    if u == "" || u[|u| - 1] != '\\' then 0 else 1 + Slashes(u[..|u| - 1])
  }

  /** A quote with an even number of backslashes directly before it. */
  predicate Quote(u: string, k: nat) {
    k < |u| && u[k] == '"' && Slashes(u[..k]) % 2 == 0
  }

  /** The mark that ends a block comment. */
  predicate EndMark(u: string, k: nat) {
    k + 1 < |u| && u[k] == '*' && u[k + 1] == '/'
  }

  predicate Starts(u: string, mark: string) {
    |mark| <= |u| && u[..|mark|] == mark
  }

  /** The first `n` characters end with the first quote at or after `from`, or with the text if there is none. */
  ghost predicate ToQuote(u: string, from: nat, n: nat) {
    && from <= n <= |u|
    && if n == |u| && NoQuote(u, from, n) then true
       else from < n && Quote(u, n - 1) && NoQuote(u, from, n - 1)
  }

  ghost predicate NoQuote(u: string, from: nat, to: nat) {
    forall k: nat :: from <= k < to ==> !Quote(u, k)
  }

  /** The first `n` characters end with the first end mark at or after `from`, or with the text if there is none. */
  ghost predicate ToEndMark(u: string, from: nat, n: nat) {
    && from <= n <= |u|
    && if n == |u| && NoEndMark(u, from, n) then true
       else from + 1 < n && EndMark(u, n - 2) && NoEndMark(u, from, n - 2)
  }

  ghost predicate NoEndMark(u: string, from: nat, to: nat) {
    forall k: nat :: from <= k < to ==> !EndMark(u, k)
  }

  ghost predicate ToLineEnd(u: string, n: nat) {
    n <= |u| && (forall k :: 0 <= k < n ==> u[k] != '\n') && (n < |u| ==> u[n] == '\n')
  }

  /** A token at the front of a text, said over its characters. */
  ghost predicate TokenAt(u: string, t: Token, comments: bool) {
    && |t.text| <= |u|
    && t.text == u[..|t.text|]
    && match t
       case Literal(x) => Starts(u, "\"") && ToQuote(u, 1, |x|)
       case Line(x) =>
         comments && Starts(u, "//") && 2 <= |x| && ToLineEnd(u, |x|)
       case Block(x) => comments && Starts(u, "/*") && ToEndMark(u, 2, |x|)
       case Plain(x) => |x| == 1 && u[0] != '"' && !(comments && (Starts(u, "//") || Starts(u, "/*")))
  }

  // ---------------------------------------------------------------- literals

  lemma {:induction false} SlashesAppend(a: string, b: string)
    ensures Slashes(b) <= |b|
    ensures Slashes(a + b) == Slashes(b) + if Slashes(b) == |b| then Slashes(a) else 0
    decreases |b|
  {
    if b == "" {
      assert a + b == a;
    } else {
      var c := b[..|b| - 1];
      SlashesAppend(a, c);
      assert (a + b)[..|a + b| - 1] == a + c;
    }
  }

  lemma EvenFront(u: string, n: nat)
    requires n < |u| && n == (if u[0] == '\\' then 2 else 1)
    ensures Slashes(u[..n]) % 2 == 0
  {
    if n == 2 {
      assert u[..2][..1] == [u[0]] && [u[0]][..0] == "";
      assert Slashes([u[0]]) == 1;
    }
  }

  /** Skipping a whole character, escaped or not, changes the number of backslashes by an even number. */
  lemma SkipKeepsParity(u: string, n: nat, k: nat)
    requires u != "" && n == (if u[0] == '\\' && |u| > 1 then 2 else 1) && n <= k < |u|
    ensures Quote(u, k) <==> Quote(u[n..], k - n)
  {
    assert u[..k] == u[..n] + u[n..k] && u[n..][..k - n] == u[n..k];
    SlashesAppend(u[..n], u[n..k]);
    EvenFront(u, n);
  }

  /** The first characters of a text hold no quote that counts, or the first one is a quote. */
  lemma NoneSkipped(u: string, n: nat, k: nat)
    requires u != "" && u[0] != '"' && n == (if u[0] == '\\' && |u| > 1 then 2 else 1) && k < n
    ensures !Quote(u, k)
  {
    if k == 1 {
      assert u[..1] == [u[0]] && [u[0]][..0] == "";
      assert Slashes([u[0]]) == 1;
    }
  }

  /** Reading on after the first character, escaped or not. */
  lemma SkipToQuote(u: string, n: nat, from: nat, m: nat)
    requires u != "" && n == (if u[0] == '\\' && |u| > 1 then 2 else 1)
    requires from <= n && NoQuote(u, from, n) && ToQuote(u[n..], 0, m)
    ensures ToQuote(u, from, n + m)
  {
    forall k: nat | n <= k < |u| ensures Quote(u, k) <==> Quote(u[n..], k - n) { SkipKeepsParity(u, n, k); }
  }

  lemma {:induction false} TailMeaning(u: string)
    ensures ToQuote(u, 0, LiteralTail(u))
    decreases |u|
  {
    if u != "" {
      if u[0] == '"' {
        assert Quote(u, 0);
      } else {
        var n := if u[0] == '\\' && |u| > 1 then 2 else 1;
        TailMeaning(u[n..]);
        forall k: nat | k < n ensures !Quote(u, k) { NoneSkipped(u, n, k); }
        SkipToQuote(u, n, 0, LiteralTail(u[n..]));
      }
    }
  }

  lemma LiteralMeaning(u: string)
    requires u != "" && u[0] == '"'
    ensures ToQuote(u, 1, 1 + LiteralTail(u[1..]))
  {
    TailMeaning(u[1..]);
    SkipToQuote(u, 1, 1, LiteralTail(u[1..]));
  }

  // ---------------------------------------------------------------- comments

  lemma {:induction false} LineMeaning(u: string)
    ensures ToLineEnd(u, LineLength(u))
    decreases |u|
  {
    if u != "" && u[0] != '\n' {
      LineMeaning(u[1..]);
      forall k | 1 <= k < LineLength(u) ensures u[k] != '\n' { assert u[k] == u[1..][k - 1]; }
    }
  }

  lemma SkipToEndMark(u: string, n: nat, from: nat, m: nat)
    requires from <= n <= |u| && NoEndMark(u, from, n) && ToEndMark(u[n..], 0, m)
    ensures ToEndMark(u, from, n + m)
  {
    forall k: nat | n <= k ensures EndMark(u, k) <==> EndMark(u[n..], k - n) {}
  }

  lemma {:induction false} BlockTailMeaning(u: string)
    ensures ToEndMark(u, 0, BlockTail(u))
    decreases |u|
  {
    if u != "" {
      if u[0] == '*' && |u| > 1 && u[1] == '/' {
        assert EndMark(u, 0);
      } else {
        BlockTailMeaning(u[1..]);
        SkipToEndMark(u, 1, 0, BlockTail(u[1..]));
      }
    }
  }

  lemma BlockMeaning(u: string)
    requires OpensComment(u)
    ensures ToEndMark(u, 2, 2 + BlockTail(u[2..]))
  {
    BlockTailMeaning(u[2..]);
    SkipToEndMark(u, 2, 2, BlockTail(u[2..]));
  }

  // ---------------------------------------------------------------- tokens

  lemma FirstMeaning(u: string, comments: bool)
    requires u != ""
    ensures TokenAt(u, First(u, comments), comments)
  {
    if u[0] == '"' {
      LiteralMeaning(u);
    } else if comments && OpensComment(u) {
      if u[1] == '/' {
        LineMeaning(u[2..]);
        var n := LineLength(u[2..]);
        forall k | 2 <= k < 2 + n ensures u[k] != '\n' { assert u[k] == u[2..][k - 2]; }
      } else {
        BlockMeaning(u);
      }
    }
  }

  lemma OneQuote(u: string, n: nat, m: nat)
    requires ToQuote(u, 1, n) && ToQuote(u, 1, m)
    ensures n == m
  {
  }

  lemma OneEndMark(u: string, n: nat, m: nat)
    requires ToEndMark(u, 2, n) && ToEndMark(u, 2, m)
    ensures n == m
  {
  }

  lemma OneLineEnd(u: string, n: nat, m: nat)
    requires ToLineEnd(u, n) && ToLineEnd(u, m)
    ensures n == m
  {
  }

  /** A text has one first token. */
  lemma TokenUnique(u: string, s: Token, t: Token, comments: bool)
    requires TokenAt(u, s, comments) && TokenAt(u, t, comments)
    ensures s == t
  {
    if u[0] == '"' {
      OneQuote(u, |s.text|, |t.text|);
    } else if comments && Starts(u, "//") {
      assert u[..2][1] == '/';
      OneLineEnd(u, |s.text|, |t.text|);
    } else if comments && Starts(u, "/*") {
      OneEndMark(u, |s.text|, |t.text|);
    }
  }

  /** The tokens of a text are the text, each one the token at the front of what it starts. */
  ghost predicate TokensOf(u: string, tokens: seq<Token>, comments: bool)
    decreases |tokens|
  {
    if tokens == [] then u == ""
    else
      && TokenAt(u, tokens[0], comments)
      && |tokens[0].text| <= |u|
      && TokensOf(u[|tokens[0].text|..], tokens[1..], comments)
  }

  /** Reading a text finds the one way of cutting it into literals, comments and single characters. */
  lemma {:induction false} LexMeaning(u: string, tokens: seq<Token>, comments: bool)
    ensures TokensOf(u, tokens, comments) <==> tokens == Lex(u, comments)
    decreases |u|, |tokens|
  {
    if u != "" {
      var t := First(u, comments);
      FirstMeaning(u, comments);
      assert Lex(u, comments)[1..] == Lex(u[|t.text|..], comments);
      if tokens != [] {
        if TokenAt(u, tokens[0], comments) { TokenUnique(u, t, tokens[0], comments); }
        if tokens[0] == t {
          LexMeaning(u[|t.text|..], tokens[1..], comments);
          assert tokens == [t] + tokens[1..];
        }
      }
    }
  }

  // ---------------------------------------------------------------- what is kept

  /** The line breaks kept of a block comment: nothing else, and each of them. */
  lemma {:induction false} BreaksMeaning(u: string)
    ensures LineBreaks(u) == Lines(multiset(u)['\n'])
    decreases |u|
  {
    if u != "" {
      BreaksMeaning(u[1..]);
      assert u == [u[0]] + u[1..];
      assert multiset(u) == multiset{u[0]} + multiset(u[1..]);
    }
  }

  function Lines(n: nat): string { seq(n, _ => '\n') }

  /** What the first pass keeps: all of a literal or a plain character, the line breaks of a block comment,
      nothing of a line comment, one after the other. */
  lemma KeptMeaning(tokens: seq<Token>)
    ensures tokens == [] ==> KeptText(tokens) == ""
    ensures tokens != [] ==>
              var t, rest := tokens[0], KeptText(tokens[1..]);
              && (t.Literal? || t.Plain? ==> KeptText(tokens) == t.text + rest)
              && (t.Line? ==> KeptText(tokens) == rest)
              && (t.Block? ==>
                    KeptText(tokens) == Lines(multiset(t.text)['\n']) + rest)
  {
    if tokens != [] && tokens[0].Block? { BreaksMeaning(tokens[0].text); }
  }

  // ---------------------------------------------------------------- trailing commas

  /** A closing bracket comes after nothing but white space. */
  ghost predicate BracketFirst(isSpace: char -> bool, u: string) {
    exists k: nat :: BracketAt(isSpace, u, k)
  }

  ghost predicate BracketAt(isSpace: char -> bool, u: string, k: nat) {
    k < |u| && (u[k] == ']' || u[k] == '}') && !isSpace(u[k]) && AllSpace(isSpace, u[..k])
  }

  ghost predicate AllSpace(isSpace: char -> bool, u: string) {
    forall k :: 0 <= k < |u| ==> isSpace(u[k])
  }

  lemma SpaceFirst(isSpace: char -> bool, u: string, k: nat)
    requires u != "" && 0 < k <= |u|
    ensures AllSpace(isSpace, u[..k]) <==> isSpace(u[0]) && AllSpace(isSpace, u[1..][..k - 1])
  {
    assert u[..k] == [u[0]] + u[1..][..k - 1];
  }

  lemma {:induction false} ClosesMeaning(isSpace: char -> bool, u: string)
    ensures ClosesNext(isSpace, u) <==> BracketFirst(isSpace, u)
    decreases |u|
  {
    if u != "" {
      ClosesMeaning(isSpace, u[1..]);
      forall k: nat | 0 < k <= |u|
        ensures AllSpace(isSpace, u[..k]) <==> isSpace(u[0]) && AllSpace(isSpace, u[1..][..k - 1])
      {
        SpaceFirst(isSpace, u, k);
      }
      assert u[..0] == "";
      if isSpace(u[0]) && BracketFirst(isSpace, u[1..]) {
        var k: nat :| BracketAt(isSpace, u[1..], k);
        assert BracketAt(isSpace, u, k + 1);
      } else if isSpace(u[0]) && BracketFirst(isSpace, u) {
        var k: nat :| BracketAt(isSpace, u, k);
        assert BracketAt(isSpace, u[1..], k - 1);
      } else if ClosesNext(isSpace, u) {
        assert BracketAt(isSpace, u, 0);
      }
    }
  }

  /** The text starts with a comma outside literals that a closing bracket follows. */
  ghost predicate Dropped(isSpace: char -> bool, u: string) {
    u != "" && u[0] == ',' && BracketFirst(isSpace, u[1..])
  }

  lemma DroppedIff(isSpace: char -> bool, u: string)
    requires u != ""
    ensures var t := First(u, false);
            Dropped(isSpace, u) <==> t == Plain(",") && ClosesNext(isSpace, u[|t.text|..])
  {
    if u[0] == ',' { ClosesMeaning(isSpace, u[1..]); }
  }

  /** The second pass, token by token: a plain comma goes exactly when a closing bracket comes next, and
      everything else stays. */
  lemma CommasMeaning(isSpace: char -> bool, u: string)
    requires u != ""
    ensures var t := First(u, false);
            var out := Text(WithoutCommas(isSpace, u[|t.text|..]));
            Text(WithoutCommas(isSpace, u)) == if Dropped(isSpace, u) then out else t.text + out
  {
    DroppedIff(isSpace, u);
    CommasToken(isSpace, u);
  }
}
