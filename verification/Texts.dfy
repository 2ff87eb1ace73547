/** Splitting and trimming of text. */
module Texts {
  /** The pieces of a text between separators; one more piece than separators. */
  function Split(s: string, sep: char): (pieces: seq<string>)
    ensures |pieces| > 0
  {
    if s == "" then [""]
    else
      var rest := Split(s[1..], sep);
      if s[0] == sep then [""] + rest else [[s[0]] + rest[0]] + rest[1..]
  }

  function Join(pieces: seq<string>, sep: char): string
    requires |pieces| > 0
  {
    if |pieces| == 1 then pieces[0] else pieces[0] + [sep] + Join(pieces[1..], sep)
  }

  /** No piece holds a separator, and joining the pieces gives the text back. */
  lemma {:induction false} SplitFacts(s: string, sep: char)
    ensures forall i :: 0 <= i < |Split(s, sep)| ==> sep !in Split(s, sep)[i]
    ensures Join(Split(s, sep), sep) == s
    decreases |s|
  {
    if s != "" {
      SplitFacts(s[1..], sep);
      var rest := Split(s[1..], sep);
      if s[0] == sep {
        assert ([""] + rest)[1..] == rest;
        assert "" + [sep] + Join(rest, sep) == [s[0]] + s[1..];
      } else {
        assert ([[s[0]] + rest[0]] + rest[1..])[1..] == rest[1..];
        assert s == [s[0]] + s[1..];
      }
    }
  }

  function TrimStart(isSpace: char -> bool, s: string): string {
    if s != "" && isSpace(s[0]) then TrimStart(isSpace, s[1..]) else s
  }

  function TrimEnd(isSpace: char -> bool, s: string): string
    decreases |s|
  {
    if s != "" && isSpace(s[|s| - 1]) then TrimEnd(isSpace, s[..|s| - 1]) else s
  }

  function Trim(isSpace: char -> bool, s: string): string { TrimEnd(isSpace, TrimStart(isSpace, s)) }

  ghost predicate AllSpace(isSpace: char -> bool, s: string) { forall i :: 0 <= i < |s| ==> isSpace(s[i]) }

  /** Trimming takes white space off both ends, all of it, and nothing else. */
  lemma TrimMeaning(isSpace: char -> bool, s: string) returns (before: string, after: string)
    ensures s == before + Trim(isSpace, s) + after && AllSpace(isSpace, before) && AllSpace(isSpace, after)
    ensures var t := Trim(isSpace, s); t != "" ==> !isSpace(t[0]) && !isSpace(t[|t| - 1])
  {
    before := TrimmedStart(isSpace, s);
    after := TrimmedEnd(isSpace, TrimStart(isSpace, s));
  }

  lemma {:induction false} TrimmedStart(isSpace: char -> bool, s: string) returns (before: string)
    ensures s == before + TrimStart(isSpace, s) && AllSpace(isSpace, before)
    ensures TrimStart(isSpace, s) != "" ==> !isSpace(TrimStart(isSpace, s)[0])
    decreases |s|
  {
    before := "";
    if s != "" && isSpace(s[0]) {
      var rest := TrimmedStart(isSpace, s[1..]);
      before := [s[0]] + rest;
      assert s == [s[0]] + s[1..];
    }
  }

  lemma {:induction false} TrimmedEnd(isSpace: char -> bool, s: string) returns (after: string)
    ensures s == TrimEnd(isSpace, s) + after && AllSpace(isSpace, after)
    ensures var t := TrimEnd(isSpace, s); t != "" ==> !isSpace(t[|t| - 1]) && t[0] == s[0]
    decreases |s|
  {
    after := "";
    if s != "" && isSpace(s[|s| - 1]) {
      var n := |s| - 1;
      var rest := TrimmedEnd(isSpace, s[..n]);
      after := rest + [s[n]];
      assert s == s[..n] + [s[n]];
    }
  }

  /** Splitting distributes over a separator. */
  lemma {:induction false} SplitAppend(a: string, b: string, sep: char)
    ensures Split(a + [sep] + b, sep) == Split(a, sep) + Split(b, sep)
    decreases |a|
  {
    if a == "" {
      assert a + [sep] + b == [sep] + b && ([sep] + b)[1..] == b;
    } else {
      assert (a + [sep] + b)[1..] == a[1..] + [sep] + b;
      SplitAppend(a[1..], b, sep);
    }
  }

  lemma {:induction false} SplitWhole(s: string, sep: char)
    requires sep !in s
    ensures Split(s, sep) == [s]
    decreases |s|
  {
    if s != "" {
      SplitWhole(s[1..], sep);
      assert [s[0]] + s[1..] == s;
    }
  }
}
