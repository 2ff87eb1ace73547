/** What a version text says, piece by piece: positional numbers, the dotted part, the revision after it. */
module VersionMeaning {
  import opened Wrappers
  import opened Texts
  import opened Versions

  // ---------------------------------------------------------------- numbers

  function TenTo(k: nat): nat { if k == 0 then 1 else 10 * TenTo(k - 1) }

  /** Decimal digits, the first one worth most. */
  function Places(s: string): int
    requires forall i :: 0 <= i < |s| ==> '0' <= s[i] <= '9'
  {
    if s == "" then 0 else (s[0] as int - '0' as int) * TenTo(|s| - 1) + Places(s[1..])
  }

  lemma {:induction false} ValueMeaning(s: string)
    requires Digits(s)
    ensures Value(s) == Places(s)
    decreases |s|
  {
    if s != "" {
      ValueMeaning(s[..|s| - 1]);
      LastPlace(s);
    }
  }

  lemma {:induction false} LastPlace(s: string)
    requires s != "" && Digits(s)
    ensures Places(s) == 10 * Places(s[..|s| - 1]) + (s[|s| - 1] as int - '0' as int)
    decreases |s|
  {
    var n := |s| - 1;
    if n == 0 {
      assert s[1..] == "" && s[..0] == "";
      assert TenTo(0) == 1;
    } else {
      LastPlace(s[1..]);
      assert s[1..][..n - 1] == s[..n][1..];
      Tenfold(s[0] as int - '0' as int, TenTo(n - 1), Places(s[..n][1..]));
    }
  }

  lemma Tenfold(d: int, t: nat, rest: int)
    ensures d * (10 * t) + 10 * rest == 10 * (d * t + rest)
  {
  }

  /** A text that is digits but for white space around them, below the limit of 32 bits. */
  predicate IsNumber(isSpace: char -> bool, text: string, n: nat) {
    var t := Trim(isSpace, text);
    t != "" && (forall i :: 0 <= i < |t| ==> '0' <= t[i] <= '9') && n == Places(t) && n < 4294967296
  }

  lemma NumberMeaning(isSpace: char -> bool, text: string, n: nat)
    ensures ParseU32(isSpace, text) == Some(n) <==> IsNumber(isSpace, text, n)
  {
    var t := Trim(isSpace, text);
    if Digits(t) { ValueMeaning(t); }
  }

  /** The text printed for a number has no needless zero in front and is read as that number. */
  lemma {:induction false} DecimalMeaning(n: nat)
    ensures Places(Decimal(n)) == n && (|Decimal(n)| > 1 ==> Decimal(n)[0] != '0')
  {
    ValueOfDecimal(n);
    ValueMeaning(Decimal(n));
    FirstDigit(n);
  }

  lemma {:induction false} FirstDigit(n: nat)
    ensures |Decimal(n)| > 1 ==> Decimal(n)[0] != '0'
    ensures n > 0 ==> Decimal(n)[0] != '0'
  {
    if n >= 10 {
      FirstDigit(n / 10);
      assert Decimal(n)[0] == Decimal(n / 10)[0];
    }
  }

  // ---------------------------------------------------------------- the dotted part

  ghost predicate AreNumbers(isSpace: char -> bool, pieces: seq<string>, parts: seq<nat>) {
    |parts| == |pieces| && forall i :: 0 <= i < |pieces| ==> IsNumber(isSpace, pieces[i], parts[i])
  }

  lemma {:induction false} NumbersMeaning(isSpace: char -> bool, pieces: seq<string>, parts: seq<nat>)
    ensures Numbers(isSpace, pieces) == Some(parts) <==> AreNumbers(isSpace, pieces, parts)
    decreases |pieces|
  {
    if pieces != [] {
      var n := |pieces| - 1;
      if |parts| == |pieces| {
        NumbersMeaning(isSpace, pieces[..n], parts[..n]);
        NumberMeaning(isSpace, pieces[n], parts[n]);
        assert parts == parts[..n] + [parts[n]];
      }
      if Numbers(isSpace, pieces[..n]).Some? {
        NumbersMeaning(isSpace, pieces[..n], Numbers(isSpace, pieces[..n]).value);
      }
      if AreNumbers(isSpace, pieces, parts) {
        forall i | 0 <= i < n ensures IsNumber(isSpace, pieces[..n][i], parts[..n][i]) {
          assert IsNumber(isSpace, pieces[i], parts[i]);
        }
      }
      if Numbers(isSpace, pieces) == Some(parts) {
        forall i | 0 <= i < |pieces| ensures IsNumber(isSpace, pieces[i], parts[i]) {
          if i < n { assert IsNumber(isSpace, pieces[..n][i], parts[..n][i]); }
        }
      }
    }
  }

  /** The dotted part is two to `most` numbers between dots; anything that is no number is the first fault, then
      too few, then too many. */
  lemma DottedMeaning(isSpace: char -> bool, text: string, most: nat, parts: seq<nat>)
    ensures Dotted(isSpace, text, most) == Ok(parts) <==>
              2 <= |parts| <= most && AreNumbers(isSpace, Split(text, '.'), parts)
    ensures Dotted(isSpace, text, most) == Err(BadNumber) <==>
              forall parts' :: !AreNumbers(isSpace, Split(text, '.'), parts')
    ensures AreNumbers(isSpace, Split(text, '.'), parts) && |parts| < 2 ==>
            Dotted(isSpace, text, most) == Err(TooFewParts)
    ensures AreNumbers(isSpace, Split(text, '.'), parts) && |parts| > most >= 2 ==>
              Dotted(isSpace, text, most) == Err(TooManyParts)
  {
    var pieces := Split(text, '.');
    NumbersMeaning(isSpace, pieces, parts);
    forall parts' ensures Numbers(isSpace, pieces) == Some(parts') <==> AreNumbers(isSpace, pieces, parts') {
      NumbersMeaning(isSpace, pieces, parts');
    }
    if Numbers(isSpace, pieces).Some? { assert AreNumbers(isSpace, pieces, Numbers(isSpace, pieces).value); }
  }

  // ---------------------------------------------------------------- the revision

  /** The text inside white space, parentheses and white space again, in small letters. */
  function RevText(isSpace: char -> bool, text: string): string {
    Lowered(Trim(isSpace, Trim(c => c == '(' || c == ')', Trim(isSpace, text))))
  }

  /** `rev`, `r` or nothing, then all the dots, colons and blanks there are, then a number. */
  ghost predicate RevCut(isSpace: char -> bool, s: string, k: nat, m: nat, n: nat) {
    && k <= m <= |s| && (s[..k] == "rev" || s[..k] == "r" || s[..k] == "")
    && (forall i :: k <= i < m ==> s[i] in ".: ") && (m < |s| ==> s[m] !in ".: ")
    && IsNumber(isSpace, s[m..], n)
  }

  lemma {:induction false} SeparatorsEnd(s: string, k: nat) returns (m: nat)
    requires k <= |s|
    ensures k <= m <= |s| && TrimStart(Separator, s[k..]) == s[m..]
    ensures (forall i :: k <= i < m ==> s[i] in ".: ") && (m < |s| ==> s[m] !in ".: ")
    decreases |s| - k
  {
    m := k;
    if k < |s| && Separator(s[k]) {
      assert s[k..][1..] == s[k + 1..];
      m := SeparatorsEnd(s, k + 1);
    }
  }

  lemma NoLetterStarts(isSpace: char -> bool, s: string, c: char, n: nat)
    requires s != "" && s[0] == c && !isSpace(c) && !('0' <= c <= '9')
    ensures !IsNumber(isSpace, s, n)
  {
    var before, after := TrimMeaning(isSpace, s);
    var t := Trim(isSpace, s);
    if t != "" && before == "" { assert t[0] == s[0]; }
  }

  function Stripped(s: string): nat {
    if |s| >= 3 && s[..3] == "rev" then 3 else if s != "" && s[0] == 'r' then 1 else 0
  }

  lemma OnlyStrip(isSpace: char -> bool, s: string, k: nat, m: nat, n: nat)
    requires SaneSpace(isSpace) && RevCut(isSpace, s, k, m, n)
    ensures k == Stripped(s)
  {
    if |s| >= 1 { assert s[..1] == [s[0]]; }
    if k == 1 { assert s[..k][0] == 'r'; }
    if k == 3 { assert s[..k][0] == 'r'; }
    if k == 0 && s != "" && s[0] == 'r' {
      assert s[0] !in ".: ";
      NoLetterStarts(isSpace, s[m..], 'r', n);
    }
    if k == 1 && |s| >= 3 && s[..3] == "rev" {
      assert s[..3][1] == 'e';
      NoLetterStarts(isSpace, s[m..], 'e', n);
    }
  }

  lemma RevMeaning(isSpace: char -> bool, text: string, n: nat)
    requires SaneSpace(isSpace)
    ensures ParseRev(isSpace, text) == Some(n)
            <==> exists k: nat, m: nat :: RevCut(isSpace, RevText(isSpace, text), k, m, n)
  {
    var s := RevText(isSpace, text);
    SameTrim(isSpace, text);
    var k := Stripped(s);
    var m := SeparatorsEnd(s, k);
    if |s| >= 1 { assert s[..1] == [s[0]]; }
    assert s[0..] == s;
    NumberMeaning(isSpace, s[m..], n);
    if ParseRev(isSpace, text) == Some(n) { assert RevCut(isSpace, s, k, m, n); }
    if k': nat, m': nat :| RevCut(isSpace, s, k', m', n) {
      OnlyStrip(isSpace, s, k', m', n);
      assert m' == m;
    }
  }

  lemma SameTrim(isSpace: char -> bool, text: string)
    ensures RevText(isSpace, text) == Lowered(Trim(isSpace, Trim(Paren, Trim(isSpace, text))))
  {
    SameTrimStart(Trim(isSpace, text));
    SameTrimEnd(TrimStart(Paren, Trim(isSpace, text)));
  }

  lemma {:induction false} SameTrimStart(s: string)
    ensures TrimStart(c => c == '(' || c == ')', s) == TrimStart(Paren, s)
    decreases |s|
  {
    if s != "" { SameTrimStart(s[1..]); }
  }

  lemma {:induction false} SameTrimEnd(s: string)
    ensures TrimEnd(c => c == '(' || c == ')', s) == TrimEnd(Paren, s)
    decreases |s|
  {
    if s != "" { SameTrimEnd(s[..|s| - 1]); }
  }

  // ---------------------------------------------------------------- the whole text

  lemma {:induction false} HeadMeaning(isSpace: char -> bool, s: string)
    ensures var i := FirstSpace(isSpace, s);
            (forall j :: 0 <= j < i ==> !isSpace(s[j])) && (i < |s| ==> isSpace(s[i]))
    decreases |s|
  {
    if s != "" && !isSpace(s[0]) {
      HeadMeaning(isSpace, s[1..]);
      assert forall j :: 0 < j < |s| ==> s[j] == s[1..][j - 1];
    }
  }

  /** Without byte order marks in front and white space around it, and without one `v` or `V`, a text is a dotted
      part up to the first white space and a revision text behind it. The dotted part is judged first; a revision
      stands at one of the two places, never at both. */
  lemma ParsedMeaning(isSpace: char -> bool, input: string)
    returns (marks: string, text: string, head: string, tail: string)
    ensures input == marks + TrimStart(c => c == '\U{FEFF}', input)
    ensures forall i :: 0 <= i < |marks| ==> marks[i] == '\U{FEFF}'
    ensures text == Trim(isSpace, TrimStart(c => c == '\U{FEFF}', input))
    ensures text != "" ==> head + tail == if text[0] == 'v' || text[0] == 'V' then text[1..] else text
    ensures (forall i :: 0 <= i < |head| ==> !isSpace(head[i])) && (tail != "" ==> isSpace(tail[0]))
    ensures Parsed(isSpace, input) ==
            if text == "" then Err(Empty) else Judged(isSpace, text, Dotted(isSpace, head, 4), Trim(isSpace, tail))
  {
    marks := TrimmedStart(c => c == '\U{FEFF}', input);
    SameMarks(input);
    text := Trim(isSpace, TrimStart(c => c == '\U{FEFF}', input));
    head, tail := "", "";
    if text != "" {
      head, tail := CutAtSpace(isSpace, if text[0] == 'v' || text[0] == 'V' then text[1..] else text);
      JudgedSo(isSpace, input, text, head, tail);
    }
  }

  lemma CutAtSpace(isSpace: char -> bool, body: string) returns (head: string, tail: string)
    ensures head == body[..FirstSpace(isSpace, body)] && tail == body[FirstSpace(isSpace, body)..]
    ensures head + tail == body
    ensures (forall i :: 0 <= i < |head| ==> !isSpace(head[i])) && (tail != "" ==> isSpace(tail[0]))
  {
    HeadMeaning(isSpace, body);
    head, tail := body[..FirstSpace(isSpace, body)], body[FirstSpace(isSpace, body)..];
  }

  /** What the two parts of a text are together. */
  function Judged(isSpace: char -> bool, text: string, dotted: Result<seq<nat>, Fault>, suffix: string)
    : Result<GameVersion, Fault>
    requires dotted.Ok? ==> 2 <= |dotted.value| <= 4
  {
    match dotted
    case Err(fault) => Err(fault)
    case Ok(parts) =>
      if suffix != "" && ParseRev(isSpace, suffix).None? then Err(UnexpectedSuffix)
      else if suffix != "" && |parts| == 4 then Err(TooManyParts)
      else
        Ok(GameVersion(text, parts[0], parts[1], if |parts| >= 3 then Some(parts[2]) else None,
                       if |parts| == 4 then Some(parts[3])
                       else if suffix != "" then ParseRev(isSpace, suffix) else None))
  }

  lemma JudgedSo(isSpace: char -> bool, input: string, text: string, head: string, tail: string)
    requires text == Trim(isSpace, TrimStart(c => c == BOM, input)) && text != ""
    requires var body := if text[0] == 'v' || text[0] == 'V' then text[1..] else text;
             head == body[..FirstSpace(isSpace, body)] && tail == body[FirstSpace(isSpace, body)..]
    ensures Parsed(isSpace, input) == Judged(isSpace, text, Dotted(isSpace, head, 4), Trim(isSpace, tail))
  {
    CombinedSo(isSpace, text, Dotted(isSpace, head, 4), Trim(isSpace, tail));
  }

  lemma CombinedSo(isSpace: char -> bool, text: string, dotted: Result<seq<nat>, Fault>, suffix: string)
    requires dotted.Ok? ==> 2 <= |dotted.value| <= 4
    ensures dotted.Ok? ==> Combined(isSpace, text, dotted.value, suffix) == Judged(isSpace, text, dotted, suffix)
  {
  }

  lemma {:induction false} SameMarks(s: string)
    ensures TrimStart(c => c == '\U{FEFF}', s) == TrimStart(c => c == BOM, s)
    decreases |s|
  {
    if s != "" { SameMarks(s[1..]); }
  }

  /** The canonical text, written out. */
  lemma CanonicalMeaning(v: GameVersion)
    ensures CanonicalOf(v) == Decimal(v.major) + "." + Decimal(v.minor)
                              + (if v.build.Some? then "." + Decimal(v.build.value) else "")
                              + (if v.rev.Some? then " rev" + Decimal(v.rev.value) else "")
  {
  }
}
