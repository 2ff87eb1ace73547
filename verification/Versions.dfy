/** Game versions: the tolerant parser and the canonical text. White space is a parameter. */
module Versions {
  import opened Wrappers
  import opened Texts

  const LIMIT: nat := 0x1_0000_0000
  const BOM: char := '\U{FEFF}'

  datatype Fault = Empty | BadNumber | TooFewParts | TooManyParts | UnexpectedSuffix

  datatype GameVersion = GameVersion(raw: string, major: nat, minor: nat, build: Option<nat>, rev: Option<nat>)

  // ---------------------------------------------------------------- numbers

  predicate Digit(c: char) { '0' <= c <= '9' }

  predicate Digits(s: string) { forall i :: 0 <= i < |s| ==> Digit(s[i]) }

  function Value(s: string): nat
    requires Digits(s)
    decreases |s|
  {
    if s == "" then 0 else 10 * Value(s[..|s| - 1]) + (s[|s| - 1] as int - '0' as int) as nat
  }

  function DigitOf(n: nat): (c: char)
    requires n < 10
    ensures Digit(c)
  {
    ('0' as int + n) as char
  }

  /** The decimal text of a number. */
  function Decimal(n: nat): (s: string)
    ensures s != "" && Digits(s)
  {
    if n < 10 then [DigitOf(n)] else Decimal(n / 10) + [DigitOf(n % 10)]
  }

  lemma {:induction false} ValueOfDecimal(n: nat)
    ensures Value(Decimal(n)) == n
  {
    if n < 10 {
      assert [DigitOf(n)][..0] == "";
    } else {
      ValueOfDecimal(n / 10);
      var s := Decimal(n / 10);
      assert (s + [DigitOf(n % 10)])[..|s|] == s;
    }
  }

  function ParseU32(isSpace: char -> bool, text: string): Option<nat> {
    var t := Trim(isSpace, text);
    if t == "" || !Digits(t) then None
    else if Value(t) < LIMIT then Some(Value(t)) else None
  }

  // ---------------------------------------------------------------- parsing

  /** The numbers of a dotted text, up to the first piece that is none. */
  function Numbers(isSpace: char -> bool, pieces: seq<string>): Option<seq<nat>>
    decreases |pieces|
  {
    if pieces == [] then Some([])
    else
      var n := |pieces| - 1;
      match (Numbers(isSpace, pieces[..n]), ParseU32(isSpace, pieces[n]))
      case (Some(before), Some(v)) => Some(before + [v])
      case _ => None
  }

  function Dotted(isSpace: char -> bool, text: string, maxParts: nat): Result<seq<nat>, Fault> {
    match Numbers(isSpace, Split(text, '.'))
    case None => Err(BadNumber)
    case Some(parts) => if |parts| < 2 then Err(TooFewParts) else if |parts| > maxParts then Err(TooManyParts)
      else Ok(parts)
  }

  method ParseDotted(isSpace: char -> bool, text: string, maxParts: nat) returns (r: Result<seq<nat>, Fault>)
    ensures r == Dotted(isSpace, text, maxParts)
  {
    var pieces := Split(text, '.');
    var parts: seq<nat> := [];
    for k := 0 to |pieces|
      invariant Numbers(isSpace, pieces[..k]) == Some(parts)
    {
      assert pieces[..k + 1][..k] == pieces[..k];
      var v := ParseU32(isSpace, pieces[k]);
      if v.None? {
        BadPiece(isSpace, pieces, k + 1);
        return Err(BadNumber);
      }
      parts := parts + [v.value];
    }
    assert pieces[..|pieces|] == pieces;
    if |parts| < 2 {
      return Err(TooFewParts);
    }
    if |parts| > maxParts {
      return Err(TooManyParts);
    }
    return Ok(parts);
  }

  lemma {:induction false} BadPiece(isSpace: char -> bool, pieces: seq<string>, k: nat)
    requires k <= |pieces| && Numbers(isSpace, pieces[..k]) == None
    ensures Numbers(isSpace, pieces) == None
    decreases |pieces|
  {
    if k == |pieces| {
      assert pieces[..k] == pieces;
    } else {
      assert pieces[..|pieces| - 1][..k] == pieces[..k];
      BadPiece(isSpace, pieces[..|pieces| - 1], k);
    }
  }

  function Lowered(s: string): (r: string)
    ensures |r| == |s|
  {
    seq(|s|, i requires 0 <= i < |s| => if 'A' <= s[i] <= 'Z' then (s[i] as int + 32) as char else s[i])
  }

  predicate Paren(c: char) { c == '(' || c == ')' }

  predicate Separator(c: char) { c == '.' || c == ':' || c == ' ' }

  function ParseRev(isSpace: char -> bool, text: string): Option<nat> {
    var lower := Lowered(Trim(isSpace, Trim(Paren, Trim(isSpace, text))));
    var digits := if |lower| >= 3 && lower[..3] == "rev" then lower[3..]
                  else if lower != "" && lower[0] == 'r' then lower[1..] else lower;
    ParseU32(isSpace, TrimStart(Separator, digits))
  }

  function FirstSpace(isSpace: char -> bool, s: string): (i: nat)
    ensures i <= |s|
  {
    if s == "" || isSpace(s[0]) then 0 else 1 + FirstSpace(isSpace, s[1..])
  }

  /** What the parser answers. */
  function Parsed(isSpace: char -> bool, input: string): Result<GameVersion, Fault> {
    var trimmed := Trim(isSpace, TrimStart(c => c == BOM, input));
    if trimmed == "" then Err(Empty)
    else
      var text := if trimmed[0] == 'v' || trimmed[0] == 'V' then trimmed[1..] else trimmed;
      var i := FirstSpace(isSpace, text);
      var rest := Trim(isSpace, text[i..]);
      match Dotted(isSpace, text[..i], 4)
      case Err(fault) => Err(fault)
      case Ok(parts) => Combined(isSpace, trimmed, parts, rest)
  }

  /** The numbers and the text after them. */
  function Combined(isSpace: char -> bool, raw: string, parts: seq<nat>, rest: string): Result<GameVersion, Fault>
    requires |parts| >= 2
  {
    var suffix := if rest == "" then None else ParseRev(isSpace, rest);
    if rest != "" && suffix.None? then Err(UnexpectedSuffix)
    else if |parts| > 3 && suffix.Some? then Err(TooManyParts)
    else
      Ok(GameVersion(raw, parts[0], parts[1], if |parts| > 2 then Some(parts[2]) else None,
                     if |parts| > 3 then Some(parts[3]) else suffix))
  }

  /** Parses a version text. Whatever it accepts has numbers of the machine width, and their canonical
      text is accepted again with the same numbers. */
  method Parse(isSpace: char -> bool, input: string) returns (r: Result<GameVersion, Fault>)
    ensures r == Parsed(isSpace, input)
    ensures SaneSpace(isSpace) && r.Ok? ==>
              InWidth(r.value) && Parsed(isSpace, CanonicalOf(r.value)) == Ok(r.value.(raw := CanonicalOf(r.value)))
  {
    if SaneSpace(isSpace) && Parsed(isSpace, input).Ok? { AcceptedReparses(isSpace, input); }
    var trimmed := Trim(isSpace, TrimStart(c => c == BOM, input));
    if trimmed == "" {
      return Err(Empty);
    }
    var text := if trimmed[0] == 'v' || trimmed[0] == 'V' then trimmed[1..] else trimmed;
    var i := FirstSpace(isSpace, text);
    var dotted := ParseDotted(isSpace, text[..i], 4);
    if dotted.Err? {
      return Err(dotted.error);
    }
    r := Combine(isSpace, trimmed, dotted.value, Trim(isSpace, text[i..]));
  }

  method Combine(isSpace: char -> bool, raw: string, parts: seq<nat>, rest: string)
    returns (r: Result<GameVersion, Fault>)
    requires |parts| >= 2
    ensures r == Combined(isSpace, raw, parts, rest)
  {
    var rev: Option<nat> := None;
    if rest != "" {
      rev := ParseRev(isSpace, rest);
      if rev.None? {
        return Err(UnexpectedSuffix);
      }
    }
    var build := if |parts| > 2 then Some(parts[2]) else None;
    if |parts| > 3 {
      if rev.Some? {
        return Err(TooManyParts);
      }
      rev := Some(parts[3]);
    }
    return Ok(GameVersion(raw, parts[0], parts[1], build, rev));
  }

  // ---------------------------------------------------------------- printing

  function DottedText(major: nat, minor: nat, build: Option<nat>): string {
    Decimal(major) + "." + Decimal(minor) + (if build.Some? then "." + Decimal(build.value) else "")
  }

  function CanonicalText(major: nat, minor: nat, build: Option<nat>, rev: Option<nat>): string {
    DottedText(major, minor, build) + (if rev.Some? then " rev" + Decimal(rev.value) else "")
  }

  function CanonicalOf(v: GameVersion): string { CanonicalText(v.major, v.minor, v.build, v.rev) }

  /** Every number fits the machine width. */
  predicate InWidth(v: GameVersion) {
    v.major < LIMIT && v.minor < LIMIT && (v.build.Some? ==> v.build.value < LIMIT)
      && (v.rev.Some? ==> v.rev.value < LIMIT)
  }

  /** The canonical text: `major.minor`, then the build, then the revision, each when known. Under
      every reading of white space the parser gives the same four numbers back. */
  method Canonical(v: GameVersion) returns (s: string)
    ensures s == CanonicalOf(v)
    ensures InWidth(v) ==> forall isSpace :: SaneSpace(isSpace) ==> Parsed(isSpace, s) == Ok(v.(raw := s))
  {
    s := Decimal(v.major) + "." + Decimal(v.minor);
    if v.build.Some? {
      s := s + ("." + Decimal(v.build.value));
    } else {
      assert s + "" == s;
    }
    if v.rev.Some? {
      s := s + (" rev" + Decimal(v.rev.value));
    } else {
      assert s + "" == s;
    }
    if InWidth(v) {
      forall isSpace | SaneSpace(isSpace) ensures Parsed(isSpace, s) == Ok(v.(raw := s)) {
        CanonicalParses(isSpace, v.major, v.minor, v.build, v.rev);
      }
    }
  }

  // ---------------------------------------------------------------- the round trip

  /** What the text library's white space must satisfy. */
  ghost predicate SaneSpace(isSpace: char -> bool) {
    && isSpace(' ') && !isSpace('.') && !isSpace('r') && !isSpace('e') && !isSpace('v')
    && forall c :: Digit(c) ==> !isSpace(c)
  }

  lemma TrimKeeps(p: char -> bool, s: string)
    requires s != "" && !p(s[0]) && !p(s[|s| - 1])
    ensures Trim(p, s) == s
  {
  }

  lemma NumberReadBack(isSpace: char -> bool, n: nat)
    requires SaneSpace(isSpace) && n < LIMIT
    ensures ParseU32(isSpace, Decimal(n)) == Some(n)
  {
    var s := Decimal(n);
    assert Digit(s[0]) && Digit(s[|s| - 1]);
    TrimKeeps(isSpace, s);
    ValueOfDecimal(n);
  }

  /** A dotted text splits into the decimals it was made of. */
  lemma DottedSplits(major: nat, minor: nat, build: Option<nat>)
    ensures Split(DottedText(major, minor, build), '.') ==
            [Decimal(major), Decimal(minor)] + (if build.Some? then [Decimal(build.value)] else [])
  {
    TwoSplit(Decimal(major), Decimal(minor));
    if build.Some? {
      ThreeSplit(Decimal(major), Decimal(minor), Decimal(build.value));
    } else {
      assert DottedText(major, minor, build) == Decimal(major) + "." + Decimal(minor);
    }
  }

  lemma ThreeSplit(m: string, n: string, b: string)
    requires Digits(m) && Digits(n) && Digits(b)
    ensures Split(m + "." + n + ("." + b), '.') == [m, n] + [b]
  {
    TwoSplit(m, n);
    OneMore(m + "." + n, b);
  }

  /** One more part. */
  lemma OneMore(s: string, b: string)
    requires Digits(b)
    ensures Split(s + ("." + b), '.') == Split(s, '.') + [b]
  {
    NoDot(b);
    SplitWhole(b, '.');
    SplitAppend(s, b, '.');
    assert s + ("." + b) == s + ['.'] + b;
  }

  lemma TwoSplit(m: string, n: string)
    requires Digits(m) && Digits(n)
    ensures Split(m + "." + n, '.') == [m, n]
  {
    NoDot(m);
    NoDot(n);
    SplitWhole(m, '.');
    SplitWhole(n, '.');
    SplitAppend(m, n, '.');
    assert m + ['.'] + n == m + "." + n;
  }

  lemma NoDot(s: string)
    requires Digits(s)
    ensures '.' !in s
  {
  }

  lemma NumbersReadBack(isSpace: char -> bool, major: nat, minor: nat, build: Option<nat>)
    requires SaneSpace(isSpace) && major < LIMIT && minor < LIMIT && (build.Some? ==> build.value < LIMIT)
    ensures Dotted(isSpace, DottedText(major, minor, build), 4) ==
            Ok([major, minor] + (if build.Some? then [build.value] else []))
  {
    DottedSplits(major, minor, build);
    NumberReadBack(isSpace, major);
    NumberReadBack(isSpace, minor);
    var two := [Decimal(major)] + [Decimal(minor)];
    NumbersAppend(isSpace, [], Decimal(major), [], major);
    assert [] + [Decimal(major)] == [Decimal(major)] && [] + [major] == [major];
    NumbersAppend(isSpace, [Decimal(major)], Decimal(minor), [major], minor);
    assert [major] + [minor] == [major, minor];
    assert two == [Decimal(major), Decimal(minor)];
    if build.Some? {
      NumberReadBack(isSpace, build.value);
      NumbersAppend(isSpace, two, Decimal(build.value), [major, minor], build.value);
    } else {
      assert two + [] == two && [major, minor] + [] == [major, minor];
    }
  }

  lemma NumbersAppend(isSpace: char -> bool, pieces: seq<string>, piece: string, parts: seq<nat>, v: nat)
    requires Numbers(isSpace, pieces) == Some(parts) && ParseU32(isSpace, piece) == Some(v)
    ensures Numbers(isSpace, pieces + [piece]) == Some(parts + [v])
  {
    assert (pieces + [piece])[..|pieces|] == pieces;
  }

  lemma {:induction false} LoweredKeeps(s: string)
    requires forall i :: 0 <= i < |s| ==> !('A' <= s[i] <= 'Z')
    ensures Lowered(s) == s
  {
  }

  lemma RevReadBack(isSpace: char -> bool, n: nat)
    requires SaneSpace(isSpace) && n < LIMIT
    ensures ParseRev(isSpace, "rev" + Decimal(n)) == Some(n)
  {
    var d := Decimal(n);
    var s := "rev" + d;
    assert Digit(d[|d| - 1]) && s[|s| - 1] == d[|d| - 1] && s[0] == 'r';
    TrimKeeps(isSpace, s);
    TrimKeeps(Paren, s);
    RevLowered(d);
    assert s[..3] == "rev" && s[3..] == d;
    assert Digit(d[0]) && TrimStart(Separator, d) == d;
    NumberReadBack(isSpace, n);
  }

  lemma RevLowered(d: string)
    requires forall i :: 0 <= i < |d| ==> Digit(d[i])
    ensures Lowered("rev" + d) == "rev" + d
  {
    var s := "rev" + d;
    forall i | 0 <= i < |s| ensures !('A' <= s[i] <= 'Z') { if i >= 3 { assert s[i] == d[i - 3] && Digit(d[i - 3]); } }
    LoweredKeeps(s);
  }

  /** The dotted text is made of digits and dots and starts and ends with a digit. */
  lemma DottedChars(major: nat, minor: nat, build: Option<nat>)
    ensures var s := DottedText(major, minor, build);
            && s != "" && Digit(s[0]) && Digit(s[|s| - 1])
            && forall i :: 0 <= i < |s| ==> Digit(s[i]) || s[i] == '.'
  {
    var s := DottedText(major, minor, build);
    assert s[0] == Decimal(major)[0];
    if build.Some? {
      var b := Decimal(build.value);
      assert s == (Decimal(major) + "." + Decimal(minor) + ".") + b;
      assert s[|s| - 1] == b[|b| - 1];
    } else {
      var n := Decimal(minor);
      assert s == (Decimal(major) + ".") + n;
      assert s[|s| - 1] == n[|n| - 1];
    }
  }

  lemma {:induction false} SpaceAfter(isSpace: char -> bool, a: string, b: string)
    requires (forall i :: 0 <= i < |a| ==> !isSpace(a[i])) && (b == "" || isSpace(b[0]))
    ensures FirstSpace(isSpace, a + b) == |a|
    decreases |a|
  {
    if a == "" {
      assert a + b == b;
    } else {
      assert (a + b)[1..] == a[1..] + b;
      SpaceAfter(isSpace, a[1..], b);
    }
  }

  /** Parsing the canonical text gives the version back, for all numbers of the machine width and any
      combination of build and revision, a revision without a build included. */
  lemma CanonicalParses(isSpace: char -> bool, major: nat, minor: nat, build: Option<nat>, rev: Option<nat>)
    requires SaneSpace(isSpace) && major < LIMIT && minor < LIMIT
    requires (build.Some? ==> build.value < LIMIT) && (rev.Some? ==> rev.value < LIMIT)
    ensures var s := CanonicalText(major, minor, build, rev);
            Parsed(isSpace, s) == Ok(GameVersion(s, major, minor, build, rev))
  {
    var d := DottedText(major, minor, build);
    var tail := if rev.Some? then " rev" + Decimal(rev.value) else "";
    DottedChars(major, minor, build);
    assert CanonicalText(major, minor, build, rev) == d + tail;
    CanonicalEnds(d, rev);
    NumbersReadBack(isSpace, major, minor, build);
    SuffixReadBack(isSpace, rev);
    TextParses(isSpace, d, tail);
  }

  lemma SuffixReadBack(isSpace: char -> bool, rev: Option<nat>)
    requires SaneSpace(isSpace) && (rev.Some? ==> rev.value < LIMIT)
    ensures var rest := Trim(isSpace, if rev.Some? then " rev" + Decimal(rev.value) else "");
            if rev.Some? then rest != "" && ParseRev(isSpace, rest) == rev else rest == ""
  {
    if rev.Some? {
      TailTrims(isSpace, rev.value);
      RevReadBack(isSpace, rev.value);
    }
  }

  /** A text that starts with a digit and ends with one: the dotted part and the rest are cut at the
      first space. */
  lemma TextParses(isSpace: char -> bool, d: string, tail: string)
    requires SaneSpace(isSpace) && d != "" && Digit(d[0]) && Digit((d + tail)[|d + tail| - 1])
    requires (forall i :: 0 <= i < |d| ==> Digit(d[i]) || d[i] == '.') && (tail == "" || isSpace(tail[0]))
    ensures Parsed(isSpace, d + tail) ==
            match Dotted(isSpace, d, 4)
            case Err(fault) => Err(fault)
            case Ok(parts) => Combined(isSpace, d + tail, parts, Trim(isSpace, tail))
  {
    var s := d + tail;
    assert s[0] == d[0];
    TrimKeeps(isSpace, s);
    assert TrimStart(c => c == BOM, s) == s;
    SpaceAfter(isSpace, d, tail);
    assert s[..|d|] == d && s[|d|..] == tail;
  }

  lemma CanonicalEnds(d: string, rev: Option<nat>)
    requires d != "" && Digit(d[|d| - 1])
    ensures var s := d + (if rev.Some? then " rev" + Decimal(rev.value) else ""); s != "" && Digit(s[|s| - 1])
  {
    if rev.Some? {
      var r := Decimal(rev.value);
      assert d + (" rev" + r) == (d + " rev") + r;
    } else {
      assert d + "" == d;
    }
  }

  lemma TailTrims(isSpace: char -> bool, n: nat)
    requires SaneSpace(isSpace)
    ensures Trim(isSpace, " rev" + Decimal(n)) == "rev" + Decimal(n)
  {
    var d := Decimal(n);
    var s := "rev" + d;
    assert (" rev" + d)[1..] == s && s[0] == 'r';
    assert TrimStart(isSpace, s) == s;
    assert TrimStart(isSpace, " rev" + d) == s;
    assert s[|s| - 1] == d[|d| - 1] && Digit(d[|d| - 1]);
  }

  // ---------------------------------------------------------------- what the parser accepts

  lemma {:induction false} NumbersInWidth(isSpace: char -> bool, pieces: seq<string>)
    requires Numbers(isSpace, pieces).Some?
    ensures forall i :: 0 <= i < |Numbers(isSpace, pieces).value| ==> Numbers(isSpace, pieces).value[i] < LIMIT
    decreases |pieces|
  {
    if pieces != [] { NumbersInWidth(isSpace, pieces[..|pieces| - 1]); }
  }

  /** Whatever text the parser accepts, however loosely written, its numbers fit the machine width and
      its canonical text is accepted again with the same four numbers. */
  lemma AcceptedReparses(isSpace: char -> bool, input: string)
    requires SaneSpace(isSpace) && Parsed(isSpace, input).Ok?
    ensures var v := Parsed(isSpace, input).value;
            InWidth(v) && Parsed(isSpace, CanonicalOf(v)) == Ok(v.(raw := CanonicalOf(v)))
  {
    var trimmed := Trim(isSpace, TrimStart(c => c == BOM, input));
    var text := if trimmed[0] == 'v' || trimmed[0] == 'V' then trimmed[1..] else trimmed;
    NumbersInWidth(isSpace, Split(text[..FirstSpace(isSpace, text)], '.'));
    var v := Parsed(isSpace, input).value;
    CanonicalParses(isSpace, v.major, v.minor, v.build, v.rev);
  }

  // ---------------------------------------------------------------- looser texts

  /** The text is accepted with these numbers. */
  ghost predicate Reads(isSpace: char -> bool, text: string, major: nat, minor: nat, build: Option<nat>,
                        rev: Option<nat>)
  {
    Parsed(isSpace, text) == Ok(GameVersion(text, major, minor, build, rev))
  }

  /** White space as the text library has it, also where only the looser forms ask. */
  ghost predicate LooseSpace(isSpace: char -> bool) {
    SaneSpace(isSpace) && !isSpace('V') && !isSpace('(') && !isSpace(')') && !isSpace(BOM)
  }

  /** A text with or without a leading `v` is cut at the first space. */
  lemma PrefixParses(isSpace: char -> bool, prefix: string, d: string, tail: string)
    requires LooseSpace(isSpace) && (prefix == "" || prefix == "v" || prefix == "V")
    requires d != "" && Digit(d[0]) && (forall i :: 0 <= i < |d| ==> Digit(d[i]) || d[i] == '.')
    requires (tail == "" || isSpace(tail[0])) && !isSpace((d + tail)[|d + tail| - 1])
    ensures Parsed(isSpace, prefix + (d + tail)) ==
            match Dotted(isSpace, d, 4)
            case Err(fault) => Err(fault)
            case Ok(parts) => Combined(isSpace, prefix + (d + tail), parts, Trim(isSpace, tail))
  {
    var rest := d + tail;
    var s := prefix + rest;
    assert rest[0] == d[0];
    assert s[|s| - 1] == rest[|rest| - 1] && (s[0] == 'v' || s[0] == 'V' || s[0] == d[0]);
    TrimKeeps(isSpace, s);
    assert TrimStart(c => c == BOM, s) == s;
    assert prefix != "" ==> s[1..] == rest;
    assert prefix == "" ==> s == rest;
    SpaceAfter(isSpace, d, tail);
    assert rest[..|d|] == d && rest[|d|..] == tail;
  }

  /** The dotted numbers, a revision text after them, and any prefix. */
  lemma LooseReads(isSpace: char -> bool, prefix: string, tail: string, major: nat, minor: nat, build: Option<nat>,
                   rev: Option<nat>)
    requires LooseSpace(isSpace) && (prefix == "" || prefix == "v" || prefix == "V")
    requires major < LIMIT && minor < LIMIT && (build.Some? ==> build.value < LIMIT)
    requires tail == "" || (isSpace(tail[0]) && !isSpace(tail[|tail| - 1]))
    requires var rest := Trim(isSpace, tail);
             if rev.Some? then rest != "" && ParseRev(isSpace, rest) == rev else rest == ""
    ensures Reads(isSpace, prefix + (DottedText(major, minor, build) + tail), major, minor, build, rev)
  {
    var d := DottedText(major, minor, build);
    DottedChars(major, minor, build);
    assert tail == "" ==> d + tail == d;
    assert tail != "" ==> (d + tail)[|d + tail| - 1] == tail[|tail| - 1];
    PrefixParses(isSpace, prefix, d, tail);
    NumbersReadBack(isSpace, major, minor, build);
  }

  lemma SpaceTrimmed(isSpace: char -> bool, s: string)
    requires isSpace(' ') && s != "" && !isSpace(s[0]) && !isSpace(s[|s| - 1])
    ensures Trim(isSpace, " " + s) == s
  {
    assert (" " + s)[1..] == s;
    assert TrimStart(isSpace, " " + s) == TrimStart(isSpace, s) == s;
  }

  lemma SpacedRead(isSpace: char -> bool, n: nat)
    requires LooseSpace(isSpace) && n < LIMIT
    ensures ParseRev(isSpace, "rev " + Decimal(n)) == Some(n)
  {
    var d := Decimal(n);
    var s := "rev " + d;
    assert s[|s| - 1] == d[|d| - 1] && Digit(d[|d| - 1]) && s[0] == 'r';
    TrimKeeps(isSpace, s);
    TrimKeeps(Paren, s);
    SmallLetters(s, d);
    assert s[..3] == "rev" && s[3..] == " " + d;
    SeparatorGone(d);
    NumberReadBack(isSpace, n);
  }

  lemma SeparatorGone(d: string)
    requires d != "" && Digit(d[0])
    ensures TrimStart(Separator, " " + d) == d
  {
    assert (" " + d)[1..] == d && TrimStart(Separator, d) == d;
  }

  lemma SpacedRevision(isSpace: char -> bool, n: nat)
    requires LooseSpace(isSpace) && n < LIMIT
    ensures var tail := " rev " + Decimal(n);
            var rest := Trim(isSpace, tail);
            rest != "" && ParseRev(isSpace, rest) == Some(n) && isSpace(tail[0]) && !isSpace(tail[|tail| - 1])
  {
    var d := Decimal(n);
    var s := "rev " + d;
    assert " rev " + d == " " + s && Digit(d[|d| - 1]) && s[|s| - 1] == d[|d| - 1] && s[0] == 'r';
    SpaceTrimmed(isSpace, s);
    SpacedRead(isSpace, n);
  }

  lemma SmallLetters(s: string, d: string)
    requires s == "rev " + d && Digits(d)
    ensures Lowered(s) == s
  {
    forall i | 0 <= i < |s| ensures !('A' <= s[i] <= 'Z') { if i >= 4 { assert s[i] == d[i - 4] && Digit(d[i - 4]); } }
    LoweredKeeps(s);
  }

  lemma ParenTrimmed(s: string)
    requires s != "" && !Paren(s[0]) && !Paren(s[|s| - 1])
    ensures Trim(Paren, "(" + s + ")") == s
  {
    var t := s + ")";
    assert "(" + s + ")" == "(" + t && ("(" + t)[1..] == t && t[0] == s[0];
    assert TrimStart(Paren, "(" + t) == TrimStart(Paren, t) == t;
    assert t[..|t| - 1] == s;
    assert TrimEnd(Paren, t) == TrimEnd(Paren, s) == s;
  }

  lemma ParenRevision(isSpace: char -> bool, n: nat)
    requires LooseSpace(isSpace) && n < LIMIT
    ensures var tail := " (rev" + Decimal(n) + ")";
            var rest := Trim(isSpace, tail);
            rest != "" && ParseRev(isSpace, rest) == Some(n) && isSpace(tail[0]) && !isSpace(tail[|tail| - 1])
  {
    var d := Decimal(n);
    var s := "rev" + d;
    var p := "(" + s + ")";
    assert " (rev" + d + ")" == " " + p && p[0] == '(' && p[|p| - 1] == ')';
    SpaceTrimmed(isSpace, p);
    TrimKeeps(isSpace, p);
    assert Digit(d[|d| - 1]) && s[|s| - 1] == d[|d| - 1] && s[0] == 'r';
    ParenTrimmed(s);
    TrimKeeps(Paren, s);
    RevReadBack(isSpace, n);
  }

  predicate Numeric(s: string) {
    s != "" && Digit(s[0]) && Digit(s[|s| - 1]) && forall i :: 0 <= i < |s| ==> Digit(s[i]) || s[i] == '.'
  }

  lemma NumericMore(d: string, r: string)
    requires Numeric(d) && Digits(r) && r != ""
    ensures Numeric(d + ("." + r))
  {
    var four := d + ("." + r);
    assert four[0] == d[0] && four[|four| - 1] == r[|r| - 1];
    forall i | 0 <= i < |four| ensures Digit(four[i]) || four[i] == '.' {
      if i > |d| { assert four[i] == r[i - |d| - 1]; }
    }
  }

  /** The four number form reads its last number as the revision. */
  lemma FourNumbers(isSpace: char -> bool, major: nat, minor: nat, build: nat, rev: nat)
    requires LooseSpace(isSpace) && major < LIMIT && minor < LIMIT && build < LIMIT && rev < LIMIT
    ensures Reads(isSpace, DottedText(major, minor, Some(build)) + ("." + Decimal(rev)),
                  major, minor, Some(build), Some(rev))
  {
    var d := DottedText(major, minor, Some(build));
    DottedChars(major, minor, Some(build));
    NumericMore(d, Decimal(rev));
    FourParts(isSpace, major, minor, build, rev);
    NumericReads(isSpace, d + ("." + Decimal(rev)), [major, minor, build, rev]);
  }

  lemma NumericReads(isSpace: char -> bool, s: string, parts: seq<nat>)
    requires LooseSpace(isSpace) && Numeric(s) && |parts| == 4 && Dotted(isSpace, s, 4) == Ok(parts)
    ensures Reads(isSpace, s, parts[0], parts[1], Some(parts[2]), Some(parts[3]))
  {
    assert s + "" == s && "" + (s + "") == s;
    PrefixParses(isSpace, "", s, "");
  }

  lemma FourParts(isSpace: char -> bool, major: nat, minor: nat, build: nat, rev: nat)
    requires LooseSpace(isSpace) && major < LIMIT && minor < LIMIT && build < LIMIT && rev < LIMIT
    ensures Dotted(isSpace, DottedText(major, minor, Some(build)) + ("." + Decimal(rev)), 4) ==
            Ok([major, minor, build, rev])
  {
    var d := DottedText(major, minor, Some(build));
    NumbersReadBack(isSpace, major, minor, Some(build));
    OneMore(d, Decimal(rev));
    NumberReadBack(isSpace, rev);
    NumbersAppend(isSpace, Split(d, '.'), Decimal(rev), [major, minor] + [build], rev);
    assert [major, minor] + [build] + [rev] == [major, minor, build, rev];
  }

  /** Every documented variant reads as the same version, for all numbers of the machine width: a leading
      `v` or `V`, `rev 598`, `(rev598)`, and the four number form. */
  lemma LooseForms(isSpace: char -> bool, major: nat, minor: nat, build: Option<nat>, rev: Option<nat>)
    requires LooseSpace(isSpace) && InWidth(GameVersion("", major, minor, build, rev))
    ensures var canonical := CanonicalText(major, minor, build, rev);
            && Reads(isSpace, "v" + canonical, major, minor, build, rev)
            && Reads(isSpace, "V" + canonical, major, minor, build, rev)
    ensures var d := DottedText(major, minor, build);
            rev.Some? ==>
              && Reads(isSpace, d + (" rev " + Decimal(rev.value)), major, minor, build, rev)
              && Reads(isSpace, d + (" (rev" + Decimal(rev.value) + ")"), major, minor, build, rev)
              && (build.Some? ==> Reads(isSpace, d + ("." + Decimal(rev.value)), major, minor, build, rev))
  {
    PrefixForms(isSpace, major, minor, build, rev);
    if rev.Some? {
      SpacedRevision(isSpace, rev.value);
      LooseReads(isSpace, "", " rev " + Decimal(rev.value), major, minor, build, rev);
      ParenRevision(isSpace, rev.value);
      LooseReads(isSpace, "", " (rev" + Decimal(rev.value) + ")", major, minor, build, rev);
      NoPrefix(DottedText(major, minor, build) + (" rev " + Decimal(rev.value)));
      NoPrefix(DottedText(major, minor, build) + (" (rev" + Decimal(rev.value) + ")"));
      if build.Some? { FourNumbers(isSpace, major, minor, build.value, rev.value); }
    }
  }

  lemma NoPrefix(s: string)
    ensures "" + s == s
  {
  }

  lemma PrefixForms(isSpace: char -> bool, major: nat, minor: nat, build: Option<nat>, rev: Option<nat>)
    requires LooseSpace(isSpace) && InWidth(GameVersion("", major, minor, build, rev))
    ensures Reads(isSpace, "v" + CanonicalText(major, minor, build, rev), major, minor, build, rev)
    ensures Reads(isSpace, "V" + CanonicalText(major, minor, build, rev), major, minor, build, rev)
  {
    var tail := if rev.Some? then " rev" + Decimal(rev.value) else "";
    SuffixReadBack(isSpace, rev);
    if rev.Some? { assert tail[|tail| - 1] == Decimal(rev.value)[|Decimal(rev.value)| - 1]; }
    LooseReads(isSpace, "v", tail, major, minor, build, rev);
    LooseReads(isSpace, "V", tail, major, minor, build, rev);
  }

  lemma {:induction false} TrimStartAll(p: char -> bool, w: string, s: string)
    requires (forall i :: 0 <= i < |w| ==> p(w[i])) && (s == "" || !p(s[0]))
    ensures TrimStart(p, w + s) == s
    decreases |w|
  {
    if w == "" {
      assert w + s == s;
    } else {
      assert (w + s)[1..] == w[1..] + s;
      TrimStartAll(p, w[1..], s);
    }
  }

  lemma {:induction false} TrimEndAll(p: char -> bool, s: string, w: string)
    requires (forall i :: 0 <= i < |w| ==> p(w[i])) && (s == "" || !p(s[|s| - 1]))
    ensures TrimEnd(p, s + w) == s
    decreases |w|
  {
    if w == "" {
      assert s + w == s;
    } else {
      assert (s + w)[..|s + w| - 1] == s + w[..|w| - 1];
      TrimEndAll(p, s, w[..|w| - 1]);
    }
  }

  predicate AllOf(p: char -> bool, w: string) { forall i :: 0 <= i < |w| ==> p(w[i]) }

  /** Byte order marks before a text and white space around it change nothing. */
  lemma Framed(isSpace: char -> bool, marks: string, before: string, s: string, after: string)
    requires !isSpace(BOM) && s != "" && !isSpace(s[0]) && s[0] != BOM && !isSpace(s[|s| - 1])
    requires AllOf(c => c == BOM, marks) && AllOf(isSpace, before) && AllOf(isSpace, after)
    ensures Parsed(isSpace, marks + (before + (s + after))) == Parsed(isSpace, s)
  {
    var inner := before + (s + after);
    assert inner[0] != BOM by { if before != "" { assert isSpace(before[0]); } }
    TrimStartAll(c => c == BOM, marks, inner);
    TrimStartAll(isSpace, before, s + after);
    TrimEndAll(isSpace, s, after);
    assert TrimStart(c => c == BOM, s) == s;
    TrimKeeps(isSpace, s);
  }
}
