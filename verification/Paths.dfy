/** Lexical path identity and the check of the custom mod folders. White space, control characters and
    lower case are parameters. */
module Paths {
  import opened Wrappers
  import opened Texts

  // ---------------------------------------------------------------- normal form

  datatype Fault = Empty | ControlChar | Relative | EscapesRoot

  /** The character classes the host's text library supplies. */
  datatype Chars = Chars(isSpace: char -> bool, isControl: char -> bool)

  predicate Letter(c: char) { 'a' <= c <= 'z' || 'A' <= c <= 'Z' }

  ghost predicate Sane(chars: Chars) {
    && !chars.isSpace('/') && !chars.isControl('/')
    && forall c :: Letter(c) ==> !chars.isSpace(c)
  }

  predicate Drive(text: string) { |text| >= 2 && Letter(text[0]) && text[1] == ':' }

  function Slashed(s: string): (r: string)
    ensures |r| == |s| && forall i :: 0 <= i < |s| ==> r[i] == if s[i] == '\\' then '/' else s[i]
  {
    seq(|s|, i requires 0 <= i < |s| => if s[i] == '\\' then '/' else s[i])
  }

  predicate Begins(text: string, two: string) { text[..Min(2, |text|)] == two }

  /** The texts whose backslashes are turned into slashes. */
  predicate Converted(text: string) { Drive(text) || Begins(text, "\\\\") }

  /** The fixed front of the result and the text whose segments are walked. */
  function Front(text: string): Option<(string, string)> {
    var unified := if Converted(text) then Slashed(text) else text;
    if Drive(unified) then
      if |unified| > 2 && unified[2] == '/' then Some((unified[..2], unified[2..])) else None
    else if |unified| >= 2 && unified[..2] == "//" then Some(("/", unified))
    else if |unified| >= 1 && unified[0] == '/' then Some(("", unified))
    else None
  }

  function Min(a: nat, b: nat): nat { if a < b then a else b }

  predicate Plain(seg: string) { seg != "" && seg != "." && seg != ".." }

  /** The walk over the segments; none when it climbs above the root. */
  function Walk(segs: seq<string>): Option<seq<string>>
    decreases |segs|
  {
    if segs == [] then Some([])
    else
      var n := |segs| - 1;
      match Walk(segs[..n])
      case None => None
      case Some(stack) =>
        if Plain(segs[n]) then Some(stack + [segs[n]])
        else if segs[n] == ".." then (if stack == [] then None else Some(stack[..|stack| - 1]))
        else Some(stack)
  }

  function Joined(parts: seq<string>): string
    decreases |parts|
  {
    if parts == [] then "" else Joined(parts[..|parts| - 1]) + "/" + parts[|parts| - 1]
  }

  function Rendered(front: string, parts: seq<string>): string {
    front + (if parts == [] then "/" else Joined(parts))
  }

  predicate AnyControl(isControl: char -> bool, s: string) {
    exists i :: 0 <= i < |s| && isControl(s[i])
  }

  function Normal(chars: Chars, input: string): Result<string, Fault> {
    var text := TrimStart(chars.isSpace, input);
    if text == "" then Err(Empty)
    else if AnyControl(chars.isControl, text) then Err(ControlChar)
    else match Front(text)
         case None => Err(Relative)
         case Some((front, rest)) =>
           match Walk(Split(rest, '/'))
           case None => Err(EscapesRoot)
           case Some(parts) => Ok(Rendered(front, parts))
  }

  /** Normalises an absolute path text: a stack of segments over the text after its front. */
  method NormalizePath(chars: Chars, input: string) returns (r: Result<string, Fault>)
    ensures r == Normal(chars, input)
  {
    var text := TrimStart(chars.isSpace, input);
    if text == "" {
      return Err(Empty);
    }
    if AnyControl(chars.isControl, text) {
      return Err(ControlChar);
    }
    var front := Front(text);
    if front.None? {
      return Err(Relative);
    }
    var (prefix, rest) := front.value;
    var parts := WalkSegments(Split(rest, '/'));
    if parts.None? {
      return Err(EscapesRoot);
    }
    var out := Render(prefix, parts.value);
    r := Ok(out);
  }

  method WalkSegments(segs: seq<string>) returns (r: Option<seq<string>>)
    ensures r == Walk(segs)
  {
    var parts: seq<string> := [];
    for k := 0 to |segs|
      invariant Walk(segs[..k]) == Some(parts)
    {
      assert segs[..k + 1][..k] == segs[..k];
      var seg := segs[k];
      if seg == ".." {
        if parts == [] {
          Escaped(segs, k + 1);
          return None;
        }
        parts := parts[..|parts| - 1];
      } else if seg != "" && seg != "." {
        parts := parts + [seg];
      }
    }
    assert segs[..|segs|] == segs;
    r := Some(parts);
  }

  method Render(prefix: string, parts: seq<string>) returns (out: string)
    ensures out == Rendered(prefix, parts)
  {
    out := prefix;
    if parts == [] {
      out := out + "/";
    } else {
      assert parts[..0] == [];
      for k := 0 to |parts|
        invariant out == prefix + Joined(parts[..k])
      {
        assert parts[..k + 1][..k] == parts[..k];
        assert prefix + (Joined(parts[..k]) + "/" + parts[k]) == (out + "/") + parts[k];
        out := out + "/";
        out := out + parts[k];
      }
      assert parts[..|parts|] == parts;
    }
  }

  /** Once above the root, always above it. */
  lemma {:induction false} Escaped(segs: seq<string>, k: nat)
    requires k <= |segs| && Walk(segs[..k]) == None
    ensures Walk(segs) == None
    decreases |segs|
  {
    if k == |segs| {
      assert segs[..k] == segs;
    } else {
      assert segs[..|segs| - 1][..k] == segs[..k];
      Escaped(segs[..|segs| - 1], k);
    }
  }

  // ---------------------------------------------------------------- what the walk means

  function Gain(seg: string): int { if Plain(seg) then 1 else if seg == ".." then -1 else 0 }

  /** How many more names than `..` the segments have. */
  function Height(segs: seq<string>): int
    decreases |segs|
  {
    if segs == [] then 0 else Height(segs[..|segs| - 1]) + Gain(segs[|segs| - 1])
  }

  /** The walk succeeds exactly when no prefix of the segments has more `..` than names, and what is
      left has the remaining height. */
  lemma {:induction false} WalkIffNeverAbove(segs: seq<string>)
    ensures Walk(segs).Some? <==> forall k :: 0 <= k <= |segs| ==> Height(segs[..k]) >= 0
    ensures Walk(segs).Some? ==> |Walk(segs).value| == Height(segs)
    decreases |segs|
  {
    assert segs[..|segs|] == segs;
    if segs != [] {
      var n := |segs| - 1;
      WalkIffNeverAbove(segs[..n]);
      forall k | 0 <= k <= n ensures segs[..n][..k] == segs[..k] {}
      if Walk(segs).Some? {
        forall k | 0 <= k <= |segs| ensures Height(segs[..k]) >= 0 { if k <= n { assert segs[..n][..k] == segs[..k]; } }
      }
      if forall k :: 0 <= k <= |segs| ==> Height(segs[..k]) >= 0 {
        forall k | 0 <= k <= n ensures Height(segs[..n][..k]) >= 0 { assert segs[..n][..k] == segs[..k]; }
        assert Height(segs[..|segs|]) >= 0;
      }
    }
  }

  ghost predicate Clean(parts: seq<string>) {
    forall i :: 0 <= i < |parts| ==> Plain(parts[i]) && '/' !in parts[i]
  }

  lemma {:induction false} WalkClean(segs: seq<string>)
    requires Walk(segs).Some? && forall i :: 0 <= i < |segs| ==> '/' !in segs[i]
    ensures Clean(Walk(segs).value)
    ensures forall i :: 0 <= i < |Walk(segs).value| ==> Walk(segs).value[i] in segs
    decreases |segs|
  {
    if segs != [] {
      var n := |segs| - 1;
      WalkClean(segs[..n]);
      var before, parts := Walk(segs[..n]).value, Walk(segs).value;
      forall i | 0 <= i < |parts| ensures parts[i] in segs && Plain(parts[i]) && '/' !in parts[i] {
        if i < |before| { assert parts[i] == before[i] && before[i] in segs[..n]; } else { assert parts[i] == segs[n]; }
      }
    }
  }

  /** Clean segments come back from the rendered text. */
  lemma {:induction false} SplitJoined(parts: seq<string>)
    requires Clean(parts)
    ensures Split(Joined(parts), '/') == [""] + parts
    decreases |parts|
  {
    if parts != [] {
      var n := |parts| - 1;
      SplitJoined(parts[..n]);
      SplitAppend(Joined(parts[..n]), parts[n], '/');
      SplitWhole(parts[n], '/');
      assert [""] + parts[..n] + [parts[n]] == [""] + parts;
    }
  }

  lemma {:induction false} WalkOfClean(lead: seq<string>, parts: seq<string>)
    requires Clean(parts) && forall i :: 0 <= i < |lead| ==> lead[i] == ""
    ensures Walk(lead + parts) == Some(parts)
    decreases |lead| + |parts|
  {
    var segs := lead + parts;
    if parts != [] {
      var n := |parts| - 1;
      assert segs[..|segs| - 1] == lead + parts[..n];
      WalkOfClean(lead, parts[..n]);
      assert parts[..n] + [parts[n]] == parts;
    } else if lead != [] {
      assert segs == lead && segs[..|segs| - 1] == lead[..|lead| - 1] + [];
      WalkOfClean(lead[..|lead| - 1], []);
    } else {
      assert segs == [];
    }
  }

  function Tail(parts: seq<string>): string { if parts == [] then "/" else Joined(parts) }

  lemma {:induction false} JoinedStarts(parts: seq<string>)
    requires Clean(parts) && parts != []
    ensures |Joined(parts)| > 1 && Joined(parts)[0] == '/' && Joined(parts)[1] != '/'
    decreases |parts|
  {
    var n := |parts| - 1;
    if n > 0 { JoinedStarts(parts[..n]); } else { assert Joined(parts) == "" + "/" + parts[0]; }
  }

  lemma {:induction false} JoinedChars(parts: seq<string>, c: char)
    requires c in Joined(parts)
    ensures c == '/' || exists i :: 0 <= i < |parts| && c in parts[i]
    decreases |parts|
  {
    var n := |parts| - 1;
    if c in Joined(parts[..n]) {
      JoinedChars(parts[..n], c);
      if i :| 0 <= i < n && c in parts[..n][i] { assert c in parts[i]; }
    }
  }

  lemma {:induction false} SplitChars(s: string, c: char)
    ensures (exists i :: 0 <= i < |Split(s, '/')| && c in Split(s, '/')[i]) ==> c in s
    decreases |s|
  {
    if s != "" {
      SplitChars(s[1..], c);
      var pieces, rest := Split(s, '/'), Split(s[1..], '/');
      if i :| 0 <= i < |pieces| && c in pieces[i] {
        if s[0] == '/' { if i > 0 { assert pieces[i] == rest[i - 1]; } }
        else if i > 0 { assert pieces[i] == rest[i]; }
        else if c != s[0] { assert c in rest[0]; }
      }
    }
  }

  /** Where the walked text comes from. */
  lemma RenderedChars(front: string, rest: string, parts: seq<string>, c: char)
    requires Walk(Split(rest, '/')) == Some(parts) && c in Rendered(front, parts)
    ensures c in front || c == '/' || c in rest
  {
    var segs := Split(rest, '/');
    SplitFacts(rest, '/');
    WalkClean(segs);
    if c in Joined(parts) {
      JoinedChars(parts, c);
      if i :| 0 <= i < |parts| && c in parts[i] {
        assert parts[i] in segs;
        var j :| 0 <= j < |segs| && segs[j] == parts[i];
        SplitChars(rest, c);
      }
    }
  }

  lemma DriveAgain(front: string, parts: seq<string>)
    requires Clean(parts) && |front| == 2 && Drive(front) && '\\' !in Rendered(front, parts)
    ensures Front(Rendered(front, parts)) == Some((front, Tail(parts)))
  {
    var out := Rendered(front, parts);
    if parts != [] { JoinedStarts(parts); }
    assert out[..2] == front && out[2..] == Tail(parts);
    assert Slashed(out) == out;
  }

  lemma TailStarts(parts: seq<string>)
    requires Clean(parts)
    ensures |Tail(parts)| >= 1 && Tail(parts)[0] == '/' && (|Tail(parts)| >= 2 ==> Tail(parts)[1] != '/')
    ensures Rendered("", parts) == Tail(parts) && Rendered("/", parts) == "/" + Tail(parts)
  {
    if parts != [] { JoinedStarts(parts); }
  }

  lemma RootedFront(text: string)
    requires text != "" && text[0] == '/'
    ensures Front(text) == Some((if |text| >= 2 && text[1] == '/' then "/" else "", text))
  {
  }

  lemma SlashAgain(front: string, parts: seq<string>)
    requires Clean(parts) && (front == "" || front == "/")
    ensures Front(Rendered(front, parts)) == Some((front, Rendered(front, parts)))
  {
    TailStarts(parts);
    RootedFront(Rendered(front, parts));
  }

  /** A rendered path has the same front, and its walk gives the same segments. */
  lemma RenderedAgain(front: string, parts: seq<string>)
    requires Clean(parts) && (front == "" || front == "/" || (|front| == 2 && Drive(front)))
    requires |front| == 2 ==> '\\' !in Rendered(front, parts)
    ensures var out := Rendered(front, parts);
            && Front(out).Some? && Front(out).value.0 == front
            && Walk(Split(Front(out).value.1, '/')) == Some(parts)
  {
    if |front| == 2 {
      DriveAgain(front, parts);
      TailWalk(parts);
    } else {
      SlashAgain(front, parts);
      if front == "" {
        assert Rendered(front, parts) == Tail(parts);
        TailWalk(parts);
      } else {
        SlashTail(parts);
      }
    }
  }

  lemma TailWalk(parts: seq<string>)
    requires Clean(parts)
    ensures Walk(Split(Tail(parts), '/')) == Some(parts)
  {
    if parts == [] {
      assert Split("", '/') == [""];
      assert "/"[1..] == "";
      assert Split("/", '/') == [""] + [""];
      WalkOfClean(["", ""], []);
      assert ["", ""] + [] == ["", ""];
    } else {
      SplitJoined(parts);
      WalkOfClean([""], parts);
    }
  }

  lemma SlashTail(parts: seq<string>)
    requires Clean(parts)
    ensures Walk(Split("/" + Tail(parts), '/')) == Some(parts)
  {
    SplitAppend("", Tail(parts), '/');
    assert "" + "/" + Tail(parts) == "/" + Tail(parts);
    assert Split("", '/') == [""];
    if parts == [] {
      assert "/"[1..] == "";
      assert Split("/", '/') == [""] + [""];
      WalkOfClean(["", "", ""], []);
      assert [""] + ([""] + [""]) == ["", "", ""] + [];
    } else {
      SplitJoined(parts);
      WalkOfClean(["", ""], parts);
      assert [""] + ([""] + parts) == ["", ""] + parts;
    }
  }

  /** Every character of a normal form is one of the text or a slash; below a drive none is a backslash. */
  lemma NormalChars(text: string, front: string, rest: string, parts: seq<string>)
    requires Front(text) == Some((front, rest)) && Walk(Split(rest, '/')) == Some(parts)
    ensures forall c :: c in Rendered(front, parts) ==> c in text || c == '/'
    ensures |front| == 2 ==> '\\' !in Rendered(front, parts)
  {
    FrontFacts(text);
    forall c | c in Rendered(front, parts) ensures (c in text || c == '/') && (|front| == 2 ==> c != '\\') {
      RenderedChars(front, rest, parts, c);
      FrontChars(text, c);
    }
  }

  lemma NoControl(isControl: char -> bool, text: string, out: string)
    requires !AnyControl(isControl, text) && !isControl('/') && forall c :: c in out ==> c in text || c == '/'
    ensures !AnyControl(isControl, out)
  {
    forall i | 0 <= i < |out| ensures !isControl(out[i]) {
      assert out[i] in out;
      if out[i] in text { var j :| 0 <= j < |text| && text[j] == out[i]; }
    }
  }

  /** A normal form is its own normal form. */
  lemma NormalTwice(chars: Chars, input: string)
    requires Sane(chars) && Normal(chars, input).Ok?
    ensures Normal(chars, Normal(chars, input).value) == Normal(chars, input)
  {
    var text := TrimStart(chars.isSpace, input);
    var (front, rest) := Front(text).value;
    var parts := Walk(Split(rest, '/')).value;
    SplitFacts(rest, '/');
    WalkClean(Split(rest, '/'));
    FrontFacts(text);
    NormalChars(text, front, rest, parts);
    NoControl(chars.isControl, text, Rendered(front, parts));
    RenderedNormal(chars, front, parts);
  }

  /** A rendering of clean segments is its own normal form. */
  lemma RenderedNormal(chars: Chars, front: string, parts: seq<string>)
    requires Sane(chars) && Clean(parts) && (front == "" || front == "/" || (|front| == 2 && Drive(front)))
    requires |front| == 2 ==> '\\' !in Rendered(front, parts)
    requires !AnyControl(chars.isControl, Rendered(front, parts))
    ensures Normal(chars, Rendered(front, parts)) == Ok(Rendered(front, parts))
  {
    RenderedAgain(front, parts);
    FirstChar(front, parts);
    assert TrimStart(chars.isSpace, Rendered(front, parts)) == Rendered(front, parts);
  }

  lemma FirstChar(front: string, parts: seq<string>)
    requires Clean(parts) && (front == "" || front == "/" || (|front| == 2 && Drive(front)))
    ensures var out := Rendered(front, parts); out != "" && (out[0] == '/' || Letter(out[0]))
  {
    if parts != [] { JoinedStarts(parts); }
  }

  lemma FrontFacts(text: string)
    requires Front(text).Some?
    ensures var (front, rest) := Front(text).value;
            && (front == "" || front == "/" || (|front| == 2 && Drive(front)))
            && (Converted(text) ==> '\\' !in front && '\\' !in rest)
            && (|front| == 2 ==> Converted(text))
            && (!Converted(text) ==> rest == text)
  {
  }

  lemma FrontChars(text: string, c: char)
    requires Front(text).Some? && (c in Front(text).value.0 || c in Front(text).value.1)
    ensures c in text || c == '/'
  {
    var unified := if Converted(text) then Slashed(text) else text;
    if c in unified { var i :| 0 <= i < |unified| && unified[i] == c; assert text[i] in text; }
  }

  // ---------------------------------------------------------------- how two folders relate

  datatype Relation = Disjoint | Same | Inside | Contains

  predicate FoldsCase(path: string) { Drive(path) || (|path| >= 2 && path[..2] == "//") }

  function NonEmpty(pieces: seq<string>): seq<string> {
    if pieces == [] then [] else (if pieces[0] == "" then [] else [pieces[0]]) + NonEmpty(pieces[1..])
  }

  function Lowered(lower: string -> string, pieces: seq<string>): seq<string> {
    seq(|pieces|, i requires 0 <= i < |pieces| => lower(pieces[i]))
  }

  function Components(lower: string -> string, path: string): seq<string> {
    var pieces := NonEmpty(Split(path, '/'));
    if FoldsCase(path) then Lowered(lower, pieces) else pieces
  }

  function Common(a: seq<string>, b: seq<string>): nat {
    if a == [] || b == [] || a[0] != b[0] then 0 else 1 + Common(a[1..], b[1..])
  }

  function Relate(a: seq<string>, b: seq<string>): Relation {
    var common := Common(a, b);
    if common == |a| then (if common == |b| then Same else Contains)
    else if common == |b| then Inside
    else Disjoint
  }

  function PathRelation(lower: string -> string, a: string, b: string): Relation {
    Relate(Components(lower, a), Components(lower, b))
  }

  lemma {:induction false} CommonIsPrefix(a: seq<string>, b: seq<string>)
    ensures Common(a, b) <= |a| && Common(a, b) <= |b| && (Common(a, b) == |a| <==> a <= b)
            && (Common(a, b) == |b| <==> b <= a)
    decreases |a|
  {
    if a != [] && b != [] && a[0] == b[0] {
      CommonIsPrefix(a[1..], b[1..]);
      assert a == [a[0]] + a[1..] && b == [b[0]] + b[1..];
      if a <= b { assert a[1..] == b[1..|a|] == b[1..][..|a| - 1]; }
      if b <= a { assert b[1..] == a[1..|b|] == a[1..][..|b| - 1]; }
      if a[1..] <= b[1..] { assert b == [a[0]] + (a[1..] + b[|a|..]); }
      if b[1..] <= a[1..] { assert a == [b[0]] + (b[1..] + a[|b|..]); }
    }
  }

  /** The relation is prefix comparison of the components, and swapping the paths swaps it. */
  lemma RelationMeaning(a: seq<string>, b: seq<string>)
    ensures Relate(a, b) == (if a == b then Same else if a <= b then Contains else if b <= a then Inside else Disjoint)
    ensures Relate(b, a) == (match Relate(a, b) case Contains => Inside case Inside => Contains case r => r)
  {
    CommonIsPrefix(a, b);
    CommonIsPrefix(b, a);
    if a <= b && b <= a { assert a == b[..|a|] == b; }
  }

  /** How relations compose: `Same` is neutral, nesting goes through in both directions, what is inside
      one of two disjoint folders is disjoint from the other, and of two folders that hold a third one
      holds the other. */
  lemma RelationsCompose(a: seq<string>, b: seq<string>, c: seq<string>)
    ensures var r, q, p := Relate(a, b), Relate(b, c), Relate(a, c);
            && (r.Same? ==> p == q) && (q.Same? ==> p == r)
            && (r.Contains? && q.Contains? ==> p.Contains?)
            && (r.Inside? && q.Inside? ==> p.Inside?)
            && (r.Inside? && q.Disjoint? ==> p.Disjoint?)
            && (r.Disjoint? && q.Contains? ==> p.Disjoint?)
            && (r.Contains? && q.Inside? ==> !p.Disjoint?)
            && (r.Contains? && q.Disjoint? ==> p.Contains? || p.Disjoint?)
            && (r.Disjoint? && q.Inside? ==> p.Inside? || p.Disjoint?)
  {
    RelationMeaning(a, b);
    RelationMeaning(b, c);
    RelationMeaning(a, c);
    PrefixThrough(a, b, c);
    PrefixThrough(c, b, a);
    PrefixesNest(a, c, b);
    PrefixThrough(a, c, b);
    PrefixThrough(c, a, b);
    PrefixThrough(b, a, c);
    PrefixThrough(b, c, a);
    BothWays(a, c);
  }

  lemma BothWays(a: seq<string>, b: seq<string>)
    ensures a <= b && b <= a ==> a == b
  {
    if a <= b && b <= a { assert a == b[..|a|] == b; }
  }

  lemma PrefixThrough(a: seq<string>, b: seq<string>, c: seq<string>)
    ensures a <= b && b <= c ==> a <= c
  {
    if a <= b && b <= c { assert a == b[..|a|] == c[..|b|][..|a|] == c[..|a|]; }
  }

  lemma PrefixesNest(a: seq<string>, b: seq<string>, c: seq<string>)
    ensures a <= c && b <= c ==> a <= b || b <= a
  {
    if a <= c && b <= c {
      assert a == c[..|a|] && b == c[..|b|];
      if |a| <= |b| { assert c[..|b|][..|a|] == c[..|a|]; } else { assert c[..|a|][..|b|] == c[..|b|]; }
    }
  }

  // ---------------------------------------------------------------- custom mod folders

  const MIN_SCAN_DEPTH: nat := 1
  const MAX_SCAN_DEPTH: nat := 4

  datatype Folder = Folder(id: string, scanDepth: nat, path: string)

  datatype Problem =
    | IdNotCustom(at: nat)
    | DepthOutOfRange(at: nat)
    | BadPath(at: nat, fault: Fault)
    | DuplicateId(at: nat, of: nat)
    | Overlap(at: nat, of: nat, relation: Relation)

  predicate IsCustom(id: string) { |id| >= 3 && id[..3] == "cf_" }

  type Norm = Result<string, Fault>

  /** The normal form, or the fault, of every folder path. */
  function Norms(chars: Chars, folders: seq<Folder>): (norms: seq<Norm>)
    ensures |norms| == |folders| && forall i :: 0 <= i < |folders| ==> norms[i] == Normal(chars, folders[i].path)
  {
    seq(|folders|, i requires 0 <= i < |folders| => Normal(chars, folders[i].path))
  }

  /** Everything that is wrong with one entry on its own. */
  function OwnProblems(f: Folder, norm: Norm, i: nat): seq<Problem> {
    (if IsCustom(f.id) then [] else [IdNotCustom(i)])
    + (if MIN_SCAN_DEPTH <= f.scanDepth <= MAX_SCAN_DEPTH then [] else [DepthOutOfRange(i)])
    + (if norm.Ok? then [] else [BadPath(i, norm.error)])
  }

  /** Everything that is wrong between two entries. */
  function PairProblems(lower: string -> string, a: Folder, b: Folder, na: Norm, nb: Norm, i: nat, j: nat)
    : seq<Problem>
  {
    (if a.id == b.id then [DuplicateId(j, i)] else [])
    + (if na.Ok? && nb.Ok? && !PathRelation(lower, na.value, nb.value).Disjoint?
       then [Overlap(j, i, PathRelation(lower, na.value, nb.value))] else [])
  }

  /** The problems of entry `i` with the entries from `i + 1` up to `j`. */
  function RowProblems(lower: string -> string, folders: seq<Folder>, norms: seq<Norm>, i: nat, j: nat): seq<Problem>
    requires i < |folders| == |norms| && i < j <= |folders|
    decreases j
  {
    if j == i + 1 then []
    else
      RowProblems(lower, folders, norms, i, j - 1)
      + PairProblems(lower, folders[i], folders[j - 1], norms[i], norms[j - 1], i, j - 1)
  }

  function AllPairs(lower: string -> string, folders: seq<Folder>, norms: seq<Norm>, n: nat): seq<Problem>
    requires n <= |folders| == |norms|
  {
    if n == 0 then [] else AllPairs(lower, folders, norms, n - 1) + RowProblems(lower, folders, norms, n - 1, |folders|)
  }

  function AllOwn(folders: seq<Folder>, norms: seq<Norm>, n: nat): seq<Problem>
    requires n <= |folders| == |norms|
  {
    if n == 0 then [] else AllOwn(folders, norms, n - 1) + OwnProblems(folders[n - 1], norms[n - 1], n - 1)
  }

  function Problems(lower: string -> string, folders: seq<Folder>, norms: seq<Norm>): seq<Problem>
    requires |folders| == |norms|
  {
    AllOwn(folders, norms, |folders|) + AllPairs(lower, folders, norms, |folders|)
  }

  /** Checks a list of custom folders: every entry, then every pair of entries. */
  method ValidateCustomFolders(chars: Chars, lower: string -> string, folders: seq<Folder>) returns (out: seq<Problem>)
    ensures out == Problems(lower, folders, Norms(chars, folders))
  {
    var own, normalised := ValidateEach(chars, folders, Norms(chars, folders));
    var pairs := ValidatePairs(lower, folders, normalised, Norms(chars, folders));
    out := own + pairs;
  }

  method ValidatePairs(lower: string -> string, folders: seq<Folder>, normalised: seq<Option<string>>,
                       ghost norms: seq<Norm>)
    returns (out: seq<Problem>)
    requires |folders| == |normalised| == |norms|
    requires forall k :: 0 <= k < |folders| ==> Kept(norms[k], normalised[k])
    ensures out == AllPairs(lower, folders, norms, |folders|)
  {
    out := [];
    for i := 0 to |folders|
      invariant out == AllPairs(lower, folders, norms, i)
    {
      var row := ValidateRow(lower, folders, normalised, i, norms);
      out := out + row;
    }
  }

  ghost predicate Kept(norm: Norm, n: Option<string>) {
    n == if norm.Ok? then Some(norm.value) else None
  }

  method ValidateEach(chars: Chars, folders: seq<Folder>, ghost norms: seq<Norm>)
    returns (out: seq<Problem>, normalised: seq<Option<string>>)
    requires |norms| == |folders| && forall i :: 0 <= i < |folders| ==> norms[i] == Normal(chars, folders[i].path)
    ensures out == AllOwn(folders, norms, |folders|)
    ensures |normalised| == |folders| && forall k :: 0 <= k < |folders| ==> Kept(norms[k], normalised[k])
  {
    out, normalised := [], [];
    for i := 0 to |folders|
      invariant out == AllOwn(folders, norms, i)
      invariant |normalised| == i && forall k :: 0 <= k < i ==> Kept(norms[k], normalised[k])
    {
      var mine, n := ValidateOne(chars, folders[i], i, norms[i]);
      out, normalised := out + mine, normalised + [n];
    }
  }

  method ValidateOne(chars: Chars, f: Folder, i: nat, ghost norm: Norm) returns (mine: seq<Problem>, n: Option<string>)
    requires norm == Normal(chars, f.path)
    ensures mine == OwnProblems(f, norm, i) && Kept(norm, n)
  {
    mine := [];
    if !IsCustom(f.id) {
      mine := mine + [IdNotCustom(i)];
    }
    if !(MIN_SCAN_DEPTH <= f.scanDepth <= MAX_SCAN_DEPTH) {
      mine := mine + [DepthOutOfRange(i)];
    }
    var path := NormalizePath(chars, f.path);
    match path {
      case Ok(p) => n := Some(p);
      case Err(fault) =>
        mine := mine + [BadPath(i, fault)];
        n := None;
    }
  }

  method ValidateRow(lower: string -> string, folders: seq<Folder>, normalised: seq<Option<string>>, i: nat,
                     ghost norms: seq<Norm>)
    returns (row: seq<Problem>)
    requires i < |folders| == |normalised| == |norms|
    requires forall k :: 0 <= k < |folders| ==> Kept(norms[k], normalised[k])
    ensures row == RowProblems(lower, folders, norms, i, |folders|)
  {
    row := [];
    for j := i + 1 to |folders|
      invariant row == RowProblems(lower, folders, norms, i, j)
    {
      var pair := ValidatePair(lower, folders[i], folders[j], normalised[i], normalised[j], i, j, norms[i], norms[j]);
      row := row + pair;
    }
  }

  method ValidatePair(lower: string -> string, a: Folder, b: Folder, pa: Option<string>, pb: Option<string>, i: nat,
                      j: nat,
                      ghost na: Norm, ghost nb: Norm)
    returns (pair: seq<Problem>)
    requires Kept(na, pa) && Kept(nb, pb)
    ensures pair == PairProblems(lower, a, b, na, nb, i, j)
  {
    pair := [];
    if a.id == b.id {
      pair := pair + [DuplicateId(j, i)];
    }
    if pa.Some? && pb.Some? {
      var relation := PathRelation(lower, pa.value, pb.value);
      if !relation.Disjoint? {
        pair := pair + [Overlap(j, i, relation)];
      }
    }
  }

  /** An entry that is valid on its own. */
  ghost predicate ValidFolder(f: Folder, norm: Norm) {
    IsCustom(f.id) && MIN_SCAN_DEPTH <= f.scanDepth <= MAX_SCAN_DEPTH && norm.Ok?
  }

  /** Two entries that go together. */
  ghost predicate Apart(lower: string -> string, a: Folder, b: Folder, na: Norm, nb: Norm) {
    a.id != b.id && (na.Ok? && nb.Ok? ==> PathRelation(lower, na.value, nb.value).Disjoint?)
  }

  /** What a valid list is: valid entries, distinct ids, pairwise disjoint folders. */
  ghost predicate ValidFolders(lower: string -> string, folders: seq<Folder>, norms: seq<Norm>)
    requires |folders| == |norms|
  {
    && (forall i :: 0 <= i < |folders| ==> ValidFolder(folders[i], norms[i]))
    && (forall i, j :: 0 <= i < j < |folders| ==> Apart(lower, folders[i], folders[j], norms[i], norms[j]))
  }

  lemma {:induction false} NoOwn(folders: seq<Folder>, norms: seq<Norm>, n: nat)
    requires n <= |folders| == |norms|
    ensures AllOwn(folders, norms, n) == [] <==> forall i :: 0 <= i < n ==> ValidFolder(folders[i], norms[i])
  {
    if n > 0 {
      NoOwn(folders, norms, n - 1);
      assert OwnProblems(folders[n - 1], norms[n - 1], n - 1) == [] <==> ValidFolder(folders[n - 1], norms[n - 1]);
    }
  }

  lemma PairSilent(lower: string -> string, a: Folder, b: Folder, na: Norm, nb: Norm, i: nat, j: nat)
    ensures PairProblems(lower, a, b, na, nb, i, j) == [] <==> Apart(lower, a, b, na, nb)
  {
  }

  lemma {:induction false} NoRow(lower: string -> string, folders: seq<Folder>, norms: seq<Norm>, i: nat, j: nat)
    requires i < |folders| == |norms| && i < j <= |folders|
    ensures RowProblems(lower, folders, norms, i, j) == [] <==>
            forall k :: i < k < j ==> Apart(lower, folders[i], folders[k], norms[i], norms[k])
    decreases j
  {
    if j > i + 1 {
      NoRow(lower, folders, norms, i, j - 1);
      PairSilent(lower, folders[i], folders[j - 1], norms[i], norms[j - 1], i, j - 1);
      BothEmpty(RowProblems(lower, folders, norms, i, j - 1),
                PairProblems(lower, folders[i], folders[j - 1], norms[i], norms[j - 1], i, j - 1));
      assert RowProblems(lower, folders, norms, i, j) == [] <==>
        (forall k :: i < k < j - 1 ==> Apart(lower, folders[i], folders[k], norms[i], norms[k]))
        && Apart(lower, folders[i], folders[j - 1], norms[i], norms[j - 1]);
    }
  }

  ghost predicate RowApart(lower: string -> string, folders: seq<Folder>, norms: seq<Norm>, i: nat)
    requires i < |folders| == |norms|
  {
    forall k :: i < k < |folders| ==> Apart(lower, folders[i], folders[k], norms[i], norms[k])
  }

  lemma {:induction false} NoPairs(lower: string -> string, folders: seq<Folder>, norms: seq<Norm>, n: nat)
    requires n <= |folders| == |norms|
    ensures AllPairs(lower, folders, norms, n) == [] <==> forall i :: 0 <= i < n ==> RowApart(lower, folders, norms, i)
  {
    if n > 0 {
      NoPairs(lower, folders, norms, n - 1);
      RowSilent(lower, folders, norms, n - 1);
      BothEmpty(AllPairs(lower, folders, norms, n - 1), RowProblems(lower, folders, norms, n - 1, |folders|));
      assert AllPairs(lower, folders, norms, n) == [] <==>
        (forall i :: 0 <= i < n - 1 ==> RowApart(lower, folders, norms, i)) && RowApart(lower, folders, norms, n - 1);
    }
  }

  lemma BothEmpty(a: seq<Problem>, b: seq<Problem>)
    ensures a + b == [] <==> a == [] && b == []
  {
    assert |a + b| == |a| + |b|;
  }

  lemma RowSilent(lower: string -> string, folders: seq<Folder>, norms: seq<Norm>, i: nat)
    requires i < |folders| == |norms|
    ensures RowProblems(lower, folders, norms, i, |folders|) == [] <==> RowApart(lower, folders, norms, i)
  {
    NoRow(lower, folders, norms, i, |folders|);
  }

  /** The check is silent exactly for the valid lists. */
  lemma SilentIffValid(lower: string -> string, folders: seq<Folder>, norms: seq<Norm>)
    requires |folders| == |norms|
    ensures Problems(lower, folders, norms) == [] <==> ValidFolders(lower, folders, norms)
  {
    NoOwn(folders, norms, |folders|);
    NoPairs(lower, folders, norms, |folders|);
    if ValidFolders(lower, folders, norms) {
      forall i | 0 <= i < |folders| ensures RowApart(lower, folders, norms, i) {}
    }
    if forall i :: 0 <= i < |folders| ==> RowApart(lower, folders, norms, i) {
      forall i, j | 0 <= i < j < |folders| ensures Apart(lower, folders[i], folders[j], norms[i], norms[j]) {
        assert RowApart(lower, folders, norms, i);
      }
    }
  }
}
