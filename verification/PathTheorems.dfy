/** What normal forms and their relation promise, and exactly when they keep it. */
module PathTheorems {
  import opened Wrappers
  import opened Texts
  import opened Paths

  // ---------------------------------------------------------------- the parts of a normal form

  ghost predicate Formed(front: string, parts: seq<string>) {
    Clean(parts) && (front == "" || front == "/" || (|front| == 2 && Drive(front)))
  }

  function FrontOf(chars: Chars, input: string): string
    requires Normal(chars, input).Ok?
  {
    Front(TrimStart(chars.isSpace, input)).value.0
  }

  function SegmentsOf(chars: Chars, input: string): seq<string>
    requires Normal(chars, input).Ok?
  {
    Walk(Split(Front(TrimStart(chars.isSpace, input)).value.1, '/')).value
  }

  /** Every normal form is a front and clean segments. */
  lemma NormalFormed(chars: Chars, input: string)
    requires Normal(chars, input).Ok?
    ensures Formed(FrontOf(chars, input), SegmentsOf(chars, input))
    ensures Normal(chars, input) == Ok(Rendered(FrontOf(chars, input), SegmentsOf(chars, input)))
  {
    var text := TrimStart(chars.isSpace, input);
    var rest := Front(text).value.1;
    SplitFacts(rest, '/');
    WalkClean(Split(rest, '/'));
    FrontFacts(text);
  }

  // ---------------------------------------------------------------- backslashes

  /** A drive letter or a UNC prefix. */
  predicate WindowsStyle(text: string) { Converted(text) || Begins(text, "//") }

  /** Segment `i` is still on the stack at the end: from it on there are always more names than `..`. */
  predicate Survives(segs: seq<string>, i: nat) {
    i < |segs| && Plain(segs[i]) && forall k :: i < k <= |segs| ==> Height(segs[i..k]) > 0
  }

  /** The places of the segments on the stack. */
  function Places(segs: seq<string>): seq<nat>
    decreases |segs|
  {
    if segs == [] then []
    else
      var n := |segs| - 1;
      var before := Places(segs[..n]);
      if Plain(segs[n]) then before + [n]
      else if segs[n] == ".." && before != [] then before[..|before| - 1]
      else before
  }

  /** The stack at place `m` has `|stack| - m` more names than `..` from there on. */
  ghost predicate Stacked(segs: seq<string>, places: seq<nat>, m: nat)
    requires m < |places|
  {
    places[m] < |segs| && Height(segs[places[m]..]) == |places| - m
  }

  lemma HeightMore(segs: seq<string>, i: nat)
    requires i < |segs|
    ensures Height(segs[i..]) == Height(segs[..|segs| - 1][i..]) + Gain(segs[|segs| - 1])
  {
    var tail := segs[i..];
    assert tail[..|tail| - 1] == segs[..|segs| - 1][i..];
  }

  lemma StackedMore(segs: seq<string>, before: seq<nat>, places: seq<nat>, m: nat)
    requires segs != [] && m < |before| && m < |places| && places[m] == before[m]
    requires Stacked(segs[..|segs| - 1], before, m) && |places| == |before| + Gain(segs[|segs| - 1])
    ensures Stacked(segs, places, m)
  {
    HeightMore(segs, places[m]);
  }

  lemma StackedNew(segs: seq<string>, places: seq<nat>)
    requires segs != [] && Plain(segs[|segs| - 1]) && places != [] && places[|places| - 1] == |segs| - 1
    ensures Stacked(segs, places, |places| - 1)
  {
    HeightMore(segs, |segs| - 1);
    assert segs[..|segs| - 1][|segs| - 1..] == [];
  }

  lemma {:induction false} PlacesFacts(segs: seq<string>)
    requires Walk(segs).Some?
    ensures |Places(segs)| == |Walk(segs).value|
    ensures forall m :: 0 <= m < |Places(segs)| ==>
            Stacked(segs, Places(segs), m) && segs[Places(segs)[m]] == Walk(segs).value[m]
    decreases |segs|
  {
    if segs != [] {
      PlacesFacts(segs[..|segs| - 1]);
      PlacesPushed(segs, Places(segs[..|segs| - 1]), Places(segs), Walk(segs[..|segs| - 1]).value, Walk(segs).value);
    }
  }

  lemma PlacesPushed(segs: seq<string>, before: seq<nat>, places: seq<nat>, left: seq<string>, stack: seq<string>)
    requires segs != [] && |before| == |left| && (segs[|segs| - 1] == ".." ==> left != [])
    requires var last := segs[|segs| - 1];
             && places == (if Plain(last) then before + [|segs| - 1]
                           else if last == ".." then before[..|before| - 1] else before)
             && stack == (if Plain(last) then left + [last] else if last == ".." then left[..|left| - 1] else left)
    requires forall m :: 0 <= m < |before| ==>
             Stacked(segs[..|segs| - 1], before, m) && segs[..|segs| - 1][before[m]] == left[m]
    ensures |places| == |stack| && forall m :: 0 <= m < |places| ==>
            Stacked(segs, places, m) && segs[places[m]] == stack[m]
  {
    forall m | 0 <= m < |places| ensures Stacked(segs, places, m) && segs[places[m]] == stack[m] {
      if m < |before| {
        assert Stacked(segs[..|segs| - 1], before, m);
        StackedMore(segs, before, places, m);
      } else {
        StackedNew(segs, places);
      }
    }
  }

  predicate Placed(places: seq<nat>, i: nat) { exists m :: 0 <= m < |places| && places[m] == i }

  lemma SurvivesShorter(segs: seq<string>, i: nat)
    requires segs != []
    ensures Survives(segs, i) <==>
            if i < |segs| - 1 then Survives(segs[..|segs| - 1], i) && Height(segs[i..]) > 0
            else i == |segs| - 1 && Plain(segs[i])
  {
    var n := |segs| - 1;
    if i < n {
      forall k | i < k <= n ensures segs[..n][i..k] == segs[i..k] {}
      assert segs[i..|segs|] == segs[i..];
      if Survives(segs[..n], i) && Height(segs[i..]) > 0 {
        forall k | i < k <= |segs| ensures Height(segs[i..k]) > 0 {
          if k <= n { assert Height(segs[..n][i..k]) > 0; }
        }
      }
      if Survives(segs, i) {
        forall k | i < k <= n ensures Height(segs[..n][i..k]) > 0 { assert Height(segs[i..k]) > 0; }
        assert Height(segs[i..|segs|]) > 0;
      }
    } else if i == n {
      assert [segs[n]][..0] == [] && (Plain(segs[n]) ==> Height([segs[n]]) == 1);
      forall k | n < k <= |segs| ensures segs[n..k] == [segs[n]] {}
    }
  }

  /** One push, pop or neither, seen from a place that has `h` more names than `..` after it. */
  lemma StackStep(before: seq<nat>, places: seq<nat>, n: nat, gain: int, i: nat, h: int)
    requires forall m :: 0 <= m < |before| && before[m] == i ==> h == |before| - m
    requires i != n && -1 <= gain <= 1 && (gain == -1 ==> before != [])
    requires places == if gain == 1 then before + [n] else if gain == -1 then before[..|before| - 1] else before
    ensures Placed(places, i) <==> Placed(before, i) && h + gain > 0
  {
    if Placed(places, i) {
      var k :| 0 <= k < |places| && places[k] == i;
      assert before[k] == i;
    }
    if Placed(before, i) {
      var m :| 0 <= m < |before| && before[m] == i;
      if m < |places| { assert places[m] == i; }
    }
  }

  lemma PlacesMore(segs: seq<string>)
    requires segs != [] && Walk(segs).Some?
    ensures var n := |segs| - 1;
            var before, gain := Places(segs[..n]), Gain(segs[n]);
            && Walk(segs[..n]).Some? && (gain == -1 ==> before != [])
            && Places(segs) == if gain == 1 then before + [n] else if gain == -1 then before[..|before| - 1] else before
  {
    PlacesFacts(segs[..|segs| - 1]);
  }

  lemma PlaceHeights(segs: seq<string>, places: seq<nat>, i: nat)
    requires Walk(segs).Some? && i <= |segs| && places == Places(segs)
    ensures forall m :: 0 <= m < |places| && places[m] == i ==> Height(segs[i..]) == |places| - m
  {
    PlacesFacts(segs);
    forall m | 0 <= m < |places| && places[m] == i ensures Height(segs[i..]) == |places| - m {
      assert Stacked(segs, places, m);
    }
  }

  /** An earlier segment stays on the stack exactly while it has more names than `..` after it. */
  lemma PlacesStep(segs: seq<string>, before: seq<nat>, places: seq<nat>, i: nat)
    requires segs != [] && i < |segs| - 1
    requires forall m :: 0 <= m < |before| && before[m] == i ==> Height(segs[..|segs| - 1][i..]) == |before| - m
    requires var gain := Gain(segs[|segs| - 1]);
             && (gain == -1 ==> before != [])
             && places == if gain == 1 then before + [|segs| - 1]
                          else if gain == -1 then before[..|before| - 1] else before
    ensures Placed(places, i) <==> Placed(before, i) && Height(segs[i..]) > 0
  {
    HeightMore(segs, i);
    StackStep(before, places, |segs| - 1, Gain(segs[|segs| - 1]), i, Height(segs[..|segs| - 1][i..]));
  }

  /** The walk leaves exactly the segments that survive. */
  lemma {:induction false} PlacesSurvive(segs: seq<string>, i: nat)
    requires Walk(segs).Some?
    ensures Placed(Places(segs), i) <==> Survives(segs, i)
    decreases |segs|
  {
    if segs != [] {
      var n := |segs| - 1;
      SurvivesShorter(segs, i);
      if i < n {
        PlacesMore(segs);
        PlaceHeights(segs[..n], Places(segs[..n]), i);
        PlacesStep(segs, Places(segs[..n]), Places(segs), i);
        PlacesSurvive(segs[..n], i);
      } else {
        LastPlaced(segs, i);
      }
    }
  }

  lemma LastPlaced(segs: seq<string>, i: nat)
    requires segs != [] && Walk(segs).Some? && i >= |segs| - 1
    ensures Placed(Places(segs), i) <==> i == |segs| - 1 && Plain(segs[i])
  {
    var n := |segs| - 1;
    var before := Places(segs[..n]);
    PlacesMore(segs);
    PlacesFacts(segs[..n]);
    forall m | 0 <= m < |before| ensures before[m] < n { assert Stacked(segs[..n], before, m); }
    LastStep(before, Places(segs), n, Gain(segs[n]), i);
  }

  lemma LastStep(before: seq<nat>, places: seq<nat>, n: nat, gain: int, i: nat)
    requires (forall m :: 0 <= m < |before| ==> before[m] < n) && i >= n && (gain == -1 ==> before != [])
    requires places == if gain == 1 then before + [n] else if gain == -1 then before[..|before| - 1] else before
    ensures Placed(places, i) <==> i == n && gain == 1
  {
    if gain == 1 { assert places[|before|] == n; }
  }

  /** A character of the text other than the separator is in one of its pieces. */
  lemma {:induction false} PieceHolds(s: string, c: char)
    requires c in s && c != '/'
    ensures exists i :: 0 <= i < |Split(s, '/')| && c in Split(s, '/')[i]
    decreases |s|
  {
    var pieces := Split(s, '/');
    var rest := Split(s[1..], '/');
    if c == s[0] {
      assert c in pieces[0];
    } else {
      assert s == [s[0]] + s[1..];
      PieceHolds(s[1..], c);
      var i :| 0 <= i < |rest| && c in rest[i];
      if s[0] == '/' { assert pieces[i + 1] == rest[i]; }
      else if i > 0 { assert pieces[i] == rest[i]; }
      else { assert c in pieces[0]; }
    }
  }

  lemma {:induction false} JoinedHolds(parts: seq<string>, i: nat, c: char)
    requires i < |parts| && c in parts[i]
    ensures c in Joined(parts)
    decreases |parts|
  {
    if i < |parts| - 1 { JoinedHolds(parts[..|parts| - 1], i, c); }
  }

  /** No segment of the text that survives the walk holds a backslash. */
  ghost predicate CleanSurvivors(text: string) {
    forall i: nat :: Survives(Split(text, '/'), i) ==> '\\' !in Split(text, '/')[i]
  }

  lemma SurvivorsShown(text: string, parts: seq<string>)
    requires Walk(Split(text, '/')) == Some(parts)
    ensures '\\' !in Joined(parts) <==> CleanSurvivors(text)
  {
    var segs := Split(text, '/');
    PlacesFacts(segs);
    if '\\' in Joined(parts) {
      JoinedChars(parts, '\\');
      var m :| 0 <= m < |parts| && '\\' in parts[m];
      assert Stacked(segs, Places(segs), m) && Placed(Places(segs), Places(segs)[m]);
      PlacesSurvive(segs, Places(segs)[m]);
    }
    if !CleanSurvivors(text) {
      var i: nat :| Survives(segs, i) && '\\' in segs[i];
      PlacesSurvive(segs, i);
      var m :| 0 <= m < |Places(segs)| && Places(segs)[m] == i;
      assert Stacked(segs, Places(segs), m);
      JoinedHolds(parts, m, '\\');
    }
  }

  /** The documentation promises normal forms without backslashes for every Windows style text. They
      have none exactly when the text starts with a drive letter or with two backslashes, or no segment
      that survives the walk holds one: after a leading `//` nothing is converted. */
  lemma BackslashesGone(chars: Chars, input: string)
    requires Normal(chars, input).Ok? && WindowsStyle(TrimStart(chars.isSpace, input))
    ensures var text := TrimStart(chars.isSpace, input);
            '\\' !in Normal(chars, input).value <==> Converted(text) || CleanSurvivors(text)
  {
    var text := TrimStart(chars.isSpace, input);
    var (front, rest) := Front(text).value;
    var parts := Walk(Split(rest, '/')).value;
    FrontFacts(text);
    if Converted(text) {
      if '\\' in Rendered(front, parts) { RenderedChars(front, rest, parts, '\\'); }
    } else {
      SurvivorsShown(text, parts);
    }
  }

  // ---------------------------------------------------------------- what the documentation promises

  /** The documented normal form: every Windows style text is converted. */
  function Documented(chars: Chars, input: string): Result<string, Fault> {
    var text := TrimStart(chars.isSpace, input);
    if WindowsStyle(text) then Normal(chars, Slashed(text)) else Normal(chars, input)
  }

  lemma SlashedTwice(text: string)
    ensures Slashed(Slashed(text)) == Slashed(text) && '\\' !in Slashed(text)
    ensures '\\' !in text <==> Slashed(text) == text
  {
    if '\\' in text { var i :| 0 <= i < |text| && text[i] == '\\'; assert Slashed(text)[i] == '/'; }
  }

  lemma SlashedControl(chars: Chars, text: string)
    requires Sane(chars) && !chars.isControl('\\')
    ensures AnyControl(chars.isControl, Slashed(text)) <==> AnyControl(chars.isControl, text)
  {
    if i :| 0 <= i < |text| && chars.isControl(text[i]) { assert Slashed(text)[i] == text[i]; }
    if i :| 0 <= i < |text| && chars.isControl(Slashed(text)[i]) { assert Slashed(text)[i] == text[i]; }
  }

  lemma SlashedFront(text: string)
    requires Converted(text)
    ensures Front(Slashed(text)) == Front(text)
  {
    SlashedTwice(text);
    if !Drive(text) { assert text[0] == '\\' && text[1] == '\\'; }
  }

  /** Texts with a drive letter or two leading backslashes do what the documentation says. */
  lemma ConvertedAsDocumented(chars: Chars, input: string)
    requires Sane(chars) && !chars.isControl('\\') && Converted(TrimStart(chars.isSpace, input))
    ensures Normal(chars, input) == Documented(chars, input)
  {
    var text := TrimStart(chars.isSpace, input);
    SlashedControl(chars, text);
    SlashedFront(text);
    assert text != "" && TrimStart(chars.isSpace, Slashed(text)) == Slashed(text) by {
      if !Drive(text) { assert text[0] == '\\'; }
    }
  }

  lemma DocumentedClean(chars: Chars, text: string)
    requires Normal(chars, Slashed(text)).Ok?
    ensures '\\' !in Normal(chars, Slashed(text)).value
  {
    SlashedTwice(text);
    var t := TrimStart(chars.isSpace, Slashed(text));
    TrimmedFrom(chars.isSpace, Slashed(text));
    var (front, rest) := Front(t).value;
    if '\\' in Normal(chars, Slashed(text)).value {
      RenderedChars(front, rest, Walk(Split(rest, '/')).value, '\\');
      FrontChars(t, '\\');
    }
  }

  lemma {:induction false} TrimmedFrom(isSpace: char -> bool, s: string)
    ensures forall c :: c in TrimStart(isSpace, s) ==> c in s
    decreases |s|
  {
    if s != "" && isSpace(s[0]) { TrimmedFrom(isSpace, s[1..]); }
  }

  lemma {:induction false} NoClimb(segs: seq<string>, i: nat)
    requires forall k :: 0 <= k < |segs| ==> segs[k] != ".."
    requires i < |segs| && Plain(segs[i])
    ensures Walk(segs).Some? && segs[i] in Walk(segs).value
    decreases |segs|
  {
    var n := |segs| - 1;
    if i < n {
      NoClimb(segs[..n], i);
      assert Plain(segs[n]) ==> Walk(segs).value == Walk(segs[..n]).value + [segs[n]];
    } else {
      NeverAbove(segs);
    }
  }

  lemma {:induction false} NeverAbove(segs: seq<string>)
    requires forall k :: 0 <= k < |segs| ==> segs[k] != ".."
    ensures Walk(segs).Some?
    decreases |segs|
  {
    if segs != [] { NeverAbove(segs[..|segs| - 1]); }
  }

  /** Some prefix of the segments has more `..` than names. */
  predicate Climbs(segs: seq<string>) {
    exists k :: 0 <= k <= |segs| && Height(segs[..k]) < 0
  }

  /** The segments before place `n` that survive, in order. */
  ghost function Survivors(segs: seq<string>, n: nat): seq<string>
    requires n <= |segs|
  {
    if n == 0 then [] else Survivors(segs, n - 1) + (if Survives(segs, n - 1) then [segs[n - 1]] else [])
  }

  predicate Ascending(places: seq<nat>) { forall i, j :: 0 <= i < j < |places| ==> places[i] < places[j] }

  lemma {:induction false} PlacesAscend(segs: seq<string>)
    requires Walk(segs).Some?
    ensures Ascending(Places(segs))
    decreases |segs|
  {
    if segs != [] {
      var before := Places(segs[..|segs| - 1]);
      PlacesMore(segs);
      PlacesAscend(segs[..|segs| - 1]);
      PlacesFacts(segs[..|segs| - 1]);
      forall m | 0 <= m < |before| ensures before[m] < |segs| - 1 { assert Stacked(segs[..|segs| - 1], before, m); }
    }
  }

  ghost predicate Parted(places: seq<nat>, c: nat, n: nat)
    requires c <= |places|
  {
    (forall m :: 0 <= m < c ==> places[m] < n) && (forall m :: c <= m < |places| ==> places[m] >= n)
  }

  predicate AtLeast(places: seq<nat>, c: nat, n: nat) { c < |places| ==> places[c] >= n }

  lemma PartedNext(places: seq<nat>, c: nat, n: nat)
    requires Ascending(places) && c <= |places| && Parted(places, c, n)
    ensures if Placed(places, n) then c < |places| && places[c] == n && Parted(places, c + 1, n + 1)
            else Parted(places, c, n + 1)
  {
    if m :| 0 <= m < |places| && places[m] == n {
      assert c <= m;
      assert places[c] <= places[m];
    } else {
      forall m | c <= m < |places| ensures places[m] >= n + 1 { assert places[m] == n ==> Placed(places, n); }
    }
  }

  /** The survivors before place `n` are the bottom of the stack. */
  lemma {:induction false} SurvivorsBelow(segs: seq<string>, places: seq<nat>, stack: seq<string>, n: nat)
    returns (c: nat)
    requires n <= |segs| && Ascending(places) && |stack| == |places|
    requires forall m :: 0 <= m < |places| ==> places[m] < |segs| && segs[places[m]] == stack[m]
    requires forall i: nat :: Placed(places, i) <==> Survives(segs, i)
    ensures c <= |places| && Survivors(segs, n) == stack[..c] && Parted(places, c, n)
  {
    if n == 0 {
      c := 0;
    } else {
      c := SurvivorsBelow(segs, places, stack, n - 1);
      PartedNext(places, c, n - 1);
      assert Placed(places, n - 1) <==> Survives(segs, n - 1);
      if Survives(segs, n - 1) {
        assert stack[..c] + [stack[c]] == stack[..c + 1];
        c := c + 1;
      } else {
        assert stack[..c] + [] == stack[..c];
      }
    }
  }

  /** The walk fails exactly when the segments climb, and leaves exactly the survivors in order. */
  lemma WalkLeavesSurvivors(segs: seq<string>)
    ensures Walk(segs) == if Climbs(segs) then None else Some(Survivors(segs, |segs|))
  {
    WalkIffNeverAbove(segs);
    if Walk(segs).Some? {
      PlacesFacts(segs);
      PlacesAscend(segs);
      var places, stack := Places(segs), Walk(segs).value;
      forall m | 0 <= m < |places| ensures places[m] < |segs| { assert Stacked(segs, places, m); }
      forall i: nat ensures Placed(places, i) <==> Survives(segs, i) { PlacesSurvive(segs, i); }
      var c := SurvivorsBelow(segs, places, stack, |segs|);
      assert AtLeast(places, c, |segs|);
      assert c == |stack| && stack[..c] == stack;
    }
  }

  /** Below one front different segments give different texts. */
  lemma RenderedInjective(p: seq<string>, q: seq<string>)
    requires Clean(p) && Clean(q) && Rendered("/", p) == Rendered("/", q)
    ensures p == q
  {
    RenderedAgain("/", p);
    RenderedAgain("/", q);
  }

  lemma WalkedClean(text: string)
    requires Walk(Split(text, '/')).Some?
    ensures Clean(Walk(Split(text, '/')).value)
  {
    SplitFacts(text, '/');
    WalkClean(Split(text, '/'));
  }

  /** What a text with a leading `//` normalises to. */
  lemma DoubleSlash(chars: Chars, text: string)
    requires Sane(chars) && |text| >= 2 && text[0] == '/' && text[1] == '/'
    ensures Normal(chars, text) ==
            if AnyControl(chars.isControl, text) then Err(ControlChar)
            else match Walk(Split(text, '/')) case None => Err(EscapesRoot) case Some(parts) => Ok(Rendered("/", parts))
  {
    RootedFront(text);
  }

  /** When a text with a leading `//` does what the documentation says: it is refused for a control
      character, or both readings climb above the root, or neither does and the segments that survive are
      the same in both. A backslash is harmless when what it separates goes away again. */
  lemma DoubleSlashAsDocumented(chars: Chars, input: string)
    requires Sane(chars) && !chars.isControl('\\') && Begins(TrimStart(chars.isSpace, input), "//")
    ensures var text := TrimStart(chars.isSpace, input);
            var kept, slashed := Split(text, '/'), Split(Slashed(text), '/');
            Normal(chars, input) == Documented(chars, input) <==>
              || AnyControl(chars.isControl, text)
              || (Climbs(kept) && Climbs(slashed))
              || (!Climbs(kept) && !Climbs(slashed) && Survivors(kept, |kept|) == Survivors(slashed, |slashed|))
  {
    var text := TrimStart(chars.isSpace, input);
    SlashedControl(chars, text);
    assert text[0] == '/' && text[1] == '/' && Slashed(text)[0] == '/' && Slashed(text)[1] == '/';
    DocumentedSlashed(chars, text, Slashed(text));
    DoubleSlash(chars, text);
    DoubleSlash(chars, Slashed(text));
    SameWalk(text, Slashed(text));
  }

  /** Two texts render alike below `//` exactly when both climb or both leave the same survivors. */
  lemma SameWalk(a: string, b: string)
    ensures var p, q := Split(a, '/'), Split(b, '/');
            (Climbs(p) <==> Walk(p).None?) && (Climbs(q) <==> Walk(q).None?)
            && (!Climbs(p) && !Climbs(q) ==>
                  (Rendered("/", Walk(p).value) == Rendered("/", Walk(q).value)
                   <==> Survivors(p, |p|) == Survivors(q, |q|)))
  {
    var p, q := Split(a, '/'), Split(b, '/');
    WalkLeavesSurvivors(p);
    WalkLeavesSurvivors(q);
    if !Climbs(p) && !Climbs(q) {
      WalkedClean(a);
      WalkedClean(b);
      if Rendered("/", Walk(p).value) == Rendered("/", Walk(q).value) {
        RenderedInjective(Walk(p).value, Walk(q).value);
      }
    }
  }

  /** Without any `..` that is so exactly when the text holds no backslash, or a control character. */
  lemma NoClimbAsDocumented(chars: Chars, input: string)
    requires Sane(chars) && !chars.isControl('\\') && Begins(TrimStart(chars.isSpace, input), "//")
    requires forall i :: 0 <= i < |Split(TrimStart(chars.isSpace, input), '/')| ==>
               Split(TrimStart(chars.isSpace, input), '/')[i] != ".."
    ensures var text := TrimStart(chars.isSpace, input);
            Normal(chars, input) == Documented(chars, input) <==> '\\' !in text || AnyControl(chars.isControl, text)
  {
    var text := TrimStart(chars.isSpace, input);
    SlashedTwice(text);
    SlashedControl(chars, text);
    assert text[0] == '/' && text[1] == '/' && Slashed(text)[0] == '/';
    if '\\' in text && !AnyControl(chars.isControl, text) {
      BackslashStays(chars, input);
      if Normal(chars, Slashed(text)).Ok? { DocumentedClean(chars, text); }
    }
  }

  lemma WalkUp(lead: seq<string>, names: seq<string>)
    requires Clean(names) && names != [] && forall i :: 0 <= i < |lead| ==> lead[i] == ""
    ensures Walk(lead + names + [".."]) == Some(names[..|names| - 1])
  {
    WalkOfClean(lead, names);
    var segs := lead + names + [".."];
    assert segs[..|segs| - 1] == lead + names;
  }

  lemma SplitUp(names: seq<string>)
    requires Clean(names)
    ensures Split(Joined(names) + "/..", '/') == [""] + names + [".."]
  {
    SplitAppend(Joined(names), "..", '/');
    SplitWhole("..", '/');
    SplitJoined(names);
    assert Joined(names) + "/.." == Joined(names) + ['/'] + "..";
  }

  lemma SlashBefore(s: string)
    ensures Split("/" + s, '/') == [""] + Split(s, '/')
  {
    assert ("/" + s)[1..] == s;
  }

  lemma SlashesBefore(s: string)
    ensures Split("//" + s, '/') == ["", ""] + Split(s, '/')
  {
    SlashBefore(s);
    SlashBefore("/" + s);
    assert "/" + ("/" + s) == "//" + s;
    assert [""] + ([""] + Split(s, '/')) == ["", ""] + Split(s, '/');
  }

  /** Names below `//`, and one step up. */
  lemma UpFrom(chars: Chars, text: string, names: seq<string>)
    requires Sane(chars) && Clean(names) && names != [] && !AnyControl(chars.isControl, text)
    requires text == "/" + (Joined(names) + "/..")
    ensures Normal(chars, text) == Ok(Rendered("/", names[..|names| - 1]))
  {
    UpSplit(text, names);
    UpSegments(chars, text, ["", ""], names);
  }

  lemma UpSplit(text: string, names: seq<string>)
    requires Clean(names) && names != [] && text == "/" + (Joined(names) + "/..")
    ensures |text| >= 2 && text[0] == '/' && text[1] == '/' && Split(text, '/') == ["", ""] + names + [".."]
  {
    JoinedStarts(names);
    SplitUp(names);
    SlashBefore(Joined(names) + "/..");
    assert [""] + ([""] + names + [".."]) == ["", ""] + names + [".."];
  }

  lemma UpSegments(chars: Chars, text: string, lead: seq<string>, names: seq<string>)
    requires Sane(chars) && Clean(names) && names != [] && !AnyControl(chars.isControl, text)
    requires |text| >= 2 && text[0] == '/' && text[1] == '/'
    requires Split(text, '/') == lead + names + [".."] && forall i :: 0 <= i < |lead| ==> lead[i] == ""
    ensures Normal(chars, text) == Ok(Rendered("/", names[..|names| - 1]))
  {
    DoubleSlash(chars, text);
    WalkUp(lead, names);
  }

  lemma SlashedSum(a: string, b: string)
    ensures Slashed(a + b) == Slashed(a) + Slashed(b)
  {
  }

  lemma DocumentedSlashed(chars: Chars, text: string, slashed: string)
    requires Sane(chars) && |text| >= 2 && text[0] == '/' && text[1] == '/' && slashed == Slashed(text)
    ensures Documented(chars, text) == Normal(chars, slashed)
  {
  }

  lemma OneUp(chars: Chars, text: string, name: string)
    requires Sane(chars) && Clean([name]) && text == "//" + name + "/.." && !AnyControl(chars.isControl, text)
    ensures Normal(chars, text) == Ok("//")
  {
    OneName(name);
    assert text == "/" + (Joined([name]) + "/..");
    UpFrom(chars, text, [name]);
    NothingLeft(name);
  }

  lemma TwoUp(chars: Chars, text: string, x: string, y: string)
    requires Sane(chars) && Clean([x, y]) && text == "//" + x + "/" + y + "/.." && !AnyControl(chars.isControl, text)
    ensures Normal(chars, text) == Ok("//" + x)
  {
    TwoNames(x, y);
    assert text == "/" + (Joined([x, y]) + "/..");
    UpFrom(chars, text, [x, y]);
    FirstOf(x, y);
  }

  lemma ThreeUp(chars: Chars, text: string, x: string)
    requires Sane(chars) && Clean([x]) && text == "///" + x + "/.." && !AnyControl(chars.isControl, text)
    ensures Normal(chars, text) == Ok("//")
  {
    OneName(x);
    assert text == "//" + (Joined([x]) + "/..");
    SplitUp([x]);
    SlashesBefore(Joined([x]) + "/..");
    assert ["", ""] + ([""] + [x] + [".."]) == ["", "", ""] + [x] + [".."];
    UpSegments(chars, text, ["", "", ""], [x]);
    NothingLeft(x);
  }

  /** What a backslash separated does not come back: the code ends at the root, the documented form at
      the first name. */
  lemma LostByClimbing(chars: Chars, text: string, x: string, y: string)
    requires Sane(chars) && Clean([x, y]) && Clean([x + "\\" + y]) && '\\' !in x && '\\' !in y
    requires text == "//" + (x + "\\" + y) + "/.." && !chars.isControl('\\') && !AnyControl(chars.isControl, text)
    ensures Normal(chars, text) == Ok("//") && Documented(chars, text) == Ok("//" + x)
  {
    var slashed := "//" + x + "/" + y + "/..";
    OneUp(chars, text, x + "\\" + y);
    SlashedUp(x, y);
    SlashedControl(chars, text);
    DocumentedSlashed(chars, text, slashed);
    TwoUp(chars, slashed, x, y);
  }

  lemma SlashedUp(x: string, y: string)
    requires '\\' !in x && '\\' !in y
    ensures Slashed("//" + (x + "\\" + y) + "/..") == "//" + x + "/" + y + "/.."
  {
    SlashedName(x, y);
    SlashedSum("//" + (x + "\\" + y), "/..");
    assert Slashed("/..") == "/..";
  }

  lemma NothingLeft(name: string)
    ensures Rendered("/", [name][..0]) == "//"
  {
    assert [name][..0] == [];
  }

  lemma FirstOf(x: string, y: string)
    ensures Rendered("/", [x, y][..1]) == "//" + x
  {
    assert [x, y][..1] == [x];
    OneName(x);
    assert "/" + ("/" + x) == "//" + x;
  }

  /** A backslash before a name that is climbed out of again does no harm. */
  lemma HarmlessBackslash(chars: Chars, text: string, x: string)
    requires Sane(chars) && Clean([x]) && Clean(["\\" + x]) && '\\' !in x
    requires text == "//" + ("\\" + x) + "/.." && !chars.isControl('\\') && !AnyControl(chars.isControl, text)
    ensures '\\' in text && Normal(chars, text) == Documented(chars, text) == Ok("//")
  {
    var slashed := "///" + x + "/..";
    OneUp(chars, text, "\\" + x);
    SlashedBack(x);
    SlashedControl(chars, text);
    DocumentedSlashed(chars, text, slashed);
    ThreeUp(chars, slashed, x);
    assert text[2] == '\\';
  }

  lemma SlashedBack(x: string)
    requires '\\' !in x
    ensures Slashed("//" + ("\\" + x) + "/..") == "///" + x + "/.."
  {
    SlashedTwice(x);
    SlashedSum("\\", x);
    SlashedSum("//", "\\" + x);
    SlashedSum("//" + ("\\" + x), "/..");
    assert Slashed("\\") == "/" && Slashed("//") == "//" && Slashed("/..") == "/..";
    assert "//" + ("/" + x) == "///" + x;
  }

  lemma NoClimbKeeps(text: string, c: char)
    requires c in text && c != '/' && c != '.'
    requires forall i :: 0 <= i < |Split(text, '/')| ==> Split(text, '/')[i] != ".."
    ensures Walk(Split(text, '/')).Some? && c in Joined(Walk(Split(text, '/')).value)
  {
    var segs := Split(text, '/');
    PieceHolds(text, c);
    var i :| 0 <= i < |segs| && c in segs[i];
    NoClimb(segs, i);
    var parts := Walk(segs).value;
    var m :| 0 <= m < |parts| && parts[m] == segs[i];
    JoinedHolds(parts, m, c);
  }

  lemma BackslashStays(chars: Chars, input: string)
    requires Begins(TrimStart(chars.isSpace, input), "//")
             && !AnyControl(chars.isControl, TrimStart(chars.isSpace, input))
    requires '\\' in TrimStart(chars.isSpace, input)
    requires forall i :: 0 <= i < |Split(TrimStart(chars.isSpace, input), '/')| ==>
             Split(TrimStart(chars.isSpace, input), '/')[i] != ".."
    ensures Normal(chars, input).Ok? && '\\' in Normal(chars, input).value
  {
    var text := TrimStart(chars.isSpace, input);
    assert text[0] == '/' && text[1] == '/';
    RootedFront(text);
    NoClimbKeeps(text, '\\');
  }

  /** A server and a share separated by a backslash: the code keeps it, the documentation does not. */
  lemma MixedSlashes(chars: Chars, server: string, share: string)
    requires Sane(chars) && Clean([server, share]) && '\\' !in server && '\\' !in share
    requires !AnyControl(chars.isControl, server + "\\" + share)
    ensures var text := "//" + (server + "\\" + share);
            Normal(chars, text) == Ok(text) && Documented(chars, text) == Ok("//" + server + "/" + share)
  {
    var name := server + "\\" + share;
    assert [server, share][0] == server && [server, share][1] == share;
    assert |name| > 2 && '/' !in name;
    OneSegment(chars, name);
    SlashedName(server, share);
    TwoSegments(chars, server, share);
  }

  lemma SlashedName(server: string, share: string)
    requires '\\' !in server && '\\' !in share
    ensures Slashed("//" + (server + "\\" + share)) == "//" + server + "/" + share
  {
    var text, out := "//" + (server + "\\" + share), "//" + server + "/" + share;
    assert text == "//" + server + "\\" + share;
    forall i | 0 <= i < |text| ensures out[i] == (if text[i] == '\\' then '/' else text[i]) {
      if 2 <= i < 2 + |server| { assert text[i] == server[i - 2]; }
      if i > 2 + |server| { assert text[i] == share[i - 3 - |server|]; }
    }
  }

  lemma OneSegment(chars: Chars, name: string)
    requires Sane(chars) && Clean([name]) && !AnyControl(chars.isControl, name)
    ensures Normal(chars, "//" + name) == Ok("//" + name)
  {
    assert [name][..0] == [] && Joined([name]) == "" + "/" + name;
    assert Rendered("/", [name]) == "//" + name;
    RenderedNormal(chars, "/", [name]);
  }

  lemma TwoSegments(chars: Chars, server: string, share: string)
    requires Sane(chars) && Clean([server, share]) && !AnyControl(chars.isControl, server + "\\" + share)
    ensures Normal(chars, "//" + server + "/" + share) == Ok("//" + server + "/" + share)
  {
    var name, text := server + "\\" + share, "//" + server + "/" + share;
    assert [server, share][..1] == [server] && [server][..0] == [];
    assert Joined([server]) == "" + "/" + server && Joined([server, share]) == Joined([server]) + "/" + share;
    assert Rendered("/", [server, share]) == text;
    forall i | 0 <= i < |text| ensures !chars.isControl(text[i]) {
      if 2 <= i && i != 2 + |server| { assert text[i] == name[i - 2]; }
    }
    RenderedNormal(chars, "/", [server, share]);
  }

  // ---------------------------------------------------------------- relations between normal forms

  lemma {:induction false} NonEmptyClean(lead: seq<string>, parts: seq<string>)
    requires Clean(parts) && forall i :: 0 <= i < |lead| ==> lead[i] == ""
    ensures NonEmpty(lead + parts) == parts
    decreases |lead| + |parts|
  {
    if lead != [] {
      assert (lead + parts)[1..] == lead[1..] + parts;
      NonEmptyClean(lead[1..], parts);
    } else if parts != [] {
      assert lead + parts == parts && parts == [parts[0]] + parts[1..];
      NonEmptyClean([], parts[1..]);
      assert [] + parts[1..] == parts[1..];
    }
  }

  lemma TailPieces(parts: seq<string>)
    requires Clean(parts)
    ensures Split(Tail(parts), '/') == (if parts == [] then ["", ""] else [""] + parts)
  {
    if parts == [] {
      assert "/"[1..] == "" && Split("", '/') == [""];
      assert [""] + [""] == ["", ""];
    } else {
      SplitJoined(parts);
    }
  }

  /** The pieces of a normal form that are not empty: its segments, after the drive if there is one. */
  lemma RenderedPieces(front: string, parts: seq<string>)
    requires Formed(front, parts)
    ensures NonEmpty(Split(Rendered(front, parts), '/')) == (if |front| == 2 then [front] else []) + parts
  {
    TailPieces(parts);
    TailStarts(parts);
    var tail := if parts == [] then ["", ""] else [""] + parts;
    if front == "" {
      TailNonEmpty(parts);
      assert [] + parts == parts;
    } else if front == "/" {
      assert ("/" + Tail(parts))[1..] == Tail(parts);
      assert ([""] + tail)[1..] == tail;
      TailNonEmpty(parts);
      assert [] + parts == parts;
    } else {
      DrivePieces(front, parts);
      assert ([front] + tail[1..])[1..] == tail[1..];
      TailNonEmpty(parts);
      assert NonEmpty(tail) == NonEmpty(tail[1..]);
    }
  }

  lemma TailNonEmpty(parts: seq<string>)
    requires Clean(parts)
    ensures NonEmpty(if parts == [] then ["", ""] else [""] + parts) == parts
  {
    if parts == [] {
      NonEmptyClean(["", ""], []);
      assert ["", ""] + [] == ["", ""];
    } else {
      NonEmptyClean([""], parts);
    }
  }

  lemma DrivePieces(front: string, parts: seq<string>)
    requires Clean(parts) && |front| == 2 && Drive(front)
    ensures Split(front + Tail(parts), '/') == [front] + Split(Tail(parts), '/')[1..]
  {
    TailStarts(parts);
    var rest := Tail(parts)[1..];
    DriveRest(front, rest);
    assert Tail(parts) == "/" + rest;
  }

  lemma DriveRest(front: string, rest: string)
    requires '/' !in front
    ensures Split(front + ("/" + rest), '/') == [front] + Split("/" + rest, '/')[1..]
  {
    SplitAfter(front, rest);
    SlashBefore(rest);
    assert ([""] + Split(rest, '/'))[1..] == Split(rest, '/');
  }

  lemma SplitAfter(front: string, rest: string)
    requires '/' !in front
    ensures Split(front + ("/" + rest), '/') == [front] + Split(rest, '/')
  {
    SplitWhole(front, '/');
    SplitAppend(front, rest, '/');
    assert front + ("/" + rest) == front + ['/'] + rest;
  }

  lemma RenderedFolds(front: string, parts: seq<string>)
    requires Formed(front, parts)
    ensures FoldsCase(Rendered(front, parts)) <==> front != ""
  {
    TailStarts(parts);
  }

  /** Segments as they are compared: folded below a drive or a UNC prefix. */
  function Folded(lower: string -> string, front: string, parts: seq<string>): seq<string> {
    if front == "" then parts else Lowered(lower, parts)
  }

  function DrivePart(lower: string -> string, front: string): seq<string> {
    if |front| == 2 then [lower(front)] else []
  }

  lemma LoweredHead(lower: string -> string, x: string, parts: seq<string>)
    ensures Lowered(lower, [x] + parts) == [lower(x)] + Lowered(lower, parts)
  {
  }

  lemma ComponentsOfRendered(lower: string -> string, front: string, parts: seq<string>)
    requires Formed(front, parts)
    ensures Components(lower, Rendered(front, parts)) == DrivePart(lower, front) + Folded(lower, front, parts)
  {
    RenderedPieces(front, parts);
    RenderedFolds(front, parts);
    var folded := Folded(lower, front, parts);
    if |front| == 2 {
      LoweredHead(lower, front, parts);
    } else {
      assert [] + parts == parts && [] + folded == folded;
    }
  }

  /** Two fronts start at the same root: the same kind, and the same drive up to case. */
  predicate SameFront(lower: string -> string, fa: string, fb: string) {
    if |fa| == 2 && |fb| == 2 then lower(fa) == lower(fb) else fa == fb
  }

  /** How two folders really relate: not at all on different roots, else by their segments. */
  function TrueRelation(lower: string -> string, fa: string, pa: seq<string>, fb: string, pb: seq<string>): Relation {
    if SameFront(lower, fa, fb) then Relate(Folded(lower, fa, pa), Folded(lower, fb, pb)) else Disjoint
  }

  predicate Nested(a: seq<string>, b: seq<string>) { a <= b || b <= a }

  /** Folders on different roots that the comparison of components takes for related, by the segments
      as they are compared. Two drives are never mixed up; a drive and another root are when the other
      path is the root itself, or spells the folded drive as its first segment and goes on along the
      drive's path; a rooted and a UNC path are when one's segments continue the other's. */
  predicate Mixed(lower: string -> string, fa: string, a: seq<string>, fb: string, b: seq<string>) {
    if |fa| == 2 && |fb| == 2 then false
    else if |fa| == 2 then b == [] || (b[0] == lower(fa) && Nested(a, b[1..]))
    else if |fb| == 2 then a == [] || (a[0] == lower(fb) && Nested(a[1..], b))
    else Nested(a, b)
  }

  lemma NestedHead(x: string, a: seq<string>, b: seq<string>)
    ensures [x] + a <= b <==> b != [] && b[0] == x && a <= b[1..]
    ensures b <= [x] + a <==> b == [] || (b[0] == x && b[1..] <= a)
  {
    if b != [] {
      assert b == [b[0]] + b[1..] && ([x] + a)[1..] == a;
      if a <= b[1..] { assert b[1..] == a + b[1..][|a|..]; assert b == [b[0]] + a + b[1..][|a|..]; }
      if b[1..] <= a { assert a == b[1..] + a[|b| - 1..]; assert [b[0]] + a == b + a[|b| - 1..]; }
      if [x] + a <= b { assert b == [x] + a + b[|a| + 1..]; assert b[1..] == a + b[|a| + 1..]; }
      if b <= [x] + a { assert [x] + a == b + ([x] + a)[|b|..]; assert a == b[1..] + ([x] + a)[|b|..]; }
    }
  }

  lemma MixedMeaning(lower: string -> string, fa: string, a: seq<string>, fb: string, b: seq<string>)
    requires !SameFront(lower, fa, fb)
    ensures Nested(DrivePart(lower, fa) + a, DrivePart(lower, fb) + b) <==> Mixed(lower, fa, a, fb, b)
  {
    assert [] + a == a && [] + b == b;
    if |fa| == 2 && |fb| == 2 {
      assert ([lower(fa)] + a)[0] != ([lower(fb)] + b)[0];
    } else if |fa| == 2 {
      NestedHead(lower(fa), a, b);
    } else if |fb| == 2 {
      NestedHead(lower(fb), b, a);
    }
  }

  lemma SameHead(x: string, a: seq<string>, b: seq<string>)
    ensures Relate([x] + a, [x] + b) == Relate(a, b)
  {
    assert ([x] + a)[1..] == a && ([x] + b)[1..] == b;
  }

  lemma SameRoot(lower: string -> string, fa: string, a: seq<string>, fb: string, b: seq<string>)
    requires SameFront(lower, fa, fb)
    ensures Relate(DrivePart(lower, fa) + a, DrivePart(lower, fb) + b) == Relate(a, b)
  {
    if |fa| == 2 {
      SameHead(lower(fa), a, b);
    } else {
      assert [] + a == a && [] + b == b;
    }
  }

  /** Comparing components is right exactly when the roots agree or the folders are not mixed up. */
  lemma RelationExact(lower: string -> string, fa: string, pa: seq<string>, fb: string, pb: seq<string>)
    requires Formed(fa, pa) && Formed(fb, pb)
    ensures PathRelation(lower, Rendered(fa, pa), Rendered(fb, pb)) == TrueRelation(lower, fa, pa, fb, pb)
            <==> SameFront(lower, fa, fb) || !Mixed(lower, fa, Folded(lower, fa, pa), fb, Folded(lower, fb, pb))
  {
    var a, b := Folded(lower, fa, pa), Folded(lower, fb, pb);
    ComponentsOfRendered(lower, fa, pa);
    ComponentsOfRendered(lower, fb, pb);
    if SameFront(lower, fa, fb) {
      SameRoot(lower, fa, a, fb, b);
    } else {
      MixedMeaning(lower, fa, a, fb, b);
      RelationMeaning(DrivePart(lower, fa) + a, DrivePart(lower, fb) + b);
    }
  }

  /** Read off two texts that normalise. */
  lemma NormalsRelate(chars: Chars, lower: string -> string, x: string, y: string)
    requires Normal(chars, x).Ok? && Normal(chars, y).Ok?
    ensures PathRelation(lower, Normal(chars, x).value, Normal(chars, y).value) == Real(chars, lower, x, y)
            <==> SameFront(lower, FrontOf(chars, x), FrontOf(chars, y)) || !MixedTexts(chars, lower, x, y)
  {
    NormalFormed(chars, x);
    NormalFormed(chars, y);
    RelationExact(lower, FrontOf(chars, x), SegmentsOf(chars, x), FrontOf(chars, y), SegmentsOf(chars, y));
  }

  function Real(chars: Chars, lower: string -> string, x: string, y: string): Relation
    requires Normal(chars, x).Ok? && Normal(chars, y).Ok?
  {
    TrueRelation(lower, FrontOf(chars, x), SegmentsOf(chars, x), FrontOf(chars, y), SegmentsOf(chars, y))
  }

  /** Folders on different roots that are taken for related. */
  predicate MixedTexts(chars: Chars, lower: string -> string, x: string, y: string) {
    && Normal(chars, x).Ok? && Normal(chars, y).Ok?
    && var fa, fb := FrontOf(chars, x), FrontOf(chars, y);
       && !SameFront(lower, fa, fb)
       && Mixed(lower, fa, Folded(lower, fa, SegmentsOf(chars, x)), fb, Folded(lower, fb, SegmentsOf(chars, y)))
  }

  /** The relation the code finds: the real one, or a mixed-up pair that is not really related at all. */
  lemma FoundRelation(chars: Chars, lower: string -> string, x: string, y: string)
    requires Normal(chars, x).Ok? && Normal(chars, y).Ok?
    ensures var found := PathRelation(lower, Normal(chars, x).value, Normal(chars, y).value);
            if MixedTexts(chars, lower, x, y) then !found.Disjoint? && Real(chars, lower, x, y).Disjoint?
            else found == Real(chars, lower, x, y)
  {
    NormalsRelate(chars, lower, x, y);
  }

  lemma UncOf(lower: string -> string, x: string)
    requires Plain(x) && '/' !in x && lower(x) == x
    ensures Components(lower, "//" + x) == [x]
  {
    OneName(x);
    assert "/" + ("/" + x) == "//" + x;
    ComponentsOfRendered(lower, "/", [x]);
    assert [] + Lowered(lower, [x]) == [x];
  }

  lemma DriveOf(lower: string -> string, drive: string, x: string)
    requires Plain(x) && '/' !in x && lower(x) == x && |drive| == 2 && Drive(drive)
    ensures Components(lower, drive + "/" + x) == [lower(drive), x]
  {
    OneName(x);
    assert drive + ("/" + x) == drive + "/" + x;
    ComponentsOfRendered(lower, drive, [x]);
    assert [lower(drive)] + Lowered(lower, [x]) == [lower(drive), x];
  }

  lemma RootedOf(lower: string -> string, parts: seq<string>)
    requires Clean(parts) && parts != []
    ensures Components(lower, Joined(parts)) == parts
  {
    ComponentsOfRendered(lower, "", parts);
    assert "" + Joined(parts) == Joined(parts) && [] + parts == parts;
  }

  /** A UNC folder and a rooted one with the same segments count as the same. */
  lemma SameIsNotEqual(lower: string -> string)
    requires lower("a") == "a"
    ensures PathRelation(lower, "//a", "/a") == Same && TrueRelation(lower, "/", ["a"], "", ["a"]) == Disjoint
  {
    UncOf(lower, "a");
    OneName("a");
    RootedOf(lower, ["a"]);
    assert "//" + "a" == "//a" && "/" + "a" == "/a";
    RelationMeaning(["a"], ["a"]);
  }

  lemma RootedTwo(lower: string -> string, x: string, y: string)
    requires Clean([x, y])
    ensures Components(lower, "/" + x + "/" + y) == [x, y]
  {
    TwoNames(x, y);
    RootedOf(lower, [x, y]);
  }

  lemma Related(lower: string -> string, a: string, b: string, ca: seq<string>, cb: seq<string>)
    requires Components(lower, a) == ca && Components(lower, b) == cb
    ensures PathRelation(lower, a, b) ==
            if ca == cb then Same else if ca <= cb then Contains else if cb <= ca then Inside else Disjoint
  {
    RelationMeaning(ca, cb);
  }

  /** So do a folder of a drive and a rooted one whose first segment spells the drive. */
  lemma DriveMixedUp(lower: string -> string)
    requires lower("C:") == "c:" && lower("x") == "x"
    ensures PathRelation(lower, "C:/x", "/c:/x") == Same
            && TrueRelation(lower, "C:", ["x"], "", ["c:", "x"]) == Disjoint
  {
    DriveOf(lower, "C:", "x");
    RootedTwo(lower, "c:", "x");
    assert "C:" + "/" + "x" == "C:/x" && "/" + "c:" + "/" + "x" == "/c:/x";
    Related(lower, "C:/x", "/c:/x", ["c:", "x"], ["c:", "x"]);
  }

  /** And a UNC folder can count as the container of a rooted one. */
  lemma NestedMixedUp(lower: string -> string)
    requires lower("a") == "a"
    ensures PathRelation(lower, "//a", "/a/b") == Contains
            && TrueRelation(lower, "/", ["a"], "", ["a", "b"]) == Disjoint
  {
    NestedBelow(lower);
    assert ["a", "b"][..1] == ["a"];
  }

  lemma NestedBelow(lower: string -> string)
    requires lower("a") == "a"
    ensures PathRelation(lower, "//a", "/a/b") == Contains
  {
    UncOf(lower, "a");
    RootedTwo(lower, "a", "b");
    assert "//" + "a" == "//a" && "/" + "a" + "/" + "b" == "/a/b";
    assert ["a", "b"][..1] == ["a"];
    Related(lower, "//a", "/a/b", ["a"], ["a", "b"]);
  }

  lemma OneName(x: string)
    ensures Joined([x]) == "/" + x
  {
    assert [x][..0] == [] && "" + "/" + x == "/" + x;
  }

  lemma TwoNames(x: string, y: string)
    ensures Joined([x, y]) == "/" + x + "/" + y
  {
    OneName(x);
    assert [x, y][..1] == [x];
  }

  // ---------------------------------------------------------------- what the folder check finds

  /** What the check reports about the paths of two entries: an overlap exactly when they really overlap
      or are mixed up across roots; and the relation it reports is the real one unless they are. */
  lemma OverlapMeaning(chars: Chars, lower: string -> string, a: Folder, b: Folder, i: nat, j: nat, r: Relation)
    ensures var pair := PairProblems(lower, a, b, Normal(chars, a.path), Normal(chars, b.path), i, j);
            Overlap(j, i, r) in pair <==>
              && Normal(chars, a.path).Ok? && Normal(chars, b.path).Ok?
              && r == PathRelation(lower, Normal(chars, a.path).value, Normal(chars, b.path).value)
              && (MixedTexts(chars, lower, a.path, b.path) || (r == Real(chars, lower, a.path, b.path) && !r.Disjoint?))
  {
    if Normal(chars, a.path).Ok? && Normal(chars, b.path).Ok? { FoundRelation(chars, lower, a.path, b.path); }
  }

  ghost predicate ReallyApart(chars: Chars, lower: string -> string, a: Folder, b: Folder) {
    a.id != b.id
      && (Normal(chars, a.path).Ok? && Normal(chars, b.path).Ok? ==> Real(chars, lower, a.path, b.path).Disjoint?)
  }

  /** What the documentation calls a valid list. */
  ghost predicate ReallyValid(chars: Chars, lower: string -> string, folders: seq<Folder>) {
    && (forall i :: 0 <= i < |folders| ==> ValidFolder(folders[i], Normal(chars, folders[i].path)))
    && (forall i, j :: 0 <= i < j < |folders| ==> ReallyApart(chars, lower, folders[i], folders[j]))
  }

  ghost predicate NoneMixed(chars: Chars, lower: string -> string, folders: seq<Folder>) {
    forall i, j :: 0 <= i < j < |folders| ==> !MixedTexts(chars, lower, folders[i].path, folders[j].path)
  }

  lemma ApartExact(chars: Chars, lower: string -> string, a: Folder, b: Folder)
    ensures Apart(lower, a, b, Normal(chars, a.path), Normal(chars, b.path)) <==>
            ReallyApart(chars, lower, a, b) && !MixedTexts(chars, lower, a.path, b.path)
  {
    if Normal(chars, a.path).Ok? && Normal(chars, b.path).Ok? { FoundRelation(chars, lower, a.path, b.path); }
  }

  /** The check is silent exactly for the valid lists without a pair that is mixed up across roots: what
      passes is valid, and a valid list is only ever refused for such a pair. */
  lemma SilentExactly(chars: Chars, lower: string -> string, folders: seq<Folder>)
    ensures Problems(lower, folders, Norms(chars, folders)) == [] <==>
            ReallyValid(chars, lower, folders) && NoneMixed(chars, lower, folders)
  {
    var norms := Norms(chars, folders);
    SilentIffValid(lower, folders, norms);
    forall i, j | 0 <= i < j < |folders|
      ensures Apart(lower, folders[i], folders[j], norms[i], norms[j]) <==>
              ReallyApart(chars, lower, folders[i], folders[j])
              && !MixedTexts(chars, lower, folders[i].path, folders[j].path)
    {
      ApartExact(chars, lower, folders[i], folders[j]);
    }
  }
}
