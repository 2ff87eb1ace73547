/** Path patterns of the licence check: `*` and `?` inside one name, `**` over whole folders. */
module Glob {
  import opened Texts

  // ---------------------------------------------------------------- the relation

  /** A pattern fits a text when the text can be cut into one piece per pattern item: any piece for a
      wildcard, one accepted element for everything else. Used for the characters of a name and for
      the names of a path. */
  ghost predicate Aligned<P, T>(wild: P -> bool, accepts: (P, T) -> bool, p: seq<P>, t: seq<T>, cuts: seq<nat>) {
    && |cuts| == |p| + 1 && cuts[0] == 0 && cuts[|p|] == |t|
    && forall i :: 0 <= i < |p| ==> Piece(wild, accepts, p, t, cuts, i)
  }

  ghost predicate Piece<P, T>(wild: P -> bool, accepts: (P, T) -> bool, p: seq<P>, t: seq<T>, cuts: seq<nat>, i: nat)
    requires i < |p| < |cuts|
  {
    && cuts[i] <= cuts[i + 1] <= |t|
    && (!wild(p[i]) ==> cuts[i + 1] == cuts[i] + 1 && accepts(p[i], t[cuts[i]]))
  }

  /** The same, read from the front. */
  predicate Fits<P, T>(wild: P -> bool, accepts: (P, T) -> bool, p: seq<P>, t: seq<T>)
    decreases |p|
  {
    if p == [] then |t| == 0
    else if wild(p[0]) then exists k :: 0 <= k <= |t| && Fits(wild, accepts, p[1..], t[k..])
    else |t| > 0 && accepts(p[0], t[0]) && Fits(wild, accepts, p[1..], t[1..])
  }

  /** Cuts of the rest of a text, put back into the whole. */
  function Shifted(cuts: seq<nat>, k: nat): (r: seq<nat>)
    ensures |r| == |cuts| + 1 && r[0] == 0 && forall i :: 0 < i < |r| ==> r[i] == cuts[i - 1] + k
  {
    [0] + seq(|cuts|, i requires 0 <= i < |cuts| => cuts[i] + k)
  }

  lemma ShiftedPieces<P, T>(wild: P -> bool, accepts: (P, T) -> bool, p: seq<P>, t: seq<T>, k: nat, rest: seq<nat>,
                            i: nat)
    requires k <= |t| && |rest| == |p| && 0 < i < |p|
    ensures Piece(wild, accepts, p[1..], t[k..], rest, i - 1) <==> Piece(wild, accepts, p, t, Shifted(rest, k), i)
  {
    if rest[i - 1] < |t[k..]| { assert t[k..][rest[i - 1]] == t[rest[i - 1] + k]; }
  }

  lemma {:induction false} FitsHasCuts<P, T>(wild: P -> bool, accepts: (P, T) -> bool, p: seq<P>, t: seq<T>)
    returns (cuts: seq<nat>)
    requires Fits(wild, accepts, p, t)
    ensures Aligned(wild, accepts, p, t, cuts)
    decreases |p|
  {
    if p == [] {
      cuts := [0];
    } else {
      var k := 1;
      if wild(p[0]) { k :| 0 <= k <= |t| && Fits(wild, accepts, p[1..], t[k..]); }
      var rest := FitsHasCuts(wild, accepts, p[1..], t[k..]);
      cuts := Shifted(rest, k);
      forall i | 0 <= i < |p| ensures Piece(wild, accepts, p, t, cuts, i) {
        if i > 0 { ShiftedPieces(wild, accepts, p, t, k, rest, i); }
      }
    }
  }

  lemma {:induction false} CutsFit<P, T>(wild: P -> bool, accepts: (P, T) -> bool, p: seq<P>, t: seq<T>, cuts: seq<nat>)
    requires Aligned(wild, accepts, p, t, cuts)
    ensures Fits(wild, accepts, p, t)
    decreases |p|
  {
    if p != [] {
      var k := cuts[1];
      assert Piece(wild, accepts, p, t, cuts, 0);
      NonDecreasing(wild, accepts, p, t, cuts, |p|);
      var rest := seq(|p|, i requires 0 <= i < |p| => (if cuts[i + 1] >= k then cuts[i + 1] - k else 0));
      assert Shifted(rest, k) == cuts;
      forall i | 0 <= i < |p| - 1 ensures Piece(wild, accepts, p[1..], t[k..], rest, i) {
        ShiftedPieces(wild, accepts, p, t, k, rest, i + 1);
      }
      CutsFit(wild, accepts, p[1..], t[k..], rest);
    }
  }

  lemma {:induction false} NonDecreasing<P, T>(wild: P -> bool, accepts: (P, T) -> bool, p: seq<P>, t: seq<T>,
                                               cuts: seq<nat>, n: nat)
    requires Aligned(wild, accepts, p, t, cuts) && 1 <= n <= |p|
    ensures forall i :: 1 <= i <= n ==> cuts[1] <= cuts[i]
  {
    if n > 1 {
      NonDecreasing(wild, accepts, p, t, cuts, n - 1);
      assert Piece(wild, accepts, p, t, cuts, n - 1);
    }
  }

  /** Reading from the front finds a cutting exactly when there is one. */
  lemma FitsIffAligned<P, T>(wild: P -> bool, accepts: (P, T) -> bool, p: seq<P>, t: seq<T>)
    ensures Fits(wild, accepts, p, t) <==> exists cuts :: Aligned(wild, accepts, p, t, cuts)
  {
    if Fits(wild, accepts, p, t) {
      var cuts := FitsHasCuts(wild, accepts, p, t);
    }
    if cuts :| Aligned(wild, accepts, p, t, cuts) {
      CutsFit(wild, accepts, p, t, cuts);
    }
  }

  // ---------------------------------------------------------------- one name

  predicate IsStar(c: char) { c == '*' }

  predicate Accepts(c: char, x: char) { c == '?' || c == x }

  /** The rest of the pattern from `i` fits the rest of the text from `j`. */
  ghost predicate Rest(p: string, t: string, i: nat, j: nat)
    requires i <= |p| && j <= |t|
  {
    Fits(IsStar, Accepts, p[i..], t[j..])
  }

  /** `*` at `i` leaves the text from `k` to the rest of the pattern. */
  ghost predicate AfterStar(p: string, t: string, i: nat, k: nat)
    requires i < |p| && k <= |t|
  {
    Rest(p, t, i + 1, k)
  }

  lemma RestAtStar(p: string, t: string, i: nat, j: nat)
    requires i < |p| && j <= |t| && p[i] == '*'
    ensures Rest(p, t, i, j) <==> exists k :: j <= k <= |t| && AfterStar(p, t, i, k)
  {
    assert p[i..][1..] == p[i + 1..];
    if Rest(p, t, i, j) {
      var k :| 0 <= k <= |t[j..]| && Fits(IsStar, Accepts, p[i..][1..], t[j..][k..]);
      assert t[j..][k..] == t[j + k..];
      assert AfterStar(p, t, i, j + k);
    }
    if k :| j <= k <= |t| && AfterStar(p, t, i, k) {
      assert t[j..][k - j..] == t[k..];
    }
  }

  lemma RestUnfolds(p: string, t: string, i: nat, j: nat)
    requires i <= |p| && j <= |t|
    ensures i == |p| ==> (Rest(p, t, i, j) <==> j == |t|)
    ensures i < |p| && p[i] == '*' ==> (Rest(p, t, i, j) <==> exists k :: j <= k <= |t| && AfterStar(p, t, i, k))
    ensures i < |p| && p[i] != '*' ==>
              (Rest(p, t, i, j) <==> j < |t| && Accepts(p[i], t[j]) && Rest(p, t, i + 1, j + 1))
  {
    if i < |p| {
      assert p[i..][1..] == p[i + 1..];
      if p[i] == '*' {
        RestAtStar(p, t, i, j);
      } else if j < |t| {
        assert t[j..][1..] == t[j + 1..];
      }
    }
  }

  ghost predicate Plain(p: string, i: nat, n: nat) {
    i + n <= |p| && forall x :: i <= x < i + n ==> p[x] != '*'
  }

  /** A run of `n` items without `*` takes exactly `n` characters. */
  lemma {:induction false} PlainRun(p: string, t: string, i: nat, j: nat, n: nat)
    requires Plain(p, i, n) && j <= |t| && Rest(p, t, i, j)
    ensures j + n <= |t| && Rest(p, t, i + n, j + n)
    decreases n
  {
    if n > 0 {
      RestUnfolds(p, t, i, j);
      PlainRun(p, t, i + 1, j + 1, n - 1);
    }
  }

  ghost predicate Beside(p: string, t: string, i: nat, j: nat, n: nat) {
    && i + n <= |p| && j + n <= |t|
    && forall x :: i <= x < i + n ==> p[x] != '*' && Accepts(p[x], t[x - i + j])
  }

  lemma {:induction false} BesideFits(p: string, t: string, i: nat, j: nat, n: nat)
    requires Beside(p, t, i, j, n) && Rest(p, t, i + n, j + n)
    ensures Rest(p, t, i, j)
    decreases n
  {
    if n > 0 {
      BesideFits(p, t, i + 1, j + 1, n - 1);
      RestUnfolds(p, t, i, j);
    }
  }

  /** `*` at `s` over the text from `mark`, with the run up to `i` laid against the text up to `j`. */
  ghost predicate Laid(p: string, t: string, s: nat, mark: nat, i: nat, j: nat) {
    && s < i <= |p| && mark <= j <= |t| && p[s] == '*'
    && i - (s + 1) == j - mark && Beside(p, t, s + 1, mark, j - mark)
  }

  lemma LaidFits(p: string, t: string, s: nat, mark: nat, i: nat, j: nat)
    requires Laid(p, t, s, mark, i, j) && Rest(p, t, i, j)
    ensures Rest(p, t, s, mark)
  {
    BesideFits(p, t, s + 1, mark, j - mark);
    assert AfterStar(p, t, s, mark);
    RestUnfolds(p, t, s, mark);
  }

  /** Only the last `*` has to be remembered: when the next `*` is reached, earlier ones need not
      give anything back. */
  lemma LastStarSuffices(p: string, t: string, s: nat, mark: nat, i: nat, j: nat)
    requires Laid(p, t, s, mark, i, j) && i < |p| && p[i] == '*'
    ensures Rest(p, t, s, mark) <==> Rest(p, t, i, j)
  {
    RestUnfolds(p, t, i, j);
    if Rest(p, t, s, mark) {
      RestUnfolds(p, t, s, mark);
      var k :| mark <= k <= |t| && AfterStar(p, t, s, k);
      PlainRun(p, t, s + 1, k, j - mark);
      RestUnfolds(p, t, i, k + (j - mark));
    }
    if Rest(p, t, i, j) { LaidFits(p, t, s, mark, i, j); }
  }

  /** A mismatch means the `*` takes one more character. */
  lemma StarTakesOne(p: string, t: string, s: nat, mark: nat, i: nat, j: nat)
    requires Laid(p, t, s, mark, i, j) && j < |t| && !Rest(p, t, i, j)
    ensures Rest(p, t, s, mark) <==> Rest(p, t, s, mark + 1)
  {
    RestUnfolds(p, t, s, mark);
    RestUnfolds(p, t, s, mark + 1);
    if Rest(p, t, s + 1, mark) { PlainRun(p, t, s + 1, mark, j - mark); }
  }

  lemma AtTheEnd(p: string, t: string, s: nat, mark: nat, i: nat)
    requires Laid(p, t, s, mark, i, |t|)
    ensures Rest(p, t, s, mark) <==> Rest(p, t, i, |t|)
  {
    if Rest(p, t, s, mark) {
      RestUnfolds(p, t, s, mark);
      var k :| mark <= k <= |t| && AfterStar(p, t, s, k);
      PlainRun(p, t, s + 1, k, |t| - mark);
    }
    if Rest(p, t, i, |t|) { LaidFits(p, t, s, mark, i, |t|); }
  }

  /** Matches one path segment. */
  method SegmentMatch(p: string, t: string) returns (ok: bool)
    ensures ok <==> Fits(IsStar, Accepts, p, t)
  {
    var pi, ti := 0, 0;
    var star: int, mark := -1, 0;
    assert p[0..] == p && t[0..] == t;
    ghost var answer := Rest(p, t, 0, 0);
    while ti < |t|
      invariant 0 <= pi <= |p| && 0 <= ti <= |t| && -1 <= star < |p| && 0 <= mark <= |t|
      invariant star == -1 ==> (answer <==> Rest(p, t, pi, ti))
      invariant star >= 0 ==> Laid(p, t, star, mark, pi, ti) && (answer <==> Rest(p, t, star, mark))
      decreases |p| - star, |t| - mark, |t| - ti
    {
      RestUnfolds(p, t, pi, ti);
      if pi < |p| && p[pi] == '*' {
        if star >= 0 { LastStarSuffices(p, t, star, mark, pi, ti); }
        star := pi;
        mark := ti;
        pi := pi + 1;
      } else if pi < |p| && (p[pi] == '?' || p[pi] == t[ti]) {
        pi := pi + 1;
        ti := ti + 1;
      } else if star >= 0 {
        StarTakesOne(p, t, star, mark, pi, ti);
        pi := star + 1;
        mark := mark + 1;
        ti := mark;
      } else {
        return false;
      }
    }
    if star >= 0 { AtTheEnd(p, t, star, mark, pi); }
    ok := OnlyStars(p, t, pi);
  }

  /** The text is used up: what is left of the pattern must be stars. */
  method OnlyStars(p: string, t: string, start: nat) returns (ok: bool)
    requires start <= |p|
    ensures ok <==> Rest(p, t, start, |t|)
  {
    var pi := start;
    while pi < |p| && p[pi] == '*'
      invariant start <= pi <= |p|
      invariant Rest(p, t, start, |t|) <==> Rest(p, t, pi, |t|)
    {
      RestUnfolds(p, t, pi, |t|);
      assert AfterStar(p, t, pi, |t|) <==> Rest(p, t, pi + 1, |t|);
      pi := pi + 1;
    }
    RestUnfolds(p, t, pi, |t|);
    ok := pi == |p|;
  }

  // ---------------------------------------------------------------- whole paths

  predicate IsSpan(name: string) { name == "**" }

  predicate NameFits(pattern: string, name: string) { Fits(IsStar, Accepts, pattern, name) }

  method MatchSegments(pattern: seq<string>, path: seq<string>) returns (ok: bool)
    ensures ok <==> Fits(IsSpan, NameFits, pattern, path)
    decreases |pattern|
  {
    if pattern == [] {
      return path == [];
    }
    if pattern[0] == "**" {
      for skip := 0 to |path| + 1
        invariant forall k :: 0 <= k < skip ==> !Fits(IsSpan, NameFits, pattern[1..], path[k..])
      {
        ok := MatchSegments(pattern[1..], path[skip..]);
        if ok {
          return true;
        }
      }
      return false;
    }
    if path == [] {
      return false;
    }
    ok := SegmentMatch(pattern[0], path[0]);
    if ok {
      ok := MatchSegments(pattern[1..], path[1..]);
    }
  }

  ghost predicate PathFits(names: seq<string>, segments: seq<string>) {
    exists cuts :: Aligned(IsSpan, NameFits, names, segments, cuts)
  }

  /** A path matches exactly when its names can be dealt out to the pattern's names, any run of them
      to a `**`, and likewise the characters of each name to the characters of its pattern. */
  method GlobMatch(pattern: string, path: string) returns (ok: bool)
    ensures ok <==> PathFits(Split(pattern, '/'), Split(path, '/'))
  {
    var names, segments := Split(pattern, '/'), Split(path, '/');
    ok := MatchSegments(names, segments);
    FitsIffAligned(IsSpan, NameFits, names, segments);
  }

  // ---------------------------------------------------------------- without the relation

  /** What one character of a pattern takes of a name: any piece for `*`, one character for everything else,
      the same one unless the pattern has `?`. */
  ghost predicate TakesChars(pattern: string, name: string, cuts: seq<nat>, i: nat)
    requires i < |pattern| < |cuts|
  {
    && cuts[i] <= cuts[i + 1] <= |name|
    && (pattern[i] == '*' || (cuts[i + 1] == cuts[i] + 1 && (pattern[i] == '?' || pattern[i] == name[cuts[i]])))
  }

  ghost predicate NameCut(pattern: string, name: string, cuts: seq<nat>) {
    && |cuts| == |pattern| + 1 && cuts[0] == 0 && cuts[|pattern|] == |name|
    && forall i :: 0 <= i < |pattern| ==> TakesChars(pattern, name, cuts, i)
  }

  /** What one name of a pattern takes of a path: any run of names for `**`, one name that it fits for
      everything else. */
  ghost predicate TakesNames(pattern: seq<string>, path: seq<string>, cuts: seq<nat>, i: nat)
    requires i < |pattern| < |cuts|
  {
    && cuts[i] <= cuts[i + 1] <= |path|
    && (pattern[i] == "**" || (cuts[i + 1] == cuts[i] + 1 && exists inner :: NameCut(pattern[i], path[cuts[i]], inner)))
  }

  ghost predicate PathCut(pattern: seq<string>, path: seq<string>, cuts: seq<nat>) {
    && |cuts| == |pattern| + 1 && cuts[0] == 0 && cuts[|pattern|] == |path|
    && forall i :: 0 <= i < |pattern| ==> TakesNames(pattern, path, cuts, i)
  }

  lemma NameMeaning(pattern: string, name: string)
    ensures Fits(IsStar, Accepts, pattern, name) <==> exists cuts :: NameCut(pattern, name, cuts)
  {
    FitsIffAligned(IsStar, Accepts, pattern, name);
    if cuts :| Aligned(IsStar, Accepts, pattern, name, cuts) {
      forall i | 0 <= i < |pattern| ensures TakesChars(pattern, name, cuts, i) {
        assert Piece(IsStar, Accepts, pattern, name, cuts, i);
      }
      assert NameCut(pattern, name, cuts);
    }
    if cuts :| NameCut(pattern, name, cuts) {
      forall i | 0 <= i < |pattern| ensures Piece(IsStar, Accepts, pattern, name, cuts, i) {
        assert TakesChars(pattern, name, cuts, i);
      }
      assert Aligned(IsStar, Accepts, pattern, name, cuts);
    }
  }

  /** A path fits a pattern exactly when both can be cut so. */
  lemma PathMeaning(pattern: seq<string>, path: seq<string>)
    ensures PathFits(pattern, path) <==> exists cuts :: PathCut(pattern, path, cuts)
  {
    if cuts :| Aligned(IsSpan, NameFits, pattern, path, cuts) {
      forall i | 0 <= i < |pattern| ensures TakesNames(pattern, path, cuts, i) {
        assert Piece(IsSpan, NameFits, pattern, path, cuts, i);
        if pattern[i] != "**" { NameMeaning(pattern[i], path[cuts[i]]); }
      }
      assert PathCut(pattern, path, cuts);
    }
    if cuts :| PathCut(pattern, path, cuts) {
      forall i | 0 <= i < |pattern| ensures Piece(IsSpan, NameFits, pattern, path, cuts, i) {
        assert TakesNames(pattern, path, cuts, i);
        if pattern[i] != "**" { NameMeaning(pattern[i], path[cuts[i]]); }
      }
      assert Aligned(IsSpan, NameFits, pattern, path, cuts);
    }
  }
}
