/** Normal forms and folder checks told by characters, positions and counts. */
module PathMeaning {
  import opened Wrappers
  import opened Texts
  import opened Paths
  import opened PathTheorems

  // ---------------------------------------------------------------- the walk

  predicate IsName(seg: string) { seg != "" && seg != "." && seg != ".." }

  function NamesIn(segs: seq<string>): set<nat> { set i: nat | i < |segs| && IsName(segs[i]) }

  function UpsIn(segs: seq<string>): set<nat> { set i: nat | i < |segs| && segs[i] == ".." }

  lemma NamesMore(segs: seq<string>, n: nat)
    requires n == |segs| - 1
    ensures |NamesIn(segs)| == |NamesIn(segs[..n])| + if IsName(segs[n]) then 1 else 0
  {
    var before := NamesIn(segs[..n]);
    forall i: nat ensures i in NamesIn(segs) <==> i in before || (i == n && IsName(segs[n])) {
      if i < n { assert segs[..n][i] == segs[i]; }
    }
    assert NamesIn(segs) == before + if IsName(segs[n]) then {n} else {};
  }

  lemma UpsMore(segs: seq<string>, n: nat)
    requires n == |segs| - 1
    ensures |UpsIn(segs)| == |UpsIn(segs[..n])| + if segs[n] == ".." then 1 else 0
  {
    var before := UpsIn(segs[..n]);
    forall i: nat ensures i in UpsIn(segs) <==> i in before || (i == n && segs[n] == "..") {
      if i < n { assert segs[..n][i] == segs[i]; }
    }
    assert UpsIn(segs) == before + if segs[n] == ".." then {n} else {};
  }

  lemma {:induction false} HeightMeaning(segs: seq<string>)
    ensures Height(segs) == |NamesIn(segs)| - |UpsIn(segs)|
    decreases |segs|
  {
    if segs != [] {
      HeightMeaning(segs[..|segs| - 1]);
      NamesMore(segs, |segs| - 1);
      UpsMore(segs, |segs| - 1);
    }
  }

  /** From segment `i` on there are always more names than `..`. */
  ghost predicate Stays(segs: seq<string>, i: nat) {
    i < |segs| && IsName(segs[i]) && forall k :: i < k <= |segs| ==> |UpsIn(segs[i..k])| < |NamesIn(segs[i..k])|
  }

  lemma StaysIffSurvives(segs: seq<string>, i: nat)
    ensures Stays(segs, i) <==> Survives(segs, i)
  {
    if i < |segs| {
      forall k | i < k <= |segs| ensures Height(segs[i..k]) == |NamesIn(segs[i..k])| - |UpsIn(segs[i..k])| {
        HeightMeaning(segs[i..k]);
      }
    }
  }

  /** The walk fails when some prefix has more `..` than names, and otherwise leaves exactly the names that stay,
      in their order. */
  lemma WalkMeaning(segs: seq<string>) returns (at: seq<nat>)
    ensures Walk(segs).None? <==> exists k :: 0 <= k <= |segs| && |UpsIn(segs[..k])| > |NamesIn(segs[..k])|
    ensures Walk(segs).Some? ==>
              && |at| == |Walk(segs).value| && Ascending(at)
              && (forall i: nat :: i in at <==> Stays(segs, i))
              && forall x :: 0 <= x < |at| ==> at[x] < |segs| && Walk(segs).value[x] == segs[at[x]]
  {
    at := Places(segs);
    WalkIffNeverAbove(segs);
    forall k | 0 <= k <= |segs| ensures Height(segs[..k]) == |NamesIn(segs[..k])| - |UpsIn(segs[..k])| {
      HeightMeaning(segs[..k]);
    }
    if Walk(segs).Some? {
      PlacesFacts(segs);
      PlacesAscend(segs);
      forall x | 0 <= x < |at| ensures at[x] < |segs| && Walk(segs).value[x] == segs[at[x]] {
        assert Stacked(segs, at, x);
      }
      forall i: nat ensures i in at <==> Stays(segs, i) {
        StaysIffSurvives(segs, i);
        PlacesSurvive(segs, i);
        assert i in at <==> Placed(at, i);
      }
    }
  }

  // ---------------------------------------------------------------- the front and the result

  ghost predicate SlashedFrom(r: string, s: string) {
    |r| == |s| && forall i :: 0 <= i < |s| ==> r[i] == if s[i] == '\\' then '/' else s[i]
  }

  /** What stands before the names of the result, and the text whose segments are walked: a drive letter with a
      slash of either kind behind it, two backslashes, two slashes, or one. */
  ghost predicate FrontIs(text: string, front: string, rest: string) {
    || (|text| >= 3 && ('a' <= text[0] <= 'z' || 'A' <= text[0] <= 'Z') && text[1] == ':' && text[2] in "/\\"
        && front == text[..2] && SlashedFrom(rest, text[2..]))
    || (|text| >= 2 && text[0] == text[1] == '\\' && front == "/" && SlashedFrom(rest, text))
    || (|text| >= 2 && text[0] == text[1] == '/' && front == "/" && rest == text)
    || (|text| >= 1 && text[0] == '/' && (|text| == 1 || text[1] != '/') && front == "" && rest == text)
  }

  lemma FrontMeaning(text: string, front: string, rest: string)
    ensures Front(text) == Some((front, rest)) <==> FrontIs(text, front, rest)
  {
    var slashed := Slashed(text);
    if |text| >= 2 {
      assert text[..2] == [text[0], text[1]] && slashed[..2] == [slashed[0], slashed[1]];
      assert SlashedFrom(rest, text[2..]) <==> rest == slashed[2..];
    }
    assert SlashedFrom(rest, text) <==> rest == slashed;
    if |text| == 1 { assert text[..1] == [text[0]]; }
  }

  /** A slash before every name; a lone slash when there is none. */
  lemma RenderMeaning(front: string, parts: seq<string>, last: string)
    ensures Rendered(front, []) == front + "/" && Rendered(front, [last]) == front + "/" + last
    ensures parts != [] ==> Rendered(front, parts + [last]) == Rendered(front, parts) + "/" + last
  {
    assert (parts + [last])[..|parts|] == parts && [last][..0] == [];
    assert Joined([last]) == "/" + last;
    assert front + ((Joined(parts) + "/") + last) == (front + Joined(parts)) + "/" + last;
  }

  /** The whole normal form, faults first. */
  lemma NormalMeaning(chars: Chars, input: string) returns (lead: string, text: string)
    ensures input == lead + text && AllSpace(chars.isSpace, lead) && (text != "" ==> !chars.isSpace(text[0]))
    ensures Normal(chars, input) == Err(Empty) <==> text == ""
    ensures Normal(chars, input) == Err(ControlChar) <==> exists i :: 0 <= i < |text| && chars.isControl(text[i])
    ensures Normal(chars, input) == Err(Relative) <==>
              text != "" && (forall i :: 0 <= i < |text| ==> !chars.isControl(text[i]))
              && (forall front, rest :: !FrontIs(text, front, rest))
    ensures forall front, rest ::
            FrontIs(text, front, rest) && (forall i :: 0 <= i < |text| ==> !chars.isControl(text[i])) ==>
              Normal(chars, input) == match Walk(Split(rest, '/'))
                                      case None => Err(EscapesRoot)
                                      case Some(parts) => Ok(Rendered(front, parts))
  {
    lead := TrimmedStart(chars.isSpace, input);
    text := TrimStart(chars.isSpace, input);
    forall front, rest ensures Front(text) == Some((front, rest)) <==> FrontIs(text, front, rest) {
      FrontMeaning(text, front, rest);
    }
    if Front(text).Some? { assert FrontIs(text, Front(text).value.0, Front(text).value.1); }
  }

  // ---------------------------------------------------------------- components

  /** The components are the pieces between slashes that are not empty, in their order. */
  lemma {:induction false} PiecesMeaning(a: seq<string>, b: seq<string>, piece: string)
    ensures NonEmpty([]) == [] && NonEmpty([piece]) == if piece == "" then [] else [piece]
    ensures NonEmpty(a + b) == NonEmpty(a) + NonEmpty(b)
    decreases |a|
  {
    if a == [] {
      assert a + b == b;
    } else {
      assert (a + b)[0] == a[0] && (a + b)[1..] == a[1..] + b;
      PiecesMeaning(a[1..], b, piece);
    }
  }

  /** They are lowered below a drive letter and below two slashes only. */
  lemma ComponentsMeaning(lower: string -> string, path: string)
    ensures var pieces, parts := NonEmpty(Split(path, '/')), Components(lower, path);
            && |parts| == |pieces|
            && forall i :: 0 <= i < |parts| ==>
                 parts[i] == if |path| >= 2 && ((('a' <= path[0] <= 'z' || 'A' <= path[0] <= 'Z') && path[1] == ':')
                                                || (path[0] == path[1] == '/'))
                             then lower(pieces[i]) else pieces[i]
  {
    if |path| >= 2 { assert path[..2] == [path[0], path[1]]; }
  }

  // ---------------------------------------------------------------- the reported problems

  /** What is wrong with one entry, or between two, in plain terms. */
  ghost predicate Wrong(lower: string -> string, folders: seq<Folder>, norms: seq<Norm>, p: Problem)
    requires |folders| == |norms|
  {
    match p
    case IdNotCustom(i) => i < |folders| && !("cf_" <= folders[i].id)
    case DepthOutOfRange(i) => i < |folders| && (folders[i].scanDepth < 1 || folders[i].scanDepth > 4)
    case BadPath(i, fault) => i < |folders| && norms[i] == Err(fault)
    case DuplicateId(j, i) => i < j < |folders| && folders[i].id == folders[j].id
    case Overlap(j, i, r) =>
      i < j < |folders| && norms[i].Ok? && norms[j].Ok? && r == PathRelation(lower, norms[i].value, norms[j].value)
      && r != Disjoint
  }

  /** Entries before pairs; by entry, or by first and second entry; ids, depths, paths, and ids before overlaps. */
  predicate Sooner(p: Problem, q: Problem) {
    var a, b := Key(p), Key(q);
    a.0 < b.0 || (a.0 == b.0 && (a.1 < b.1 || (a.1 == b.1 && (a.2 < b.2 || (a.2 == b.2 && a.3 < b.3)))))
  }

  function Key(p: Problem): (nat, nat, nat, nat) {
    match p
    case IdNotCustom(i) => (0, i, 0, 0)
    case DepthOutOfRange(i) => (0, i, 0, 1)
    case BadPath(i, _) => (0, i, 0, 2)
    case DuplicateId(j, i) => (1, i, j, 0)
    case Overlap(j, i, _) => (1, i, j, 1)
  }

  ghost predicate InOrder(s: seq<Problem>) { forall i, j :: 0 <= i < j < |s| ==> Sooner(s[i], s[j]) }

  // ---------------------------------------------------------------- lists of lists

  /** The lists `f(lo)` to `f(n - 1)` one after the other. */
  function Flat(f: nat -> seq<Problem>, lo: nat, n: nat): seq<Problem> {
    if n <= lo then [] else Flat(f, lo, n - 1) + f(n - 1)
  }

  lemma {:induction false} FlatHas(f: nat -> seq<Problem>, lo: nat, n: nat, p: Problem)
    ensures p in Flat(f, lo, n) <==> exists k: nat :: lo <= k < n && p in f(k)
    decreases n
  {
    if n > lo { FlatHas(f, lo, n - 1, p); }
  }

  /** Each list is in order, and earlier lists hold sooner problems. */
  ghost predicate Rising(f: nat -> seq<Problem>, n: nat) {
    && (forall k: nat :: k < n ==> InOrder(f(k)))
    && (forall k: nat, l: nat, p, q :: k < l < n && p in f(k) && q in f(l) ==> Sooner(p, q))
  }

  lemma {:induction false} FlatInOrder(f: nat -> seq<Problem>, lo: nat, n: nat)
    requires Rising(f, n)
    ensures InOrder(Flat(f, lo, n))
    decreases n
  {
    if n > lo {
      FlatInOrder(f, lo, n - 1);
      forall p, q | p in Flat(f, lo, n - 1) && q in f(n - 1) ensures Sooner(p, q) { FlatHas(f, lo, n - 1, p); }
      OrderJoined(Flat(f, lo, n - 1), f(n - 1));
    }
  }

  lemma OrderJoined(a: seq<Problem>, b: seq<Problem>)
    requires InOrder(a) && InOrder(b) && forall p, q :: p in a && q in b ==> Sooner(p, q)
    ensures InOrder(a + b)
  {
    forall i, j | 0 <= i < j < |a + b| ensures Sooner((a + b)[i], (a + b)[j]) {
      if i < |a| <= j { assert a[i] in a && b[j - |a|] in b; }
    }
  }

  // ---------------------------------------------------------------- what is reported

  /** What is known of the entries and of the pairs. */
  datatype Facts = Facts(custom: nat -> bool, deep: nat -> bool, fault: nat -> Option<Fault>,
                         same: (nat, nat) -> bool, overlap: (nat, nat) -> Option<Relation>)

  function FactsOf(lower: string -> string, folders: seq<Folder>, norms: seq<Norm>): Facts
    requires |folders| == |norms|
  {
    var n := |folders|;
    Facts((i: nat) => i < n && "cf_" <= folders[i].id,
          (i: nat) => i < n && 1 <= folders[i].scanDepth <= 4,
          (i: nat) => if i < n && norms[i].Err? then Some(norms[i].error) else None,
          (i: nat, j: nat) => i < n && j < n && folders[i].id == folders[j].id,
          (i: nat, j: nat) => if i < n && j < n && norms[i].Ok? && norms[j].Ok?
                                 && PathRelation(lower, norms[i].value, norms[j].value) != Disjoint
                              then Some(PathRelation(lower, norms[i].value, norms[j].value)) else None)
  }

  function OwnList(x: Facts, i: nat): seq<Problem> {
    (if x.custom(i) then [] else [IdNotCustom(i)]) + (if x.deep(i) then [] else [DepthOutOfRange(i)])
    + (if x.fault(i).Some? then [BadPath(i, x.fault(i).value)] else [])
  }

  function PairList(x: Facts, i: nat, j: nat): seq<Problem> {
    (if x.same(i, j) then [DuplicateId(j, i)] else [])
    + (if x.overlap(i, j).Some? then [Overlap(j, i, x.overlap(i, j).value)] else [])
  }

  function OwnLists(x: Facts): nat -> seq<Problem> { (i: nat) => OwnList(x, i) }

  function PairLists(x: Facts, i: nat): nat -> seq<Problem> { (j: nat) => PairList(x, i, j) }

  function RowList(x: Facts, i: nat, n: nat): seq<Problem> { Flat(PairLists(x, i), i + 1, n) }

  function RowLists(x: Facts, n: nat): nat -> seq<Problem> { (i: nat) => RowList(x, i, n) }

  lemma OwnIs(lower: string -> string, folders: seq<Folder>, norms: seq<Norm>, i: nat)
    requires i < |folders| == |norms|
    ensures OwnProblems(folders[i], norms[i], i) == OwnList(FactsOf(lower, folders, norms), i)
  {
    var f := folders[i];
    if |f.id| >= 3 { assert f.id == f.id[..3] + f.id[3..]; }
    assert IsCustom(f.id) <==> "cf_" <= f.id;
  }

  lemma PairIs(lower: string -> string, folders: seq<Folder>, norms: seq<Norm>, i: nat, j: nat)
    requires i < j < |folders| == |norms|
    ensures PairProblems(lower, folders[i], folders[j], norms[i], norms[j], i, j) ==
            PairList(FactsOf(lower, folders, norms), i, j)
  {
  }

  /** The lists of the check are those of the facts. */
  ghost predicate Agree(lower: string -> string, folders: seq<Folder>, norms: seq<Norm>, x: Facts)
    requires |folders| == |norms|
  {
    && (forall i: nat :: i < |folders| ==> OwnProblems(folders[i], norms[i], i) == OwnList(x, i))
    && (forall i: nat, j: nat :: i < j < |folders| ==>
          PairProblems(lower, folders[i], folders[j], norms[i], norms[j], i, j) == PairList(x, i, j))
  }

  lemma {:induction false} AllOwnIs(lower: string -> string, folders: seq<Folder>, norms: seq<Norm>, x: Facts, n: nat)
    requires n <= |folders| == |norms| && Agree(lower, folders, norms, x)
    ensures AllOwn(folders, norms, n) == Flat(OwnLists(x), 0, n)
    decreases n
  {
    if n > 0 { AllOwnIs(lower, folders, norms, x, n - 1); }
  }

  lemma {:induction false} RowIs(lower: string -> string, folders: seq<Folder>, norms: seq<Norm>, x: Facts, i: nat,
                                 n: nat)
    requires i < n <= |folders| == |norms| && Agree(lower, folders, norms, x)
    ensures RowProblems(lower, folders, norms, i, n) == RowList(x, i, n)
    decreases n
  {
    if n > i + 1 {
      RowIs(lower, folders, norms, x, i, n - 1);
      RowListMore(x, i, n);
      RowMore(lower, folders, norms, i, n, RowList(x, i, n - 1), PairList(x, i, n - 1));
    }
  }

  lemma RowMore(lower: string -> string, folders: seq<Folder>, norms: seq<Norm>, i: nat, n: nat, before: seq<Problem>,
                pair: seq<Problem>)
    requires i + 1 < n <= |folders| == |norms| && before == RowProblems(lower, folders, norms, i, n - 1)
    requires pair == PairProblems(lower, folders[i], folders[n - 1], norms[i], norms[n - 1], i, n - 1)
    ensures RowProblems(lower, folders, norms, i, n) == before + pair
  {
  }

  lemma RowListMore(x: Facts, i: nat, n: nat)
    requires i + 1 < n
    ensures RowList(x, i, n) == RowList(x, i, n - 1) + PairList(x, i, n - 1)
  {
  }

  lemma {:induction false} AllPairsAre(lower: string -> string, folders: seq<Folder>, norms: seq<Norm>, x: Facts,
                                       n: nat)
    requires n <= |folders| == |norms| && Agree(lower, folders, norms, x)
    ensures AllPairs(lower, folders, norms, n) == Flat(RowLists(x, |folders|), 0, n)
    decreases n
  {
    if n > 0 {
      AllPairsAre(lower, folders, norms, x, n - 1);
      RowIs(lower, folders, norms, x, n - 1, |folders|);
    }
  }

  /** The problem is about one entry alone. */
  predicate Own(p: Problem) { p.IdNotCustom? || p.DepthOutOfRange? || p.BadPath? }

  predicate WrongBy(x: Facts, p: Problem) {
    match p
    case IdNotCustom(i) => !x.custom(i)
    case DepthOutOfRange(i) => !x.deep(i)
    case BadPath(i, fault) => x.fault(i) == Some(fault)
    case DuplicateId(j, i) => x.same(i, j)
    case Overlap(j, i, r) => x.overlap(i, j) == Some(r)
  }

  lemma OwnHas(x: Facts, i: nat, p: Problem)
    ensures p in OwnList(x, i) <==> Own(p) && p.at == i && WrongBy(x, p)
    ensures InOrder(OwnList(x, i))
  {
  }

  lemma PairHas(x: Facts, i: nat, j: nat, p: Problem)
    ensures p in PairList(x, i, j) <==> !Own(p) && p.of == i && p.at == j && WrongBy(x, p)
    ensures InOrder(PairList(x, i, j))
  {
  }

  lemma RowHas(x: Facts, i: nat, n: nat, p: Problem)
    ensures p in RowList(x, i, n) <==> !Own(p) && p.of == i && i < p.at < n && WrongBy(x, p)
  {
    FlatHas(PairLists(x, i), i + 1, n, p);
    if j: nat :| i < j < n && p in PairLists(x, i)(j) { PairHas(x, i, j, p); }
    if !Own(p) { PairHas(x, i, p.at, p); assert PairLists(x, i)(p.at) == PairList(x, i, p.at); }
  }

  lemma RowInOrder(x: Facts, i: nat, n: nat)
    ensures InOrder(RowList(x, i, n))
  {
    var f := PairLists(x, i);
    forall j: nat | j < n ensures InOrder(f(j)) { PairHas(x, i, j, IdNotCustom(0)); }
    forall k: nat, l: nat, p, q | k < l < n && p in f(k) && q in f(l) ensures Sooner(p, q) {
      PairHas(x, i, k, p);
      PairHas(x, i, l, q);
    }
    FlatInOrder(f, i + 1, n);
  }

  lemma OwnInOrder(x: Facts, n: nat)
    ensures InOrder(Flat(OwnLists(x), 0, n))
  {
    var f := OwnLists(x);
    forall k: nat | k < n ensures InOrder(f(k)) { OwnHas(x, k, IdNotCustom(0)); }
    forall k: nat, l: nat, p, q | k < l < n && p in f(k) && q in f(l) ensures Sooner(p, q) {
      OwnHas(x, k, p);
      OwnHas(x, l, q);
    }
    FlatInOrder(f, 0, n);
  }

  lemma OwnMeaning(x: Facts, n: nat, p: Problem)
    ensures p in Flat(OwnLists(x), 0, n) <==> Own(p) && p.at < n && WrongBy(x, p)
  {
    FlatHas(OwnLists(x), 0, n, p);
    if k: nat :| k < n && p in OwnLists(x)(k) { OwnHas(x, k, p); }
    if Own(p) { OwnHas(x, p.at, p); assert OwnLists(x)(p.at) == OwnList(x, p.at); }
  }

  lemma PairsInOrder(x: Facts, n: nat)
    ensures InOrder(Flat(RowLists(x, n), 0, n))
  {
    var f := RowLists(x, n);
    forall k: nat | k < n ensures InOrder(f(k)) { RowInOrder(x, k, n); }
    forall k: nat, l: nat, p, q | k < l < n && p in f(k) && q in f(l) ensures Sooner(p, q) {
      RowHas(x, k, n, p);
      RowHas(x, l, n, q);
    }
    FlatInOrder(f, 0, n);
  }

  lemma PairsMeaning(x: Facts, n: nat, p: Problem)
    ensures p in Flat(RowLists(x, n), 0, n) <==> !Own(p) && p.of < p.at < n && WrongBy(x, p)
  {
    FlatHas(RowLists(x, n), 0, n, p);
    if k: nat :| k < n && p in RowLists(x, n)(k) { RowHas(x, k, n, p); }
    if !Own(p) { RowHas(x, p.of, n, p); assert RowLists(x, n)(p.of) == RowList(x, p.of, n); }
  }

  /** Exactly what is wrong is reported, each problem once, entries before pairs and both in order. */
  lemma ProblemsMeaning(lower: string -> string, folders: seq<Folder>, norms: seq<Norm>)
    requires |folders| == |norms|
    ensures InOrder(Problems(lower, folders, norms))
    ensures forall p: Problem :: p in Problems(lower, folders, norms) <==> Wrong(lower, folders, norms, p)
  {
    var x, n := FactsOf(lower, folders, norms), |folders|;
    forall i: nat | i < n ensures OwnProblems(folders[i], norms[i], i) == OwnList(x, i) {
      OwnIs(lower, folders, norms, i);
    }
    forall i: nat, j: nat | i < j < n
      ensures PairProblems(lower, folders[i], folders[j], norms[i], norms[j], i, j) == PairList(x, i, j)
    {
      PairIs(lower, folders, norms, i, j);
    }
    ReportedInOrder(lower, folders, norms, x);
    forall p: Problem ensures p in Problems(lower, folders, norms) <==> Wrong(lower, folders, norms, p) {
      Reported(lower, folders, norms, x, p);
      WrongMeans(lower, folders, norms, p);
    }
  }

  lemma ReportedInOrder(lower: string -> string, folders: seq<Folder>, norms: seq<Norm>, x: Facts)
    requires |folders| == |norms| && Agree(lower, folders, norms, x)
    ensures InOrder(Problems(lower, folders, norms))
  {
    var n := |folders|;
    AllOwnIs(lower, folders, norms, x, n);
    AllPairsAre(lower, folders, norms, x, n);
    OwnInOrder(x, n);
    PairsInOrder(x, n);
    var own, pairs := Flat(OwnLists(x), 0, n), Flat(RowLists(x, n), 0, n);
    forall p, q | p in own && q in pairs ensures Sooner(p, q) {
      OwnMeaning(x, n, p);
      PairsMeaning(x, n, q);
    }
    OrderJoined(own, pairs);
  }

  lemma Reported(lower: string -> string, folders: seq<Folder>, norms: seq<Norm>, x: Facts, p: Problem)
    requires |folders| == |norms| && Agree(lower, folders, norms, x)
    ensures p in Problems(lower, folders, norms) <==>
              (if Own(p) then p.at < |folders| else p.of < p.at < |folders|) && WrongBy(x, p)
  {
    AllOwnIs(lower, folders, norms, x, |folders|);
    AllPairsAre(lower, folders, norms, x, |folders|);
    OwnMeaning(x, |folders|, p);
    PairsMeaning(x, |folders|, p);
  }

  lemma WrongMeans(lower: string -> string, folders: seq<Folder>, norms: seq<Norm>, p: Problem)
    requires |folders| == |norms|
    ensures Wrong(lower, folders, norms, p) <==>
              (if Own(p) then p.at < |folders| else p.of < p.at < |folders|)
                && WrongBy(FactsOf(lower, folders, norms), p)
  {
  }
}
