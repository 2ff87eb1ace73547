/** Which version folder a mod loads, and which files a load plan contributes. */
module LoadPlan {
  import opened Wrappers
  import opened Sorting
  import Diagnostics

  // ---------------------------------------------------------------- the nearest version folder

  datatype Version = Version(major: nat, minor: nat)

  predicate AtMost(a: Version, b: Version) { a.major < b.major || (a.major == b.major && a.minor <= b.minor) }

  lemma VersionsOrdered()
    ensures TotalOrder(AtMost)
  {
    forall a, b, c
      ensures (AtMost(a, b) || AtMost(b, a)) && (AtMost(a, b) && AtMost(b, a) ==> a == b)
              && (AtMost(a, b) && AtMost(b, c) ==> AtMost(a, c))
    {
    }
  }

  /** What the search must answer: the greatest usable version not above the game's; failing that the
      least usable one, marked newer; none without a usable one. Major version zero is not usable. */
  ghost predicate Nearest(found: multiset<Version>, current: Version, r: Option<(Version, bool)>) {
    match r
    case Some((v, newer)) =>
      && v in found && v.major > 0
      && (newer <==> !AtMost(v, current))
      && (if newer then forall w :: w in found && w.major > 0 ==> !AtMost(w, current) && AtMost(v, w)
          else forall w :: w in found && w.major > 0 && AtMost(w, current) ==> AtMost(w, v))
    case None => forall w :: w in found ==> w.major == 0
  }

  /** The state of the search after the versions `seen`, in ascending order. */
  ghost predicate Searched(seen: seq<Version>, current: Version, chosen: Version) {
    if chosen.major == 0 then forall i :: 0 <= i < |seen| ==> seen[i].major == 0
    else
      && chosen in seen
      && (if AtMost(chosen, current)
          then forall i :: 0 <= i < |seen| && AtMost(seen[i], current) ==> AtMost(seen[i], chosen)
          else forall i :: 0 <= i < |seen| && seen[i].major > 0 ==>
                             !AtMost(seen[i], current) && AtMost(chosen, seen[i]))
  }

  method NearestVersionDir(dirs: seq<string>, parse: string -> Option<Version>, current: Version)
    returns (r: Option<(Version, bool)>)
    ensures Nearest(multiset(Parsed(dirs, parse)), current, r)
  {
    var found := Parsed(dirs, parse);
    var sorted := Folded(AtMost, [], found);
    VersionsOrdered();
    FoldedFacts(AtMost, [], found);
    var chosen := Search(sorted, current);
    SearchDone(sorted, found, current, chosen);
    r := if chosen.major > 0 then Some((chosen, !AtMost(chosen, current))) else None;
  }

  /** The next choice of the search. */
  function Next(chosen: Version, item: Version, current: Version): Version {
    if (!AtMost(item, chosen) || !AtMost(chosen, current)) && (AtMost(item, current) || chosen.major == 0) then item
      else chosen
  }

  method Search(sorted: seq<Version>, current: Version) returns (chosen: Version)
    requires Sorted(AtMost, sorted)
    ensures Searched(sorted, current, chosen)
  {
    chosen := Version(0, 0);
    for k := 0 to |sorted|
      invariant Searched(sorted[..k], current, chosen)
    {
      var item := sorted[k];
      SearchStep(sorted[..k], item, current, chosen);
      assert sorted[..k + 1] == sorted[..k] + [item];
      chosen := Next(chosen, item, current);
    }
    assert sorted[..|sorted|] == sorted;
  }

  /** One item of the loop, major version zero and all. */
  lemma SearchStep(seen: seq<Version>, item: Version, current: Version, chosen: Version)
    requires Searched(seen, current, chosen) && forall i :: 0 <= i < |seen| ==> AtMost(seen[i], item)
    ensures Searched(seen + [item], current, Next(chosen, item, current))
  {
    var all := seen + [item];
    assert item in all;
    if chosen in seen { assert chosen in all; }
    forall i | 0 <= i < |all| ensures all[i] == item || (i < |seen| && all[i] == seen[i]) {}
    if chosen.major > 0 { var j :| 0 <= j < |seen| && seen[j] == chosen; }
  }

  lemma SearchDone(sorted: seq<Version>, found: seq<Version>, current: Version, chosen: Version)
    requires Searched(sorted, current, chosen) && multiset(sorted) == multiset(found)
    ensures Nearest(multiset(found), current, if chosen.major > 0 then Some((chosen, !AtMost(chosen, current)))
            else None)
  {
    forall w | w in multiset(found) ensures exists i :: 0 <= i < |sorted| && sorted[i] == w {
      assert w in multiset(sorted);
    }
    if chosen.major > 0 { assert chosen in multiset(sorted); }
  }

  /** The answer is unique, so it does not depend on the order the folders are listed in. */
  lemma NearestUnique(found: multiset<Version>, current: Version, r: Option<(Version, bool)>,
                      r': Option<(Version, bool)>)
    requires Nearest(found, current, r) && Nearest(found, current, r')
    ensures r == r'
  {
  }

  /** In numbers: a version folder not above the game's version is answered as it is, and none of those is
      greater; when all usable ones are above it the least is, marked newer. */
  lemma NearestMeaning(found: multiset<Version>, current: Version, v: Version)
    ensures Nearest(found, current, Some((v, false))) <==>
              && v in found && v.major > 0
              && (v.major < current.major || (v.major == current.major && v.minor <= current.minor))
              && (forall w :: w in found && w.major > 0 ==>
                    || w.major > current.major || (w.major == current.major && w.minor > current.minor)
                    || w.major < v.major || (w.major == v.major && w.minor <= v.minor))
    ensures Nearest(found, current, Some((v, true))) <==>
              && v in found && v.major > 0
              && (forall w :: w in found && w.major > 0 ==>
                    && (w.major > current.major || (w.major == current.major && w.minor > current.minor))
                    && (w.major > v.major || (w.major == v.major && w.minor >= v.minor)))
    ensures Nearest(found, current, None) <==> forall w :: w in found ==> w.major == 0
  {
  }

  /** The versions looked at are those that some folder's name stands for. */
  lemma {:induction false} ParsedMeaning(dirs: seq<string>, parse: string -> Option<Version>, v: Version)
    ensures v in Parsed(dirs, parse) <==> exists i :: 0 <= i < |dirs| && parse(dirs[i]) == Some(v)
    decreases |dirs|
  {
    if dirs != [] {
      var n := |dirs| - 1;
      ParsedMeaning(dirs[..n], parse, v);
      assert forall i :: 0 <= i < n ==> dirs[..n][i] == dirs[i];
      if i :| 0 <= i < |dirs| && parse(dirs[i]) == Some(v) { assert i < n ==> parse(dirs[..n][i]) == Some(v); }
    }
  }

  function Parsed(dirs: seq<string>, parse: string -> Option<Version>): seq<Version>
    decreases |dirs|
  {
    if dirs == [] then []
    else
      var n := |dirs| - 1;
      Parsed(dirs[..n], parse) + (match parse(dirs[n]) case Some(v) => [v] case None => [])
  }

  // ---------------------------------------------------------------- the files of a plan

  /** A file: the folder of the plan and the path relative to the listed directory. */
  datatype FileRef = FileRef(folder: nat, rel: string)

  predicate TextAtMost(a: string, b: string) { !Diagnostics.CmpText(a, b).Greater? }

  lemma TextsOrdered()
    ensures TotalOrder(TextAtMost)
  {
    forall a, b, c
      ensures (TextAtMost(a, b) || TextAtMost(b, a)) && (TextAtMost(a, b) && TextAtMost(b, a) ==> a == b)
              && (TextAtMost(a, b) && TextAtMost(b, c) ==> TextAtMost(a, c))
    {
      Diagnostics.TextsLawful(a, b, c);
    }
  }

  /** Paths are compared at the first character in which they differ, a prefix first. */
  lemma PathOrder(a: string, b: string)
    ensures Before(a, b) <==> Diagnostics.TextBefore(a, b)
  {
    Diagnostics.TextOrder(a, b);
  }

  /** What a folder of the plan lists; none when the directory is missing. */
  datatype Listing = Missing | Files(rels: seq<string>)

  predicate Offers(listings: seq<Listing>, accepts: string -> bool, f: nat, rel: string) {
    f < |listings| && listings[f].Files? && rel in listings[f].rels && accepts(rel)
  }

  predicate Before(a: string, b: string) { TextAtMost(a, b) && a != b }

  ghost predicate StrictlySorted(s: seq<string>) {
    forall i, j :: 0 <= i < j < |s| ==> Before(s[i], s[j])
  }

  function Accepted(rels: seq<string>, accepts: string -> bool): seq<string>
    decreases |rels|
  {
    if rels == [] then []
    else
      var n := |rels| - 1;
      Accepted(rels[..n], accepts) + (if accepts(rels[n]) then [rels[n]] else [])
  }

  lemma {:induction false} AcceptedFacts(rels: seq<string>, accepts: string -> bool)
    ensures forall r :: r in Accepted(rels, accepts) <==> r in rels && accepts(r)
    decreases |rels|
  {
    if rels != [] {
      AcceptedFacts(rels[..|rels| - 1], accepts);
      assert rels == rels[..|rels| - 1] + [rels[|rels| - 1]];
    }
  }

  /** Drops repetitions of neighbours. */
  function Deduped(s: seq<string>): seq<string>
    decreases |s|
  {
    if |s| < 2 then s
    else
      var n := |s| - 1;
      Deduped(s[..n]) + (if s[n] == s[n - 1] then [] else [s[n]])
  }

  lemma {:induction false} DedupedFacts(s: seq<string>)
    requires Sorted(TextAtMost, s) && TotalOrder(TextAtMost)
    ensures StrictlySorted(Deduped(s))
    ensures forall r :: r in Deduped(s) <==> r in s
    ensures s != [] ==> Deduped(s) != [] && Deduped(s)[|Deduped(s)| - 1] == s[|s| - 1]
    decreases |s|
  {
    if |s| >= 2 {
      var n := |s| - 1;
      DedupedFacts(s[..n]);
      assert s == s[..n] + [s[n]];
      assert TextAtMost(s[n - 1], s[n]);
      var d := Deduped(s[..n]);
      if s[n] != s[n - 1] {
        forall i | 0 <= i < |d| ensures Before(d[i], s[n]) { LastIsGreatest(d, i, s[n]); }
      }
    }
  }

  lemma LastIsGreatest(d: seq<string>, i: nat, next: string)
    requires TotalOrder(TextAtMost) && StrictlySorted(d) && i < |d| && Before(d[|d| - 1], next)
    ensures Before(d[i], next)
  {
    if i < |d| - 1 {
      assert Before(d[i], d[|d| - 1]);
      LeTrans(TextAtMost, d[i], d[|d| - 1], next);
      LeTotal(TextAtMost, d[i], d[|d| - 1]);
    }
  }

  /** The sorted, duplicate-free accepted names of a listing, and that only their set matters. */
  method SortedRels(rels: seq<string>, accepts: string -> bool) returns (sorted: seq<string>)
    ensures StrictlySorted(sorted)
    ensures forall r :: r in sorted <==> r in rels && accepts(r)
  {
    var kept := Accepted(rels, accepts);
    AcceptedFacts(rels, accepts);
    TextsOrdered();
    FoldedFacts(TextAtMost, [], kept);
    var all := Folded(TextAtMost, [], kept);
    DedupedFacts(all);
    forall r ensures r in all <==> r in kept { assert r in multiset(all) <==> r in multiset(kept); }
    sorted := Deduped(all);
  }

  /** Folder by folder in visiting order, and by name inside a folder. */
  ghost predicate Earlier(up: bool, a: FileRef, b: FileRef) {
    (if up then a.folder < b.folder else a.folder > b.folder) || (a.folder == b.folder && Before(a.rel, b.rel))
  }

  ghost predicate Ordered(up: bool, out: seq<FileRef>) {
    forall i, j :: 0 <= i < j < |out| ==> Earlier(up, out[i], out[j])
  }

  /** Which files a plan contributes: for assemblies every offered file, otherwise the offers no
      earlier folder makes. */
  ghost predicate Contributes(listings: seq<Listing>, accepts: string -> bool, assemblies: bool, f: FileRef) {
    && Offers(listings, accepts, f.folder, f.rel)
    && (assemblies || forall g: nat :: g < f.folder ==> !Offers(listings, accepts, g, f.rel))
  }

  /** Lists the files a plan contributes. Assemblies go from the last folder to the first and keep
      every file; everything else goes from the first folder on and the first offer of a path wins. */
  method CollectFiles(listings: seq<Listing>, accepts: string -> bool, assemblies: bool) returns (out: seq<FileRef>)
    ensures Ordered(!assemblies, out)
    ensures forall f :: f in out <==> Contributes(listings, accepts, assemblies, f)
  {
    out := [];
    var seen: set<string> := {};
    for k := 0 to |listings|
      invariant Ordered(!assemblies, out)
      invariant forall f :: f in out ==> Visited(|listings|, assemblies, k, f.folder)
      invariant forall f :: f in out <==> Listed(listings, accepts, assemblies, k, f)
      invariant !assemblies ==> forall r :: r in seen <==> exists g: nat :: g < k && Offers(listings, accepts, g, r)
    {
      var index := if assemblies then |listings| - 1 - k else k;
      if listings[index].Files? {
        var rels := SortedRels(listings[index].rels, accepts);
        ghost var before := seen;
        var picked;
        picked, seen := PickRels(index, rels, assemblies, seen);
        FolderAdded(listings, accepts, assemblies, k, index, rels, before, out, picked);
        out := out + picked;
      }
    }
  }

  /** A file that the first `k` folders visited contribute. */
  ghost predicate Listed(listings: seq<Listing>, accepts: string -> bool, assemblies: bool, k: nat, f: FileRef) {
    Visited(|listings|, assemblies, k, f.folder) && Contributes(listings, accepts, assemblies, f)
  }

  ghost predicate Visited(n: nat, assemblies: bool, k: nat, folder: nat) {
    folder < n && (if assemblies then folder >= n - k else folder < k)
  }

  /** The files of one folder. */
  method PickRels(index: nat, rels: seq<string>, assemblies: bool, seen: set<string>)
    returns (picked: seq<FileRef>, seen': set<string>)
    requires StrictlySorted(rels)
    ensures forall i, j :: 0 <= i < j < |picked| ==> Before(picked[i].rel, picked[j].rel)
    ensures forall f :: f in picked <==> f.folder == index && f.rel in rels && (assemblies || f.rel !in seen)
    ensures if assemblies then seen' == seen else seen' == seen + set r | r in rels
  {
    picked, seen' := [], seen;
    for k := 0 to |rels|
      invariant forall i, j :: 0 <= i < j < |picked| ==> Before(picked[i].rel, picked[j].rel)
      invariant forall i :: 0 <= i < |picked| ==> picked[i].rel in rels[..k]
      invariant forall f :: f in picked <==> f.folder == index && f.rel in rels[..k] && (assemblies || f.rel !in seen)
      invariant if assemblies then seen' == seen else seen' == seen + set r | r in rels[..k]
    {
      assert rels[..k + 1] == rels[..k] + [rels[k]];
      assert rels[k] !in rels[..k] by {
        forall i | 0 <= i < k ensures rels[..k][i] != rels[k] { assert Before(rels[i], rels[k]); }
      }
      if assemblies || rels[k] !in seen' {
        forall i | 0 <= i < |picked| ensures Before(picked[i].rel, rels[k]) {
          var j :| 0 <= j < k && rels[..k][j] == picked[i].rel;
          assert Before(rels[j], rels[k]);
        }
        picked := picked + [FileRef(index, rels[k])];
      }
      if !assemblies {
        seen' := seen' + {rels[k]};
      }
    }
    assert rels[..|rels|] == rels;
  }

  lemma FolderAdded(listings: seq<Listing>, accepts: string -> bool, assemblies: bool, k: nat, index: nat,
                    rels: seq<string>,
                    seen: set<string>, out: seq<FileRef>, picked: seq<FileRef>)
    requires k < |listings| && index == (if assemblies then |listings| - 1 - k else k)
    requires forall r :: r in rels <==> Offers(listings, accepts, index, r)
    requires !assemblies ==> forall r :: r in seen <==> exists g: nat :: g < k && Offers(listings, accepts, g, r)
    requires Ordered(!assemblies, out)
    requires forall f :: f in out <==> Listed(listings, accepts, assemblies, k, f)
    requires forall i, j :: 0 <= i < j < |picked| ==> Before(picked[i].rel, picked[j].rel)
    requires forall f :: f in picked <==> f.folder == index && f.rel in rels && (assemblies || f.rel !in seen)
    ensures Ordered(!assemblies, out + picked)
    ensures forall f :: f in out + picked <==> Listed(listings, accepts, assemblies, k + 1, f)
  {
    var all := out + picked;
    forall i, j | 0 <= i < j < |all| ensures Earlier(!assemblies, all[i], all[j]) {
      if j >= |out| {
        assert all[j] in picked;
        if i < |out| { assert all[i] in out; } else { assert all[i] in picked; }
      }
    }
    forall f ensures f in all <==> Listed(listings, accepts, assemblies, k + 1, f) {
      assert f in all <==> f in out || f in picked;
    }
  }

  /** An ordered list is determined by its members: the result does not depend on the order in which a
      directory lists its files. */
  lemma {:induction false} OrderedUnique(up: bool, a: seq<FileRef>, b: seq<FileRef>)
    requires Ordered(up, a) && Ordered(up, b) && forall f :: f in a <==> f in b
    ensures a == b
    decreases |a|
  {
    assert |b| > 0 ==> b[0] in b;
    assert |a| > 0 ==> a[0] in a;
    if |a| > 0 {
      TextsOrdered();
      var i :| 0 <= i < |b| && b[i] == a[0];
      var j :| 0 <= j < |a| && a[j] == b[0];
      SameFirst(up, a, b, i, j);
      forall f ensures f in a[1..] <==> f in b[1..] {
        assert f in a <==> f == a[0] || f in a[1..];
        assert f in b <==> f == b[0] || f in b[1..];
        HeadOnce(up, a);
        HeadOnce(up, b);
      }
      OrderedUnique(up, a[1..], b[1..]);
    }
  }

  lemma SameFirst(up: bool, a: seq<FileRef>, b: seq<FileRef>, i: nat, j: nat)
    requires TotalOrder(TextAtMost) && Ordered(up, a) && Ordered(up, b)
    requires i < |b| && j < |a| && b[i] == a[0] && a[j] == b[0]
    ensures a[0] == b[0]
  {
    LeTotal(TextAtMost, a[0].rel, b[0].rel);
  }

  lemma HeadOnce(up: bool, a: seq<FileRef>)
    requires Ordered(up, a) && |a| > 0
    ensures a[0] !in a[1..]
  {
    forall i | 0 <= i < |a[1..]| ensures a[1..][i] != a[0] { assert Earlier(up, a[0], a[i + 1]); }
  }
}
