/** Databases told by the positions of the members in the document: which are entries, which were replaced or
    skipped by which, and in what order. */
module DatabaseMeaning {
  import opened Wrappers
  import opened Database

  // ---------------------------------------------------------------- the statements

  /** The member comes from a mod, and no earlier member of that mod has its name. */
  predicate FirstOfMod(members: seq<Def>, k: nat) {
    && k < |members| && members[k].modIdx.Some?
    && forall j :: 0 <= j < k ==> members[j].modIdx != members[k].modIdx || members[j].name != members[k].name
  }

  /** The member comes from a mod that has its name already. */
  predicate LaterOfMod(members: seq<Def>, k: nat) {
    k < |members| && members[k].modIdx.Some? && !FirstOfMod(members, k)
  }

  /** Mods of the order come first, as they stand in it; then the others by number. */
  predicate Precedes(order: seq<nat>, m: nat, n: nat) {
    if m in order then n !in order || exists i, j :: 0 <= i < j < |order| && order[i] == m && order[j] == n
    else n !in order && m < n
  }

  /** Member `a` comes before member `b`: mods in their order, each in document order, what patches created last. */
  predicate Before(members: seq<Def>, order: seq<nat>, a: nat, b: nat) {
    && a < |members| && b < |members|
    && (match (members[a].modIdx, members[b].modIdx)
        case (Some(m), Some(n)) => if m == n then a < b else Precedes(order, m, n)
        case (Some(_), None) => true
        case (None, Some(_)) => false
        case (None, None) => a < b)
  }

  ghost predicate InOrder(members: seq<Def>, order: seq<nat>, at: seq<nat>) {
    forall i, j :: 0 <= i < j < |at| ==> Before(members, order, at[i], at[j])
  }

  /** `s` is what stands at the positions `at` of `list`, in ascending order. */
  ghost predicate Picked(list: seq<Def>, at: seq<nat>, s: seq<Def>) {
    && |s| == |at| && Ascending(at) && forall x :: 0 <= x < |at| ==> at[x] < |list| && s[x] == list[at[x]]
  }

  function DefsAt(members: seq<Def>, at: seq<nat>): seq<Def>
    requires forall x :: 0 <= x < |at| ==> at[x] < |members|
  {
    seq(|at|, x requires 0 <= x < |at| => members[at[x]])
  }

  /** Skip `x` keeps the first of the mod and name, which stands before the skipped one. */
  predicate SkipsTo(members: seq<Def>, pair: (Def, Def), l: nat) {
    && l < |members|
    && exists k :: 0 <= k < l && pair == (members[k], members[l]) && members[k].name == members[l].name
                   && members[k].modIdx == members[l].modIdx && FirstOfMod(members, k)
  }

  // ---------------------------------------------------------------- picking

  /** One more def of the list is looked at, and picked if it is to be kept. */
  lemma PickMore(list: seq<Def>, at: seq<nat>, s: seq<Def>, n: nat, keep: bool) returns (at': seq<nat>)
    requires n == |list| - 1 && Picked(list[..n], at, s)
    ensures at' == at + (if keep then [n] else [])
    ensures Picked(list, at', s + if keep then [list[n]] else [])
    ensures forall k: nat :: k in at' <==> k in at || (keep && k == n)
    ensures forall k: nat :: k in at ==> k < n
  {
    at' := at + if keep then [n] else [];
    forall x | 0 <= x < |at| ensures at[x] < n && s[x] == list[at[x]] { assert at[x] < |list[..n]|; }
    forall k: nat | k in at ensures k < n { var x :| 0 <= x < |at| && at[x] == k; }
  }

  /** The members of one mod in document order. */
  lemma {:induction false} ByModAt(members: seq<Def>, m: nat) returns (at: seq<nat>)
    ensures Picked(members, at, ByMod(members, m))
    ensures forall k: nat :: k in at <==> k < |members| && members[k].modIdx == Some(m)
    decreases |members|
  {
    at := [];
    if members != [] {
      var n := |members| - 1;
      var before := ByModAt(members[..n], m);
      at := PickMore(members, before, ByMod(members[..n], m), n, members[n].modIdx == Some(m));
      forall k: nat ensures k in at <==> k < |members| && members[k].modIdx == Some(m) {
        if k < n { assert members[..n][k] == members[k]; }
      }
    }
  }

  lemma {:induction false} CreatedAt(members: seq<Def>) returns (at: seq<nat>)
    ensures Picked(members, at, Created(members))
    ensures forall k: nat :: k in at <==> k < |members| && members[k].modIdx == None
    decreases |members|
  {
    at := [];
    if members != [] {
      var n := |members| - 1;
      var before := CreatedAt(members[..n]);
      at := PickMore(members, before, Created(members[..n]), n, members[n].modIdx == None);
      forall k: nat ensures k in at <==> k < |members| && members[k].modIdx == None {
        if k < n { assert members[..n][k] == members[k]; }
      }
    }
  }

  /** No earlier def of the list has the name. */
  predicate NewName(list: seq<Def>, k: nat) { k < |list| && !Has(list[..k], list[k].name) }

  lemma NewNameBefore(list: seq<Def>, n: nat, k: nat)
    requires k < n <= |list|
    ensures NewName(list[..n], k) <==> NewName(list, k)
  {
    assert list[..n][..k] == list[..k] && list[..n][k] == list[k];
  }

  /** The first of each name. */
  lemma {:induction false} FirstsAt(list: seq<Def>) returns (at: seq<nat>)
    ensures Picked(list, at, Firsts(list))
    ensures forall k: nat :: k in at <==> NewName(list, k)
    decreases |list|
  {
    at := [];
    if list != [] {
      var n := |list| - 1;
      var before := FirstsAt(list[..n]);
      at := PickMore(list, before, Firsts(list[..n]), n, NewName(list, n));
      forall k: nat ensures k in at <==> NewName(list, k) {
        if k < n { NewNameBefore(list, n, k); }
      }
    }
  }

  lemma PickTwice(list: seq<Def>, at: seq<nat>, s: seq<Def>, at2: seq<nat>, s2: seq<Def>) returns (both: seq<nat>)
    requires Picked(list, at, s) && Picked(s, at2, s2)
    ensures Picked(list, both, s2) && |both| == |at2| && forall x :: 0 <= x < |at2| ==> both[x] == at[at2[x]]
    ensures forall k: nat :: k in both <==> exists x: nat :: x in at2 && x < |at| && at[x] == k
  {
    both := seq(|at2|, x requires 0 <= x < |at2| => at[at2[x]]);
    forall k | k in both ensures exists x: nat :: x in at2 && x < |at| && at[x] == k {
      var y :| 0 <= y < |both| && both[y] == k;
      assert at2[y] in at2;
    }
    forall k | exists x: nat :: x in at2 && x < |at| && at[x] == k ensures k in both {
      var x: nat :| x in at2 && x < |at| && at[x] == k;
      var y :| 0 <= y < |at2| && at2[y] == x;
      assert both[y] == k;
    }
  }

  /** A position that is picked, with where it is picked. */
  lemma PickOf(list: seq<Def>, at: seq<nat>, s: seq<Def>, k: nat) returns (x: nat)
    requires Picked(list, at, s) && k in at
    ensures x < |at| && at[x] == k && k < |list| && s[x] == list[k]
  {
    x :| 0 <= x < |at| && at[x] == k;
  }

  /** In the list of one mod a def is the first of its name exactly when it is in the mod. */
  lemma FirstThereIffInMod(members: seq<Def>, m: nat, at: seq<nat>, list: seq<Def>, x: nat)
    requires Picked(members, at, list) && x < |at|
    requires forall k: nat :: k in at <==> k < |members| && members[k].modIdx == Some(m)
    ensures NewName(list, x) <==> FirstOfMod(members, at[x])
  {
    var k := at[x];
    assert k in at;
    if Has(list[..x], list[x].name) {
      var y :| 0 <= y < x && list[..x][y].name == list[x].name;
      assert at[y] < k && at[y] in at && members[at[y]].name == members[k].name;
    }
    if !FirstOfMod(members, k) {
      var j :| 0 <= j < k && members[j].modIdx == members[k].modIdx && members[j].name == members[k].name;
      assert j in at;
      var y := PickOf(members, at, list, j);
      assert y < x && list[..x][y] == members[j];
    }
  }

  lemma ModFirsts(members: seq<Def>, m: nat) returns (at: seq<nat>)
    ensures Picked(members, at, Firsts(ByMod(members, m)))
    ensures forall k: nat :: k in at <==> FirstOfMod(members, k) && members[k].modIdx == Some(m)
  {
    var list := ByMod(members, m);
    var inMod := ByModAt(members, m);
    var firsts := FirstsAt(list);
    at := PickTwice(members, inMod, list, firsts, Firsts(list));
    forall k: nat ensures k in at <==> FirstOfMod(members, k) && members[k].modIdx == Some(m) {
      if k in at {
        var x: nat :| x in firsts && x < |inMod| && inMod[x] == k;
        assert k in inMod;
        FirstThereIffInMod(members, m, inMod, list, x);
      }
      if FirstOfMod(members, k) && members[k].modIdx == Some(m) {
        assert k in inMod;
        var x := PickOf(members, inMod, list, k);
        FirstThereIffInMod(members, m, inMod, list, x);
        assert x in firsts;
      }
    }
  }

  /** The skips of one list, by what is skipped. */
  ghost predicate PickedPairs(list: seq<Def>, at: seq<nat>, pairs: seq<(Def, Def)>) {
    && |pairs| == |at| && Ascending(at) && forall x :: 0 <= x < |at| ==> at[x] < |list|
  }

  lemma {:induction false} SkipsAt(list: seq<Def>) returns (at: seq<nat>)
    ensures PickedPairs(list, at, Skips(list))
    ensures forall k: nat :: k in at <==> k < |list| && !NewName(list, k)
    ensures forall x :: 0 <= x < |at| ==> KeepsFirst(list, Skips(list)[x], at[x])
    decreases |list|
  {
    at := [];
    if list != [] {
      var n := |list| - 1;
      var before := SkipsAt(list[..n]);
      at := before + if NewName(list, n) then [] else [n];
      forall x | 0 <= x < |before| ensures before[x] < n && KeepsFirst(list, Skips(list[..n])[x], before[x]) {
        KeepsFirstLater(list, n, Skips(list[..n])[x], before[x]);
      }
      forall k: nat ensures k in at <==> k < |list| && !NewName(list, k) {
        if k < n { NewNameBefore(list, n, k); }
      }
    }
  }

  lemma KeepsFirstLater(list: seq<Def>, n: nat, pair: (Def, Def), l: nat)
    requires n <= |list| && KeepsFirst(list[..n], pair, l)
    ensures KeepsFirst(list, pair, l) && l < n
  {
    assert list[..n][..l] == list[..l];
  }

  /** The pair is that of a def of the list and the first of its name before it. */
  predicate KeepsFirst(list: seq<Def>, pair: (Def, Def), l: nat) {
    l < |list| && Has(list[..l], list[l].name) && pair == (FirstOf(list[..l], list[l].name), list[l])
  }

  lemma ModSkips(members: seq<Def>, m: nat) returns (at: seq<nat>)
    ensures PickedPairs(members, at, Skips(ByMod(members, m)))
    ensures forall k: nat :: k in at <==> LaterOfMod(members, k) && members[k].modIdx == Some(m)
    ensures forall x :: 0 <= x < |at| ==> SkipsTo(members, Skips(ByMod(members, m))[x], at[x])
  {
    var list := ByMod(members, m);
    var inMod := ByModAt(members, m);
    var skips := SkipsAt(list);
    at := seq(|skips|, x requires 0 <= x < |skips| => inMod[skips[x]]);
    LaterInMod(members, m, inMod, list, skips, at);
    forall x | 0 <= x < |at| ensures SkipsTo(members, Skips(list)[x], at[x]) {
      KeptInMod(members, m, inMod, list, skips[x], Skips(list)[x]);
    }
  }

  lemma LaterInMod(members: seq<Def>, m: nat, inMod: seq<nat>, list: seq<Def>, skips: seq<nat>, at: seq<nat>)
    requires Picked(members, inMod, list)
    requires forall k: nat :: k in inMod <==> k < |members| && members[k].modIdx == Some(m)
    requires forall k: nat :: k in skips <==> k < |list| && !NewName(list, k)
    requires |at| == |skips| && forall x :: 0 <= x < |at| ==> skips[x] < |inMod| && at[x] == inMod[skips[x]]
    ensures forall k: nat :: k in at <==> LaterOfMod(members, k) && members[k].modIdx == Some(m)
  {
    forall k: nat | k in at ensures LaterOfMod(members, k) && members[k].modIdx == Some(m) {
      var y :| 0 <= y < |at| && at[y] == k;
      assert skips[y] in skips && k in inMod;
      FirstThereIffInMod(members, m, inMod, list, skips[y]);
    }
    forall k: nat | LaterOfMod(members, k) && members[k].modIdx == Some(m) ensures k in at {
      assert k in inMod;
      var x := PickOf(members, inMod, list, k);
      FirstThereIffInMod(members, m, inMod, list, x);
      assert x in skips;
      var y :| 0 <= y < |skips| && skips[y] == x;
      assert at[y] == k;
    }
  }

  lemma KeptInMod(members: seq<Def>, m: nat, inMod: seq<nat>, list: seq<Def>, l: nat, pair: (Def, Def))
    requires Picked(members, inMod, list) && l < |inMod|
    requires forall k: nat :: k in inMod <==> k < |members| && members[k].modIdx == Some(m)
    requires KeepsFirst(list, pair, l)
    ensures SkipsTo(members, pair, inMod[l])
  {
    var k := FirstOfFacts(list[..l], list[l].name);
    assert list[..l][..k] == list[..k] && list[..l][k] == list[k];
    assert inMod[k] in inMod && inMod[l] in inMod && inMod[k] < inMod[l];
    FirstThereIffInMod(members, m, inMod, list, k);
  }

  // ---------------------------------------------------------------- all mods

  /** `s` is what stands at the positions `at` of `list`, in any order. */
  ghost predicate Listed(list: seq<Def>, at: seq<nat>, s: seq<Def>) {
    |s| == |at| && forall x :: 0 <= x < |at| ==> at[x] < |list| && s[x] == list[at[x]]
  }

  ghost predicate NoTwice(order: seq<nat>) { forall i, j :: 0 <= i < j < |order| ==> order[i] != order[j] }

  /** All of `at` come from mods of the order. */
  ghost predicate FromOrder(members: seq<Def>, order: seq<nat>, at: seq<nat>) {
    forall x :: 0 <= x < |at| ==>
      at[x] < |members| && members[at[x]].modIdx.Some? && members[at[x]].modIdx.value in order
  }

  /** The next mod of the order goes behind the ones before it. */
  lemma OneModMore(members: seq<Def>, order: seq<nat>, n: nat, a: seq<nat>, b: seq<nat>)
    requires n == |order| - 1 && Ascending(b)
    requires FromOrder(members, order[..n], a) && FromOrder(members, [order[n]], b)
    requires NoTwice(order[..n]) ==> InOrder(members, order[..n], a)
    ensures FromOrder(members, order, a + b)
    ensures NoTwice(order) ==> InOrder(members, order, a + b)
  {
    var all := a + b;
    assert order == order[..n] + [order[n]];
    forall x | 0 <= x < |all|
      ensures all[x] < |members| && members[all[x]].modIdx.Some? && members[all[x]].modIdx.value in order {
      if x >= |a| { assert all[x] == b[x - |a|]; }
    }
    if NoTwice(order) {
      assert NoTwice(order[..n]);
      forall i, j | 0 <= i < j < |all| ensures Before(members, order, all[i], all[j]) {
        if j < |a| {
          assert Before(members, order[..n], a[i], a[j]);
          PrecedesLater(order, n, members[a[i]].modIdx.value, members[a[j]].modIdx.value);
        } else if i < |a| {
          assert all[j] == b[j - |a|] && members[all[j]].modIdx == Some(order[n]);
          LastInOrder(order, n, members[a[i]].modIdx.value);
        } else {
          assert all[i] == b[i - |a|] && all[j] == b[j - |a|];
        }
      }
    }
  }

  lemma PrecedesLater(order: seq<nat>, n: nat, m: nat, k: nat)
    requires n < |order| && m in order[..n] && k in order[..n]
    requires m != k ==> Precedes(order[..n], m, k)
    ensures m != k ==> Precedes(order, m, k)
  {
    if m != k {
      var i, j :| 0 <= i < j < n && order[..n][i] == m && order[..n][j] == k;
      assert order[i] == m && order[j] == k;
    }
  }

  lemma LastInOrder(order: seq<nat>, n: nat, m: nat)
    requires n == |order| - 1 && m in order[..n] && NoTwice(order)
    ensures m != order[n] && Precedes(order, m, order[n])
  {
    var i :| 0 <= i < n && order[..n][i] == m;
    assert order[i] == m && order[n] == order[n];
  }

  lemma InOrderMore(order: seq<nat>, n: nat)
    requires n == |order| - 1
    ensures forall m: nat :: m in order <==> m in order[..n] || m == order[n]
  {
    assert order == order[..n] + [order[n]];
  }

  lemma ListedMore(list: seq<Def>, a: seq<nat>, s: seq<Def>, b: seq<nat>, t: seq<Def>)
    requires Listed(list, a, s) && Listed(list, b, t)
    ensures Listed(list, a + b, s + t)
  {
  }

  lemma {:induction false} ContributedAt(members: seq<Def>, order: seq<nat>) returns (at: seq<nat>)
    ensures Listed(members, at, Contributed(members, order)) && FromOrder(members, order, at)
    ensures forall k: nat :: k in at <==> FirstOfMod(members, k) && members[k].modIdx.value in order
    ensures NoTwice(order) ==> InOrder(members, order, at)
    decreases |order|
  {
    at := [];
    if order != [] {
      var n := |order| - 1;
      var before := ContributedAt(members, order[..n]);
      var more := ModFirsts(members, order[n]);
      at := before + more;
      ListedMore(members, before, Contributed(members, order[..n]), more, Firsts(ByMod(members, order[n])));
      InOrderMore(order, n);
      forall x | 0 <= x < |more| ensures members[more[x]].modIdx == Some(order[n]) { assert more[x] in more; }
      OneModMore(members, order, n, before, more);
    }
  }

  /** The skips, each by the position of what is skipped. */
  ghost predicate SkippedAt(members: seq<Def>, at: seq<nat>, pairs: seq<(Def, Def)>) {
    |pairs| == |at| && forall x :: 0 <= x < |at| ==> SkipsTo(members, pairs[x], at[x])
  }

  lemma SkippedMore(members: seq<Def>, a: seq<nat>, pairs: seq<(Def, Def)>, b: seq<nat>, more: seq<(Def, Def)>)
    requires SkippedAt(members, a, pairs) && SkippedAt(members, b, more)
    ensures SkippedAt(members, a + b, pairs + more)
  {
    forall x | 0 <= x < |a + b| ensures SkipsTo(members, (pairs + more)[x], (a + b)[x]) {
      if x >= |a| {
        assert SkipsTo(members, more[x - |a|], b[x - |a|]);
      } else {
        assert SkipsTo(members, pairs[x], a[x]);
      }
    }
  }

  lemma {:induction false} AllSkipsAt(members: seq<Def>, order: seq<nat>) returns (at: seq<nat>)
    ensures SkippedAt(members, at, AllSkips(members, order)) && FromOrder(members, order, at)
    ensures forall k: nat :: k in at <==> LaterOfMod(members, k) && members[k].modIdx.value in order
    ensures NoTwice(order) ==> InOrder(members, order, at)
    decreases |order|
  {
    at := [];
    if order != [] {
      var n := |order| - 1;
      var before := AllSkipsAt(members, order[..n]);
      var more := ModSkips(members, order[n]);
      at := before + more;
      SkippedMore(members, before, AllSkips(members, order[..n]), more, Skips(ByMod(members, order[n])));
      InOrderMore(order, n);
      forall x | 0 <= x < |more| ensures LaterOfMod(members, more[x]) && members[more[x]].modIdx == Some(order[n]) {
        assert more[x] in more;
      }
      OneModMore(members, order, n, before, more);
    }
  }

  // ---------------------------------------------------------------- the mods outside the order

  lemma UnorderedMods(members: seq<Def>, modOrder: seq<nat>)
    ensures var rest := Unordered(members, modOrder);
            && (forall k :: 0 <= k < |members| && members[k].modIdx.Some? ==>
              members[k].modIdx.value in modOrder + rest)
            && (forall m :: m in rest ==> m !in modOrder) && Ascending(rest)
            && (NoTwice(modOrder) ==> NoTwice(modOrder + rest))
  {
    var rest := Unordered(members, modOrder);
    UnorderedFacts(members, modOrder);
    forall k | 0 <= k < |members| && members[k].modIdx.Some? ensures members[k].modIdx.value in modOrder + rest {
      var m := members[k].modIdx.value;
      var at := ByModAt(members, m);
      assert k in at;
      assert ByMod(members, m) != [];
    }
    forall i, j | NoTwice(modOrder) && 0 <= i < j < |modOrder + rest|
      ensures (modOrder + rest)[i] != (modOrder + rest)[j]
    {
      if j >= |modOrder| { assert (modOrder + rest)[j] == rest[j - |modOrder|] && rest[j - |modOrder|] in rest; }
    }
  }

  lemma OrderOfAll(modOrder: seq<nat>, rest: seq<nat>, m: nat, n: nat)
    requires Ascending(rest) && (forall x :: x in rest ==> x !in modOrder)
    requires m in modOrder + rest && n in modOrder + rest && m != n && Precedes(modOrder + rest, m, n)
    ensures NoTwice(modOrder) ==> Precedes(modOrder, m, n)
  {
    var all := modOrder + rest;
    var i, j :| 0 <= i < j < |all| && all[i] == m && all[j] == n;
    if i >= |modOrder| {
      assert rest[i - |modOrder|] == m && rest[j - |modOrder|] == n;
      assert m in rest && n in rest;
    } else if j >= |modOrder| {
      assert rest[j - |modOrder|] == n;
      assert n in rest && modOrder[i] == m;
    } else {
      assert modOrder[i] == m && modOrder[j] == n;
    }
  }

  /** Sorted by the whole order is sorted by the given one and the number of the others. */
  lemma InGivenOrder(members: seq<Def>, modOrder: seq<nat>, at: seq<nat>)
    requires NoTwice(modOrder)
    requires var order := modOrder + Unordered(members, modOrder);
             FromOrder(members, order, at) && InOrder(members, order, at)
    ensures InOrder(members, modOrder, at)
  {
    var rest := Unordered(members, modOrder);
    UnorderedMods(members, modOrder);
    forall i, j | 0 <= i < j < |at| ensures Before(members, modOrder, at[i], at[j]) {
      assert Before(members, modOrder + rest, at[i], at[j]);
      var m, n := members[at[i]].modIdx.value, members[at[j]].modIdx.value;
      if m != n { OrderOfAll(modOrder, rest, m, n); }
    }
  }

  lemma SequenceAt(members: seq<Def>, modOrder: seq<nat>) returns (at: seq<nat>)
    ensures Listed(members, at, Sequence(members, modOrder))
    ensures forall k: nat :: k in at <==> FirstOfMod(members, k) || (k < |members| && members[k].modIdx.None?)
    ensures NoTwice(modOrder) ==> InOrder(members, modOrder, at)
  {
    var order := modOrder + Unordered(members, modOrder);
    UnorderedMods(members, modOrder);
    var mods := ContributedAt(members, order);
    var created := CreatedAt(members);
    at := mods + created;
    ListedMore(members, mods, Contributed(members, order), created, Created(members));
    forall x | 0 <= x < |created| ensures created[x] < |members| && members[created[x]].modIdx.None? {
      assert created[x] in created;
    }
    if NoTwice(modOrder) {
      InGivenOrder(members, modOrder, mods);
      CreatedLast(members, modOrder, order, mods, created);
    }
  }

  lemma CreatedLast(members: seq<Def>, modOrder: seq<nat>, order: seq<nat>, mods: seq<nat>, created: seq<nat>)
    requires InOrder(members, modOrder, mods) && FromOrder(members, order, mods) && Ascending(created)
    requires forall x :: 0 <= x < |created| ==> created[x] < |members| && members[created[x]].modIdx.None?
    ensures InOrder(members, modOrder, mods + created)
  {
    var at := mods + created;
    forall i, j | 0 <= i < j < |at| ensures Before(members, modOrder, at[i], at[j]) {
      if j < |mods| {
        assert Before(members, modOrder, mods[i], mods[j]);
      } else {
        assert at[j] == created[j - |mods|];
      }
      if i >= |mods| { assert at[i] == created[i - |mods|]; }
    }
  }

  // ---------------------------------------------------------------- the database

  lemma {:induction false} WithoutAt(s: seq<Def>, name: string) returns (at: seq<nat>)
    ensures Picked(s, at, WithoutName(s, name))
    ensures forall k: nat :: k in at <==> k < |s| && s[k].name != name
    decreases |s|
  {
    at := [];
    if s != [] {
      var n := |s| - 1;
      var before := WithoutAt(s[..n], name);
      at := PickMore(s, before, WithoutName(s[..n], name), n, s[n].name != name);
      forall k: nat ensures k in at <==> k < |s| && s[k].name != name {
        if k < n { assert s[..n][k] == s[k]; }
      }
    }
  }

  /** No later addition has the name. */
  predicate NoneLater(c: seq<Def>, k: nat) { k < |c| && forall l :: k < l < |c| ==> c[l].name != c[k].name }

  lemma {:induction false} EntriesAt(c: seq<Def>) returns (at: seq<nat>)
    ensures Picked(c, at, KeepLast(c))
    ensures forall k: nat :: k in at <==> NoneLater(c, k)
    decreases |c|
  {
    at := [];
    if c != [] {
      var n := |c| - 1;
      var was := EntriesAt(c[..n]);
      var kept := WithoutAt(KeepLast(c[..n]), c[n].name);
      var both := PickTwice(c[..n], was, KeepLast(c[..n]), kept, WithoutName(KeepLast(c[..n]), c[n].name));
      at := PickMore(c, both, WithoutName(KeepLast(c[..n]), c[n].name), n, true);
      forall k: nat ensures k in at <==> NoneLater(c, k) {
        if k < n {
          NoneLaterBefore(c, n, k);
          StillPicked(c, n, was, kept, both, KeepLast(c[..n]), k);
        }
      }
    }
  }

  lemma NoneLaterBefore(c: seq<Def>, n: nat, k: nat)
    requires k < n == |c| - 1
    ensures NoneLater(c, k) <==> NoneLater(c[..n], k) && c[k].name != c[n].name
  {
    assert forall l :: 0 <= l < n ==> c[..n][l] == c[l];
  }

  lemma StillPicked(c: seq<Def>, n: nat, was: seq<nat>, kept: seq<nat>, both: seq<nat>, s: seq<Def>, k: nat)
    requires k < n == |c| - 1 && Picked(c[..n], was, s)
    requires forall x: nat :: x in kept <==> x < |s| && s[x].name != c[n].name
    requires forall j: nat :: j in both <==> exists x: nat :: x in kept && x < |was| && was[x] == j
    ensures k in both <==> k in was && c[k].name != c[n].name
  {
    if k in both {
      var x: nat :| x in kept && x < |was| && was[x] == k;
      assert s[x] == c[..n][k] == c[k];
    }
    if k in was && c[k].name != c[n].name {
      var x := PickOf(c[..n], was, s, k);
      assert x in kept && was[x] == k;
    }
  }

  /** The pair of addition `l` with the last one before it that has its name. */
  predicate ReplacesLast(c: seq<Def>, pair: (Def, Def), l: nat) {
    && l < |c|
    && exists k :: 0 <= k < l && pair == (c[k], c[l]) && c[k].name == c[l].name
                   && forall x :: k < x < l ==> c[x].name != c[l].name
  }

  lemma {:induction false} PairsAt(c: seq<Def>) returns (at: seq<nat>)
    ensures |at| == |Pairs(c)| && Ascending(at) && forall x :: 0 <= x < |at| ==> ReplacesLast(c, Pairs(c)[x], at[x])
    ensures forall l: nat :: l in at <==> l < |c| && !NewName(c, l)
    decreases |c|
  {
    at := [];
    if c != [] {
      var n := |c| - 1;
      var before := PairsAt(c[..n]);
      at := before + if NewName(c, n) then [] else [n];
      forall x | 0 <= x < |before| ensures before[x] < n && ReplacesLast(c, Pairs(c[..n])[x], before[x]) {
        ReplacesLater(c, n, Pairs(c[..n])[x], before[x]);
      }
      if !NewName(c, n) { ReplacesNow(c, n); }
      forall l: nat ensures l in at <==> l < |c| && !NewName(c, l) {
        if l < n { NewNameBefore(c, n, l); }
      }
    }
  }

  lemma ReplacesLater(c: seq<Def>, n: nat, pair: (Def, Def), l: nat)
    requires n <= |c| && ReplacesLast(c[..n], pair, l)
    ensures ReplacesLast(c, pair, l) && l < n
  {
    assert forall k :: 0 <= k < n ==> c[..n][k] == c[k];
  }

  lemma ReplacesNow(c: seq<Def>, n: nat)
    requires n == |c| - 1 && Has(c[..n], c[n].name)
    ensures ReplacesLast(c, (LastOf(c[..n], c[n].name), c[n]), n)
  {
    var k := LastOfFacts(c[..n], c[n].name);
    assert forall x :: 0 <= x < n ==> c[..n][x] == c[x];
  }

  /** What is added is, in its order, the first of each name in each mod and all that patches created. An entry
      is an addition with none of its name after it. */
  lemma EntriesMeaning(members: seq<Def>, modOrder: seq<nat>, db: Database) returns (adds: seq<nat>, kept: seq<nat>)
    requires Built(members, modOrder, db)
    ensures forall k: nat :: k in adds <==> FirstOfMod(members, k) || (k < |members| && members[k].modIdx.None?)
    ensures NoTwice(modOrder) ==> InOrder(members, modOrder, adds)
    ensures forall x :: 0 <= x < |adds| ==> adds[x] < |members|
    ensures Picked(DefsAt(members, adds), kept, db.entries)
    ensures forall x: nat :: x in kept <==> NoneLater(DefsAt(members, adds), x)
  {
    adds := SequenceAt(members, modOrder);
    assert DefsAt(members, adds) == Sequence(members, modOrder);
    kept := EntriesAt(Sequence(members, modOrder));
  }

  /** Each overridden pair is an addition and the last one of its name before it, in the order of the additions. */
  lemma OverriddenMeaning(members: seq<Def>, modOrder: seq<nat>, db: Database) returns (adds: seq<nat>, again: seq<nat>)
    requires Built(members, modOrder, db)
    ensures forall k: nat :: k in adds <==> FirstOfMod(members, k) || (k < |members| && members[k].modIdx.None?)
    ensures NoTwice(modOrder) ==> InOrder(members, modOrder, adds)
    ensures forall x :: 0 <= x < |adds| ==> adds[x] < |members|
    ensures var c := DefsAt(members, adds);
            && (forall x: nat :: x in again <==> x < |c| && !NewName(c, x))
            && Ascending(again) && |db.overridden| == |again|
            && forall x :: 0 <= x < |again| ==> ReplacesLast(c, db.overridden[x], again[x])
  {
    adds := SequenceAt(members, modOrder);
    assert DefsAt(members, adds) == Sequence(members, modOrder);
    again := PairsAt(Sequence(members, modOrder));
  }

  /** Skipped is every def whose mod has its name already, and what is kept is the first of that name there. */
  lemma SkippedMeaning(members: seq<Def>, modOrder: seq<nat>, db: Database) returns (skips: seq<nat>)
    requires Built(members, modOrder, db)
    ensures forall k: nat :: k in skips <==> LaterOfMod(members, k)
    ensures NoTwice(modOrder) ==> InOrder(members, modOrder, skips)
    ensures |db.skipped| == |skips| && forall x :: 0 <= x < |skips| ==> SkipsTo(members, db.skipped[x], skips[x])
  {
    var order := modOrder + Unordered(members, modOrder);
    UnorderedMods(members, modOrder);
    skips := AllSkipsAt(members, order);
    if NoTwice(modOrder) { InGivenOrder(members, modOrder, skips); }
  }

  /** Every entry stands in the document, and one from a mod is the first member of its mod and name. */
  lemma EntryIsFirst(members: seq<Def>, modOrder: seq<nat>, db: Database, d: Def) returns (k: nat)
    requires Built(members, modOrder, db) && d in db.entries
    ensures k < |members| && members[k] == d && (d.modIdx.Some? ==> FirstOfMod(members, k))
  {
    var adds, kept := EntriesMeaning(members, modOrder, db);
    var e :| 0 <= e < |db.entries| && db.entries[e] == d;
    k := adds[kept[e]];
    assert k in adds;
  }

  /** Every name that is there has an entry, and looking a name up finds exactly its entry. */
  lemma LookupMeaning(members: seq<Def>, modOrder: seq<nat>, db: Database)
    requires Built(members, modOrder, db)
    ensures forall name, d :: name in db.byName && db.byName[name] == d <==> d in db.entries && d.name == name
    ensures forall k :: 0 <= k < |members| ==> members[k].name in db.byName
  {
    LookupInverse(Sequence(members, modOrder), db.byName);
    EntriesFacts(Sequence(members, modOrder));
    forall k | 0 <= k < |members| ensures members[k].name in db.byName { NameAdded(members, modOrder, k); }
  }

  lemma NameAdded(members: seq<Def>, modOrder: seq<nat>, k: nat)
    requires k < |members|
    ensures Has(Sequence(members, modOrder), members[k].name)
    decreases k
  {
    if LaterOfMod(members, k) {
      var j :| 0 <= j < k && members[j].modIdx == members[k].modIdx && members[j].name == members[k].name;
      NameAdded(members, modOrder, j);
    } else {
      var adds := SequenceAt(members, modOrder);
      assert k in adds;
      var x :| 0 <= x < |adds| && adds[x] == k;
      assert Sequence(members, modOrder)[x] == members[k];
    }
  }
}
