/** The hash index from `defName` text to the top-level nodes that carry it. */
module DefIndexing {
  import opened Wrappers
  import opened Arena
  import opened DefScan

  predicate Named(namesOf: map<Id, seq<string>>, x: Id, n: string) {
    x in namesOf && n in namesOf[x]
  }

  predicate Listed(byName: map<string, seq<Id>>, n: string, x: Id) {
    n in byName && x in byName[n]
  }

  /** The names the index holds for a node. */
  function IndexedNames(namesOf: map<Id, seq<string>>, x: Id): set<string> {
    if x in namesOf then set n | n in namesOf[x] else {}
  }

  /** The order-preserving removal of one handle from a list. */
  function Without(s: seq<Id>, x: Id): (r: seq<Id>)
    ensures forall y :: y in r <==> y in s && y != x
    ensures NoDup(s) ==> NoDup(r)
    ensures |r| <= |s|
  {
    if s == [] then []
    else
      var rest := Without(s[1..], x);
      assert forall y :: y in s <==> y == s[0] || y in s[1..];
      assert NoDup(s) ==> NoDup(s[1..]) && s[0] !in s[1..];
      if s[0] == x then rest else [s[0]] + rest
  }

  /** Inserts by document order; with `SortByOrder` this is the stable sort of the lookup. */
  function InsertByOrder(f: Forest, s: seq<Id>, x: Id): (r: seq<Id>)
    requires Distinct(f) && x in Ids(f) && x !in s && (forall y :: y in s ==> y in Ids(f)) && InOrder(f, s)
    ensures InOrder(f, r)
    ensures forall y :: y in r <==> y in s || y == x
  {
    if s == [] then [x]
    else
      PosFacts(f, x, s[0]);
      if Pos(f, x) < Pos(f, s[0]) then [x] + s
      else
        var rest := InsertByOrder(f, s[1..], x);
        assert forall y :: y in s <==> y == s[0] || y in s[1..];
        assert forall y :: y in s[1..] ==> Pos(f, s[0]) < Pos(f, y);
        assert forall i :: 0 <= i < |rest| ==> rest[i] in rest;
        [s[0]] + rest
  }

  function SortByOrder(f: Forest, s: seq<Id>): (r: seq<Id>)
    requires Distinct(f) && NoDup(s) && forall y :: y in s ==> y in Ids(f)
    ensures InOrder(f, r)
    ensures forall y :: y in r <==> y in s
  {
    if s == [] then []
    else
      assert forall y :: y in s <==> y == s[0] || y in s[1..];
      InsertByOrder(f, SortByOrder(f, s[1..]), s[0])
  }

  /** The texts of the `defName` children, each once. */
  method ChildNames(kids: Forest) returns (names: seq<string>)
    ensures NoDup(names) && (set n | n in names) == Names(kids)
  {
    names := [];
    var cur := kids;
    while cur.Node?
      invariant NoDup(names)
      invariant (set n | n in names) + Names(cur) == Names(kids)
      decreases cur
    {
      if cur.kind.Element? && cur.name == DEF_NAME_TAG {
        var v := StringValue(cur);
        if v !in names {
          assert (set n | n in names + [v]) == (set n | n in names) + {v};
          names := names + [v];
        }
      }
      cur := cur.next;
    }
  }

  class DefIndex {
    var byName: map<string, seq<Id>>
    var namesOf: map<Id, seq<string>>

    /** The two maps are mutual inverses, hold no empty list and no repeated entry. */
    ghost predicate Valid()
      reads this
    {
      && (forall x :: x in namesOf ==> namesOf[x] != [] && NoDup(namesOf[x]))
      && (forall n :: n in byName ==> byName[n] != [] && NoDup(byName[n]))
      && (forall x, n :: Named(namesOf, x, n) <==> Listed(byName, n, x))
    }

    constructor ()
      ensures Valid() && namesOf == map[] && byName == map[]
    {
      byName, namesOf := map[], map[];
    }

    constructor Build(f: Forest, root: Id)
      requires Distinct(f)
      ensures Valid()
      ensures forall x :: IndexedNames(namesOf, x) == Live(KidsOf(f, root), x)
    {
      byName, namesOf := map[], map[];
      new;
      var tops := KidsOf(f, root);
      KidsOfFacts(f, root);
      forall x ensures LevelAt(tops, x).Node? <==> x in Level(tops) { LevelAtFacts(tops, x); }
      var cur := tops;
      while cur.Node?
        invariant Valid() && Distinct(cur) && Level(cur) <= Level(tops)
        invariant forall x :: IndexedNames(namesOf, x) == if x in Level(cur) then {} else Live(tops, x)
        invariant forall x :: x in Level(cur) ==> LevelAt(cur, x) == LevelAt(tops, x)
        decreases cur
      {
        ghost var before := namesOf;
        LevelAtFacts(cur.next, cur.id);
        AtOfLevel(f, root, cur.id);
        if cur.kind.Element? {
          Add(f, cur.id);
        }
        assert Live(tops, cur.id) == if cur.kind.Element? then Names(cur.kids) else {};
        assert forall x :: x != cur.id ==> IndexedNames(namesOf, x) == IndexedNames(before, x);
        cur := cur.next;
      }
      forall x ensures IndexedNames(namesOf, x) == Live(tops, x) { LevelAtFacts(tops, x); }
    }

    lemma EmptyIsAbsent(x: Id)
      requires Valid()
      ensures IndexedNames(namesOf, x) == {} <==> x !in namesOf
    {
      if x in namesOf { assert namesOf[x][0] in IndexedNames(namesOf, x); }
    }

    method Add(f: Forest, top: Id)
      requires Valid() && IndexedNames(namesOf, top) == {}
      modifies this
      ensures Valid()
      ensures IndexedNames(namesOf, top) == Names(KidsOf(f, top))
      ensures forall x :: x != top ==>
                (x in namesOf <==> x in old(namesOf)) && IndexedNames(namesOf, x) == IndexedNames(old(namesOf), x)
    {
      EmptyIsAbsent(top);
      var names := ChildNames(KidsOf(f, top));
      List(top, names);
      if names != [] {
        namesOf := namesOf[top := names];
      }
    }

    /** Appends the node to the list of each name. */
    method List(top: Id, names: seq<string>)
      requires Valid() && top !in namesOf && NoDup(names)
      modifies this`byName
      ensures forall n :: n in byName ==> byName[n] != [] && NoDup(byName[n])
      ensures forall x, n :: Listed(byName, n, x) <==> Named(namesOf, x, n) || (x == top && n in names)
    {
      for i := 0 to |names|
        invariant forall n :: n in byName ==> byName[n] != [] && NoDup(byName[n])
        invariant forall x, n :: Listed(byName, n, x) <==> Named(namesOf, x, n) || (x == top && n in names[..i])
      {
        var n := names[i];
        assert names[..i + 1] == names[..i] + [n];
        assert n !in names[..i];
        assert !Listed(byName, n, top);
        ghost var before := byName;
        byName := byName[n := (if n in byName then byName[n] else []) + [top]];
        assert forall x :: Listed(byName, n, x) <==> Listed(before, n, x) || x == top;
        assert forall x, m :: m != n ==> (Listed(byName, m, x) <==> Listed(before, m, x));
      }
      assert names[..|names|] == names;
    }

    method Forget(top: Id)
      requires Valid()
      modifies this
      ensures Valid()
      ensures namesOf == old(namesOf) - {top}
    {
      if top in namesOf {
        var names := namesOf[top];
        namesOf := namesOf - {top};
        var i := 0;
        while i < |names|
          invariant 0 <= i <= |names|
          invariant namesOf == old(namesOf) - {top}
          invariant forall n :: n in byName ==> byName[n] != [] && NoDup(byName[n])
          invariant forall x, n :: Listed(byName, n, x) <==> Named(namesOf, x, n) || (x == top && n in names[i..])
        {
          var n := names[i];
          assert names[i..] == [n] + names[i + 1..];
          assert NoDup(names);
          assert n !in names[i + 1..];
          ghost var before := byName;
          if n in byName {
            var list := Without(byName[n], top);
            if list == [] {
              byName := byName - {n};
            } else {
              byName := byName[n := list];
            }
          }
          assert forall x :: Listed(byName, n, x) <==> Listed(before, n, x) && x != top;
          assert forall x, m :: m != n ==> (Listed(byName, m, x) <==> Listed(before, m, x));
          i := i + 1;
        }
      }
    }

    method Reindex(f: Forest, root: Id, top: Id)
      requires Valid() && Distinct(f)
      modifies this
      ensures Valid()
      ensures IndexedNames(namesOf, top) == Live(KidsOf(f, root), top)
      ensures forall x :: x != top ==>
              (x in namesOf <==> x in old(namesOf)) && IndexedNames(namesOf, x) == IndexedNames(old(namesOf), x)
    {
      Forget(top);
      ParentIff(f, top, root);
      LevelAtFacts(KidsOf(f, root), top);
      KidsOfFacts(f, root);
      AtFacts(f, top);
      if top in Ids(f) && At(f, top).Node? && At(f, top).kind.Element? && ParentOf(f, top) == Some(root) {
        AtOfLevel(f, root, top);
        Add(f, top);
      } else if top in Level(KidsOf(f, root)) {
        AtOfLevel(f, root, top);
      }
    }

    /** A lookup in an index that agrees with the document is the scan of the document. */
    method LookupKeys(f: Forest, root: Id, keys: seq<DefKey>) returns (found: seq<Id>)
      requires Valid() && Distinct(f)
      requires forall x :: IndexedNames(namesOf, x) == Live(KidsOf(f, root), x)
      ensures found == ScanDefs(KidsOf(f, root), keys)
    {
      found := [];
      var k := 0;
      while k < |keys|
        invariant 0 <= k <= |keys|
        invariant NoDup(found)
        invariant forall x :: x in found <==> Hit(f, keys[..k], x)
      {
        var list := if keys[k].name in byName then byName[keys[k].name] else [];
        ghost var before := found;
        var i := 0;
        while i < |list|
          invariant 0 <= i <= |list|
          invariant NoDup(found)
          invariant forall x :: x in found <==> x in before || (x in list[..i] && HasName(f, x, keys[k].defType))
        {
          var id := list[i];
          assert list[..i + 1] == list[..i] + [id];
          if HasName(f, id, keys[k].defType) && id !in found {
            found := found + [id];
          }
          i := i + 1;
        }
        assert list[..i] == list;
        forall x ensures x in found <==> Hit(f, keys[..k + 1], x) {
          assert x in list <==> Named(namesOf, x, keys[k].name) by {
            assert Listed(byName, keys[k].name, x) <==> x in list;
          }
          HitStep(f, keys, k, x);
        }
        k := k + 1;
      }
      assert keys[..k] == keys;
      var tops := KidsOf(f, root);
      KidsOfFacts(f, root);
      forall x ensures x in found <==> x in ScanDefs(tops, keys) {
        HitIsScanned(f, root, keys, x);
      }
      ScanLevel(tops, keys);
      forall x | x in found ensures x in Ids(f) { LevelAtFacts(tops, x); }
      found := SortByOrder(f, found);
      ScanInOrder(tops, keys);
      ghost var base := PosShift(f, root);
      assert InOrder(f, ScanDefs(tops, keys)) by {
        forall x | x in ScanDefs(tops, keys) ensures x in Ids(tops) { LevelAtFacts(tops, x); }
      }
      OrderedListingUnique(f, found, ScanDefs(tops, keys));
    }

    ghost predicate Hit(f: Forest, keys: seq<DefKey>, x: Id)
      reads this
    {
      exists i :: 0 <= i < |keys| && Named(namesOf, x, keys[i].name) && HasName(f, x, keys[i].defType)
    }

    lemma HitStep(f: Forest, keys: seq<DefKey>, k: nat, x: Id)
      requires k < |keys|
      ensures Hit(f, keys[..k + 1], x) <==>
              Hit(f, keys[..k], x) || (Named(namesOf, x, keys[k].name) && HasName(f, x, keys[k].defType))
    {
      var more := keys[..k + 1];
      assert forall i :: 0 <= i < k ==> more[i] == keys[..k][i];
      assert more[k] == keys[k];
    }

    lemma HitIsScanned(f: Forest, root: Id, keys: seq<DefKey>, x: Id)
      requires Distinct(f)
      requires IndexedNames(namesOf, x) == Live(KidsOf(f, root), x)
      ensures Hit(f, keys, x) <==> x in ScanDefs(KidsOf(f, root), keys)
    {
      var tops := KidsOf(f, root);
      KidsOfFacts(f, root);
      ScanMembers(tops, keys, x);
      LevelAtFacts(tops, x);
      assert forall n :: Named(namesOf, x, n) <==> n in IndexedNames(namesOf, x);
      if x in Level(tops) { AtOfLevel(f, root, x); }
    }
  }

  /** The element name test of a lookup. */
  predicate HasName(f: Forest, id: Id, name: string) {
    var n := At(f, id);
    n.Node? && n.kind.Element? && n.name == name
  }
}
