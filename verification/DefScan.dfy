/** What the XPath `Defs/Type[defName="x" or ...]` selects by scanning the live document.

    A definition is an element child of `Defs`; it matches a key when its element name is the key's
    type and any of its `defName` children has the key's name as its string value. */
module DefScan {
  import opened Wrappers
  import opened Arena

  const DEFS_TAG := "Defs"
  const DEF_NAME_TAG := "defName"

  datatype DefKey = DefKey(defType: string, name: string)

  /** The string values of the `defName` children. */
  function Names(kids: Forest): set<string> {
    match kids
    case Nil => {}
    case Node(_, kind, name, _, _, _, next) =>
      (if kind.Element? && name == DEF_NAME_TAG then {StringValue(kids)} else {}) + Names(next)
  }

  predicate Matches(n: Forest, keys: seq<DefKey>)
    requires n.Node?
  {
    n.kind.Element? && exists i :: 0 <= i < |keys| && keys[i].defType == n.name && keys[i].name in Names(n.kids)
  }

  /** The members of one child list that match a key, in document order. */
  function ScanDefs(kids: Forest, keys: seq<DefKey>): seq<Id> {
    match kids
    case Nil => []
    case Node(id, _, _, _, _, _, next) =>
      (if Matches(kids, keys) then [id] else []) + ScanDefs(next, keys)
  }

  /** The whole expression from the document node: every child named `Defs` is entered. */
  function ScanDocument(kids: Forest, keys: seq<DefKey>): seq<Id> {
    match kids
    case Nil => []
    case Node(_, kind, name, _, _, below, next) =>
      (if kind.Element? && name == DEFS_TAG then ScanDefs(below, keys) else []) + ScanDocument(next, keys)
  }

  /** The names under which member `x` of the child list of `Defs` must be found. */
  function Live(tops: Forest, x: Id): set<string> {
    var t := LevelAt(tops, x);
    if t.Node? && t.kind.Element? then Names(t.kids) else {}
  }

  // ---------------------------------------------------------------- the scan as a set, and its order

  /** A handle is found by the scan exactly when it is a top-level element live under some key. */
  lemma {:induction tops} ScanMembers(tops: Forest, keys: seq<DefKey>, x: Id)
    requires Distinct(tops)
    ensures x in ScanDefs(tops, keys) <==>
            && LevelAt(tops, x).Node?
            && exists i :: 0 <= i < |keys| && keys[i].defType == LevelAt(tops, x).name && keys[i].name in Live(tops, x)
  {
    LevelAtFacts(tops, x);
    if tops.Node? { LevelAtFacts(tops.next, x); }
  }

  ghost predicate InOrder(f: Forest, s: seq<Id>) {
    forall i, j :: 0 <= i < j < |s| ==> Pos(f, s[i]) < Pos(f, s[j])
  }

  lemma {:induction tops} ScanLevel(tops: Forest, keys: seq<DefKey>)
    ensures forall x :: x in ScanDefs(tops, keys) ==> x in Level(tops)
  {
  }

  lemma {:induction f} LevelPos(f: Forest)
    requires Distinct(f) && f.Node?
    ensures forall x :: x in Level(f.next) ==> Pos(f, x) == 1 + Size(f.kids) + Pos(f.next, x)
  {
    forall x | x in Level(f.next) ensures Pos(f, x) == 1 + Size(f.kids) + Pos(f.next, x) {
      LevelAtFacts(f.next, x);
    }
  }

  /** The scan lists definitions in strict document order. */
  lemma {:induction false} ScanInOrder(tops: Forest, keys: seq<DefKey>)
    requires Distinct(tops)
    ensures InOrder(tops, ScanDefs(tops, keys))
  {
    if tops.Node? {
      ScanInOrder(tops.next, keys);
      ScanLevel(tops.next, keys);
      LevelPos(tops);
      var rest := ScanDefs(tops.next, keys);
      var all := ScanDefs(tops, keys);
      var k := |all| - |rest|;
      forall i, j | 0 <= i < j < |all| ensures Pos(tops, all[i]) < Pos(tops, all[j]) {
        assert all[j] == rest[j - k];
        if i >= k { assert all[i] == rest[i - k]; }
      }
    }
  }

  /** Document order inside a child list is document order in the whole forest. */
  lemma {:induction false} PosShift(f: Forest, p: Id) returns (base: nat)
    requires Distinct(f)
    ensures forall x :: x in Ids(KidsOf(f, p)) ==> Pos(f, x) == base + Pos(KidsOf(f, p), x)
  {
    base := 0;
    if f.Node? {
      KidsOfFacts(f.kids, p);
      KidsOfFacts(f.next, p);
      AtFacts(f.kids, p);
      AtFacts(f.next, p);
      if f.id == p {
        base := 1;
      } else if p in Ids(f.kids) {
        var b := PosShift(f.kids, p);
        base := 1 + b;
      } else {
        var b := PosShift(f.next, p);
        base := 1 + Size(f.kids) + b;
      }
    }
  }

  lemma SameMembersEmpty(a: seq<Id>, b: seq<Id>)
    requires forall x :: x in a ==> x in b
    ensures |a| > 0 ==> |b| > 0
  {
    if |a| > 0 { assert a[0] in a; }
  }

  /** Two strictly ordered listings of the same handles are equal. */
  lemma {:induction false} OrderedListingUnique(f: Forest, a: seq<Id>, b: seq<Id>)
    requires InOrder(f, a) && InOrder(f, b)
    requires forall x :: x in a <==> x in b
    ensures a == b
  {
    SameMembersEmpty(a, b);
    SameMembersEmpty(b, a);
    if |a| > 0 {
      assert a[0] in b;
      assert b[0] in a;
      var i :| 0 <= i < |b| && b[i] == a[0];
      var j :| 0 <= j < |a| && a[j] == b[0];
      assert a[0] == b[0];
      var a', b' := a[1..], b[1..];
      forall x ensures x in a' <==> x in b' {
        if x in a' { var k :| 0 <= k < |a'| && a'[k] == x; assert a[k + 1] == x; assert x in b; }
        if x in b' { var k :| 0 <= k < |b'| && b'[k] == x; assert b[k + 1] == x; assert x in a; }
      }
      OrderedListingUnique(f, a', b');
    }
  }

  // ---------------------------------------------------------------- a second `Defs` element

  /** The document element is the indexed `Defs` root. */
  predicate Usable(f: Forest, root: Id) {
    root in Ids(f) && FirstElement(KidsOf(f, DOC)) == Some(root)
  }

  /** No other `Defs` child of the document holds an element with a `defName`. */
  ghost predicate NoRivals(docKids: Forest, root: Id) {
    match docKids
    case Nil => true
    case Node(id, kind, name, _, _, below, next) =>
      && (kind.Element? && name == DEFS_TAG && id != root ==> Nameless(below))
      && NoRivals(next, root)
  }

  predicate Nameless(kids: Forest) {
    match kids
    case Nil => true
    case Node(_, kind, _, _, _, below, next) => (kind.Element? ==> Names(below) == {}) && Nameless(next)
  }

  function KidsAt(level: Forest, id: Id): Forest {
    var r := LevelAt(level, id);
    if r.Node? then r.kids else Nil
  }

  /** The indexed root, when it is still there, is an element named `Defs`. */
  ghost predicate IsDefs(n: Forest) {
    n.Node? ==> n.kind.Element? && n.name == DEFS_TAG
  }

  lemma {:induction kids} NamelessScansEmpty(kids: Forest, keys: seq<DefKey>)
    requires Nameless(kids)
    ensures ScanDefs(kids, keys) == []
  {
  }

  lemma {:induction false} NamedIsFound(kids: Forest) returns (key: DefKey)
    requires !Nameless(kids)
    ensures ScanDefs(kids, [key]) != []
  {
    if kids.kind.Element? && Names(kids.kids) != {} {
      var n :| n in Names(kids.kids);
      key := DefKey(kids.name, n);
      assert [key][0] == key;
      assert Matches(kids, [key]);
    } else {
      key := NamedIsFound(kids.next);
    }
  }

  lemma {:induction false} RivalFreeScan(docKids: Forest, root: Id, keys: seq<DefKey>)
    requires Distinct(docKids) && NoRivals(docKids, root)
    requires IsDefs(LevelAt(docKids, root))
    ensures ScanDocument(docKids, keys) ==
            ScanDefs(KidsAt(docKids, root), keys)
  {
    if docKids.Node? {
      LevelAtFacts(docKids.next, root);
      RivalFreeScan(docKids.next, root, keys);
      if docKids.id != root && docKids.kind.Element? && docKids.name == DEFS_TAG {
        NamelessScansEmpty(docKids.kids, keys);
      }
    }
  }

  lemma {:induction false} RivalIsFound(docKids: Forest, root: Id) returns (key: DefKey)
    requires Distinct(docKids) && !NoRivals(docKids, root)
    requires IsDefs(LevelAt(docKids, root))
    ensures |ScanDocument(docKids, [key])| >
            |ScanDefs(KidsAt(docKids, root), [key])|
  {
    LevelAtFacts(docKids.next, root);
    if docKids.kind.Element? && docKids.name == DEFS_TAG && docKids.id != root && !Nameless(docKids.kids) {
      key := NamedIsFound(docKids.kids);
      RootIsScanned(docKids.next, root, [key]);
    } else {
      key := RivalIsFound(docKids.next, root);
    }
  }

  lemma {:induction docKids} RootIsScanned(docKids: Forest, root: Id, keys: seq<DefKey>)
    requires IsDefs(LevelAt(docKids, root))
    ensures |ScanDocument(docKids, keys)| >= |ScanDefs(KidsAt(docKids, root), keys)|
  {
  }
}
