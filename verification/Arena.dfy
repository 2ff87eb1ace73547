/** The ordered forest that patches edit.

    The arena links every node to its first child and its next sibling; a `Forest` is one such
    sibling list. The first root is the document node; every further root is a detached tree.
    Handles carry a generation, so a freed handle never becomes valid again: handles are numbers
    that are never issued twice. */
module Arena {
  import opened Wrappers

  type Id = nat

  datatype Kind = Document | Element | Text

  datatype Forest =
    | Nil
    | Node(id: Id, kind: Kind, name: string, text: string, attrs: seq<(string, string)>,
           kids: Forest, next: Forest)

  const DOC: Id := 0

  // ---------------------------------------------------------------- queries

  function Ids(f: Forest): set<Id> {
    match f
    case Nil => {}
    case Node(id, _, _, _, _, kids, next) => {id} + Ids(kids) + Ids(next)
  }

  /** The handles of one sibling list, without what is below. */
  function Level(f: Forest): set<Id> {
    match f
    case Nil => {}
    case Node(id, _, _, _, _, _, next) => {id} + Level(next)
  }

  ghost predicate Distinct(f: Forest) {
    match f
    case Nil => true
    case Node(id, _, _, _, _, kids, next) =>
      && id !in Ids(kids) && id !in Ids(next) && Ids(kids) !! Ids(next)
      && Distinct(kids) && Distinct(next)
  }

  function Append(f: Forest, g: Forest): Forest {
    match f
    case Nil => g
    case Node(_, _, _, _, _, _, next) => f.(next := Append(next, g))
  }

  /** The tree of node `id` wherever it is, alone in its sibling list; `Nil` for a stale handle. */
  function At(f: Forest, id: Id): Forest {
    match f
    case Nil => Nil
    case Node(n, _, _, _, _, kids, next) =>
      if n == id then f.(next := Nil) else
      var below := At(kids, id);
      if below.Node? then below else At(next, id)
  }

  /** The tree of node `id` when it is a member of this very sibling list. */
  function LevelAt(f: Forest, id: Id): Forest {
    match f
    case Nil => Nil
    case Node(n, _, _, _, _, _, next) => if n == id then f.(next := Nil) else LevelAt(next, id)
  }

  function KidsOf(f: Forest, id: Id): Forest {
    var a := At(f, id);
    if a.Node? then a.kids else Nil
  }

  function ParentOf(f: Forest, id: Id): Option<Id> {
    match f
    case Nil => None
    case Node(n, _, _, _, _, kids, next) =>
      if id in Level(kids) then Some(n)
      else if id in Ids(kids) then ParentOf(kids, id)
      else ParentOf(next, id)
  }

  function Depth(f: Forest, id: Id): nat {
    match f
    case Nil => 0
    case Node(n, _, _, _, _, kids, next) =>
      if n == id then 0 else if id in Ids(kids) then 1 + Depth(kids, id) else Depth(next, id)
  }

  function Size(f: Forest): nat {
    match f
    case Nil => 0
    case Node(_, _, _, _, _, kids, next) => 1 + Size(kids) + Size(next)
  }

  /** The position in document order. */
  function Pos(f: Forest, id: Id): nat {
    match f
    case Nil => 0
    case Node(n, _, _, _, _, kids, next) =>
      if n == id then 0
      else if id in Ids(kids) then 1 + Pos(kids, id)
      else 1 + Size(kids) + Pos(next, id)
  }

  /** The text below a sibling list, concatenated in document order. */
  function TextBelow(f: Forest): string {
    match f
    case Nil => ""
    case Node(_, kind, _, text, _, kids, next) =>
      (if kind.Text? then text else TextBelow(kids)) + TextBelow(next)
  }

  /** The XPath string value of the first node of the list. */
  function StringValue(n: Forest): string
    requires n.Node?
  {
    if n.kind.Text? then n.text else TextBelow(n.kids)
  }

  function FirstElement(f: Forest): Option<Id> {
    match f
    case Nil => None
    case Node(id, kind, _, _, _, _, next) => if kind.Element? then Some(id) else FirstElement(next)
  }

  // ---------------------------------------------------------------- edits

  /** Gives node `p` the child list `h`. */
  function SetKids(f: Forest, p: Id, h: Forest): Forest {
    match f
    case Nil => Nil
    case Node(n, _, _, _, _, kids, next) =>
      if n == p then f.(kids := h)
      else f.(kids := SetKids(kids, p, h), next := SetKids(next, p, h))
  }

  function SetAttrs(f: Forest, p: Id, attrs: seq<(string, string)>): Forest {
    match f
    case Nil => Nil
    case Node(n, _, _, _, _, kids, next) =>
      if n == p then f.(attrs := attrs)
      else f.(kids := SetAttrs(kids, p, attrs), next := SetAttrs(next, p, attrs))
  }

  /** Puts the list `g` where member `id` of the sibling list was. */
  function ReplaceAt(f: Forest, id: Id, g: Forest): Forest {
    match f
    case Nil => Nil
    case Node(n, _, _, _, _, _, next) =>
      if n == id then Append(g, next) else f.(next := ReplaceAt(next, id, g))
  }

  function Rev(f: Forest): Forest {
    match f
    case Nil => Nil
    case Node(_, _, _, _, _, _, next) => Append(Rev(next), f.(next := Nil))
  }

  // ---------------------------------------------------------------- facts about queries

  lemma {:induction f} AtFacts(f: Forest, id: Id)
    ensures At(f, id).Node? <==> id in Ids(f)
    ensures At(f, id).Node? ==> At(f, id).id == id && At(f, id).next == Nil
    ensures Ids(At(f, id)) <= Ids(f)
    ensures Distinct(f) ==> Distinct(At(f, id))
  {
  }

  lemma {:induction f} LevelAtFacts(f: Forest, id: Id)
    ensures LevelAt(f, id).Node? <==> id in Level(f)
    ensures LevelAt(f, id).Node? ==> LevelAt(f, id).id == id && LevelAt(f, id).next == Nil
    ensures Ids(LevelAt(f, id)) <= Ids(f) && Level(f) <= Ids(f)
    ensures Distinct(f) ==> Distinct(LevelAt(f, id))
  {
  }

  lemma {:induction f} AppendFacts(f: Forest, g: Forest)
    ensures Ids(Append(f, g)) == Ids(f) + Ids(g)
    ensures Level(Append(f, g)) == Level(f) + Level(g)
    ensures Distinct(Append(f, g)) <==> Distinct(f) && Distinct(g) && Ids(f) !! Ids(g)
  {
  }

  lemma {:induction f} AppendText(f: Forest, g: Forest)
    ensures TextBelow(Append(f, g)) == TextBelow(f) + TextBelow(g)
  {
  }

  lemma {:induction f} AppendAt(f: Forest, g: Forest, id: Id)
    ensures At(Append(f, g), id) == if id in Ids(f) then At(f, id) else At(g, id)
    ensures LevelAt(Append(f, g), id) == if id in Level(f) then LevelAt(f, id) else LevelAt(g, id)
  {
    AtFacts(f, id);
    if f.Node? { AtFacts(f.kids, id); }
  }

  /** Every node below a node with a given parent: the parent is unique. */
  lemma {:induction f} ParentFacts(f: Forest, id: Id)
    requires Distinct(f)
    ensures ParentOf(f, id).Some? ==>
              && ParentOf(f, id).value in Ids(f)
              && id in Ids(f)
              && id in Level(KidsOf(f, ParentOf(f, id).value))
              && Depth(f, id) == Depth(f, ParentOf(f, id).value) + 1
    ensures ParentOf(f, id).None? ==> id in Level(f) || id !in Ids(f)
    ensures id in Level(f) ==> ParentOf(f, id).None?
  {
    match f
    case Nil =>
    case Node(n, _, _, _, _, kids, next) =>
      LevelAtFacts(kids, id);
      LevelAtFacts(next, id);
      if id in Level(kids) {
        DepthOfLevel(kids, id);
      } else if ParentOf(f, id).Some? {
        var p := ParentOf(f, id).value;
        AtFacts(kids, p);
        AtFacts(next, p);
      }
  }

  /** The parent link and the child list say the same. */
  lemma {:induction false} ParentIff(f: Forest, id: Id, p: Id)
    requires Distinct(f)
    ensures ParentOf(f, id) == Some(p) <==> id in Level(KidsOf(f, p))
  {
    ParentFacts(f, id);
    if id in Level(KidsOf(f, p)) && f.Node? {
      AtFacts(f, p); AtFacts(f.kids, p); AtFacts(f.next, p);
      KidsOfFacts(f.kids, p); KidsOfFacts(f.next, p);
      LevelAtFacts(KidsOf(f, p), id);
      LevelAtFacts(f.kids, id);
      if f.id == p {
      } else if p in Ids(f.kids) {
        ParentIff(f.kids, id, p);
        ParentFacts(f.kids, id);
      } else {
        ParentIff(f.next, id, p);
      }
    }
  }

  lemma {:induction false} AtOfLevel(f: Forest, p: Id, id: Id)
    requires Distinct(f) && id in Level(KidsOf(f, p))
    ensures At(f, id) == LevelAt(KidsOf(f, p), id)
  {
    AtFacts(f, p); AtFacts(f.kids, p); AtFacts(f.next, p);
    KidsOfFacts(f.kids, p); KidsOfFacts(f.next, p);
    LevelAtFacts(KidsOf(f, p), id);
    if f.id == p {
      AtOfRoot(f.kids, id);
    } else if p in Ids(f.kids) {
      AtOfLevel(f.kids, p, id);
      AtFacts(f.kids, id);
    } else {
      AtOfLevel(f.next, p, id);
      AtFacts(f.kids, id);
    }
  }

  lemma {:induction f} AtOfRoot(f: Forest, id: Id)
    requires Distinct(f) && id in Level(f)
    ensures At(f, id) == LevelAt(f, id)
  {
    if f.Node? {
      AtFacts(f.kids, id);
      LevelAtFacts(f.next, id);
    }
  }

  lemma {:induction f} PosFacts(f: Forest, a: Id, b: Id)
    requires Distinct(f) && a in Ids(f) && b in Ids(f) && a != b
    ensures Pos(f, a) != Pos(f, b)
  {
    PosBound(f.kids);
    PosBound(f.next);
  }

  lemma {:induction f} PosBound(f: Forest)
    ensures forall x :: x in Ids(f) ==> Pos(f, x) < Size(f)
  {
  }

  lemma {:induction f} DepthOfLevel(f: Forest, id: Id)
    requires Distinct(f) && id in Level(f)
    ensures Depth(f, id) == 0
  {
    if f.Node? && f.id != id { LevelAtFacts(f.next, id); }
  }

  // ---------------------------------------------------------------- facts about edits

  lemma {:induction f} SetKidsOutside(f: Forest, p: Id, h: Forest)
    requires p !in Ids(f)
    ensures SetKids(f, p, h) == f
  {
  }

  lemma {:induction f} SetKidsLevel(f: Forest, p: Id, h: Forest)
    ensures Level(SetKids(f, p, h)) == Level(f)
  {
  }

  /** The handles of a node after one of its two lists exchanged the handles `gone` for `come`. */
  lemma ExchangedIds(id: Id, here: set<Id>, there: set<Id>, gone: set<Id>, come: set<Id>)
    requires id !in here && id !in there && here !! there && gone <= here
    requires come !! ({id} + here + there - gone)
    ensures come !! (here - gone) && id !in (here - gone) + come && (here - gone) + come !! there
    ensures {id} + ((here - gone) + come) + there == ({id} + here + there - gone) + come
  {
  }

  lemma {:induction false} SetKidsFacts(f: Forest, p: Id, h: Forest)
    requires Distinct(f) && p in Ids(f) && Distinct(h)
    requires Ids(h) !! (Ids(f) - Ids(KidsOf(f, p)))
    ensures Distinct(SetKids(f, p, h))
    ensures Ids(SetKids(f, p, h)) == (Ids(f) - Ids(KidsOf(f, p))) + Ids(h)
  {
    AtFacts(f, p);
    if f.id != p {
      var below := Ids(KidsOf(f, p));
      AtFacts(f.kids, p);
      AtFacts(f.next, p);
      assert Ids(f) == {f.id} + Ids(f.kids) + Ids(f.next);
      if p in Ids(f.kids) {
        KidsOfFacts(f.kids, p);
        ExchangedIds(f.id, Ids(f.kids), Ids(f.next), below, Ids(h));
        SetKidsFacts(f.kids, p, h);
        SetKidsOutside(f.next, p, h);
      } else {
        KidsOfFacts(f.next, p);
        assert Ids(f) == {f.id} + Ids(f.next) + Ids(f.kids);
        ExchangedIds(f.id, Ids(f.next), Ids(f.kids), below, Ids(h));
        SetKidsFacts(f.next, p, h);
        SetKidsOutside(f.kids, p, h);
      }
    }
  }

  lemma KidsOfFacts(f: Forest, p: Id)
    ensures Ids(KidsOf(f, p)) <= Ids(f)
    ensures Distinct(f) ==> Distinct(KidsOf(f, p)) && p !in Ids(KidsOf(f, p))
  {
    AtFacts(f, p);
  }

  lemma {:induction false} SetKidsSame(f: Forest, p: Id, h: Forest)
    requires p in Ids(f)
    ensures KidsOf(SetKids(f, p, h), p) == h
  {
    AtFacts(f.kids, p);
    AtFacts(f.next, p);
    if f.id != p {
      if p in Ids(f.kids) {
        SetKidsSame(f.kids, p, h);
        AtFacts(SetKids(f.kids, p, h), p);
        SetKidsKeeps(f.kids, p, h);
      } else {
        SetKidsSame(f.next, p, h);
        SetKidsOutside(f.kids, p, h);
      }
    }
  }

  lemma {:induction f} SetKidsKeeps(f: Forest, p: Id, h: Forest)
    requires p in Ids(f)
    ensures p in Ids(SetKids(f, p, h))
  {
  }

  /** What another node sees of an edit: its child list is edited in the same way. */
  lemma {:induction false} SetKidsElsewhere(f: Forest, p: Id, h: Forest, q: Id)
    requires Distinct(f) && p in Ids(f) && Distinct(h)
    requires Ids(h) !! (Ids(f) - Ids(KidsOf(f, p)))
    requires q in Ids(f) && q != p && q !in Ids(KidsOf(f, p))
    ensures KidsOf(SetKids(f, p, h), q) == SetKids(KidsOf(f, q), p, h)
  {
    AtFacts(f, q);
    if f.id == q {
    } else {
      AtFacts(f.kids, q);
      AtFacts(f.next, q);
      AtFacts(SetKids(f.kids, p, h), q);
      if f.id == p {
        AtFacts(h, q);
        SetKidsOutside(KidsOf(f, q), p, h);
      } else {
        AtFacts(f.kids, p);
        AtFacts(f.next, p);
        if p in Ids(f.kids) {
          SetKidsOutside(f.next, p, h);
          SetKidsFacts(f.kids, p, h);
          if q in Ids(f.kids) {
            SetKidsElsewhere(f.kids, p, h, q);
          } else {
            SetKidsOutside(KidsOf(f, q), p, h);
          }
        } else {
          SetKidsOutside(f.kids, p, h);
          if q in Ids(f.next) {
            SetKidsElsewhere(f.next, p, h, q);
          } else {
            SetKidsOutside(KidsOf(f, q), p, h);
          }
        }
      }
    }
  }

  /** An edit reaches a member of a list exactly when the edited node is inside that member. */
  lemma {:induction l} SetKidsLevelAt(l: Forest, p: Id, h: Forest, x: Id)
    requires Distinct(l) && p !in Level(l)
    ensures LevelAt(SetKids(l, p, h), x) == SetKids(LevelAt(l, x), p, h)
  {
  }

  lemma {:induction l} ReplaceAtFacts(l: Forest, id: Id, g: Forest)
    requires Distinct(l) && id in Level(l) && Distinct(g)
    requires Ids(g) !! (Ids(l) - Ids(LevelAt(l, id)))
    ensures Ids(LevelAt(l, id)) <= Ids(l)
    ensures Ids(ReplaceAt(l, id, g)) == (Ids(l) - Ids(LevelAt(l, id))) + Ids(g)
    ensures Distinct(ReplaceAt(l, id, g))
  {
    LevelAtFacts(l, id);
    AppendFacts(g, l.next);
    if l.id != id { LevelAtFacts(l.next, id); }
  }

  lemma {:induction f} RevFacts(f: Forest)
    ensures Ids(Rev(f)) == Ids(f) && Level(Rev(f)) == Level(f)
    ensures Distinct(f) ==> Distinct(Rev(f))
  {
    match f
    case Nil =>
    case Node(_, _, _, _, _, _, next) =>
      RevFacts(next);
      AppendFacts(Rev(next), f.(next := Nil));
  }

  // ---------------------------------------------------------------- ancestors

  lemma {:induction f} RootsAreNoKids(f: Forest, r: Id, p: Id)
    requires Distinct(f) && r in Level(f)
    ensures r !in Ids(KidsOf(f, p))
  {
    if f.Node? {
      AtFacts(f.kids, p); AtFacts(f.next, p);
      KidsOfFacts(f.kids, p); KidsOfFacts(f.next, p);
      LevelAtFacts(f.next, r);
    }
  }

  /** A child and its parent are below the same nodes, the parent itself aside. */
  lemma {:induction false} SameAncestors(f: Forest, c: Id, p: Id, q: Id)
    requires Distinct(f) && c in Level(KidsOf(f, p)) && q != p
    ensures c in Ids(KidsOf(f, q)) <==> p in Ids(KidsOf(f, q))
  {
    AtFacts(f, p); AtFacts(f.kids, p); AtFacts(f.next, p);
    AtFacts(f.kids, q); AtFacts(f.next, q);
    KidsOfFacts(f.kids, p); KidsOfFacts(f.next, p);
    KidsOfFacts(f.kids, q); KidsOfFacts(f.next, q);
    LevelAtFacts(KidsOf(f, p), c);
    LevelAtFacts(f.kids, c);
    if f.id == p {
      if q in Ids(f.kids) { RootsAreNoKids(f.kids, c, q); }
    } else if p in Ids(f.kids) {
      SameAncestors(f.kids, c, p, q);
    } else {
      SameAncestors(f.next, c, p, q);
    }
  }
}
