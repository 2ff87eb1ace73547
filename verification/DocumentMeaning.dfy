/** What can be seen of a document without its representation: who stands below whom in which order, with
    which label, and what an edit of one child list leaves as it was. */
module DocumentMeaning {
  import opened Wrappers
  import opened Arena
  import opened DefScan
  import opened IndexNotes
  import opened PatchSpec
  import opened PatchEngine
  import opened PatchTheorems

  // ---------------------------------------------------------------- what can be observed

  /** The children of a node in order. */
  function Children(f: Forest, x: Id): seq<Id> { LevelList(KidsOf(f, x)) }

  datatype Label = Label(kind: Kind, name: string, text: string, attrs: seq<(string, string)>)

  /** What a live node is apart from its children. */
  function LabelOf(f: Forest, x: Id): Option<Label> {
    var a := At(f, x);
    if a.Node? then Some(Label(a.kind, a.name, a.text, a.attrs)) else None
  }

  /** Outside `gone` every node is still there with its label and, `p` aside, its children; the subtrees
      that `p` is not part of are the same altogether. */
  ghost predicate SameBut(f: Forest, f': Forest, gone: set<Id>, p: Id) {
    forall x :: x in Ids(f) && x !in gone ==>
      && x in Ids(f') && LabelOf(f', x) == LabelOf(f, x)
      && (x != p ==> Children(f', x) == Children(f, x))
      && (p !in Ids(At(f, x)) ==> At(f', x) == At(f, x))
  }

  /** The subtrees of `items` stand in `f'` as they are. */
  ghost predicate Holds(f': Forest, items: Forest) {
    forall x :: x in Ids(items) ==> At(f', x) == At(items, x)
  }

  /** `now` is `before` with `mid` in the place of `id`. */
  ghost predicate Spliced(before: seq<Id>, id: Id, mid: seq<Id>, now: seq<Id>) {
    exists i :: 0 <= i < |before| && before[i] == id && now == before[..i] + mid + before[i + 1..]
  }

  function Reversed(s: seq<Id>): seq<Id> { seq(|s|, i requires 0 <= i < |s| => s[|s| - 1 - i]) }

  predicate Named(f: Forest, x: Id, name: string) {
    var was := LabelOf(f, x);
    was.Some? && was.value.kind.Element? && was.value.name == name
  }

  /** A root, or a handle that is gone. */
  ghost predicate Orphan(f: Forest, id: Id) { forall p: Id :: id !in Children(f, p) }

  /** Being a child and having a parent is the same. */
  lemma ChildOf(f: Forest, id: Id)
    requires Distinct(f)
    ensures forall p: Id :: id in Children(f, p) <==> ParentOf(f, id) == Some(p)
    ensures Orphan(f, id) <==> ParentOf(f, id).None?
  {
    forall p: Id ensures id in Children(f, p) <==> ParentOf(f, id) == Some(p) {
      LevelListFacts(KidsOf(f, p));
      ParentIff(f, id, p);
    }
    if ParentOf(f, id).Some? { assert id in Children(f, ParentOf(f, id).value); }
  }

  /** Somewhere in `f` stands a node `x` with this label and this child list. */
  ghost predicate Stands(f: Forest, x: Id, l: Label, kids: Forest) {
    f.Node? &&
    ((f.id == x && l == Label(f.kind, f.name, f.text, f.attrs) && kids == f.kids)
     || Stands(f.kids, x, l, kids) || Stands(f.next, x, l, kids))
  }

  /** Looking a handle up finds exactly the node that carries it. */
  lemma {:induction false} FoundIffStands(f: Forest, x: Id, l: Label, kids: Forest)
    requires Distinct(f)
    ensures Stands(f, x, l, kids) <==> LabelOf(f, x) == Some(l) && KidsOf(f, x) == kids
    decreases f
  {
    if f.Node? {
      AtFacts(f.kids, x);
      AtFacts(f.next, x);
      FoundIffStands(f.kids, x, l, kids);
      FoundIffStands(f.next, x, l, kids);
    }
  }

  /** An element, of that name if one is asked for. */
  predicate Fitting(f: Forest, x: Id, name: Option<string>) {
    var was := LabelOf(f, x);
    was.Some? && was.value.kind.Element? && (name.Some? ==> was.value.name == name.value)
  }

  /** The first such element of the list. */
  ghost predicate FirstNamed(f: Forest, s: seq<Id>, name: Option<string>, e: Id) {
    exists i :: 0 <= i < |s| && s[i] == e && Fitting(f, e, name) && forall j :: 0 <= j < i ==> !Fitting(f, s[j], name)
  }

  // ---------------------------------------------------------------- lists

  lemma {:induction false} AppendList(f: Forest, g: Forest)
    ensures LevelList(Append(f, g)) == LevelList(f) + LevelList(g)
    decreases f
  {
    if f.Node? { AppendList(f.next, g); }
  }

  lemma {:induction false} RevList(f: Forest)
    ensures LevelList(Rev(f)) == Reversed(LevelList(f))
    decreases f
  {
    if f.Node? {
      RevList(f.next);
      AppendList(Rev(f.next), f.(next := Nil));
      assert LevelList(f.(next := Nil)) == [f.id];
    }
  }

  lemma {:induction false} ReplaceList(l: Forest, id: Id, g: Forest)
    requires id in Level(l)
    ensures Spliced(LevelList(l), id, LevelList(g), LevelList(ReplaceAt(l, id, g)))
    decreases l
  {
    if l.id == id {
      AppendList(g, l.next);
      SplicedFirst(id, LevelList(l.next), LevelList(g));
    } else {
      ReplaceList(l.next, id, g);
      SplicedLater(l.id, LevelList(l.next), id, LevelList(g), LevelList(ReplaceAt(l.next, id, g)));
    }
  }

  lemma SplicedFirst(id: Id, rest: seq<Id>, mid: seq<Id>)
    ensures Spliced([id] + rest, id, mid, mid + rest)
  {
    var before := [id] + rest;
    assert before[0] == id && before[..0] == [] && before[0 + 1..] == rest;
    assert mid + rest == before[..0] + mid + before[0 + 1..];
  }

  lemma SplicedLater(first: Id, rest: seq<Id>, id: Id, mid: seq<Id>, now: seq<Id>)
    requires Spliced(rest, id, mid, now)
    ensures Spliced([first] + rest, id, mid, [first] + now)
  {
    var i :| 0 <= i < |rest| && rest[i] == id && now == rest[..i] + mid + rest[i + 1..];
    var before, j := [first] + rest, i + 1;
    assert before[..j] == [first] + rest[..i] && before[j + 1..] == rest[i + 1..];
    assert [first] + now == before[..j] + mid + before[j + 1..];
    assert before[j] == id;
  }

  lemma {:induction false} SetKidsRoots(f: Forest, p: Id, h: Forest)
    ensures LevelList(SetKids(f, p, h)) == LevelList(f)
    decreases f
  {
    if f.Node? { SetKidsRoots(f.next, p, h); }
  }

  lemma {:induction false} AtReplaced(l: Forest, id: Id, g: Forest, x: Id)
    requires Distinct(l) && id in Level(l) && Distinct(g) && Ids(g) !! (Ids(l) - Ids(LevelAt(l, id)))
    ensures x in Ids(g) ==> At(ReplaceAt(l, id, g), x) == At(g, x)
    ensures x in Ids(l) && x !in Ids(LevelAt(l, id)) ==> At(ReplaceAt(l, id, g), x) == At(l, x)
    decreases l
  {
    AtFacts(l.kids, x);
    LevelAtFacts(l, id);
    if l.id == id {
      AppendAt(g, l.next, x);
      AtFacts(g, x);
    } else {
      LevelAtFacts(l.next, id);
      AtReplaced(l.next, id, g, x);
    }
  }

  // ---------------------------------------------------------------- a new child list

  lemma {:induction false} AtEdited(f: Forest, p: Id, h: Forest)
    requires p in Ids(f)
    ensures At(f, p).Node? && At(SetKids(f, p, h), p) == At(f, p).(kids := h)
    decreases f
  {
    AtFacts(f, p);
    if f.id != p {
      AtFacts(f.kids, p);
      AtFacts(f.next, p);
      if p in Ids(f.kids) { AtEdited(f.kids, p, h); } else { SetKidsOutside(f.kids, p, h); AtEdited(f.next, p, h); }
    }
  }

  /** The edit of one child list in a sound document. */
  ghost predicate Fits(f: Forest, p: Id, h: Forest) {
    Distinct(f) && p in Ids(f) && Distinct(h) && Ids(h) !! (Ids(f) - Ids(KidsOf(f, p)))
  }

  lemma {:induction false} FitsBelow(f: Forest, p: Id, h: Forest)
    requires Fits(f, p, h) && f.id != p
    ensures f.id !in Ids(h) && f.id !in Ids(KidsOf(f, p))
    ensures p in Ids(f.kids) ==>
              Fits(f.kids, p, h) && KidsOf(f.kids, p) == KidsOf(f, p) && SetKids(f.next, p, h) == f.next
              && Ids(h) !! Ids(f.next) && Ids(KidsOf(f, p)) !! Ids(f.next)
    ensures p !in Ids(f.kids) ==>
              Fits(f.next, p, h) && KidsOf(f.next, p) == KidsOf(f, p) && SetKids(f.kids, p, h) == f.kids
              && Ids(h) !! Ids(f.kids) && Ids(KidsOf(f, p)) !! Ids(f.kids)
  {
    AtFacts(f.kids, p);
    AtFacts(f.next, p);
    KidsOfFacts(f.kids, p);
    KidsOfFacts(f.next, p);
    if p in Ids(f.kids) { SetKidsOutside(f.next, p, h); } else { SetKidsOutside(f.kids, p, h); }
  }

  lemma {:induction false} AtLinked(f: Forest, p: Id, h: Forest, x: Id)
    requires Fits(f, p, h) && x in Ids(h)
    ensures At(SetKids(f, p, h), x) == At(h, x)
    decreases f
  {
    AtFacts(h, x);
    KidsOfFacts(f, p);
    if f.id != p {
      FitsBelow(f, p, h);
      if p in Ids(f.kids) {
        AtLinked(f.kids, p, h, x);
      } else {
        AtFacts(f.kids, x);
        AtLinked(f.next, p, h, x);
      }
    }
  }

  lemma {:induction false} AtElsewhere(f: Forest, p: Id, h: Forest, x: Id)
    requires Fits(f, p, h) && x in Ids(f) && x != p && x !in Ids(KidsOf(f, p))
    ensures At(SetKids(f, p, h), x) == SetKids(At(f, x), p, h)
    decreases f
  {
    AtFacts(f.kids, x);
    AtFacts(f.next, x);
    if f.id == p {
      AtFacts(h, x);
      SetKidsOutside(At(f, x), p, h);
    } else if f.id != x {
      FitsBelow(f, p, h);
      if p in Ids(f.kids) {
        AtFacts(SetKids(f.kids, p, h), x);
        SetKidsFacts(f.kids, p, h);
        if x in Ids(f.kids) { AtElsewhere(f.kids, p, h, x); } else { SetKidsOutside(At(f, x), p, h); }
      } else {
        if x in Ids(f.next) { AtElsewhere(f.next, p, h, x); } else { SetKidsOutside(At(f, x), p, h); }
      }
    }
  }

  lemma {:induction false} AtInside(f: Forest, t: Id, x: Id)
    requires Distinct(f) && x in Ids(At(f, t))
    ensures At(At(f, t), x) == At(f, x)
    decreases f
  {
    AtFacts(f, t);
    AtFacts(f.kids, t);
    AtFacts(f.kids, x);
    AtFacts(f.next, t);
    if f.id != t {
      if t in Ids(f.kids) { AtInside(f.kids, t, x); } else { AtInside(f.next, t, x); }
    }
  }

  lemma AtBelow(f: Forest, p: Id, x: Id)
    requires Distinct(f) && x in Ids(KidsOf(f, p))
    ensures At(KidsOf(f, p), x) == At(f, x)
  {
    AtFacts(f, p);
    AtInside(f, p, x);
    AtFacts(KidsOf(f, p), x);
  }

  lemma {:induction false} AtRev(f: Forest, x: Id)
    requires Distinct(f)
    ensures At(Rev(f), x) == At(f, x)
    decreases f
  {
    if f.Node? {
      AtRev(f.next, x);
      RevFacts(f.next);
      AtFacts(f.next, x);
      AtFacts(f.kids, x);
      AppendAt(Rev(f.next), f.(next := Nil), x);
    }
  }

  lemma EditShape(f: Forest, p: Id, h: Forest)
    requires Fits(f, p, h)
    ensures var f' := SetKids(f, p, h);
            && Distinct(f') && Ids(f') == (Ids(f) - Ids(KidsOf(f, p))) + Ids(h) && LevelList(f') == LevelList(f)
            && Children(f', p) == LevelList(h) && Holds(f', h) && SameBut(f, f', Ids(KidsOf(f, p)), p)
  {
    var f' := SetKids(f, p, h);
    SetKidsFacts(f, p, h);
    SetKidsRoots(f, p, h);
    AtFacts(f, p);
    AtEdited(f, p, h);
    forall x | x in Ids(h) ensures At(f', x) == At(h, x) { AtLinked(f, p, h, x); }
    forall x | x in Ids(f) && x !in Ids(KidsOf(f, p))
      ensures && x in Ids(f') && LabelOf(f', x) == LabelOf(f, x)
              && (x != p ==> Children(f', x) == Children(f, x))
              && (p !in Ids(At(f, x)) ==> At(f', x) == At(f, x))
    {
      ShapeElsewhere(f, p, h, x);
    }
  }

  lemma ShapeElsewhere(f: Forest, p: Id, h: Forest, x: Id)
    requires Fits(f, p, h) && x in Ids(f) && x !in Ids(KidsOf(f, p))
    ensures var f' := SetKids(f, p, h);
            && LabelOf(f', x) == LabelOf(f, x)
            && (x != p ==> Children(f', x) == Children(f, x))
            && (p !in Ids(At(f, x)) ==> At(f', x) == At(f, x))
  {
    AtFacts(f, x);
    if x == p {
      AtEdited(f, p, h);
    } else {
      AtElsewhere(f, p, h, x);
      SetKidsRoots(KidsOf(f, x), p, h);
      if p !in Ids(At(f, x)) { SetKidsOutside(At(f, x), p, h); }
    }
  }

  /** A sound arena: the document node comes first, and no handle stands twice or is still to be issued. */
  ghost predicate Grounded(st: St) {
    st.f.Node? && st.f.id == DOC && Distinct(st.f) && forall x :: x in Ids(st.f) ==> x < st.issued
  }

  lemma MemberShape(f: Forest, p: Id, id: Id, g: Forest)
    requires Distinct(f) && id in Level(KidsOf(f, p)) && Distinct(g) && Ids(g) !! (Ids(f) - Ids(At(f, id)))
    ensures var f' := SetKids(f, p, ReplaceAt(KidsOf(f, p), id, g));
            && Distinct(f') && Ids(f') == (Ids(f) - Ids(At(f, id))) + Ids(g) && LevelList(f') == LevelList(f)
            && Spliced(Children(f, p), id, LevelList(g), Children(f', p))
            && Holds(f', g) && SameBut(f, f', Ids(At(f, id)), p)
  {
    var kids := KidsOf(f, p);
    var h := ReplaceAt(kids, id, g);
    var f' := SetKids(f, p, h);
    AtFacts(f, p);
    KidsOfFacts(f, p);
    LevelAtFacts(kids, id);
    AtOfLevel(f, p, id);
    ReplaceAtFacts(kids, id, g);
    InnerExchange(Ids(f), Ids(kids), Ids(At(f, id)), Ids(g));
    ReplaceList(kids, id, g);
    EditShape(f, p, h);
    forall x | x in Ids(g) ensures At(f', x) == At(g, x) { AtReplaced(kids, id, g, x); }
    forall x | x in Ids(kids) && x !in Ids(At(f, id)) ensures x in Ids(h) && At(f', x) == At(f, x) {
      AtReplaced(kids, id, g, x);
      AtBelow(f, p, x);
    }
    assert SameBut(f, f', Ids(kids), p);
    assert SameBut(f, f', Ids(At(f, id)), p);
  }

  lemma SameMore(f: Forest, f': Forest, gone: set<Id>, less: set<Id>, p: Id)
    requires SameBut(f, f', gone, p)
    requires forall x :: x in gone - less ==> x in Ids(f') && At(f', x) == At(f, x)
    ensures SameBut(f, f', less, p)
  {
  }

  lemma HoldsThrough(f': Forest, h: Forest, items: Forest)
    requires Holds(f', h) && Holds(h, items) && Ids(items) <= Ids(h)
    ensures Holds(f', items)
  {
  }

  /** Two lists end to end: both keep their subtrees. */
  lemma Joined(a: Forest, b: Forest)
    requires Distinct(a) && Distinct(b) && Ids(a) !! Ids(b)
    ensures Distinct(Append(a, b)) && Ids(Append(a, b)) == Ids(a) + Ids(b)
    ensures LevelList(Append(a, b)) == LevelList(a) + LevelList(b)
    ensures Holds(Append(a, b), a) && Holds(Append(a, b), b)
  {
    AppendFacts(a, b);
    AppendList(a, b);
    forall x ensures At(Append(a, b), x) == if x in Ids(a) then At(a, x) else At(b, x) { AppendAt(a, b, x); }
  }

  // ---------------------------------------------------------------- document order

  /** Everything in the tree of an earlier node of the list comes before everything in that of a later one. */
  ghost predicate Follows(f: Forest, s: seq<Id>) {
    forall i, j, a, b :: 0 <= i < j < |s| && a in Ids(At(f, s[i])) && b in Ids(At(f, s[j])) ==> Pos(f, a) < Pos(f, b)
  }

  lemma {:induction false} RootsFollow(l: Forest)
    requires Distinct(l)
    ensures Follows(l, LevelList(l))
    decreases l
  {
    if l.Node? {
      RootsFollow(l.next);
      var s, rest := LevelList(l), LevelList(l.next);
      LevelListFacts(l.next);
      PosBound(l.kids);
      forall i, j, a, b | 0 <= i < j < |s| && a in Ids(At(l, s[i])) && b in Ids(At(l, s[j]))
        ensures Pos(l, a) < Pos(l, b) {
        LaterRoot(l, s[j], b);
        if i > 0 { LaterRoot(l, s[i], a); } else { FirstRoot(l, a); }
      }
    }
  }

  lemma FirstRoot(l: Forest, x: Id)
    requires Distinct(l) && l.Node? && x in Ids(At(l, l.id))
    ensures Pos(l, x) < 1 + Size(l.kids)
  {
    PosBound(l.kids);
  }

  lemma LaterRoot(l: Forest, r: Id, x: Id)
    requires Distinct(l) && l.Node? && r in Level(l.next) && x in Ids(At(l, r))
    ensures At(l, r) == At(l.next, r) && Pos(l, x) == 1 + Size(l.kids) + Pos(l.next, x)
  {
    LevelAtFacts(l.next, r);
    AtFacts(l.kids, r);
    AtFacts(l.next, r);
  }

  lemma {:induction false} PosBelow(f: Forest, p: Id, x: Id)
    requires Distinct(f) && x in Ids(KidsOf(f, p))
    ensures Pos(f, x) == Pos(f, p) + 1 + Pos(KidsOf(f, p), x)
    decreases f
  {
    AtFacts(f, p);
    AtFacts(f.kids, p);
    AtFacts(f.next, p);
    KidsOfFacts(f.kids, p);
    KidsOfFacts(f.next, p);
    if f.id != p {
      if p in Ids(f.kids) { PosBelow(f.kids, p, x); } else { PosBelow(f.next, p, x); }
    }
  }

  /** Positions are document order: a node before what is below it, a child with all below it before the next. */
  lemma ReadingOrder(f: Forest, p: Id)
    requires Distinct(f)
    ensures Follows(f, LevelList(f)) && Follows(f, Children(f, p))
    ensures forall x :: x in Ids(KidsOf(f, p)) ==> Pos(f, p) < Pos(f, x)
  {
    RootsFollow(f);
    KidsOfFacts(f, p);
    var kids, s := KidsOf(f, p), Children(f, p);
    RootsFollow(kids);
    LevelListFacts(kids);
    forall x | x in Ids(kids) ensures Pos(f, x) == Pos(f, p) + 1 + Pos(kids, x) { PosBelow(f, p, x); }
    forall i | 0 <= i < |s| ensures At(f, s[i]) == At(kids, s[i]) && Ids(At(f, s[i])) <= Ids(kids) {
      LevelAtFacts(kids, s[i]);
      AtBelow(f, p, s[i]);
      AtFacts(kids, s[i]);
    }
  }

  // ---------------------------------------------------------------- what an expression selects

  /** The string value: the text of a text, and of anything else the texts below it, one after the other. */
  lemma TextMeaning(f: Forest, g: Forest, n: Forest)
    requires n.Node? && n.next == Nil
    ensures TextBelow(Nil) == "" && TextBelow(Append(f, g)) == TextBelow(f) + TextBelow(g)
    ensures TextBelow(n) == StringValue(n) == if n.kind.Text? then n.text else TextBelow(n.kids)
  {
    AppendText(f, g);
  }

  function TextAt(f: Forest, x: Id): string {
    var a := At(f, x);
    if a.Node? then StringValue(a) else ""
  }

  /** Some `defName` of the list has that text. */
  ghost predicate NameAmong(f: Forest, s: seq<Id>, name: string) {
    exists i :: 0 <= i < |s| && Named(f, s[i], "defName") && TextAt(f, s[i]) == name
  }

  /** An element of a key's type with a `defName` child whose text is the key's name. */
  ghost predicate Keyed(f: Forest, x: Id, key: DefKey) {
    Named(f, x, key.defType) && NameAmong(f, Children(f, x), key.name)
  }

  ghost predicate KeyedBy(f: Forest, x: Id, keys: seq<DefKey>) {
    exists i :: 0 <= i < |keys| && Keyed(f, x, keys[i])
  }

  /** The list `l` stands in `f` as it is. */
  ghost predicate Part(f: Forest, l: Forest) {
    Distinct(l) && Holds(f, l)
  }

  lemma PartBelow(f: Forest, x: Id)
    requires Distinct(f)
    ensures Part(f, KidsOf(f, x))
  {
    KidsOfFacts(f, x);
    forall y | y in Ids(KidsOf(f, x)) ensures At(f, y) == At(KidsOf(f, x), y) { AtBelow(f, x, y); }
  }

  lemma PartNext(f: Forest, l: Forest)
    requires Part(f, l) && l.Node?
    ensures Part(f, l.next) && At(f, l.id) == l.(next := Nil)
  {
    forall y | y in Ids(l.next) ensures At(f, y) == At(l.next, y) { AtFacts(l.kids, y); }
    assert At(f, l.id) == At(l, l.id);
  }

  lemma {:induction false} NamesAmong(f: Forest, l: Forest, name: string)
    requires Part(f, l)
    ensures name in Names(l) <==> NameAmong(f, LevelList(l), name)
    decreases l
  {
    if l.Node? {
      PartNext(f, l);
      NamesAmong(f, l.next, name);
      var s, rest := LevelList(l), LevelList(l.next);
      assert s[0] == l.id && forall i :: 0 <= i < |rest| ==> s[i + 1] == rest[i];
      assert forall i :: 0 < i < |s| ==> s[i] == rest[i - 1];
    }
  }

  lemma {:induction false} ScannedAmong(f: Forest, l: Forest, keys: seq<DefKey>, x: Id)
    requires Distinct(f) && Part(f, l)
    ensures x in ScanDefs(l, keys) <==> x in LevelList(l) && KeyedBy(f, x, keys)
    decreases l
  {
    if l.Node? {
      PartNext(f, l);
      ScannedAmong(f, l.next, keys, x);
      MatchesKeyed(f, l, keys);
    }
  }

  lemma MatchesKeyed(f: Forest, l: Forest, keys: seq<DefKey>)
    requires Distinct(f) && l.Node? && At(f, l.id) == l.(next := Nil)
    ensures Matches(l, keys) <==> KeyedBy(f, l.id, keys)
  {
    assert KidsOf(f, l.id) == l.kids;
    PartBelow(f, l.id);
    forall i | 0 <= i < |keys|
      ensures Keyed(f, l.id, keys[i]) <==> l.kind.Element? && keys[i].defType == l.name && keys[i].name in Names(l.kids)
    {
      NamesAmong(f, l.kids, keys[i].name);
    }
  }

  /** What a planned expression finds in the game's reading. */
  ghost predicate Selected(f: Forest, s: seq<Id>, keys: seq<DefKey>, x: Id) {
    exists i :: 0 <= i < |s| && Named(f, s[i], "Defs") && x in Children(f, s[i]) && KeyedBy(f, x, keys)
  }

  lemma {:induction false} SelectedAmong(f: Forest, l: Forest, keys: seq<DefKey>, x: Id)
    requires Distinct(f) && Part(f, l)
    ensures x in ScanDocument(l, keys) <==> Selected(f, LevelList(l), keys, x)
    decreases l
  {
    if l.Node? {
      PartNext(f, l);
      SelectedAmong(f, l.next, keys, x);
      assert KidsOf(f, l.id) == l.kids;
      PartBelow(f, l.id);
      ScannedAmong(f, l.kids, keys, x);
      SelectedMore(f, l.id, LevelList(l.next), keys, x);
    }
  }

  lemma SelectedMore(f: Forest, d: Id, rest: seq<Id>, keys: seq<DefKey>, x: Id)
    ensures Selected(f, [d] + rest, keys, x) <==>
              (Named(f, d, "Defs") && x in Children(f, d) && KeyedBy(f, x, keys)) || Selected(f, rest, keys, x)
  {
    var s := [d] + rest;
    assert s[0] == d && forall i :: 0 <= i < |rest| ==> s[i + 1] == rest[i];
    assert forall i :: 0 < i < |s| ==> s[i] == rest[i - 1];
  }

  lemma {:induction false} DocumentInOrder(l: Forest, keys: seq<DefKey>)
    requires Distinct(l)
    ensures InOrder(l, ScanDocument(l, keys))
    ensures forall x :: x in ScanDocument(l, keys) ==> x in Ids(l)
    decreases l
  {
    if l.Node? {
      DocumentInOrder(l.next, keys);
      ScanInOrder(l.kids, keys);
      ScanLevel(l.kids, keys);
      forall x | x in Level(l.kids) ensures x in Ids(l.kids) { LevelAtFacts(l.kids, x); }
      OrderJoined(l, [], ScanDocument(l.next, keys));
      OrderJoined(l, ScanDefs(l.kids, keys), ScanDocument(l.next, keys));
    }
  }

  lemma OrderJoined(l: Forest, a: seq<Id>, b: seq<Id>)
    requires Distinct(l) && l.Node? && InOrder(l.kids, a) && InOrder(l.next, b)
    requires (forall x :: x in a ==> x in Ids(l.kids)) && (forall x :: x in b ==> x in Ids(l.next))
    ensures InOrder(l, a + b)
  {
    PosBound(l.kids);
    var all, k := a + b, |a|;
    forall i, j | 0 <= i < j < |all| ensures Pos(l, all[i]) < Pos(l, all[j]) {
      if j < k {
        BothInKids(l, a[i], a[j]);
      } else if i < k {
        assert a[i] in a && b[j - k] in b;
      } else {
        BothInNext(l, b[i - k], b[j - k]);
      }
    }
  }

  lemma BothInKids(l: Forest, x: Id, y: Id)
    requires Distinct(l) && l.Node? && x in Ids(l.kids) && y in Ids(l.kids) && Pos(l.kids, x) < Pos(l.kids, y)
    ensures Pos(l, x) < Pos(l, y)
  {
  }

  lemma BothInNext(l: Forest, x: Id, y: Id)
    requires Distinct(l) && l.Node? && x in Ids(l.next) && y in Ids(l.next) && Pos(l.next, x) < Pos(l.next, y)
    ensures Pos(l, x) < Pos(l, y)
  {
  }

  /** The whole expression finds exactly the keyed children of the `Defs` children of the document; below one
      node it finds exactly the keyed children; both in document order. */
  lemma ScanMeaning(f: Forest, p: Id, keys: seq<DefKey>, x: Id)
    requires Distinct(f)
    ensures x in ScanDocument(KidsOf(f, DOC), keys) <==> Selected(f, Children(f, DOC), keys, x)
    ensures x in ScanDefs(KidsOf(f, p), keys) <==> x in Children(f, p) && KeyedBy(f, x, keys)
    ensures InOrder(f, ScanDocument(KidsOf(f, DOC), keys)) && InOrder(f, ScanDefs(KidsOf(f, p), keys))
  {
    PartBelow(f, DOC);
    SelectedAmong(f, KidsOf(f, DOC), keys, x);
    PartBelow(f, p);
    ScannedAmong(f, KidsOf(f, p), keys, x);
    DocumentInOrder(KidsOf(f, DOC), keys);
    var base := PosShift(f, DOC);
    ScanInOrder(KidsOf(f, p), keys);
    ScanLevel(KidsOf(f, p), keys);
    var below := PosShift(f, p);
    forall y | y in Level(KidsOf(f, p)) ensures y in Ids(KidsOf(f, p)) { LevelAtFacts(KidsOf(f, p), y); }
  }

  lemma FirstNamedMore(f: Forest, x: Id, s: seq<Id>, name: Option<string>, e: Id)
    ensures FirstNamed(f, [x] + s, name, e) <==> if Fitting(f, x, name) then e == x else FirstNamed(f, s, name, e)
  {
    var more := [x] + s;
    assert more[0] == x;
    if !Fitting(f, x, name) {
      if FirstNamed(f, s, name, e) { FirstNamedLater(f, x, s, name, e); }
      if FirstNamed(f, more, name, e) { FirstNamedEarlier(f, x, s, name, e); }
    }
  }

  lemma FirstNamedLater(f: Forest, x: Id, s: seq<Id>, name: Option<string>, e: Id)
    requires FirstNamed(f, s, name, e) && !Fitting(f, x, name)
    ensures FirstNamed(f, [x] + s, name, e)
  {
    var more := [x] + s;
    var i :| 0 <= i < |s| && s[i] == e && Fitting(f, e, name) && forall j :: 0 <= j < i ==> !Fitting(f, s[j], name);
    assert more[i + 1] == e;
    assert forall j :: 0 < j < i + 1 ==> more[j] == s[j - 1];
  }

  lemma FirstNamedEarlier(f: Forest, x: Id, s: seq<Id>, name: Option<string>, e: Id)
    requires FirstNamed(f, [x] + s, name, e) && !Fitting(f, x, name)
    ensures FirstNamed(f, s, name, e)
  {
    var more := [x] + s;
    var i :| 0 <= i < |more| && more[i] == e && Fitting(f, e, name)
             && forall j :: 0 <= j < i ==> !Fitting(f, more[j], name);
    assert s[i - 1] == e;
    assert forall j :: 0 <= j < i - 1 ==> s[j] == more[j + 1];
  }

  lemma {:induction false} FirstElementAmong(f: Forest, l: Forest)
    requires Part(f, l)
    ensures forall e: Id :: FirstElement(l) == Some(e) <==> FirstNamed(f, LevelList(l), None, e)
    decreases l
  {
    if l.Node? {
      PartNext(f, l);
      FirstElementAmong(f, l.next);
      forall e: Id ensures FirstElement(l) == Some(e) <==> FirstNamed(f, LevelList(l), None, e) {
        FirstNamedMore(f, l.id, LevelList(l.next), None, e);
      }
    }
  }

  /** The indexed root can be used while it is the first element child of the document. */
  lemma UsableMeaning(f: Forest, root: Id)
    requires Distinct(f)
    ensures Usable(f, root) <==> FirstNamed(f, Children(f, DOC), None, root)
  {
    PartBelow(f, DOC);
    FirstElementAmong(f, KidsOf(f, DOC));
    AtFacts(f, root);
  }
}
