/** What keeps the lazy index honest: for every handle, either the index agrees with the live
    document, or some dirty mark or pending note will make the next refresh re-read it. */
module IndexNotes {
  import opened Wrappers
  import opened Arena
  import opened DefScan
  import opened DefIndexing

  /** The dirty marks of the document and the notes of the running operation. */
  datatype Notes = Notes(full: bool, dirty: seq<Id>, changed: seq<Id>, tops: seq<Id>)

  ghost predicate WellFormed(f: Forest, bound: Id, root: Id) {
    && f.Node? && f.id == DOC && f.kind.Document?
    && Distinct(f)
    && (forall x :: x in Ids(f) ==> x < bound)
    && DOC != root && root < bound
    && IsDefs(LevelAt(f.kids, root))
  }

  ghost predicate Attached(f: Forest, root: Id) {
    root in Level(KidsOf(f, DOC))
  }

  /** Top-level node `x` contains `c`. */
  ghost predicate Covers(f: Forest, root: Id, c: Id, x: Id) {
    c in Ids(LevelAt(KidsOf(f, root), x))
  }

  /** A noted container whose note forces a full rebuild. */
  predicate Forces(f: Forest, root: Id, c: Id) { c == DOC || c == root || c !in Ids(f) }

  /** Some note will force a full rebuild. */
  ghost predicate PendingFull(f: Forest, root: Id, changed: seq<Id>) {
    exists i :: 0 <= i < |changed| && Forces(f, root, changed[i])
  }

  ghost predicate Agrees(f: Forest, root: Id, namesOf: map<Id, seq<string>>, x: Id) {
    IndexedNames(namesOf, x) == Live(KidsOf(f, root), x)
  }

  ghost predicate Covered(f: Forest, root: Id, namesOf: map<Id, seq<string>>, n: Notes, x: Id) {
    || x in n.dirty
    || x in n.tops
    || (exists i :: 0 <= i < |n.changed| && Covers(f, root, n.changed[i], x))
    || Agrees(f, root, namesOf, x)
  }

  ghost predicate Issued(bound: Id, namesOf: map<Id, seq<string>>, n: Notes) {
    && (forall x :: x in namesOf ==> x < bound)
    && (forall x :: x in n.dirty ==> x < bound)
    && (forall x :: x in n.changed ==> x < bound)
    && (forall x :: x in n.tops ==> x < bound)
  }

  ghost predicate Coherent(f: Forest, bound: Id, root: Id, namesOf: map<Id, seq<string>>, n: Notes) {
    && Issued(bound, namesOf, n)
    && (|| n.full
        || PendingFull(f, root, n.changed)
        || (Attached(f, root) && forall x :: Covered(f, root, namesOf, n, x)))
  }

  // ---------------------------------------------------------------- one edit

  function Edited(f: Forest, p: Id, h: Forest, extra: Forest): Forest {
    Append(SetKids(f, p, h), extra)
  }

  /** The note an edit of the children of `p` leaves: the affected top-level nodes when `p` is the
      `Defs` root, the container otherwise. */
  function NoteChildren(n: Notes, root: Id, p: Id, affected: seq<Id>): Notes {
    if p == root then n.(tops := n.tops + affected) else n.(changed := n.changed + [p])
  }

  ghost predicate LegalEdit(f: Forest, bound: Id, root: Id, p: Id, h: Forest, extra: Forest, bound': Id) {
    && p in Ids(f) && bound <= bound'
    && Distinct(h) && Ids(h) !! (Ids(f) - Ids(KidsOf(f, p)))
    && (forall x :: x in Ids(h) ==> x < bound' && (x in Ids(f) || x >= bound))
    && Distinct(extra) && Ids(extra) <= Ids(KidsOf(f, p)) && Ids(extra) !! Ids(h)
    && (p == DOC ==> IsDefs(LevelAt(h, root)))
  }

  lemma EditIds(f: Forest, bound: Id, root: Id, p: Id, h: Forest, extra: Forest, bound': Id)
    requires WellFormed(f, bound, root) && LegalEdit(f, bound, root, p, h, extra, bound')
    ensures Distinct(Edited(f, p, h, extra))
    ensures Ids(Edited(f, p, h, extra)) == (Ids(f) - Ids(KidsOf(f, p))) + Ids(h) + Ids(extra)
  {
    SetKidsFacts(f, p, h);
    AppendFacts(SetKids(f, p, h), extra);
  }

  lemma EditWellFormed(f: Forest, bound: Id, root: Id, p: Id, h: Forest, extra: Forest, bound': Id)
    requires WellFormed(f, bound, root) && LegalEdit(f, bound, root, p, h, extra, bound')
    ensures WellFormed(Edited(f, p, h, extra), bound', root)
  {
    EditIds(f, bound, root, p, h, extra, bound');
    KidsOfFacts(f, p);
    if p != DOC {
      LevelEdit(f.kids, p, h, root);
    }
  }

  lemma {:induction l} LevelEdit(l: Forest, p: Id, h: Forest, x: Id)
    ensures var t, t' := LevelAt(l, x), LevelAt(SetKids(l, p, h), x);
            (t.Node? <==> t'.Node?) && (t.Node? ==> t.kind == t'.kind && t.name == t'.name)
  {
  }

  /** What the `Defs` root sees of an edit elsewhere. */
  lemma EditAtRoot(f: Forest, bound: Id, root: Id, p: Id, h: Forest, extra: Forest, bound': Id)
    requires WellFormed(f, bound, root) && LegalEdit(f, bound, root, p, h, extra, bound')
    requires Attached(f, root) && p != DOC
    ensures Attached(Edited(f, p, h, extra), root)
    ensures KidsOf(Edited(f, p, h, extra), root) == if p == root then h else SetKids(KidsOf(f, root), p, h)
  {
    var g := SetKids(f, p, h);
    LevelAtFacts(f.kids, root);
    SetKidsFacts(f, p, h);
    AppendAt(g, extra, root);
    AppendAt(g, extra, DOC);
    SetKidsLevel(f.kids, p, h);
    if p == root {
      SetKidsKeeps(f, root, h);
      SetKidsSame(f, root, h);
    } else {
      RootsAreNoKids(f, DOC, p);
      SameAncestors(f, root, DOC, p);
      SetKidsElsewhere(f, p, h, root);
      assert root in Ids(g) by { AtFacts(g, root); SetKidsLevel(f, p, h); LevelAtFacts(g.kids, root); }
    }
  }

  /** A freed handle is never issued again, so a note that forces a rebuild keeps forcing it. */
  lemma PendingStays(f: Forest, f': Forest, bound: Id, root: Id, changed: seq<Id>)
    requires forall x :: x in changed ==> x < bound
    requires forall x :: x in Ids(f') ==> x in Ids(f) || x >= bound
    ensures PendingFull(f, root, changed) ==> PendingFull(f', root, changed)
  {
    if i :| 0 <= i < |changed| && Forces(f, root, changed[i]) {
      assert changed[i] in changed;
    }
  }

  /** Every edit that leaves its note keeps every handle covered. */
  lemma EditCoherent(f: Forest, bound: Id, root: Id, namesOf: map<Id, seq<string>>, n: Notes,
                     p: Id, h: Forest, extra: Forest, affected: seq<Id>, bound': Id)
    requires WellFormed(f, bound, root) && Coherent(f, bound, root, namesOf, n)
    requires LegalEdit(f, bound, root, p, h, extra, bound')
    requires forall x :: x in affected ==> x < bound'
    requires p == root ==> forall x :: x !in affected ==> LevelAt(h, x) == LevelAt(KidsOf(f, root), x)
    ensures Coherent(Edited(f, p, h, extra), bound', root, namesOf, NoteChildren(n, root, p, affected))
  {
    var f' := Edited(f, p, h, extra);
    var n' := NoteChildren(n, root, p, affected);
    EditIds(f, bound, root, p, h, extra, bound');
    KidsOfFacts(f, p);
    if n.full {
    } else if PendingFull(f, root, n.changed) {
      var i :| 0 <= i < |n.changed| && Forces(f, root, n.changed[i]);
      assert n'.changed[i] == n.changed[i] && n.changed[i] in n.changed;
    } else if p == DOC {
      assert n'.changed[|n.changed|] == DOC;
    } else {
      EditAtRoot(f, bound, root, p, h, extra, bound');
      KidsOfFacts(f, root);
      forall x ensures Covered(f', root, namesOf, n', x) {
        CoveredAfter(f, f', root, namesOf, n, p, h, affected, x);
      }
    }
  }

  /** A member the edit did not reach is covered as before; the others by the new note. */
  lemma CoveredAfter(f: Forest, f': Forest, root: Id, namesOf: map<Id, seq<string>>, n: Notes, p: Id, h: Forest,
                     affected: seq<Id>, x: Id)
    requires Distinct(f) && p != DOC && Covered(f, root, namesOf, n, x)
    requires KidsOf(f', root) == if p == root then h else SetKids(KidsOf(f, root), p, h)
    requires p == root ==> forall y :: y !in affected ==> LevelAt(h, y) == LevelAt(KidsOf(f, root), y)
    ensures Covered(f', root, namesOf, NoteChildren(n, root, p, affected), x)
  {
    var n' := NoteChildren(n, root, p, affected);
    var tops, tops' := KidsOf(f, root), KidsOf(f', root);
    if p != root && p in Ids(LevelAt(tops', x)) {
      assert n'.changed[|n.changed|] == p && Covers(f', root, p, x);
    } else if x !in affected || p != root {
      MemberUntouched(f, root, p, h, x);
      assert LevelAt(tops', x) == LevelAt(tops, x);
      if i :| 0 <= i < |n.changed| && Covers(f, root, n.changed[i], x) {
        assert n'.changed[i] == n.changed[i];
      }
    }
  }

  lemma MemberUntouched(f: Forest, root: Id, p: Id, h: Forest, x: Id)
    requires Distinct(f)
    ensures p != root && p !in Ids(LevelAt(SetKids(KidsOf(f, root), p, h), x)) ==>
              LevelAt(SetKids(KidsOf(f, root), p, h), x) == LevelAt(KidsOf(f, root), x)
  {
    var tops := KidsOf(f, root);
    KidsOfFacts(f, root);
    LevelAtFacts(tops, x);
    if p != root && p in Level(tops) && x == p {
      MemberKeeps(tops, p, h);
    } else if p in Level(tops) {
      LevelMemberEdit(tops, p, h, x);
    } else {
      SetKidsLevelAt(tops, p, h, x);
      if p in Ids(LevelAt(tops, x)) { SetKidsKeeps(LevelAt(tops, x), p, h); }
      else { SetKidsOutside(LevelAt(tops, x), p, h); }
    }
  }

  lemma {:induction l} MemberKeeps(l: Forest, p: Id, h: Forest)
    requires Distinct(l) && p in Level(l)
    ensures p in Ids(LevelAt(SetKids(l, p, h), p))
  {
  }

  lemma {:induction l} LevelMemberEdit(l: Forest, p: Id, h: Forest, x: Id)
    requires Distinct(l) && p in Level(l) && x != p
    ensures LevelAt(SetKids(l, p, h), x) == LevelAt(l, x)
  {
    if l.id != p {
      LevelAtFacts(l.next, p);
      SetKidsOutside(l.kids, p, h);
    }
  }

  // ---------------------------------------------------------------- the edits of the operations

  lemma {:induction l} ReplaceLevel(l: Forest, id: Id, g: Forest, x: Id)
    requires Distinct(l) && id in Level(l) && Distinct(g)
    requires Ids(g) !! (Ids(l) - Ids(LevelAt(l, id)))
    ensures LevelAt(ReplaceAt(l, id, g), x) ==
            if x in Level(g) then LevelAt(g, x) else if x == id then Nil else LevelAt(l, x)
  {
    LevelAtFacts(l, id);
    LevelAtFacts(g, x);
    LevelAtFacts(l.next, id);
    LevelAtFacts(l.next, x);
    if l.id == id {
      AppendAt(g, l.next, x);
    } else {
      assert x == l.id ==> x !in Ids(g);
    }
  }

  /** What may be linked where child `id` of `p` is: `g` holds new nodes and at most the child itself,
      `extra` is what stays alive of the child, and the note names every new or missing member. */
  ghost predicate Linkable(f: Forest, bound: Id, p: Id, id: Id, g: Forest, extra: Forest, affected: seq<Id>,
                           bound': Id)
  {
    && bound <= bound' && ParentOf(f, id) == Some(p)
    && Distinct(g) && (forall x :: x in Ids(g) ==> x < bound' && (x in Ids(At(f, id)) || x >= bound))
    && Distinct(extra) && Ids(extra) <= Ids(At(f, id)) && Ids(extra) !! Ids(g)
    && (forall x :: x in Level(g) ==> (x >= bound && x in affected) || (x == id && LevelAt(g, x) == At(f, id)))
    && (id in affected || id in Level(g))
    && (forall x :: x in affected ==> x == id || x in Level(g))
  }

  /** Putting the list `g` where child `id` of `p` was: a replacement, a removal or an insertion. */
  lemma MemberEdit(f: Forest, bound: Id, root: Id, p: Id, id: Id, g: Forest, extra: Forest,
                   affected: seq<Id>, bound': Id)
    requires WellFormed(f, bound, root) && bound <= bound' && id in Level(KidsOf(f, p))
    requires Distinct(g) && forall x :: x in Ids(g) ==> x < bound' && (x in Ids(At(f, id)) || x >= bound)
    requires Distinct(extra) && Ids(extra) <= Ids(At(f, id)) && Ids(extra) !! Ids(g)
    requires forall x :: x in Level(g) ==> (x >= bound && x in affected) || (x == id && LevelAt(g, x) == At(f, id))
    requires id in affected || id in Level(g)
    ensures LegalEdit(f, bound, root, p, ReplaceAt(KidsOf(f, p), id, g), extra, bound')
    ensures forall x :: x !in affected ==> LevelAt(ReplaceAt(KidsOf(f, p), id, g), x) == LevelAt(KidsOf(f, p), x)
  {
    var kids := KidsOf(f, p);
    KidsOfFacts(f, p);
    AtFacts(f, p);
    AtOfLevel(f, p, id);
    LevelAtFacts(kids, id);
    ReplaceAtFacts(kids, id, g);
    forall x ensures LevelAt(ReplaceAt(kids, id, g), x) ==
                     if x in Level(g) then LevelAt(g, x) else if x == id then Nil else LevelAt(kids, x) {
      ReplaceLevel(kids, id, g, x);
    }
  }

  /** Adding new children before or after the existing ones. */
  lemma {:induction false} AddEdit(f: Forest, bound: Id, root: Id, p: Id, items: Forest, h: Forest, affected: seq<Id>,
                                   bound': Id)
    requires WellFormed(f, bound, root) && bound <= bound' && p in Ids(f)
    requires h == Append(KidsOf(f, p), items) || h == Append(items, KidsOf(f, p))
    requires Distinct(items) && forall x :: x in Ids(items) ==> bound <= x < bound'
    requires forall x :: x in Level(items) ==> x in affected
    ensures LegalEdit(f, bound, root, p, h, Nil, bound')
    ensures forall x :: x !in affected ==> LevelAt(h, x) == LevelAt(KidsOf(f, p), x)
  {
    var kids := KidsOf(f, p);
    KidsOfFacts(f, p);
    AddedIds(kids, items, h, bound, bound');
    LevelAtFacts(items, root);
    AddedElsewhere(kids, items, h, root);
    forall x | x !in affected ensures LevelAt(h, x) == LevelAt(kids, x) { AddedElsewhere(kids, items, h, x); }
  }

  lemma {:induction false} AddedIds(kids: Forest, items: Forest, h: Forest, bound: Id, bound': Id)
    requires h == Append(kids, items) || h == Append(items, kids)
    requires Distinct(kids) && Distinct(items)
    requires (forall x :: x in Ids(kids) ==> x < bound) && (forall x :: x in Ids(items) ==> bound <= x < bound')
    ensures Distinct(h) && Ids(h) == Ids(kids) + Ids(items)
    ensures Level(h) == Level(kids) + Level(items)
  {
    AppendFacts(kids, items);
    AppendFacts(items, kids);
  }

  lemma AddedElsewhere(kids: Forest, items: Forest, h: Forest, x: Id)
    requires h == Append(kids, items) || h == Append(items, kids)
    requires x !in Level(items)
    ensures LevelAt(h, x) == LevelAt(kids, x)
  {
    AppendAt(kids, items, x);
    AppendAt(items, kids, x);
    LevelAtFacts(items, x);
    LevelAtFacts(kids, x);
  }

  // ---------------------------------------------------------------- edits that need no note

  lemma {:induction l} NamesAppend(l: Forest, g: Forest)
    ensures Names(Append(l, g)) == Names(l) + Names(g)
  {
  }

  /** A new empty element that is no `defName` changes no name and no text. */
  lemma {:induction false} SilentInside(l: Forest, p: Id, k: Forest, e: Forest)
    requires Distinct(l) && (p in Ids(l) ==> k == KidsOf(l, p))
    requires e.Node? && e.kind.Element? && e.name != DEF_NAME_TAG && e.kids == Nil && e.next == Nil
    ensures TextBelow(SetKids(l, p, Append(k, e))) == TextBelow(l)
    ensures Names(SetKids(l, p, Append(k, e))) == Names(l)
  {
    if p !in Ids(l) {
      SetKidsOutside(l, p, Append(k, e));
    } else {
      AtFacts(l.kids, p);
      AppendText(k, e);
      if l.id == p {
        assert TextBelow(k) + "" == TextBelow(k);
      } else {
        SilentInside(l.kids, p, k, e);
        SilentInside(l.next, p, k, e);
      }
    }
  }

  lemma {:induction l} SetKidsGrows(l: Forest, p: Id, h: Forest)
    requires Distinct(l) && (p in Ids(l) ==> Ids(KidsOf(l, p)) <= Ids(h))
    ensures Ids(l) <= Ids(SetKids(l, p, h))
  {
    if p !in Ids(l) {
      SetKidsOutside(l, p, h);
    } else {
      AtFacts(l.kids, p);
      AtFacts(l.next, p);
    }
  }

  /** Members keep their names and their subtrees when a silent element appears below them. */
  lemma {:induction false} SilentLive(l: Forest, p: Id, k: Forest, e: Forest, x: Id)
    requires Distinct(l) && (p in Ids(l) ==> k == KidsOf(l, p))
    requires e.Node? && e.kind.Element? && e.name != DEF_NAME_TAG && e.kids == Nil && e.next == Nil
    ensures Live(SetKids(l, p, Append(k, e)), x) == Live(l, x)
    ensures Ids(LevelAt(l, x)) <= Ids(LevelAt(SetKids(l, p, Append(k, e)), x))
  {
    if l.Node? {
      AtFacts(l.kids, p);
      AppendFacts(k, e);
      if l.id == p {
        NamesAppend(k, e);
      } else if l.id == x {
        SilentInside(l.kids, p, k, e);
        SetKidsGrows(l.kids, p, Append(k, e));
      } else {
        SilentLive(l.next, p, k, e, x);
      }
    }
  }

  /** The empty `modExtensions` element a failing `AddModExtension` leaves behind needs no note. */
  lemma SilentCoherent(f: Forest, bound: Id, root: Id, namesOf: map<Id, seq<string>>, n: Notes, p: Id, e: Forest)
    requires WellFormed(f, bound, root) && Coherent(f, bound, root, namesOf, n)
    requires p in Ids(f) && At(f, p).Node? && At(f, p).kind.Element?
    requires e.Node? && e.id == bound && e.kind.Element? && e.name != DEF_NAME_TAG && e.kids == Nil && e.next == Nil
    ensures WellFormed(SetKids(f, p, Append(KidsOf(f, p), e)), bound + 1, root)
    ensures Coherent(SetKids(f, p, Append(KidsOf(f, p), e)), bound + 1, root, namesOf, n)
  {
    var h := Append(KidsOf(f, p), e);
    var f' := SetKids(f, p, h);
    AddEdit(f, bound, root, p, e, h, [bound], bound + 1);
    EditWellFormed(f, bound, root, p, h, Nil, bound + 1);
    EditIds(f, bound, root, p, h, Nil, bound + 1);
    AppendNil(f');
    PendingStays(f, f', bound, root, n.changed);
    if !n.full && !PendingFull(f, root, n.changed) {
      EditAtRoot(f, bound, root, p, h, Nil, bound + 1);
      forall x ensures Covered(f', root, namesOf, n, x) { SilentCovered(f, f', root, namesOf, n, p, e, x); }
    }
  }

  lemma SilentCovered(f: Forest, f': Forest, root: Id, namesOf: map<Id, seq<string>>, n: Notes, p: Id, e: Forest, x: Id)
    requires Distinct(f) && Covered(f, root, namesOf, n, x)
    requires e.Node? && e.kind.Element? && e.name != DEF_NAME_TAG && e.kids == Nil && e.next == Nil
    requires KidsOf(f', root) == if p == root then Append(KidsOf(f, p), e)
             else SetKids(KidsOf(f, root), p, Append(KidsOf(f, p), e))
    ensures Covered(f', root, namesOf, n, x)
  {
    SilentMember(f, root, p, e, x);
    if i :| 0 <= i < |n.changed| && Covers(f, root, n.changed[i], x) { assert Covers(f', root, n.changed[i], x); }
  }

  lemma SilentMember(f: Forest, root: Id, p: Id, e: Forest, x: Id)
    requires Distinct(f)
    requires e.Node? && e.kind.Element? && e.name != DEF_NAME_TAG && e.kids == Nil && e.next == Nil
    ensures var tops, h := KidsOf(f, root), Append(KidsOf(f, p), e);
            var tops' := if p == root then h else SetKids(tops, p, h);
            Live(tops', x) == Live(tops, x) && Ids(LevelAt(tops, x)) <= Ids(LevelAt(tops', x))
  {
    var tops := KidsOf(f, root);
    KidsOfFacts(f, root);
    if p == root {
      AppendAt(tops, e, x);
      LevelAtFacts(tops, x);
    } else {
      if p in Ids(tops) { NestedKids(f, root, p); }
      SilentLive(tops, p, KidsOf(f, p), e, x);
    }
  }

  lemma {:induction f} AppendNil(f: Forest)
    ensures Append(f, Nil) == f
  {
  }

  lemma {:induction false} NestedKids(f: Forest, q: Id, p: Id)
    requires Distinct(f) && p in Ids(KidsOf(f, q))
    ensures KidsOf(KidsOf(f, q), p) == KidsOf(f, p)
  {
    AtFacts(f, q); AtFacts(f.kids, q); AtFacts(f.next, q);
    AtFacts(f.kids, p); AtFacts(f.next, p);
    KidsOfFacts(f.kids, q); KidsOfFacts(f.next, q);
    if f.id == q {
    } else if q in Ids(f.kids) {
      NestedKids(f.kids, q, p);
    } else {
      NestedKids(f.next, q, p);
    }
  }

  lemma {:induction l} AttrsFacts(l: Forest, p: Id, attrs: seq<(string, string)>)
    ensures Ids(SetAttrs(l, p, attrs)) == Ids(l) && Level(SetAttrs(l, p, attrs)) == Level(l)
    ensures Distinct(l) ==> Distinct(SetAttrs(l, p, attrs))
    ensures TextBelow(SetAttrs(l, p, attrs)) == TextBelow(l) && Names(SetAttrs(l, p, attrs)) == Names(l)
  {
  }

  lemma {:induction l} AttrsLevel(l: Forest, p: Id, attrs: seq<(string, string)>, x: Id)
    ensures Live(SetAttrs(l, p, attrs), x) == Live(l, x)
    ensures Ids(LevelAt(SetAttrs(l, p, attrs), x)) == Ids(LevelAt(l, x))
    ensures IsDefs(LevelAt(l, x)) ==> IsDefs(LevelAt(SetAttrs(l, p, attrs), x))
  {
    if l.Node? { AttrsFacts(l.kids, p, attrs); }
  }

  lemma {:induction false} AttrsKids(f: Forest, p: Id, attrs: seq<(string, string)>, q: Id)
    requires Distinct(f)
    ensures KidsOf(SetAttrs(f, p, attrs), q) == SetAttrs(KidsOf(f, q), p, attrs)
  {
    if f.Node? {
      AttrsFacts(f.kids, p, attrs);
      AtFacts(f.kids, q);
      AtFacts(SetAttrs(f.kids, p, attrs), q);
      if f.id == p {
        KidsOfFacts(f, q);
        KidsOfFacts(f.kids, q);
        KidsOfFacts(f.next, q);
        AttrsOutside(KidsOf(f, q), p, attrs);
      } else {
        AttrsKids(f.kids, p, attrs, q);
        AttrsKids(f.next, p, attrs, q);
      }
    }
  }

  lemma {:induction f} AttrsOutside(f: Forest, p: Id, attrs: seq<(string, string)>)
    requires p !in Ids(f)
    ensures SetAttrs(f, p, attrs) == f
  {
  }

  lemma AttrsCoherent(f: Forest, bound: Id, root: Id, namesOf: map<Id, seq<string>>, n: Notes,
                      p: Id, attrs: seq<(string, string)>)
    requires WellFormed(f, bound, root) && Coherent(f, bound, root, namesOf, n)
    ensures WellFormed(SetAttrs(f, p, attrs), bound, root)
    ensures Coherent(SetAttrs(f, p, attrs), bound, root, namesOf, n)
  {
    var f' := SetAttrs(f, p, attrs);
    AttrsFacts(f, p, attrs);
    AttrsLevel(f.kids, p, attrs, root);
    AttrsKids(f, p, attrs, root);
    AttrsKids(f, p, attrs, DOC);
    AttrsFacts(KidsOf(f, DOC), p, attrs);
    PendingStays(f, f', bound, root, n.changed);
    if !n.full && !PendingFull(f, root, n.changed) {
      forall x ensures Covered(f', root, namesOf, n, x) {
        AttrsLevel(KidsOf(f, root), p, attrs, x);
        assert Covered(f, root, namesOf, n, x);
      }
    }
  }

  /** Freeing a detached tree changes nothing the document shows. */
  lemma FreeCoherent(f: Forest, bound: Id, root: Id, namesOf: map<Id, seq<string>>, n: Notes, r: Id)
    requires WellFormed(f, bound, root) && Coherent(f, bound, root, namesOf, n)
    requires r in Level(f) && r != DOC
    ensures WellFormed(ReplaceAt(f, r, Nil), bound, root)
    ensures Coherent(ReplaceAt(f, r, Nil), bound, root, namesOf, n)
  {
    var f' := ReplaceAt(f, r, Nil);
    ReplaceAtFacts(f, r, Nil);
    PendingStays(f, f', bound, root, n.changed);
    if !n.full && !PendingFull(f, root, n.changed) {
      LevelAtFacts(f.kids, root);
      AtFacts(f.kids, root);
      assert KidsOf(f', root) == KidsOf(f, root);
      forall x ensures Covered(f', root, namesOf, n, x) {
        assert Covered(f, root, namesOf, n, x);
      }
    }
  }

  /** A child and its parent lie in the same top-level node, unless the parent is the `Defs` root. */
  lemma CoversParent(f: Forest, root: Id, c: Id, p: Id, x: Id)
    requires Distinct(f) && c in Level(KidsOf(f, p)) && p != root
    ensures Covers(f, root, c, x) <==> Covers(f, root, p, x)
  {
    var tops := KidsOf(f, root);
    LevelAtFacts(tops, x);
    if x in Level(tops) {
      AtOfLevel(f, root, x);
      ParentIff(f, c, p);
      ParentIff(f, c, root);
      LevelAtFacts(KidsOf(f, p), c);
      if x != p { SameAncestors(f, c, p, x); }
    }
  }

  /** Reporting the parent instead of the child that changed loses nothing. */
  lemma ReportParent(f: Forest, bound: Id, root: Id, namesOf: map<Id, seq<string>>, n: Notes, c: Id, p: Id)
    requires Distinct(f) && p < bound
    requires c in Level(KidsOf(f, p)) && c != root && c != DOC
    requires Coherent(f, bound, root, namesOf, n.(changed := n.changed + [c]))
    ensures Coherent(f, bound, root, namesOf, n.(changed := n.changed + [p]))
  {
    var n1, n2 := n.(changed := n.changed + [c]), n.(changed := n.changed + [p]);
    KidsOfFacts(f, p);
    LevelAtFacts(KidsOf(f, p), c);
    assert forall x :: x in n.changed ==> x in n1.changed;
    assert n2.changed[|n.changed|] == p;
    if n.full {
    } else if i :| 0 <= i < |n1.changed| && Forces(f, root, n1.changed[i]) {
      assert n2.changed[i] == n1.changed[i];
    } else if p != root {
      forall x ensures Covered(f, root, namesOf, n2, x) {
        CoversParent(f, root, c, p, x);
        assert Covered(f, root, namesOf, n1, x);
        if i :| 0 <= i < |n1.changed| && Covers(f, root, n1.changed[i], x) {
          assert i < |n.changed| ==> n2.changed[i] == n1.changed[i];
          assert Covers(f, root, n2.changed[i], x);
        }
      }
    }
  }

  /** The `Defs` root is a child of the document only. */
  lemma AttachedParent(f: Forest, root: Id, p: Id)
    requires Distinct(f) && Attached(f, root) && p != DOC
    ensures root !in Level(KidsOf(f, p))
  {
    ParentIff(f, root, DOC);
    ParentIff(f, root, p);
  }

  lemma StaysChild(f: Forest, p: Id, c: Id, h: Forest)
    requires Distinct(f) && c in Level(KidsOf(f, p)) && Distinct(h)
    requires Ids(h) !! (Ids(f) - Ids(KidsOf(f, c)))
    ensures c in Level(KidsOf(SetKids(f, c, h), p))
  {
    LevelAtFacts(KidsOf(f, p), c);
    KidsOfFacts(f, p);
    NestedKids(f, p, c);
    KidsOfFacts(KidsOf(f, p), c);
    AtFacts(f, p);
    SetKidsElsewhere(f, c, h, p);
    SetKidsLevel(KidsOf(f, p), c, h);
  }

  /** `AddModExtension` edits the `modExtensions` child `ext` of `p` but reports `p`. */
  lemma ExtensionCoherent(f: Forest, bound: Id, root: Id, namesOf: map<Id, seq<string>>, n: Notes,
                          p: Id, ext: Id, items: Forest, affected: seq<Id>, bound': Id)
    requires WellFormed(f, bound, root) && Coherent(f, bound, root, namesOf, n)
    requires p != DOC && ext in Level(KidsOf(f, p)) && bound <= bound'
    requires Distinct(items) && (forall x :: x in Ids(items) ==> bound <= x < bound')
    requires forall x :: x in affected <==> x in Level(items)
    ensures WellFormed(SetKids(f, ext, Append(KidsOf(f, ext), items)), bound', root)
    ensures Coherent(SetKids(f, ext, Append(KidsOf(f, ext), items)), bound', root, namesOf,
            n.(changed := n.changed + [p]))
  {
    var h := Append(KidsOf(f, ext), items);
    var f' := SetKids(f, ext, h);
    assert ext in Ids(f) && ext != DOC && p in Ids(f) by {
      LevelAtFacts(KidsOf(f, p), ext);
      KidsOfFacts(f, p);
      AtFacts(f, p);
      RootsAreNoKids(f, DOC, p);
    }
    AddedCoherent(f, bound, root, namesOf, n, ext, items, h, affected, bound');
    if n.full || PendingFull(f, root, n.changed) {
      PendingMore(f', root, n.changed, p);
    } else {
      AttachedParent(f, root, p);
      AddEdit(f, bound, root, ext, items, h, affected, bound');
      StaysChild(f, p, ext, h);
      ReportParent(f', bound', root, namesOf, n, ext, p);
    }
  }

  lemma AddedCoherent(f: Forest, bound: Id, root: Id, namesOf: map<Id, seq<string>>, n: Notes,
                      p: Id, items: Forest, h: Forest, affected: seq<Id>, bound': Id)
    requires WellFormed(f, bound, root) && Coherent(f, bound, root, namesOf, n)
    requires bound <= bound' && p in Ids(f)
    requires h == Append(KidsOf(f, p), items) || h == Append(items, KidsOf(f, p))
    requires Distinct(items) && (forall x :: x in Ids(items) ==> bound <= x < bound')
    requires forall x :: x in affected <==> x in Level(items)
    ensures WellFormed(SetKids(f, p, h), bound', root)
    ensures Coherent(SetKids(f, p, h), bound', root, namesOf, NoteChildren(n, root, p, affected))
    ensures PendingFull(f, root, n.changed) ==> PendingFull(SetKids(f, p, h), root, n.changed)
  {
    var f' := SetKids(f, p, h);
    AppendNil(f');
    forall x | x in affected ensures x in Ids(items) { LevelAtFacts(items, x); }
    AddEdit(f, bound, root, p, items, h, affected, bound');
    EditWellFormed(f, bound, root, p, h, Nil, bound');
    EditIds(f, bound, root, p, h, Nil, bound');
    EditCoherent(f, bound, root, namesOf, n, p, h, Nil, affected, bound');
    PendingStays(f, f', bound, root, n.changed);
  }

  lemma PendingMore(f: Forest, root: Id, changed: seq<Id>, p: Id)
    ensures PendingFull(f, root, changed) ==> PendingFull(f, root, changed + [p])
  {
    if i :| 0 <= i < |changed| && Forces(f, root, changed[i]) {
      assert (changed + [p])[i] == changed[i];
    }
  }

  /** Replacing, removing or inserting beside child `id` of `p`, with the note it leaves. */
  lemma MemberCoherent(f: Forest, bound: Id, root: Id, namesOf: map<Id, seq<string>>, n: Notes,
                       p: Id, id: Id, g: Forest, extra: Forest, affected: seq<Id>, bound': Id)
    requires WellFormed(f, bound, root) && Coherent(f, bound, root, namesOf, n)
    requires Linkable(f, bound, p, id, g, extra, affected, bound')
    ensures WellFormed(Edited(f, p, ReplaceAt(KidsOf(f, p), id, g), extra), bound', root)
    ensures Coherent(Edited(f, p, ReplaceAt(KidsOf(f, p), id, g), extra), bound', root, namesOf,
                     NoteChildren(n, root, p, affected))
  {
    var h := ReplaceAt(KidsOf(f, p), id, g);
    ParentFacts(f, id);
    forall x | x in affected ensures x < bound' { LevelAtFacts(g, x); }
    MemberEdit(f, bound, root, p, id, g, extra, affected, bound');
    EditWellFormed(f, bound, root, p, h, extra, bound');
    EditCoherent(f, bound, root, namesOf, n, p, h, extra, affected, bound');
  }
}
