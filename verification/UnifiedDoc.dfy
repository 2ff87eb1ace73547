/** The merged `Defs` document with its lazily refreshed `defName` index. */
module UnifiedDocument {
  import opened Wrappers
  import opened Arena
  import opened DefScan
  import opened DefIndexing
  import opened IndexNotes

  class UnifiedDoc {
    var forest: Forest
    var issued: Id
    const defsRoot: Id
    var index: DefIndex
    var fullDirty: bool
    var dirtyTops: seq<Id>

    ghost predicate Valid()
      reads this, index
    {
      index.Valid() && WellFormed(forest, issued, defsRoot)
    }

    ghost function NotesWith(changed: seq<Id>, tops: seq<Id>): Notes
      reads this
    {
      Notes(fullDirty, dirtyTops, changed, tops)
    }

    /** With these pending notes every stale top-level node is known to be stale. */
    ghost predicate Honest(changed: seq<Id>, tops: seq<Id>)
      reads this, index
    {
      Valid() && Coherent(forest, issued, defsRoot, index.namesOf, NotesWith(changed, tops))
    }

    /** A freshly merged document: any tree, nothing indexed yet. */
    constructor Merged(f: Forest, issued: Id, defsRoot: Id)
      requires WellFormed(f, issued, defsRoot)
      ensures Honest([], []) && fresh(index)
      ensures this.forest == f && this.issued == issued && this.defsRoot == defsRoot && this.fullDirty
    {
      forest, this.issued, this.defsRoot := f, issued, defsRoot;
      index := new DefIndex();
      fullDirty, dirtyTops := true, [];
    }

    /** The top-level node around a node: walks up until the parent is the `Defs` root. */
    method TopLevelOf(id: Id) returns (top: Option<Id>)
      requires Valid()
      ensures forall x: Id :: Covers(forest, defsRoot, id, x) <==> top == Some(x)
    {
      var tops := KidsOf(forest, defsRoot);
      KidsOfFacts(forest, defsRoot);
      if id !in Ids(forest) {
        forall x ensures !Covers(forest, defsRoot, id, x) { LevelAtFacts(tops, x); }
        return None;
      }
      var cur := id;
      while true
        invariant cur in Ids(forest)
        invariant forall x :: Covers(forest, defsRoot, id, x) <==> Covers(forest, defsRoot, cur, x)
        decreases Depth(forest, cur)
      {
        ParentFacts(forest, cur);
        var parent := ParentOf(forest, cur);
        if parent.None? {
          RootsAreNoKids(forest, cur, defsRoot);
          forall x ensures !Covers(forest, defsRoot, cur, x) { LevelAtFacts(tops, x); }
          return None;
        }
        if parent.value == defsRoot {
          LevelAtFacts(tops, cur);
          forall x ensures Covers(forest, defsRoot, cur, x) <==> x == cur {
            if Covers(forest, defsRoot, cur, x) { MemberUnique(tops, cur, x, cur); }
          }
          return Some(cur);
        }
        forall x ensures Covers(forest, defsRoot, cur, x) <==> Covers(forest, defsRoot, parent.value, x) {
          CoversParent(forest, defsRoot, cur, parent.value, x);
        }
        cur := parent.value;
      }
    }

    /** Turns the oldest pending container note into a dirty mark. */
    method NoteChanged(container: Id, ghost changed: seq<Id>, ghost tops: seq<Id>)
      requires Honest([container] + changed, tops)
      modifies this`fullDirty, this`dirtyTops
      ensures Honest(changed, tops)
      ensures old(fullDirty) ==> fullDirty && dirtyTops == old(dirtyTops)
    {
      assert forall x :: x in changed ==> x in [container] + changed;
      if fullDirty {
        return;
      }
      if container == defsRoot || container == DOC || container !in Ids(forest) {
        fullDirty := true;
        return;
      }
      var top := TopLevelOf(container);
      if top.Some? {
        var tops' := KidsOf(forest, defsRoot);
        LevelAtFacts(tops', top.value);
        KidsOfFacts(forest, defsRoot);
        dirtyTops := dirtyTops + [top.value];
      }
      PassedOn(forest, defsRoot, index.namesOf, old(NotesWith([container] + changed, tops)), NotesWith(changed, tops),
               container);
    }

    method NoteTopLevel(top: Id, ghost tops: seq<Id>)
      requires Honest([], [top] + tops)
      modifies this`fullDirty, this`dirtyTops
      ensures Honest([], tops)
      ensures old(fullDirty) ==> fullDirty && dirtyTops == old(dirtyTops)
    {
      assert top in [top] + tops;
      assert forall x :: x in [top] + tops <==> x == top || x in tops;
      if !fullDirty {
        dirtyTops := dirtyTops + [top];
        forall x ensures Covered(forest, defsRoot, index.namesOf, NotesWith([], tops), x) {
          assert Covered(forest, defsRoot, index.namesOf, old(NotesWith([], [top] + tops)), x);
        }
      }
    }

    method MarkIndexDirty()
      modifies this`fullDirty
      ensures fullDirty
    {
      fullDirty := true;
    }

    predicate IndexUsable()
      reads this
    {
      Usable(forest, defsRoot)
    }

    /** After a refresh the index holds exactly the live names of every node. */
    method RefreshIndex()
      requires Honest([], []) && IndexUsable()
      modifies this`index, this`fullDirty, this`dirtyTops, index
      ensures Honest([], []) && !fullDirty && dirtyTops == []
      ensures forall x :: Agrees(forest, defsRoot, index.namesOf, x)
      ensures index == old(index) || fresh(index)
    {
      UsableIsAttached(forest, defsRoot);
      if fullDirty {
        index := new DefIndex.Build(forest, defsRoot);
        fullDirty := false;
        dirtyTops := [];
        assert forall x :: Agrees(forest, defsRoot, index.namesOf, x);
        IndexedIsIssued();
        return;
      }
      var dirty := dirtyTops;
      dirtyTops := [];
      assert dirty[0..] == dirty;
      forall x ensures x in dirty || Agrees(forest, defsRoot, index.namesOf, x) {
        assert Covered(forest, defsRoot, index.namesOf, old(NotesWith([], [])), x);
      }
      var i := 0;
      while i < |dirty|
        invariant 0 <= i <= |dirty|
        invariant !fullDirty && dirtyTops == []
        invariant index == old(index) && index.Valid()
        invariant forall x :: x in dirty[i..] || Agrees(forest, defsRoot, index.namesOf, x)
      {
        assert dirty[i..] == [dirty[i]] + dirty[i + 1..];
        ghost var before := index.namesOf;
        index.Reindex(forest, defsRoot, dirty[i]);
        forall x ensures x in dirty[i + 1..] || Agrees(forest, defsRoot, index.namesOf, x) {
          assert x in dirty[i..] || Agrees(forest, defsRoot, before, x);
        }
        i := i + 1;
      }
      IndexedIsIssued();
    }

    lemma IndexedIsIssued()
      requires Valid() && forall x :: Agrees(forest, defsRoot, index.namesOf, x)
      ensures forall x :: x in index.namesOf ==> x < issued
    {
      KidsOfFacts(forest, defsRoot);
      forall x | x in index.namesOf ensures x < issued {
        index.EmptyIsAbsent(x);
        assert Agrees(forest, defsRoot, index.namesOf, x);
        LevelAtFacts(KidsOf(forest, defsRoot), x);
      }
    }

    /** The definitions matching any key: what a scan of the live document below `Defs` finds. */
    method LookupKeys(keys: seq<DefKey>) returns (found: seq<Id>)
      requires Honest([], []) && IndexUsable()
      modifies this`index, this`fullDirty, this`dirtyTops, index
      ensures Honest([], [])
      ensures index == old(index) || fresh(index)
      ensures found == ScanDefs(KidsOf(forest, defsRoot), keys)
    {
      RefreshIndex();
      forall x ensures IndexedNames(index.namesOf, x) == Live(KidsOf(forest, defsRoot), x) {
        assert Agrees(forest, defsRoot, index.namesOf, x);
      }
      found := index.LookupKeys(forest, defsRoot, keys);
    }
  }

  lemma {:induction l} MemberUnique(l: Forest, x: Id, y: Id, c: Id)
    requires Distinct(l) && c in Ids(LevelAt(l, x)) && c in Ids(LevelAt(l, y))
    ensures x == y
  {
    if l.Node? {
      LevelAtFacts(l.next, x);
      LevelAtFacts(l.next, y);
    }
  }

  lemma UsableIsAttached(f: Forest, root: Id)
    requires Usable(f, root)
    ensures Attached(f, root)
  {
    FirstIsMember(KidsOf(f, DOC));
  }

  lemma {:induction l} FirstIsMember(l: Forest)
    ensures FirstElement(l).Some? ==> FirstElement(l).value in Level(l)
  {
  }

  /** Dropping a container note is safe once the top-level node around the container is marked. */
  lemma PassedOn(f: Forest, root: Id, namesOf: map<Id, seq<string>>, n: Notes, n': Notes, container: Id)
    requires Distinct(f) && |n.changed| > 0 && n.changed[0] == container && n'.changed == n.changed[1..]
    requires n'.tops == n.tops && (forall x :: x in n.dirty ==> x in n'.dirty)
    requires container != root && container != DOC && container in Ids(f) && !n.full
    requires forall x :: Covers(f, root, container, x) ==> x in n'.dirty
    ensures PendingFull(f, root, n.changed) ==> PendingFull(f, root, n'.changed)
    ensures forall x :: Covered(f, root, namesOf, n, x) ==> Covered(f, root, namesOf, n', x)
  {
    if i :| 0 <= i < |n.changed| && (n.changed[i] == DOC || n.changed[i] == root || n.changed[i] !in Ids(f)) {
      assert n'.changed[i - 1] == n.changed[i];
    }
    forall x | Covered(f, root, namesOf, n, x) ensures Covered(f, root, namesOf, n', x) {
      if i :| 0 <= i < |n.changed| && Covers(f, root, n.changed[i], x) {
        if i > 0 { assert n'.changed[i - 1] == n.changed[i]; }
      }
    }
  }
}
