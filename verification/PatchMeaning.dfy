/** What single patch operations do to the document, told by handles: which children every node has
    afterwards and in which order, and what stays as it was. */
module PatchMeaning {
  import opened Wrappers
  import opened Arena
  import opened DefScan
  import opened IndexNotes
  import opened PatchSpec
  import opened PatchEngine
  import opened PatchTheorems
  import opened DocumentMeaning

  // ---------------------------------------------------------------- Add

  ghost predicate Added(f: Forest, f': Forest, id: Id, items: Forest, order: Order) {
    && Children(f', id) == (match order
                            case AppendOrder => Children(f, id) + LevelList(items)
                            case PrependOrder => LevelList(items) + Children(f, id))
    && Ids(f') == Ids(f) + Ids(items) && LevelList(f') == LevelList(f)
    && Holds(f', items) && SameBut(f, f', {}, id)
  }

  /** Adding to a node that is there and no text puts the copies after or before its children and moves
      nothing else; anything else raises and changes nothing. */
  lemma AddMeaning(env: Env, v: Val, order: Order, c: Cur, id: Id)
    requires Grounded(c.st) && c.st.fuse < 0
    ensures var flow, was := TargetSpec(env, Add(Some(v), order), c, XNode(id)), LabelOf(c.st.f, id);
            if was.Some? && !was.value.kind.Text? && Importable(env, v) then
              && flow == Go(Cur(St(flow.c.st.f, c.st.issued + ValSize(v), c.st.fuse), true, c.detached))
              && Added(c.st.f, flow.c.st.f, id, Import(v, c.st.issued), order)
            else flow == Stop(c, Raised)
  {
    var f, items := c.st.f, Import(v, c.st.issued);
    AtFacts(f, id);
    ImportFacts(v, c.st.issued);
    if id in Ids(f) { AddedShape(f, id, items, order); }
  }

  lemma AddedShape(f: Forest, id: Id, items: Forest, order: Order)
    requires Distinct(f) && id in Ids(f) && Distinct(items) && Ids(items) !! Ids(f)
    ensures Added(f, SetKids(f, id, AddKids(f, id, items, order)), id, items, order)
  {
    var kids, h := KidsOf(f, id), AddKids(f, id, items, order);
    var f' := SetKids(f, id, h);
    KidsOfFacts(f, id);
    if order.AppendOrder? { Joined(kids, items); } else { Joined(items, kids); }
    EditShape(f, id, h);
    HoldsThrough(f', h, items);
    HoldsThrough(f', h, kids);
    forall x | x in Ids(kids) ensures At(f', x) == At(f, x) { AtBelow(f, id, x); }
    SameMore(f, f', Ids(kids), {}, id);
  }

  // ---------------------------------------------------------------- Insert

  ghost predicate Inserted(f: Forest, f': Forest, p: Id, id: Id, items: Forest, order: Order) {
    var copies := Reversed(LevelList(items));
    && Spliced(Children(f, p), id, if order.AppendOrder? then [id] + copies else copies + [id], Children(f', p))
    && Ids(f') == Ids(f) + Ids(items) && LevelList(f') == LevelList(f)
    && Holds(f', items) && SameBut(f, f', {}, p)
  }

  /** An insertion puts the copies beside the target, the last one first, and moves nothing else. */
  lemma InsertMeaning(env: Env, v: Val, order: Order, c: Cur, id: Id)
    requires Grounded(c.st) && c.st.fuse < 0
    ensures var flow := TargetSpec(env, Insert(Some(v), order), c, XNode(id));
            if !Importable(env, v) then flow == Stop(c, Raised)
            else if v.VNil? then flow == Go(c.(hit := true))
            else if Orphan(c.st.f, id) then flow == Stop(c, Raised)
            else
              && flow == Go(Cur(St(flow.c.st.f, c.st.issued + ValSize(v), c.st.fuse), true, c.detached))
              && forall p: Id :: id in Children(c.st.f, p) ==>
                   Inserted(c.st.f, flow.c.st.f, p, id, Import(v, c.st.issued), order)
  {
    ImportFacts(v, c.st.issued);
    ChildOf(c.st.f, id);
    var parent := ParentOf(c.st.f, id);
    InsertRun(env, v, order, c, id);
    if parent.Some? {
      InsertedShape(c.st.f, parent.value, id, Import(v, c.st.issued), order);
    }
  }

  lemma InsertRun(env: Env, v: Val, order: Order, c: Cur, id: Id)
    requires c.st.fuse < 0
    ensures TargetSpec(env, Insert(Some(v), order), c, XNode(id)) ==
            if !Importable(env, v) then Stop(c, Raised)
            else if v.VNil? then Go(c.(hit := true))
            else match ParentOf(c.st.f, id)
                 case None => Stop(c, Raised)
                 case Some(p) =>
                   var g := InsertedList(c.st.f, id, Import(v, c.st.issued), order);
                   Go(Cur(St(SetKids(c.st.f, p, ReplaceAt(KidsOf(c.st.f, p), id, g)), c.st.issued + ValSize(v),
                             c.st.fuse), true, c.detached))
  {
  }

  lemma InsertedShape(f: Forest, p: Id, id: Id, items: Forest, order: Order)
    requires Distinct(f) && ParentOf(f, id) == Some(p) && Distinct(items) && Ids(items) !! Ids(f)
    ensures Inserted(f, SetKids(f, p, ReplaceAt(KidsOf(f, p), id, InsertedList(f, id, items, order))), p, id, items,
            order)
  {
    var t, g := At(f, id), InsertedList(f, id, items, order);
    var f' := SetKids(f, p, ReplaceAt(KidsOf(f, p), id, g));
    ParentFacts(f, id);
    AtFacts(f, id);
    RevTrees(items);
    InsertedTrees(t, items, Rev(items), order);
    MemberShape(f, p, id, g);
    HoldsThrough(f', g, items);
    HoldsThrough(f', g, t);
    forall x | x in Ids(t) ensures At(f', x) == At(f, x) { AtInside(f, id, x); }
    SameMore(f, f', Ids(t), {}, p);
  }

  lemma RevTrees(items: Forest)
    requires Distinct(items)
    ensures Distinct(Rev(items)) && Ids(Rev(items)) == Ids(items) && Holds(Rev(items), items)
    ensures LevelList(Rev(items)) == Reversed(LevelList(items))
  {
    RevFacts(items);
    RevList(items);
    forall x | x in Ids(items) ensures At(Rev(items), x) == At(items, x) { AtRev(items, x); }
  }

  lemma InsertedTrees(t: Forest, items: Forest, r: Forest, order: Order)
    requires t.Node? && t.next == Nil && Distinct(t) && Distinct(r) && Ids(t) !! Ids(items)
    requires Ids(r) == Ids(items) && Holds(r, items)
    ensures var g := if order.AppendOrder? then Append(t, r) else Append(r, t);
            && Distinct(g) && Ids(g) == Ids(t) + Ids(items) && Holds(g, t) && Holds(g, items)
            && LevelList(g) == if order.AppendOrder? then [t.id] + LevelList(r) else LevelList(r) + [t.id]
  {
    assert LevelList(t) == [t.id];
    if order.AppendOrder? {
      Joined(t, r);
      HoldsThrough(Append(t, r), r, items);
    } else {
      Joined(r, t);
      HoldsThrough(Append(r, t), r, items);
    }
  }

  // ---------------------------------------------------------------- Replace and Remove

  /** The copies stand in the place of `id`, whose tree is now the last root. */
  ghost predicate Replaced(f: Forest, f': Forest, p: Id, id: Id, items: Forest) {
    && Spliced(Children(f, p), id, LevelList(items), Children(f', p))
    && Ids(f') == Ids(f) + Ids(items) && LevelList(f') == LevelList(f) + [id]
    && Holds(f', items) && SameBut(f, f', {}, p)
  }

  /** The same once the old tree is freed. */
  ghost predicate Exchanged(f: Forest, f': Forest, p: Id, id: Id, items: Forest) {
    && Spliced(Children(f, p), id, LevelList(items), Children(f', p))
    && Ids(f') == Ids(f) - Ids(At(f, id)) + Ids(items) && LevelList(f') == LevelList(f)
    && Holds(f', items) && SameBut(f, f', Ids(At(f, id)), p)
  }

  lemma DetachedShape(f: Forest, p: Id, id: Id, items: Forest)
    requires Distinct(f) && ParentOf(f, id) == Some(p) && Distinct(items) && Ids(items) !! Ids(f)
    ensures var f' := SetKids(f, p, ReplaceAt(KidsOf(f, p), id, items));
            Exchanged(f, f', p, id, items) && Replaced(f, Append(f', At(f, id)), p, id, items)
            && id !in Level(f')
  {
    var t, f' := At(f, id), SetKids(f, p, ReplaceAt(KidsOf(f, p), id, items));
    ParentFacts(f, id);
    AtFacts(f, id);
    AtFacts(f, p);
    MemberShape(f, p, id, items);
    assert p !in Ids(t) by { NotInside(f, p, id); }
    assert LevelList(t) == [id];
    Joined(f', t);
    LevelAtFacts(f', id);
    var f'' := Append(f', t);
    assert At(f'', p) == At(f', p);
    HoldsThrough(f'', f', items);
    DetachedSame(f, f', t, p, id);
  }

  lemma NotInside(f: Forest, p: Id, id: Id)
    requires Distinct(f) && id in Level(KidsOf(f, p))
    ensures p !in Ids(At(f, id))
  {
    AtOfLevel(f, p, id);
    KidsOfFacts(f, p);
    LevelAtFacts(KidsOf(f, p), id);
  }

  lemma DetachedSame(f: Forest, f': Forest, t: Forest, p: Id, id: Id)
    requires Distinct(f) && t == At(f, id) && SameBut(f, f', Ids(t), p)
    requires Distinct(f') && Distinct(t) && Ids(f') !! Ids(t)
    ensures SameBut(f, Append(f', t), {}, p)
  {
    Joined(f', t);
    forall x | x in Ids(t) ensures At(Append(f', t), x) == At(f, x) { AtInside(f, id, x); }
    SameMore(f, Append(f', t), Ids(t), {}, p);
  }

  /** A target that is gone counts as replaced; the document node and other roots cannot be. */
  lemma ReplaceMeaning(env: Env, v: Val, c: Cur, id: Id)
    requires Grounded(c.st) && c.st.fuse < 0
    ensures var flow := TargetSpec(env, Replace(Some(v)), c, XNode(id));
            if id !in Ids(c.st.f) then flow == Go(c.(hit := true))
            else if Orphan(c.st.f, id) || !Importable(env, v) then flow == Stop(c, Raised)
            else
              && flow == Go(Cur(St(flow.c.st.f, c.st.issued + ValSize(v), c.st.fuse), true, c.detached + [id]))
              && forall p: Id :: id in Children(c.st.f, p) ==>
                   Replaced(c.st.f, flow.c.st.f, p, id, Import(v, c.st.issued))
  {
    ImportFacts(v, c.st.issued);
    ChildOf(c.st.f, id);
    ParentFacts(c.st.f, id);
    ReplaceRun(env, v, c, id);
    if ParentOf(c.st.f, id).Some? {
      DetachedShape(c.st.f, ParentOf(c.st.f, id).value, id, Import(v, c.st.issued));
    }
  }

  lemma ReplaceRun(env: Env, v: Val, c: Cur, id: Id)
    requires c.st.fuse < 0
    ensures TargetSpec(env, Replace(Some(v)), c, XNode(id)) ==
            if id !in Ids(c.st.f) then Go(c.(hit := true))
            else if ParentOf(c.st.f, id).None? || !Importable(env, v) then Stop(c, Raised)
            else
              var p := ParentOf(c.st.f, id).value;
              var f' := SetKids(c.st.f, p, ReplaceAt(KidsOf(c.st.f, p), id, Import(v, c.st.issued)));
              Go(Cur(St(Append(f', At(c.st.f, id)), c.st.issued + ValSize(v), c.st.fuse), true, c.detached + [id]))
  {
  }

  lemma RemoveMeaning(env: Env, c: Cur, id: Id)
    requires Grounded(c.st) && c.st.fuse < 0
    ensures var flow := TargetSpec(env, Remove, c, XNode(id));
            if id !in Ids(c.st.f) then flow == Go(c.(hit := true))
            else if Orphan(c.st.f, id) then flow == Stop(c, Raised)
            else
              && flow == Go(Cur(St(flow.c.st.f, c.st.issued, c.st.fuse), true, c.detached + [id]))
              && forall p: Id :: id in Children(c.st.f, p) ==> Replaced(c.st.f, flow.c.st.f, p, id, Nil)
  {
    ChildOf(c.st.f, id);
    ParentFacts(c.st.f, id);
    RemoveRun(env, c, id);
    if ParentOf(c.st.f, id).Some? {
      DetachedShape(c.st.f, ParentOf(c.st.f, id).value, id, Nil);
    }
  }

  lemma RemoveRun(env: Env, c: Cur, id: Id)
    requires c.st.fuse < 0
    ensures TargetSpec(env, Remove, c, XNode(id)) ==
            if id !in Ids(c.st.f) then Go(c.(hit := true))
            else if ParentOf(c.st.f, id).None? then Stop(c, Raised)
            else
              var p := ParentOf(c.st.f, id).value;
              var f' := SetKids(c.st.f, p, ReplaceAt(KidsOf(c.st.f, p), id, Nil));
              Go(Cur(St(Append(f', At(c.st.f, id)), c.st.issued, c.st.fuse), true, c.detached + [id]))
  {
  }

  // ---------------------------------------------------------------- a whole replacement or removal

  lemma {:induction false} FreedLast(f: Forest, t: Forest)
    requires t.Node? && t.next == Nil && t.id !in Level(f)
    ensures ReplaceAt(Append(f, t), t.id, Nil) == f
    decreases f
  {
    if f.Node? { FreedLast(f.next, t); }
  }

  /** After a replacement or a removal the old tree is gone from the arena, and nothing else is. */
  lemma ExchangeMeaning(env: Env, leaf: Leaf, v: Val, st: St, id: Id)
    requires Grounded(st) && st.fuse < 0 && id in Ids(st.f) && !Orphan(st.f, id)
    requires (leaf == Replace(Some(v)) && Importable(env, v)) || (leaf == Remove && v.VNil?)
    ensures var out := LeafSpec(env, leaf, st, [XNode(id)]);
            && out == Out(St(out.st.f, st.issued + ValSize(v), st.fuse), Done(true))
            && forall p: Id :: id in Children(st.f, p) ==> Exchanged(st.f, out.st.f, p, id, Import(v, st.issued))
  {
    var c, f, items := Cur(st, false, []), st.f, Import(v, st.issued);
    ChildOf(f, id);
    ParentFacts(f, id);
    var p := ParentOf(f, id).value;
    var f' := SetKids(f, p, ReplaceAt(KidsOf(f, p), id, items));
    RootsAreNoKids(f, DOC, p);
    LevelAtFacts(KidsOf(f, p), id);
    AtFacts(f, id);
    ImportFacts(v, st.issued);
    DetachedShape(f, p, id, items);
    FreedOnce(f', At(f, id));
    assert c.detached + [id] == [id];
    if leaf.Replace? { ReplaceRun(env, v, c, id); } else { RemoveRun(env, c, id); }
    OneTarget(env, leaf, st, XNode(id));
  }

  lemma FreedOnce(f: Forest, t: Forest)
    requires t.Node? && t.next == Nil && t.id !in Level(f) && t.id != DOC
    ensures FreeSpec(Append(f, t), [t.id]) == f
  {
    FreedLast(f, t);
    AppendAt(f, t, t.id);
    LevelAtFacts(Append(f, t), t.id);
    assert [t.id][1..] == [];
  }

  lemma OneTarget(env: Env, leaf: Leaf, st: St, target: XNode)
    requires Ready(leaf)
    ensures var flow := TargetSpec(env, leaf, Cur(st, false, []), target);
            flow.Go? ==> LeafSpec(env, leaf, st, [target]) ==
                         Out(flow.c.st.(f := FreeSpec(flow.c.st.f, flow.c.detached)), Done(flow.c.hit))
  {
    var flow := TargetSpec(env, leaf, Cur(st, false, []), target);
    assert [target][1..] == [];
    if flow.Go? { assert TargetsSpec(env, leaf, flow.c, []) == flow; }
  }

  // ---------------------------------------------------------------- SetName

  /** A new element stands where `id` stood and has its children. */
  ghost predicate Renamed(f: Forest, f': Forest, p: Id, id: Id, n: Id, name: string) {
    && Spliced(Children(f, p), id, [n], Children(f', p))
    && LabelOf(f', n) == Some(Label(Element, name, "", [])) && Children(f', n) == Children(f, id)
    && Ids(f') == Ids(f) - {id} + {n} && LevelList(f') == LevelList(f)
    && SameBut(f, f', {id}, p)
  }

  lemma SetNameMeaning(env: Env, name: Option<string>, c: Cur, id: Id)
    requires Grounded(c.st) && c.st.fuse < 0
    ensures var flow, was := TargetSpec(env, SetName(name), c, XNode(id)), LabelOf(c.st.f, id);
            if was.Some? && was.value.kind.Element? && !Orphan(c.st.f, id) && name.Some? && env.nameOk(name.value) then
              && flow == Go(Cur(St(flow.c.st.f, c.st.issued + 1, c.st.fuse), true, c.detached))
              && forall p: Id :: id in Children(c.st.f, p) ==>
                   Renamed(c.st.f, flow.c.st.f, p, id, c.st.issued, name.value)
            else flow == Stop(c, Raised)
  {
    var f, parent := c.st.f, ParentOf(c.st.f, id);
    ChildOf(f, id);
    AtFacts(f, id);
    SetNameRun(env, name, c, id);
    if parent.Some? && name.Some? {
      var g := Node(c.st.issued, Element, name.value, "", [], KidsOf(f, id), Nil);
      RenamedShape(f, parent.value, id, g, name.value);
    }
  }

  lemma SetNameRun(env: Env, name: Option<string>, c: Cur, id: Id)
    requires c.st.fuse < 0
    ensures TargetSpec(env, SetName(name), c, XNode(id)) ==
            if !IsElement(c.st.f, id) || ParentOf(c.st.f, id).None? || name.None? || !env.nameOk(name.value)
            then Stop(c, Raised)
            else
              var p := ParentOf(c.st.f, id).value;
              var g := Node(c.st.issued, Element, name.value, "", [], KidsOf(c.st.f, id), Nil);
              Go(Cur(St(SetKids(c.st.f, p, ReplaceAt(KidsOf(c.st.f, p), id, g)), c.st.issued + 1, c.st.fuse),
                     true, c.detached))
  {
  }

  lemma RenamedShape(f: Forest, p: Id, id: Id, g: Forest, name: string)
    requires Distinct(f) && ParentOf(f, id) == Some(p)
    requires g.Node? && g.kind == Element && g.name == name && g.text == "" && g.attrs == []
    requires g.kids == KidsOf(f, id) && g.next == Nil && forall x :: x in Ids(f) ==> x < g.id
    ensures Renamed(f, SetKids(f, p, ReplaceAt(KidsOf(f, p), id, g)), p, id, g.id, name)
  {
    var f' := SetKids(f, p, ReplaceAt(KidsOf(f, p), id, g));
    ParentFacts(f, id);
    AtFacts(f, id);
    KidsOfFacts(f, id);
    MemberShape(f, p, id, g);
    assert LevelList(g) == [g.id];
    assert At(f', g.id) == At(g, g.id) == g;
    assert Ids(At(f, id)) == {id} + Ids(KidsOf(f, id));
    KeptBelow(f, f', p, id, g);
  }

  lemma KeptBelow(f: Forest, f': Forest, p: Id, id: Id, g: Forest)
    requires Distinct(f) && g.Node? && g.kids == KidsOf(f, id) && g.next == Nil && g.id !in Ids(g.kids)
    requires Holds(f', g) && Ids(At(f, id)) == {id} + Ids(KidsOf(f, id)) && SameBut(f, f', Ids(At(f, id)), p)
    ensures SameBut(f, f', {id}, p)
  {
    forall x | x in Ids(KidsOf(f, id)) ensures x in Ids(f') && At(f', x) == At(f, x) { TakenOver(f, f', id, g, x); }
    SameMore(f, f', Ids(At(f, id)), {id}, p);
  }

  lemma TakenOver(f: Forest, f': Forest, id: Id, g: Forest, x: Id)
    requires Distinct(f) && g.Node? && g.kids == KidsOf(f, id) && g.next == Nil && g.id !in Ids(g.kids)
    requires x in Ids(KidsOf(f, id)) && At(f', x) == At(g, x)
    ensures x in Ids(f') && At(f', x) == At(f, x)
  {
    AtBelow(f, id, x);
    AtFacts(g.kids, x);
    AtFacts(f', x);
  }

  // ---------------------------------------------------------------- AddModExtension

  ghost predicate NoneNamed(f: Forest, s: seq<Id>, name: string) {
    forall i :: 0 <= i < |s| ==> !Named(f, s[i], name)
  }

  /** The document once `id` has a new, empty last child element. */
  ghost predicate Created(f: Forest, f': Forest, id: Id, e: Id) {
    Added(f, f', id, Node(e, Element, "modExtensions", "", [], Nil, Nil), AppendOrder)
  }

  /** With a `modExtensions` child the copies go to the end of the first one. */
  lemma ExtensionMeaning(env: Env, v: Val, c: Cur, id: Id)
    requires Grounded(c.st) && c.st.fuse < 0
    ensures var flow, was := TargetSpec(env, AddModExtension(Some(v)), c, XNode(id)), LabelOf(c.st.f, id);
            if was.None? || !was.value.kind.Element? then flow == Stop(c, Raised)
            else forall e: Id :: FirstNamed(c.st.f, Children(c.st.f, id), Some("modExtensions"), e) ==>
              if !Importable(env, v) then flow == Stop(c, Raised)
              else
                && flow == Go(Cur(St(flow.c.st.f, c.st.issued + ValSize(v), c.st.fuse), true, c.detached))
                && Added(c.st.f, flow.c.st.f, e, Import(v, c.st.issued), AppendOrder)
  {
    AtFacts(c.st.f, id);
    ExtensionRun(env, v, c, id);
    if id in Ids(c.st.f) {
      var present := ChildNamed(KidsOf(c.st.f, id), "modExtensions");
      FirstNamedFound(c.st.f, id, "modExtensions");
      if present.Some? { ExtendedShape(c.st.f, present.value, v, c.st.issued); }
    }
  }

  /** Without one a new, last child gets them; it stays, empty, when the value cannot be imported. */
  lemma ExtensionCreates(env: Env, v: Val, c: Cur, id: Id) returns (between: Forest)
    requires Grounded(c.st) && c.st.fuse < 0 && IsElement(c.st.f, id)
    requires NoneNamed(c.st.f, Children(c.st.f, id), "modExtensions")
    ensures Created(c.st.f, between, id, c.st.issued)
    ensures Filled(env, v, c, between, TargetSpec(env, AddModExtension(Some(v)), c, XNode(id)))
  {
    var f, n := c.st.f, c.st.issued;
    AtFacts(f, id);
    between := WithEmpty(f, id, n);
    NewlyCreated(f, id, n);
    NoneFound(f, id, "modExtensions");
    CreatesRun(env, v, c, id, between, Extended(between, n, v, n + 1));
    FilledRun(env, v, c, between, TargetSpec(env, AddModExtension(Some(v)), c, XNode(id)));
  }

  /** Filling the element just created: it stays empty when the value cannot be imported. */
  ghost predicate Filled(env: Env, v: Val, c: Cur, between: Forest, flow: Flow) {
    var n := c.st.issued;
    if !Importable(env, v) then flow == Stop(Cur(St(between, n + 1, c.st.fuse), c.hit, c.detached), Raised)
    else
      && flow == Go(Cur(St(flow.c.st.f, n + 1 + ValSize(v), c.st.fuse), true, c.detached))
      && Added(between, flow.c.st.f, n, Import(v, n + 1), AppendOrder)
  }

  lemma FilledRun(env: Env, v: Val, c: Cur, between: Forest, flow: Flow)
    requires Distinct(between) && c.st.issued in Ids(between) && forall x :: x in Ids(between) ==> x < c.st.issued + 1
    requires var n := c.st.issued;
             flow == if !Importable(env, v) then Stop(Cur(St(between, n + 1, c.st.fuse), c.hit, c.detached), Raised)
             else Go(Cur(St(Extended(between, n, v, n + 1), n + 1 + ValSize(v), c.st.fuse), true, c.detached))
    ensures Filled(env, v, c, between, flow)
  {
    ExtendedShape(between, c.st.issued, v, c.st.issued + 1);
  }

  lemma CreatesRun(env: Env, v: Val, c: Cur, id: Id, f1: Forest, f2: Forest)
    requires c.st.fuse < 0 && IsElement(c.st.f, id) && ChildNamed(KidsOf(c.st.f, id), "modExtensions").None?
    requires f1 == WithEmpty(c.st.f, id, c.st.issued) && f2 == Extended(f1, c.st.issued, v, c.st.issued + 1)
    ensures TargetSpec(env, AddModExtension(Some(v)), c, XNode(id)) ==
            if !Importable(env, v) then Stop(Cur(St(f1, c.st.issued + 1, c.st.fuse), c.hit, c.detached), Raised)
            else Go(Cur(St(f2, c.st.issued + 1 + ValSize(v), c.st.fuse), true, c.detached))
  {
    ExtensionRun(env, v, c, id);
  }

  lemma ExtensionRun(env: Env, v: Val, c: Cur, id: Id)
    requires c.st.fuse < 0
    ensures var f, n := c.st.f, c.st.issued;
            TargetSpec(env, AddModExtension(Some(v)), c, XNode(id)) ==
            if !IsElement(f, id) then Stop(c, Raised)
            else match ChildNamed(KidsOf(f, id), "modExtensions")
                 case Some(e) =>
                   if !Importable(env, v) then Stop(c, Raised)
                   else Go(Cur(St(Extended(f, e, v, n), n + ValSize(v), c.st.fuse), true, c.detached))
                 case None =>
                   var made := WithEmpty(f, id, n);
                   if !Importable(env, v) then Stop(Cur(St(made, n + 1, c.st.fuse), c.hit, c.detached), Raised)
                   else Go(Cur(St(Extended(made, n, v, n + 1), n + 1 + ValSize(v), c.st.fuse), true, c.detached))
  {
  }

  function Extended(f: Forest, e: Id, v: Val, n: Id): Forest { SetKids(f, e, Append(KidsOf(f, e), Import(v, n))) }

  function WithEmpty(f: Forest, id: Id, n: Id): Forest {
    SetKids(f, id, Append(KidsOf(f, id), Node(n, Element, "modExtensions", "", [], Nil, Nil)))
  }

  lemma ExtendedShape(f: Forest, e: Id, v: Val, n: Id)
    requires Distinct(f) && e in Ids(f) && forall x :: x in Ids(f) ==> x < n
    ensures Added(f, Extended(f, e, v, n), e, Import(v, n), AppendOrder)
  {
    ImportFacts(v, n);
    AddedShape(f, e, Import(v, n), AppendOrder);
  }

  lemma NewlyCreated(f: Forest, id: Id, n: Id)
    requires Distinct(f) && id in Ids(f) && n !in Ids(f)
    ensures Created(f, WithEmpty(f, id, n), id, n)
    ensures Distinct(WithEmpty(f, id, n)) && Ids(WithEmpty(f, id, n)) == Ids(f) + {n}
  {
    CreatedShape(f, id, Node(n, Element, "modExtensions", "", [], Nil, Nil));
  }

  lemma CreatedShape(f: Forest, id: Id, e: Forest)
    requires Distinct(f) && id in Ids(f) && e.Node? && e.kids == Nil && e.next == Nil && e.id !in Ids(f)
    ensures var f' := SetKids(f, id, Append(KidsOf(f, id), e));
            Added(f, f', id, e, AppendOrder) && Distinct(f') && Ids(f') == Ids(f) + {e.id}
  {
    assert Ids(e) == {e.id};
    AddedShape(f, id, e, AppendOrder);
    KidsOfFacts(f, id);
    AppendFacts(KidsOf(f, id), e);
    SetKidsFacts(f, id, Append(KidsOf(f, id), e));
  }

  lemma FirstNamedFound(f: Forest, id: Id, name: string)
    requires Distinct(f) && id in Ids(f)
    ensures forall e: Id ::
              FirstNamed(f, Children(f, id), Some(name), e) <==> ChildNamed(KidsOf(f, id), name) == Some(e)
    ensures ChildNamed(KidsOf(f, id), name).Some? ==> ChildNamed(KidsOf(f, id), name).value in Ids(f)
    ensures NoneNamed(f, Children(f, id), name) ==> ChildNamed(KidsOf(f, id), name).None?
  {
    var kids := KidsOf(f, id);
    KidsOfFacts(f, id);
    forall x | x in Ids(kids) ensures At(f, x) == At(kids, x) { AtBelow(f, id, x); }
    ChildNamedFacts(kids, name);
    LevelAtFacts(kids, id);
    FirstNamedIn(f, kids, name);
    if ChildNamed(kids, name).Some? { assert FirstNamed(f, Children(f, id), Some(name), ChildNamed(kids, name).value); }
  }

  lemma NoneFound(f: Forest, id: Id, name: string)
    requires Distinct(f) && id in Ids(f) && NoneNamed(f, Children(f, id), name)
    ensures ChildNamed(KidsOf(f, id), name).None?
  {
    FirstNamedFound(f, id, name);
  }

  lemma {:induction false} FirstNamedIn(f: Forest, l: Forest, name: string)
    requires Distinct(l) && forall x :: x in Ids(l) ==> At(f, x) == At(l, x)
    ensures forall e: Id :: ChildNamed(l, name) == Some(e) <==> FirstNamed(f, LevelList(l), Some(name), e)
    decreases l
  {
    if l.Node? {
      forall x | x in Ids(l.next) ensures At(f, x) == At(l.next, x) { AtFacts(l.kids, x); }
      FirstNamedIn(f, l.next, name);
      assert At(f, l.id) == At(l, l.id);
      assert Fitting(f, l.id, Some(name)) <==> l.kind.Element? && l.name == name;
      forall e: Id ensures ChildNamed(l, name) == Some(e) <==> FirstNamed(f, LevelList(l), Some(name), e) {
        FirstNamedMore(f, l.id, LevelList(l.next), Some(name), e);
      }
    }
  }

  // ---------------------------------------------------------------- attributes

  /** Element `id` has the attributes `now`; everything else is as before. */
  ghost predicate Retagged(f: Forest, f': Forest, id: Id, now: seq<(string, string)>) {
    && Ids(f') == Ids(f) && LevelList(f') == LevelList(f)
    && (LabelOf(f, id).Some? ==> LabelOf(f', id) == Some(LabelOf(f, id).value.(attrs := now)))
    && forall x :: x in Ids(f) ==>
         && Children(f', x) == Children(f, x) && (x != id ==> LabelOf(f', x) == LabelOf(f, x))
         && (id !in Ids(At(f, x)) ==> At(f', x) == At(f, x))
  }

  ghost predicate FirstAttr(attrs: seq<(string, string)>, name: string, i: int) {
    0 <= i < |attrs| && attrs[i].0 == name && forall j :: 0 <= j < i ==> attrs[j].0 != name
  }

  ghost predicate HasAttr(attrs: seq<(string, string)>, name: string) {
    exists i :: 0 <= i < |attrs| && attrs[i].0 == name
  }

  /** The first attribute of that name has the value, or a new last one. */
  ghost predicate AttrPut(attrs: seq<(string, string)>, name: string, value: string, now: seq<(string, string)>) {
    if HasAttr(attrs, name) then exists i :: FirstAttr(attrs, name, i) && now == attrs[i := (name, value)]
    else now == attrs + [(name, value)]
  }

  ghost predicate AttrDropped(attrs: seq<(string, string)>, name: string, now: seq<(string, string)>) {
    exists i :: FirstAttr(attrs, name, i) && now == attrs[..i] + attrs[i + 1..]
  }

  /** Setting and adding differ in what happens to an attribute that is there; what changes nothing does not
      count. */
  lemma AttributeMeaning(env: Env, name: Option<string>, value: Option<string>, mode: AttributeMode, c: Cur, id: Id)
    requires Grounded(c.st) && c.st.fuse < 0
    ensures var flow, was := TargetSpec(env, Attribute(name, value, mode), c, XNode(id)), LabelOf(c.st.f, id);
            var text := if value.Some? then value.value else "";
            if was.None? || !was.value.kind.Element? || name.None? then flow == Stop(c, Raised)
            else
              var attrs, has := was.value.attrs, HasAttr(was.value.attrs, name.value);
              if (mode.AddAttr? && has) || (mode.RemoveAttr? && !has) then flow == Go(c)
              else if !mode.RemoveAttr? && !(env.charsOk(text) && env.nameOk(name.value)) then flow == Stop(c, Raised)
              else
                && flow == Go(Cur(St(flow.c.st.f, c.st.issued, c.st.fuse), true, c.detached))
                && Edited(c.st.f, flow.c.st.f, id, attrs, name.value, text, mode)
  {
    AtFacts(c.st.f, id);
    if id in Ids(c.st.f) && name.Some? {
      var attrs, text := At(c.st.f, id).attrs, if value.Some? then value.value else "";
      AttrsMeaning(attrs, name.value, text);
      AttributeRun(env, name.value, value, text, mode, c, id);
      if !mode.RemoveAttr? || HasAttr(attrs, name.value) { EditedBy(c.st.f, id, name.value, text, mode); }
    }
  }

  ghost predicate Edited(f: Forest, f': Forest, id: Id, attrs: seq<(string, string)>, name: string, text: string,
                         mode: AttributeMode)
  {
    exists now :: Retagged(f, f', id, now)
                  && if mode.RemoveAttr? then AttrDropped(attrs, name, now) else AttrPut(attrs, name, text, now)
  }

  function EditOf(attrs: seq<(string, string)>, name: string, text: string, mode: AttributeMode)
    : seq<(string, string)>
  {
    if mode.RemoveAttr? then DropAttr(attrs, name) else PutAttr(attrs, name, text)
  }

  lemma AttributeRun(env: Env, name: string, value: Option<string>, text: string, mode: AttributeMode, c: Cur, id: Id)
    requires c.st.fuse < 0 && text == if value.Some? then value.value else ""
    ensures TargetSpec(env, Attribute(Some(name), value, mode), c, XNode(id)) ==
            if !IsElement(c.st.f, id) then Stop(c, Raised)
            else
              var attrs := At(c.st.f, id).attrs;
              var has := AttrIndex(attrs, name).Some?;
              if (mode.AddAttr? && has) || (mode.RemoveAttr? && !has) then Go(c)
              else if !mode.RemoveAttr? && !(env.charsOk(text) && env.nameOk(name)) then Stop(c, Raised)
              else
                Go(Cur(St(SetAttrs(c.st.f, id, EditOf(attrs, name, text, mode)), c.st.issued, c.st.fuse), true,
                       c.detached))
  {
  }

  lemma EditedBy(f: Forest, id: Id, name: string, text: string, mode: AttributeMode)
    requires Distinct(f) && id in Ids(f) && At(f, id).Node?
    requires mode.RemoveAttr? ==> HasAttr(At(f, id).attrs, name)
    ensures var attrs := At(f, id).attrs;
            Edited(f, SetAttrs(f, id, EditOf(attrs, name, text, mode)), id, attrs, name, text, mode)
  {
    AttrsMeaning(At(f, id).attrs, name, text);
    RetaggedShape(f, id, EditOf(At(f, id).attrs, name, text, mode));
  }

  lemma AttrsMeaning(attrs: seq<(string, string)>, name: string, value: string)
    ensures AttrIndex(attrs, name).Some? <==> HasAttr(attrs, name)
    ensures AttrPut(attrs, name, value, PutAttr(attrs, name, value))
    ensures HasAttr(attrs, name) ==> AttrDropped(attrs, name, DropAttr(attrs, name))
  {
    AttrIndexMeaning(attrs, name);
    var i := AttrIndex(attrs, name);
    if i.Some? { assert FirstAttr(attrs, name, i.value); }
  }

  lemma {:induction false} AttrIndexMeaning(attrs: seq<(string, string)>, name: string)
    ensures AttrIndex(attrs, name).Some? ==> FirstAttr(attrs, name, AttrIndex(attrs, name).value)
    ensures AttrIndex(attrs, name).None? ==> !HasAttr(attrs, name)
    decreases |attrs|
  {
    if attrs != [] {
      var rest := attrs[1..];
      AttrIndexMeaning(rest, name);
      assert forall j :: 0 < j < |attrs| ==> attrs[j] == rest[j - 1];
    }
  }

  lemma RetaggedShape(f: Forest, id: Id, now: seq<(string, string)>)
    requires Distinct(f) && id in Ids(f)
    ensures Retagged(f, SetAttrs(f, id, now), id, now)
  {
    var f' := SetAttrs(f, id, now);
    AttrsFacts(f, id, now);
    AttrsRoots(f, id, now);
    AtTagged(f, id, now, id);
    AtFacts(f, id);
    KidsOfFacts(f, id);
    forall x | x in Ids(f)
      ensures && Children(f', x) == Children(f, x) && (x != id ==> LabelOf(f', x) == LabelOf(f, x))
              && (id !in Ids(At(f, x)) ==> At(f', x) == At(f, x))
    {
      AtFacts(f, x);
      AtTagged(f, id, now, x);
      AttrsRoots(KidsOf(f, x), id, now);
      if id !in Ids(At(f, x)) { AttrsOutside(At(f, x), id, now); }
    }
  }

  lemma {:induction false} AttrsRoots(f: Forest, id: Id, now: seq<(string, string)>)
    ensures LevelList(SetAttrs(f, id, now)) == LevelList(f)
    decreases f
  {
    if f.Node? { AttrsRoots(f.next, id, now); }
  }

  lemma {:induction false} AtTagged(f: Forest, id: Id, now: seq<(string, string)>, x: Id)
    requires Distinct(f)
    ensures At(SetAttrs(f, id, now), x) == SetAttrs(At(f, x), id, now)
    decreases f
  {
    if f.Node? {
      AttrsFacts(f.kids, id, now);
      AtFacts(f.kids, x);
      AtFacts(SetAttrs(f.kids, id, now), x);
      if f.id == id {
        AtFacts(f.next, x);
        AttrsOutside(At(f.kids, x), id, now);
        AttrsOutside(At(f.next, x), id, now);
      } else {
        AtTagged(f.kids, id, now, x);
        AtTagged(f.next, id, now, x);
      }
    }
  }

  /** An attribute that was selected is extended by the text of the value. */
  lemma AddToAttribute(env: Env, v: Val, order: Order, c: Cur, id: Id, k: nat)
    requires Grounded(c.st) && c.st.fuse < 0
    ensures var flow, was := TargetSpec(env, Add(Some(v), order), c, XAttr(id, k)), LabelOf(c.st.f, id);
            if was.None? || !was.value.kind.Element? || |was.value.attrs| <= k || HasElement(v)
              then flow == Stop(c, Raised)
            else
              var (name, old') := was.value.attrs[k];
              var text := match order case AppendOrder => old' + TextOf(v) case PrependOrder => TextOf(v) + old';
              if !env.charsOk(text) then flow == Stop(c, Raised)
              else
                && flow == Go(Cur(St(flow.c.st.f, c.st.issued, c.st.fuse), true, c.detached))
                && exists now :: Retagged(c.st.f, flow.c.st.f, id, now) && AttrPut(was.value.attrs, name, text, now)
  {
    var f := c.st.f;
    AtFacts(f, id);
    if id in Ids(f) && k < |At(f, id).attrs| {
      var attrs := At(f, id).attrs;
      var (name, current) := attrs[k];
      var text := match order case AppendOrder => current + TextOf(v) case PrependOrder => TextOf(v) + current;
      AddToAttributeRun(env, v, order, c, id, k);
      AttrsMeaning(attrs, name, text);
      RetaggedShape(f, id, PutAttr(attrs, name, text));
    }
  }

  lemma AddToAttributeRun(env: Env, v: Val, order: Order, c: Cur, id: Id, k: nat)
    requires c.st.fuse < 0 && At(c.st.f, id).Node? && k < |At(c.st.f, id).attrs|
    ensures TargetSpec(env, Add(Some(v), order), c, XAttr(id, k)) ==
            var attrs := At(c.st.f, id).attrs;
            var (name, current) := attrs[k];
            var text := match order case AppendOrder => current + TextOf(v) case PrependOrder => TextOf(v) + current;
            if HasElement(v) || !At(c.st.f, id).kind.Element? || !env.charsOk(text) then Stop(c, Raised)
            else Go(Cur(St(SetAttrs(c.st.f, id, PutAttr(attrs, name, text)), c.st.issued, c.st.fuse), true, c.detached))
  {
  }

  /** No other operation takes an attribute. */
  lemma OnlyAddTakesAttributes(env: Env, leaf: Leaf, c: Cur, id: Id, k: nat)
    requires Ready(leaf) && !leaf.Add?
    ensures TargetSpec(env, leaf, c, XAttr(id, k)) == Stop(c, Raised)
  {
  }

  // ---------------------------------------------------------------- what is copied

  /** A list of nodes with the shape, kinds, names, texts and attributes of a value. */
  ghost predicate CopyOf(v: Val, g: Forest) {
    if v.VNil? then g.Nil?
    else
      && g.Node? && CopyOf(v.next, g.next)
      && (if v.isText then g.kind == Text && g.text == v.text && g.kids == Nil
          else g.kind == Element && g.name == v.name && g.attrs == v.attrs && CopyOf(v.kids, g.kids))
  }

  /** An import copies the value; the new handles are the next ones, in document order. */
  lemma {:induction false} ImportMeaning(v: Val, at: Id)
    ensures CopyOf(v, Import(v, at))
    ensures forall x :: x in Ids(Import(v, at)) ==> at <= x < at + ValSize(v)
    ensures forall x, y :: x in Ids(Import(v, at)) && y in Ids(Import(v, at)) && x < y ==>
              Pos(Import(v, at), x) < Pos(Import(v, at), y)
    decreases v
  {
    ImportFacts(v, at);
    if v.VNode? {
      ImportFacts(v.kids, at + 1);
      ImportFacts(v.next, at + 1 + ValSize(v.kids));
      ImportMeaning(v.kids, at + 1);
      ImportMeaning(v.next, at + 1 + ValSize(v.kids));
      PosBound(Import(v.kids, at + 1));
    }
  }

  /** The top-level nodes of a value, each with what follows it. */
  function Tops(v: Val): (tops: seq<Val>)
    ensures forall i :: 0 <= i < |tops| ==> tops[i].VNode?
  {
    if v.VNil? then [] else [v] + Tops(v.next)
  }

  /** The texts among the first `n` nodes, in order. */
  function TextsOf(tops: seq<Val>, n: nat): string
    requires n <= |tops| && forall i :: 0 <= i < |tops| ==> tops[i].VNode?
  {
    if n == 0 then "" else TextsOf(tops, n - 1) + if tops[n - 1].isText then tops[n - 1].text else ""
  }

  ghost predicate AllAccepted(env: Env, tops: seq<Val>) {
    forall i :: 0 <= i < |tops| && tops[i].VNode? ==>
      if tops[i].isText then env.charsOk(tops[i].text) else env.elementOk(tops[i])
  }

  /** A value has an element when one of its top-level nodes is one, can be imported when each of them is
      accepted, and its text is that of the top-level texts. */
  lemma ValueMeaning(env: Env, v: Val)
    ensures HasElement(v) <==> exists i :: 0 <= i < |Tops(v)| && !Tops(v)[i].isText
    ensures Importable(env, v) <==> AllAccepted(env, Tops(v))
    ensures TextOf(v) == TextsOf(Tops(v), |Tops(v)|)
  {
    ElementAmong(v);
    AcceptedAmong(env, v);
    TextAmong(v);
  }

  lemma {:induction false} ElementAmong(v: Val)
    ensures HasElement(v) <==> exists i :: 0 <= i < |Tops(v)| && !Tops(v)[i].isText
    decreases v
  {
    if v.VNode? {
      ElementAmong(v.next);
      var tops, rest := Tops(v), Tops(v.next);
      assert tops[0] == v;
      assert forall i :: 0 <= i < |rest| ==> tops[i + 1] == rest[i];
      assert forall i :: 0 < i < |tops| ==> tops[i] == rest[i - 1];
    }
  }

  lemma {:induction false} AcceptedAmong(env: Env, v: Val)
    ensures Importable(env, v) <==> AllAccepted(env, Tops(v))
    decreases v
  {
    if v.VNode? {
      AcceptedAmong(env, v.next);
      AcceptedMore(env, v, Tops(v.next));
    }
  }

  lemma AcceptedMore(env: Env, v: Val, rest: seq<Val>)
    requires v.VNode?
    ensures AllAccepted(env, [v] + rest) <==>
              (if v.isText then env.charsOk(v.text) else env.elementOk(v)) && AllAccepted(env, rest)
  {
    var tops := [v] + rest;
    assert tops[0] == v;
    assert forall i :: 0 <= i < |rest| ==> tops[i + 1] == rest[i];
    assert forall i :: 0 < i < |tops| ==> tops[i] == rest[i - 1];
  }

  lemma {:induction false} TextAmong(v: Val)
    ensures TextOf(v) == TextsOf(Tops(v), |Tops(v)|)
    decreases v
  {
    if v.VNode? {
      TextAmong(v.next);
      TextsAfter(v, Tops(v.next), |Tops(v.next)|);
    }
  }

  lemma {:induction false} TextsAfter(v: Val, rest: seq<Val>, n: nat)
    requires n <= |rest| && v.VNode? && forall i :: 0 <= i < |rest| ==> rest[i].VNode?
    ensures TextsOf([v] + rest, n + 1) == (if v.isText then v.text else "") + TextsOf(rest, n)
  {
    var tops := [v] + rest;
    if n == 0 {
      assert TextsOf(tops, 0) == "";
    } else {
      TextsAfter(v, rest, n - 1);
      var last := rest[n - 1];
      assert tops[n] == last;
      LastText((if v.isText then v.text else ""), TextsOf(rest, n - 1), if last.isText then last.text else "");
    }
  }

  lemma LastText(a: string, b: string, c: string)
    ensures (a + b) + c == a + (b + c)
  {
  }
}
