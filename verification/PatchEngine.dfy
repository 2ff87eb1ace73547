/** The patch engine: operations edit the document in place and leave notes, the notes become dirty
    marks, and the next indexed selection re-reads what is marked. Every operation is proved to have
    the result and the effect of the reference interpreter, which scans the live document. */
module PatchEngine {
  import opened Wrappers
  import opened Arena
  import opened DefScan
  import opened DefIndexing
  import opened IndexNotes
  import opened UnifiedDocument
  import opened PatchSpec

  /** The working state of one top-level operation. */
  class PatchCtx {
    var changed: seq<Id>
    var topChanged: seq<Id>
    var fuse: int

    constructor (fuse: int)
      ensures changed == [] && topChanged == [] && this.fuse == fuse
    {
      changed, topChanged := [], [];
      this.fuse := fuse;
    }

    /** Hands the pending notes to the index. */
    method FlushIndexNotes(doc: UnifiedDoc)
      requires doc.Honest(changed, topChanged)
      modifies this`changed, this`topChanged, doc`fullDirty, doc`dirtyTops
      ensures changed == [] && topChanged == []
      ensures doc.Honest([], [])
    {
      var list, tops := changed, topChanged;
      changed := [];
      var i := 0;
      assert list[0..] == list;
      while i < |list|
        invariant 0 <= i <= |list| && changed == []
        invariant doc.Honest(list[i..], tops)
      {
        assert list[i..] == [list[i]] + list[i + 1..];
        doc.NoteChanged(list[i], list[i + 1..], tops);
        i := i + 1;
      }
      assert list[i..] == [];
      topChanged := [];
      i := 0;
      assert tops[0..] == tops;
      while i < |tops|
        invariant 0 <= i <= |tops| && changed == [] && topChanged == []
        invariant doc.Honest([], tops[i..])
      {
        assert tops[i..] == [tops[i]] + tops[i + 1..];
        doc.NoteTopLevel(tops[i], tops[i + 1..]);
        i := i + 1;
      }
      assert tops[i..] == [];
    }
  }

  function State(doc: UnifiedDoc, ctx: PatchCtx): St
    reads doc, ctx
  {
    St(doc.forest, doc.issued, ctx.fuse)
  }

  /** Between two edits: the pending notes cover every stale node. After a panic a note may be
      missing; then only the document itself is sound and every handle in use was issued. */
  ghost predicate Sound(doc: UnifiedDoc, ctx: PatchCtx, r: Outcome)
    reads doc, doc.index, ctx
  {
    if r.Panicked? then doc.Valid() && Issued(doc.issued, doc.index.namesOf, doc.NotesWith(ctx.changed, ctx.topChanged))
    else doc.Honest(ctx.changed, ctx.topChanged)
  }

  datatype Signal = Next | Halt(r: Outcome)

  ghost function SignalFlow(s: Signal, c: Cur): Flow {
    if s.Next? then Go(c) else Stop(c, s.r)
  }

  // ---------------------------------------------------------------- edits and their notes

  /** One edit of the arena, with a possible panic before and after it. */
  method CommitEdit(doc: UnifiedDoc, ctx: PatchCtx, f: Forest, issued: Id, ghost c: Cur)
    returns (s: Signal, ghost c': Cur)
    requires doc.Valid() && WellFormed(f, issued, doc.defsRoot) && c.st == State(doc, ctx) && doc.issued <= issued
    modifies doc`forest, doc`issued, ctx`fuse
    ensures doc.Valid() && c'.st == State(doc, ctx) && old(doc.issued) <= doc.issued
    ensures s.Next? || s == Halt(Panicked)
    ensures s.Next? ==> doc.forest == f && doc.issued == issued
    ensures SignalFlow(s, c') == Commit(c, f, issued)
  {
    if Blown(ctx.fuse) {
      return Halt(Panicked), c;
    }
    ctx.fuse := Burn(ctx.fuse);
    doc.forest, doc.issued := f, issued;
    if Blown(ctx.fuse) {
      return Halt(Panicked), c.(st := State(doc, ctx));
    }
    ctx.fuse := Burn(ctx.fuse);
    return Next, c.(st := State(doc, ctx));
  }

  ghost function Count(s: Signal, c: Cur): Cur {
    if s.Next? then c.(hit := true) else c
  }

  /** Reports a change of the children of `parent`. */
  method NoteChildrenChanged(doc: UnifiedDoc, ctx: PatchCtx, parent: Id, affected: seq<Id>)
    modifies ctx`changed, ctx`topChanged
    ensures doc.NotesWith(ctx.changed, ctx.topChanged) ==
            NoteChildren(doc.NotesWith(old(ctx.changed), old(ctx.topChanged)), doc.defsRoot, parent, affected)
  {
    if parent == doc.defsRoot {
      ctx.topChanged := ctx.topChanged + affected;
    } else {
      ctx.changed := ctx.changed + [parent];
    }
  }

  lemma {:induction false} ImportFacts(v: Val, at: Id)
    ensures Distinct(Import(v, at))
    ensures forall x :: x in Ids(Import(v, at)) ==> at <= x < at + ValSize(v)
  {
    if v.VNode? {
      ImportFacts(v.kids, at + 1);
      ImportFacts(v.next, at + 1 + ValSize(v.kids));
    }
  }

  lemma {:induction f} LevelListFacts(f: Forest)
    ensures forall x :: x in LevelList(f) <==> x in Level(f)
  {
  }

  // ---------------------------------------------------------------- one target

  /** An attribute edit: the index does not look at attributes, so there is nothing to note. */
  method SetAttributes(doc: UnifiedDoc, ctx: PatchCtx, id: Id, attrs: seq<(string, string)>, ghost c: Cur)
    returns (s: Signal, ghost c': Cur)
    requires doc.Honest(ctx.changed, ctx.topChanged) && c.st == State(doc, ctx)
    modifies doc`forest, doc`issued, ctx`fuse
    ensures Sound(doc, ctx, if s.Halt? then s.r else Done(true)) && c'.st == State(doc, ctx)
    ensures SignalFlow(s, c') == Counted(Commit(c, SetAttrs(c.st.f, id, attrs), c.st.issued))
  {
    AttrsCoherent(doc.forest, doc.issued, doc.defsRoot, doc.index.namesOf, doc.NotesWith(ctx.changed, ctx.topChanged),
                  id, attrs);
    s, c' := CommitEdit(doc, ctx, SetAttrs(doc.forest, id, attrs), doc.issued, c);
    c' := Count(s, c');
  }

  /** Links new children below `id` and notes it. */
  method LinkKids(doc: UnifiedDoc, ctx: PatchCtx, id: Id, items: Forest, order: Order, used: nat, ghost c: Cur)
    returns (s: Signal, ghost c': Cur)
    requires doc.Honest(ctx.changed, ctx.topChanged) && c.st == State(doc, ctx)
    requires id in Ids(doc.forest) && Distinct(items)
    requires forall x :: x in Ids(items) ==> doc.issued <= x < doc.issued + used
    modifies doc`forest, doc`issued, ctx
    ensures Sound(doc, ctx, if s.Halt? then s.r else Done(true)) && c'.st == State(doc, ctx)
    ensures SignalFlow(s, c') ==
            Counted(Commit(c, SetKids(c.st.f, id, AddKids(c.st.f, id, items, order)), c.st.issued + used))
  {
    LevelListFacts(items);
    var kids := AddKids(doc.forest, id, items, order);
    AddedCoherent(doc.forest, doc.issued, doc.defsRoot, doc.index.namesOf, doc.NotesWith(ctx.changed, ctx.topChanged),
                  id, items, kids, LevelList(items), doc.issued + used);
    s, c' := CommitEdit(doc, ctx, SetKids(doc.forest, id, kids), doc.issued + used, c);
    c' := Count(s, c');
    if s.Next? {
      NoteChildrenChanged(doc, ctx, id, LevelList(items));
    }
  }

  method AddTarget(doc: UnifiedDoc, ctx: PatchCtx, env: Env, v: Val, order: Order, target: XNode, ghost c: Cur)
    returns (s: Signal, ghost c': Cur)
    requires doc.Honest(ctx.changed, ctx.topChanged) && c.st == State(doc, ctx)
    modifies doc`forest, doc`issued, ctx
    ensures Sound(doc, ctx, if s.Halt? then s.r else Done(true)) && c'.st == State(doc, ctx)
    ensures SignalFlow(s, c') == AddSpec(env, v, order, c, target)
  {
    match target
    case XAttr(owner, position) =>
      var a := At(doc.forest, owner);
      if HasElement(v) || !(a.Node? && a.kind.Element? && position < |a.attrs|) {
        return Halt(Raised), c;
      }
      var (name, current) := a.attrs[position];
      var updated := if order.AppendOrder? then current + TextOf(v) else TextOf(v) + current;
      if !env.charsOk(updated) {
        return Halt(Raised), c;
      }
      s, c' := SetAttributes(doc, ctx, owner, PutAttr(a.attrs, name, updated), c);
    case XNode(id) =>
      var a := At(doc.forest, id);
      if (a.Node? && a.kind.Text?) || !Importable(env, v) || a.Nil? {
        return Halt(Raised), c;
      }
      AtFacts(doc.forest, id);
      ImportFacts(v, doc.issued);
      s, c' := LinkKids(doc, ctx, id, Import(v, doc.issued), order, ValSize(v), c);
  }

  /** Puts the list `g` where child `id` of `p` was and notes it. */
  method LinkMember(doc: UnifiedDoc, ctx: PatchCtx, p: Id, id: Id, g: Forest, extra: Forest, affected: seq<Id>,
                    issued: Id, ghost c: Cur)
    returns (s: Signal, ghost c': Cur)
    requires doc.Honest(ctx.changed, ctx.topChanged) && c.st == State(doc, ctx)
    requires Linkable(doc.forest, doc.issued, p, id, g, extra, affected, issued)
    modifies doc`forest, doc`issued, ctx
    ensures Sound(doc, ctx, if s.Halt? then s.r else Done(true)) && c'.st == State(doc, ctx)
    ensures SignalFlow(s, c') ==
            Counted(Commit(c, Edited(c.st.f, p, ReplaceAt(KidsOf(c.st.f, p), id, g), extra), issued))
  {
    MemberCoherent(doc.forest, doc.issued, doc.defsRoot, doc.index.namesOf, doc.NotesWith(ctx.changed, ctx.topChanged),
                   p, id, g, extra, affected, issued);
    s, c' := CommitEdit(doc, ctx, Edited(doc.forest, p, ReplaceAt(KidsOf(doc.forest, p), id, g), extra), issued, c);
    c' := Count(s, c');
    if s.Next? {
      NoteChildrenChanged(doc, ctx, p, affected);
    }
  }

  lemma InsertedFacts(f: Forest, id: Id, items: Forest, order: Order, bound: Id)
    requires Distinct(f) && id in Ids(f) && Distinct(items)
    requires (forall x :: x in Ids(f) ==> x < bound) && (forall x :: x in Ids(items) ==> bound <= x)
    ensures Distinct(InsertedList(f, id, items, order))
    ensures Ids(InsertedList(f, id, items, order)) == Ids(At(f, id)) + Ids(items)
    ensures Level(InsertedList(f, id, items, order)) == {id} + Level(items)
    ensures LevelAt(InsertedList(f, id, items, order), id) == At(f, id)
  {
    var t, r := At(f, id), Rev(items);
    AtFacts(f, id);
    RevFacts(items);
    AppendFacts(t, r);
    AppendFacts(r, t);
    AppendAt(t, r, id);
    AppendAt(r, t, id);
    LevelAtFacts(r, id);
  }

  method InsertTarget(doc: UnifiedDoc, ctx: PatchCtx, env: Env, v: Val, order: Order, target: XNode, ghost c: Cur)
    returns (s: Signal, ghost c': Cur)
    requires doc.Honest(ctx.changed, ctx.topChanged) && c.st == State(doc, ctx)
    modifies doc`forest, doc`issued, ctx
    ensures Sound(doc, ctx, if s.Halt? then s.r else Done(true)) && c'.st == State(doc, ctx)
    ensures SignalFlow(s, c') == InsertSpec(env, v, order, c, target)
  {
    if target.XAttr? || !Importable(env, v) {
      return Halt(Raised), c;
    }
    var id := target.id;
    if v.VNil? {
      return Next, c.(hit := true);
    }
    var parent := ParentOf(doc.forest, id);
    if parent.None? {
      return Halt(Raised), c;
    }
    ImportFacts(v, doc.issued);
    s, c' := InsertBeside(doc, ctx, parent.value, id, Import(v, doc.issued), order, ValSize(v), c);
  }

  method InsertBeside(doc: UnifiedDoc, ctx: PatchCtx, p: Id, id: Id, items: Forest, order: Order, used: nat,
                      ghost c: Cur)
    returns (s: Signal, ghost c': Cur)
    requires doc.Honest(ctx.changed, ctx.topChanged) && c.st == State(doc, ctx)
    requires ParentOf(doc.forest, id) == Some(p) && Distinct(items)
    requires forall x :: x in Ids(items) ==> doc.issued <= x < doc.issued + used
    modifies doc`forest, doc`issued, ctx
    ensures Sound(doc, ctx, if s.Halt? then s.r else Done(true)) && c'.st == State(doc, ctx)
    ensures SignalFlow(s, c') ==
            Counted(Commit(c,
                           SetKids(c.st.f, p, ReplaceAt(KidsOf(c.st.f, p), id, InsertedList(c.st.f, id, items, order))),
                           c.st.issued + used))
  {
    var g := InsertedList(doc.forest, id, items, order);
    InsertLinkable(doc.forest, p, id, items, order, doc.issued, used);
    s, c' := LinkMember(doc, ctx, p, id, g, Nil, LevelList(items), doc.issued + used, c);
    AppendNil(SetKids(c.st.f, p, ReplaceAt(KidsOf(c.st.f, p), id, g)));
  }

  lemma InsertLinkable(f: Forest, p: Id, id: Id, items: Forest, order: Order, bound: Id, used: nat)
    requires Distinct(f) && (forall x :: x in Ids(f) ==> x < bound) && ParentOf(f, id) == Some(p) && Distinct(items)
    requires forall x :: x in Ids(items) ==> bound <= x < bound + used
    ensures Linkable(f, bound, p, id, InsertedList(f, id, items, order), Nil, LevelList(items), bound + used)
  {
    LevelListFacts(items);
    ParentFacts(f, id);
    AtFacts(f, id);
    LevelAtFacts(items, id);
    InsertedMember(f, id, items, order, bound);
  }

  lemma ImportLinkable(f: Forest, p: Id, id: Id, v: Val, bound: Id)
    requires Distinct(f) && (forall x :: x in Ids(f) ==> x < bound) && ParentOf(f, id) == Some(p)
    ensures Linkable(f, bound, p, id, Import(v, bound), At(f, id), LevelList(Import(v, bound)) + [id],
                     bound + ValSize(v))
  {
    var items := Import(v, bound);
    ImportFacts(v, bound);
    LevelListFacts(items);
    ParentFacts(f, id);
    AtFacts(f, id);
    LevelAtFacts(items, id);
  }

  lemma RemoveLinkable(f: Forest, p: Id, id: Id, bound: Id)
    requires Distinct(f) && ParentOf(f, id) == Some(p)
    ensures Linkable(f, bound, p, id, Nil, At(f, id), [id], bound)
  {
    AtFacts(f, id);
  }

  lemma RenameLinkable(f: Forest, p: Id, id: Id, name: string, bound: Id)
    requires Distinct(f) && (forall x :: x in Ids(f) ==> x < bound) && ParentOf(f, id) == Some(p)
    ensures Linkable(f, bound, p, id, NewElement(bound, name, KidsOf(f, id)), Nil, [id, bound], bound + 1)
  {
    ParentFacts(f, id);
    AtFacts(f, id);
    KidsOfFacts(f, id);
  }

  lemma InsertedMember(f: Forest, id: Id, items: Forest, order: Order, bound: Id)
    requires Distinct(f) && id in Ids(f) && Distinct(items)
    requires (forall x :: x in Ids(f) ==> x < bound) && (forall x :: x in Ids(items) ==> bound <= x)
    ensures Distinct(InsertedList(f, id, items, order))
    ensures Ids(InsertedList(f, id, items, order)) == Ids(At(f, id)) + Ids(items)
    ensures forall x :: x in Level(InsertedList(f, id, items, order)) ==>
              (x >= bound && x in LevelList(items))
                || (x == id && LevelAt(InsertedList(f, id, items, order), x) == At(f, id))
    ensures id in Level(InsertedList(f, id, items, order))
    ensures forall x :: x in LevelList(items) ==> x in Level(InsertedList(f, id, items, order))
  {
    InsertedFacts(f, id, items, order, bound);
    LevelListFacts(items);
    forall x | x in Level(items) ensures x >= bound { LevelAtFacts(items, x); }
  }

  /** Replaces `id` by the detached `items` (none for a removal); `id` stays alive, detached. */
  method ReplaceTarget(doc: UnifiedDoc, ctx: PatchCtx, env: Env, v: Val, target: XNode, ghost c: Cur)
    returns (s: Signal, detached: Option<Id>, ghost c': Cur)
    requires doc.Honest(ctx.changed, ctx.topChanged) && c.st == State(doc, ctx)
    modifies doc`forest, doc`issued, ctx
    ensures Sound(doc, ctx, if s.Halt? then s.r else Done(true)) && c'.st == State(doc, ctx)
    ensures SignalFlow(s, c') == ReplaceSpec(env, v, c, target)
    ensures c'.detached == c.detached + (if detached.Some? then [detached.value] else [])
  {
    if target.XAttr? {
      return Halt(Raised), None, c;
    }
    var id := target.id;
    if id !in Ids(doc.forest) {
      return Next, None, c.(hit := true);
    }
    var parent := ParentOf(doc.forest, id);
    if parent.None? || !Importable(env, v) {
      return Halt(Raised), None, c;
    }
    s, c' := LinkInstead(doc, ctx, v, parent.value, id, c);
    detached := None;
    if s.Next? {
      detached := Some(id);
      c' := c'.(detached := c'.detached + [id]);
    }
  }

  /** Links the imported value where `id` was; `id` becomes a detached tree. */
  method LinkInstead(doc: UnifiedDoc, ctx: PatchCtx, v: Val, p: Id, id: Id, ghost c: Cur)
    returns (s: Signal, ghost c': Cur)
    requires doc.Honest(ctx.changed, ctx.topChanged) && c.st == State(doc, ctx) && ParentOf(doc.forest, id) == Some(p)
    modifies doc`forest, doc`issued, ctx
    ensures Sound(doc, ctx, if s.Halt? then s.r else Done(true)) && c'.st == State(doc, ctx)
    ensures SignalFlow(s, c') ==
            Counted(Commit(c,
                           Edited(c.st.f, p, ReplaceAt(KidsOf(c.st.f, p), id, Import(v, c.st.issued)), At(c.st.f, id)),
                           c.st.issued + ValSize(v)))
  {
    var items, gone, issued := Import(v, doc.issued), At(doc.forest, id), doc.issued + ValSize(v);
    var affected := LevelList(items) + [id];
    ImportLinkable(doc.forest, p, id, v, doc.issued);
    s, c' := LinkMember(doc, ctx, p, id, items, gone, affected, issued, c);
  }

  method RemoveTarget(doc: UnifiedDoc, ctx: PatchCtx, target: XNode, ghost c: Cur)
    returns (s: Signal, detached: Option<Id>, ghost c': Cur)
    requires doc.Honest(ctx.changed, ctx.topChanged) && c.st == State(doc, ctx)
    modifies doc`forest, doc`issued, ctx
    ensures Sound(doc, ctx, if s.Halt? then s.r else Done(true)) && c'.st == State(doc, ctx)
    ensures SignalFlow(s, c') == RemoveSpec(c, target)
    ensures c'.detached == c.detached + (if detached.Some? then [detached.value] else [])
  {
    if target.XAttr? {
      return Halt(Raised), None, c;
    }
    var id := target.id;
    if id !in Ids(doc.forest) {
      return Next, None, c.(hit := true);
    }
    var parent := ParentOf(doc.forest, id);
    if parent.None? {
      return Halt(Raised), None, c;
    }
    RemoveLinkable(doc.forest, parent.value, id, doc.issued);
    s, c' := LinkMember(doc, ctx, parent.value, id, Nil, At(doc.forest, id), [id], doc.issued, c);
    detached := None;
    if s.Next? {
      detached := Some(id);
      c' := c'.(detached := c'.detached + [id]);
    }
  }

  lemma {:induction l} ChildNamedFacts(l: Forest, name: string)
    ensures ChildNamed(l, name).Some? ==> ChildNamed(l, name).value in Level(l)
  {
  }

  method ExtensionTarget(doc: UnifiedDoc, ctx: PatchCtx, env: Env, v: Val, target: XNode, ghost c: Cur)
    returns (s: Signal, ghost c': Cur)
    requires doc.Honest(ctx.changed, ctx.topChanged) && c.st == State(doc, ctx)
    modifies doc`forest, doc`issued, ctx
    ensures Sound(doc, ctx, if s.Halt? then s.r else Done(true)) && c'.st == State(doc, ctx)
    ensures SignalFlow(s, c') == ExtensionSpec(env, v, c, target)
  {
    if target.XAttr? || !IsElement(doc.forest, target.id) {
      return Halt(Raised), c;
    }
    var id := target.id;
    AtFacts(doc.forest, id);
    var present := ChildNamed(KidsOf(doc.forest, id), MOD_EXTENSIONS);
    ChildNamedFacts(KidsOf(doc.forest, id), MOD_EXTENSIONS);
    if present.Some? {
      s, c' := ExtendTarget(doc, ctx, env, v, id, present.value, c);
      return;
    }
    s, c' := ExtendCreated(doc, ctx, env, v, id, c);
  }

  /** Creates the element and extends it. */
  method ExtendCreated(doc: UnifiedDoc, ctx: PatchCtx, env: Env, v: Val, id: Id, ghost c: Cur)
    returns (s: Signal, ghost c': Cur)
    requires doc.Honest(ctx.changed, ctx.topChanged) && c.st == State(doc, ctx) && IsElement(doc.forest, id)
    modifies doc`forest, doc`issued, ctx
    ensures Sound(doc, ctx, if s.Halt? then s.r else Done(true)) && c'.st == State(doc, ctx)
    ensures var made := CreateSpec(c, id);
            SignalFlow(s, c') == if made.Go? then ExtendSpec(env, v, made.c, c.st.issued) else made
  {
    var ext := doc.issued;
    AtFacts(doc.forest, id);
    s, c' := CreateExtension(doc, ctx, id, c);
    if s.Next? {
      s, c' := ExtendTarget(doc, ctx, env, v, id, ext, c');
    }
  }

  /** Creates the empty `modExtensions` element. It leaves no note: no name can change. */
  method CreateExtension(doc: UnifiedDoc, ctx: PatchCtx, id: Id, ghost c: Cur)
    returns (s: Signal, ghost c': Cur)
    requires doc.Honest(ctx.changed, ctx.topChanged) && c.st == State(doc, ctx)
    requires IsElement(doc.forest, id)
    modifies doc`forest, doc`issued, ctx`fuse
    ensures Sound(doc, ctx, if s.Halt? then s.r else Done(true)) && c'.st == State(doc, ctx)
    ensures s.Next? ==> c.st.issued in Level(KidsOf(doc.forest, id))
    ensures s.Next? || s == Halt(Panicked)
    ensures SignalFlow(s, c') == CreateSpec(c, id)
  {
    var e := NewElement(doc.issued, MOD_EXTENSIONS, Nil);
    var kids := Append(KidsOf(doc.forest, id), e);
    AtFacts(doc.forest, id);
    SilentCoherent(doc.forest, doc.issued, doc.defsRoot, doc.index.namesOf, doc.NotesWith(ctx.changed, ctx.topChanged),
                   id, e);
    SetKidsSame(doc.forest, id, kids);
    AppendFacts(KidsOf(doc.forest, id), e);
    s, c' := CommitEdit(doc, ctx, SetKids(doc.forest, id, kids), doc.issued + 1, c);
  }

  method ExtendTarget(doc: UnifiedDoc, ctx: PatchCtx, env: Env, v: Val, id: Id, ext: Id, ghost c: Cur)
    returns (s: Signal, ghost c': Cur)
    requires doc.Honest(ctx.changed, ctx.topChanged) && c.st == State(doc, ctx)
    requires id != DOC && ext in Level(KidsOf(doc.forest, id))
    modifies doc`forest, doc`issued, ctx
    ensures Sound(doc, ctx, if s.Halt? then s.r else Done(true)) && c'.st == State(doc, ctx)
    ensures SignalFlow(s, c') == ExtendSpec(env, v, c, ext)
  {
    if !Importable(env, v) {
      return Halt(Raised), c;
    }
    var items := Import(v, doc.issued);
    ImportFacts(v, doc.issued);
    LevelListFacts(items);
    var kids := Append(KidsOf(doc.forest, ext), items);
    ExtensionCoherent(doc.forest, doc.issued, doc.defsRoot, doc.index.namesOf,
                      doc.NotesWith(ctx.changed, ctx.topChanged),
                      id, ext, items, LevelList(items), doc.issued + ValSize(v));
    s, c' := CommitEdit(doc, ctx, SetKids(doc.forest, ext, kids), doc.issued + ValSize(v), c);
    c' := Count(s, c');
    if s.Next? {
      ctx.changed := ctx.changed + [id];
    }
  }

  method AttributeTarget(doc: UnifiedDoc, ctx: PatchCtx, env: Env, attribute: Option<string>, value: string,
                         mode: AttributeMode,
                         target: XNode, ghost c: Cur)
    returns (s: Signal, ghost c': Cur)
    requires doc.Honest(ctx.changed, ctx.topChanged) && c.st == State(doc, ctx)
    modifies doc`forest, doc`issued, ctx
    ensures Sound(doc, ctx, if s.Halt? then s.r else Done(true)) && c'.st == State(doc, ctx)
    ensures SignalFlow(s, c') == AttributeSpec(env, attribute, value, mode, c, target)
  {
    if target.XAttr? || !IsElement(doc.forest, target.id) || attribute.None? {
      return Halt(Raised), c;
    }
    var id := target.id;
    var attrs := At(doc.forest, id).attrs;
    var present := AttrIndex(attrs, attribute.value).Some?;
    if mode.SetAttr? || (mode.AddAttr? && !present) {
      if !env.charsOk(value) || !env.nameOk(attribute.value) {
        return Halt(Raised), c;
      }
      s, c' := SetAttributes(doc, ctx, id, PutAttr(attrs, attribute.value, value), c);
    } else if mode.RemoveAttr? && present {
      s, c' := SetAttributes(doc, ctx, id, DropAttr(attrs, attribute.value), c);
    } else {
      return Next, c;
    }
  }

  method SetNameTarget(doc: UnifiedDoc, ctx: PatchCtx, env: Env, name: Option<string>, target: XNode, ghost c: Cur)
    returns (s: Signal, ghost c': Cur)
    requires doc.Honest(ctx.changed, ctx.topChanged) && c.st == State(doc, ctx)
    modifies doc`forest, doc`issued, ctx
    ensures Sound(doc, ctx, if s.Halt? then s.r else Done(true)) && c'.st == State(doc, ctx)
    ensures SignalFlow(s, c') == SetNameSpec(env, name, c, target)
  {
    if target.XAttr? || !IsElement(doc.forest, target.id) {
      return Halt(Raised), c;
    }
    var id := target.id;
    var parent := ParentOf(doc.forest, id);
    if parent.None? || name.None? || !env.nameOk(name.value) {
      return Halt(Raised), c;
    }
    var replacement := NewElement(doc.issued, name.value, KidsOf(doc.forest, id));
    RenameLinkable(doc.forest, parent.value, id, name.value, doc.issued);
    s, c' := LinkMember(doc, ctx, parent.value, id, replacement, Nil, [id, doc.issued], doc.issued + 1, c);
    AppendNil(SetKids(c.st.f, parent.value, ReplaceAt(KidsOf(c.st.f, parent.value), id, replacement)));
  }

  // ---------------------------------------------------------------- all targets of one operation

  method ApplyTarget(doc: UnifiedDoc, ctx: PatchCtx, env: Env, leaf: Leaf, target: XNode, ghost c: Cur)
    returns (s: Signal, detached: Option<Id>, ghost c': Cur)
    requires doc.Honest(ctx.changed, ctx.topChanged) && c.st == State(doc, ctx) && Ready(leaf)
    modifies doc`forest, doc`issued, ctx
    ensures Sound(doc, ctx, if s.Halt? then s.r else Done(true)) && c'.st == State(doc, ctx)
    ensures SignalFlow(s, c') == TargetSpec(env, leaf, c, target)
    ensures c'.detached == c.detached + (if detached.Some? then [detached.value] else [])
  {
    detached := None;
    if leaf.Replace? {
      s, detached, c' := ReplaceTarget(doc, ctx, env, leaf.value.value, target, c);
    } else if leaf.Remove? {
      s, detached, c' := RemoveTarget(doc, ctx, target, c);
    } else {
      OnlyDetachments(env, leaf, c, target);
      s, c' := ApplyInPlace(doc, ctx, env, leaf, target, c);
    }
  }

  method ApplyInPlace(doc: UnifiedDoc, ctx: PatchCtx, env: Env, leaf: Leaf, target: XNode, ghost c: Cur)
    returns (s: Signal, ghost c': Cur)
    requires doc.Honest(ctx.changed, ctx.topChanged) && c.st == State(doc, ctx) && Ready(leaf)
    requires !leaf.Replace? && !leaf.Remove?
    modifies doc`forest, doc`issued, ctx
    ensures Sound(doc, ctx, if s.Halt? then s.r else Done(true)) && c'.st == State(doc, ctx)
    ensures SignalFlow(s, c') == TargetSpec(env, leaf, c, target)
  {
    match leaf
    case Add(v, order) => s, c' := AddTarget(doc, ctx, env, v.value, order, target, c);
    case Insert(v, order) => s, c' := InsertTarget(doc, ctx, env, v.value, order, target, c);
    case AddModExtension(v) => s, c' := ExtensionTarget(doc, ctx, env, v.value, target, c);
    case Attribute(name, value, mode) =>
      s, c' := AttributeTarget(doc, ctx, env, name, if value.Some? then value.value else "", mode, target, c);
    case SetName(name) => s, c' := SetNameTarget(doc, ctx, env, name, target, c);
  }

  /** Only replacements and removals detach nodes. */
  lemma OnlyDetachments(env: Env, leaf: Leaf, c: Cur, target: XNode)
    requires Ready(leaf)
    ensures leaf.Replace? || leaf.Remove? || TargetSpec(env, leaf, c, target).c.detached == c.detached
  {
  }

  /** Frees nodes that are still detached (never linked, or detached again). */
  method FreeDetached(doc: UnifiedDoc, ctx: PatchCtx, nodes: seq<Id>)
    requires doc.Honest(ctx.changed, ctx.topChanged)
    modifies doc`forest
    ensures doc.Honest(ctx.changed, ctx.topChanged)
    ensures doc.forest == FreeSpec(old(doc.forest), nodes)
  {
    var i := 0;
    assert nodes[0..] == nodes;
    while i < |nodes|
      invariant 0 <= i <= |nodes|
      invariant doc.Honest(ctx.changed, ctx.topChanged)
      invariant FreeSpec(doc.forest, nodes[i..]) == FreeSpec(old(doc.forest), nodes)
    {
      assert nodes[i..][1..] == nodes[i + 1..];
      if nodes[i] in Level(doc.forest) && nodes[i] != DOC {
        FreeCoherent(doc.forest, doc.issued, doc.defsRoot, doc.index.namesOf,
                     doc.NotesWith(ctx.changed, ctx.topChanged), nodes[i]);
        doc.forest := ReplaceAt(doc.forest, nodes[i], Nil);
      }
      i := i + 1;
    }
  }

  method ApplyLeaf(doc: UnifiedDoc, ctx: PatchCtx, env: Env, leaf: Leaf, targets: seq<XNode>) returns (r: Outcome)
    requires doc.Honest(ctx.changed, ctx.topChanged) && Ready(leaf)
    modifies doc`forest, doc`issued, ctx
    ensures Sound(doc, ctx, r)
    ensures Out(State(doc, ctx), r) == LeafSpec(env, leaf, old(State(doc, ctx)), targets)
  {
    var hit, detached := false, [];
    ghost var c0 := Cur(State(doc, ctx), false, []);
    ghost var c := c0;
    var i := 0;
    assert targets[0..] == targets;
    while i < |targets|
      invariant 0 <= i <= |targets|
      invariant doc.Honest(ctx.changed, ctx.topChanged)
      invariant c == Cur(State(doc, ctx), hit, detached)
      invariant TargetsSpec(env, leaf, c, targets[i..]) == TargetsSpec(env, leaf, c0, targets)
    {
      TargetsFirst(env, leaf, c, targets, i);
      var s, gone, counted, c' := ApplyCounted(doc, ctx, env, leaf, targets[i], c, hit);
      c := c';
      hit := counted;
      detached := detached + (if gone.Some? then [gone.value] else []);
      if s.Halt? {
        if !s.r.Panicked? {
          FreeDetached(doc, ctx, detached);
        }
        return s.r;
      }
      i := i + 1;
    }
    FreeDetached(doc, ctx, detached);
    return Done(hit);
  }

  lemma TargetsFirst(env: Env, leaf: Leaf, c: Cur, targets: seq<XNode>, i: nat)
    requires Ready(leaf) && i < |targets|
    ensures TargetsSpec(env, leaf, c, targets[i..]) ==
            match TargetSpec(env, leaf, c, targets[i])
            case Go(c') => TargetsSpec(env, leaf, c', targets[i + 1..])
            case Stop(c', r) => Stop(c', r)
  {
    assert targets[i..][1..] == targets[i + 1..];
  }

  /** One target, with the result flag the loop keeps. */
  method ApplyCounted(doc: UnifiedDoc, ctx: PatchCtx, env: Env, leaf: Leaf, target: XNode, ghost c: Cur, hit: bool)
    returns (s: Signal, detached: Option<Id>, counted: bool, ghost c': Cur)
    requires doc.Honest(ctx.changed, ctx.topChanged) && c.st == State(doc, ctx) && Ready(leaf) && hit == c.hit
    modifies doc`forest, doc`issued, ctx
    ensures Sound(doc, ctx, if s.Halt? then s.r else Done(true)) && c'.st == State(doc, ctx)
    ensures SignalFlow(s, c') == TargetSpec(env, leaf, c, target)
    ensures c'.detached == c.detached + (if detached.Some? then [detached.value] else [])
    ensures s.Next? ==> counted == c'.hit
  {
    var idle := leaf.Attribute? && target.XNode? && IsElement(doc.forest, target.id) && leaf.attribute.Some?
        && Skips(doc.forest, leaf, target.id);
    s, detached, c' := ApplyTarget(doc, ctx, env, leaf, target, c);
    counted := hit || !idle;
  }

  /** The attribute modes that leave an element as it is: adding what exists, removing what does not. */
  predicate Skips(f: Forest, leaf: Leaf, id: Id)
    requires leaf.Attribute? && leaf.attribute.Some? && IsElement(f, id)
  {
    var present := AttrIndex(At(f, id).attrs, leaf.attribute.value).Some?;
    (leaf.mode.AddAttr? && present) || (leaf.mode.RemoveAttr? && !present)
  }

  // ---------------------------------------------------------------- selecting

  /** Evaluates an expression, through the index when it has the indexable shape. */
  method SelectNodes(doc: UnifiedDoc, ctx: PatchCtx, xpath: Option<XPath>) returns (found: Option<Found>)
    requires doc.Honest([], []) && ctx.changed == [] && ctx.topChanged == []
    modifies doc`index, doc`fullDirty, doc`dirtyTops, doc.index, ctx`fuse
    ensures doc.Honest([], [])
    ensures doc.index == old(doc.index) || fresh(doc.index)
    ensures (State(doc, ctx), found) == Select(RootReading, doc.defsRoot, old(State(doc, ctx)), xpath)
  {
    if Blown(ctx.fuse) {
      return None;
    }
    ctx.fuse := Burn(ctx.fuse);
    if xpath.None? || xpath.value.Malformed? {
      return Some(EvalError);
    }
    match xpath.value
    case General(eval) => return Some(eval(doc.forest));
    case Planned(keys, rest) =>
      if doc.IndexUsable() {
        var defs := doc.LookupKeys(keys);
        var answer := Finish(doc.forest, defs, rest);
        if answer.EvalError? || OnlyNodes(answer.nodes) {
          return Some(answer);
        }
      }
      return Some(Finish(doc.forest, ScanDocument(KidsOf(doc.forest, DOC), keys), rest));
  }

  // ---------------------------------------------------------------- operations

  /** One operation with its `success` rewrite: the outcome and the document of the reference
      interpreter, whatever was cached before. */
  method ApplyOp(doc: UnifiedDoc, ctx: PatchCtx, env: Env, op: PatchOp) returns (r: Outcome)
    requires doc.Honest([], []) && ctx.changed == [] && ctx.topChanged == []
    modifies doc, doc.index, ctx
    ensures Sound(doc, ctx, r)
    ensures doc.index == old(doc.index) || fresh(doc.index)
    ensures Out(State(doc, ctx), r) == OpSpec(RootReading, doc.defsRoot, env, old(State(doc, ctx)), op)
    decreases op, 1
  {
    r := ApplyWorker(doc, ctx, env, op);
    if r.Done? {
      r := Done(Rewrite(op.success, r.ok));
    }
  }

  method ApplyWorker(doc: UnifiedDoc, ctx: PatchCtx, env: Env, op: PatchOp) returns (r: Outcome)
    requires doc.Honest([], []) && ctx.changed == [] && ctx.topChanged == []
    modifies doc, doc.index, ctx
    ensures Sound(doc, ctx, r)
    ensures doc.index == old(doc.index) || fresh(doc.index)
    ensures Out(State(doc, ctx), r) == WorkerSpec(RootReading, doc.defsRoot, env, old(State(doc, ctx)), op)
    decreases op, 0
  {
    match op.kind
    case Base => return Done(false);
    case Unknown => return Done(false);
    case Edit(xpath, leaf) =>
      if !Ready(leaf) {
        return Raised;
      }
      var found := SelectNodes(doc, ctx, xpath);
      if found.None? || found.value.EvalError? {
        return if found.None? then Panicked else Raised;
      }
      r := ApplyLeaf(doc, ctx, env, leaf, found.value.nodes);
    case Test(xpath) =>
      var found := SelectNodes(doc, ctx, xpath);
      if found.None? || found.value.EvalError? {
        return if found.None? then Panicked else Raised;
      }
      return Done(found.value.nodes != []);
    case Conditional(xpath, _, _) =>
      var found := SelectNodes(doc, ctx, xpath);
      if found.None? || found.value.EvalError? {
        return if found.None? then Panicked else Raised;
      }
      r := ApplyBranch(doc, ctx, env, op, found.value.nodes != [], true);
    case FindMod(mods, _, _) =>
      r := ApplyBranch(doc, ctx, env, op, exists i :: 0 <= i < |mods| && mods[i] in env.modNames, false);
    case Setting(setting, _, _) =>
      if setting.None? {
        return Done(false);
      }
      r := ApplyBranch(doc, ctx, env, op, setting.value, true);
    case Sequence(given, operations) =>
      if !given {
        return Raised;
      }
      r := ApplySequence(doc, ctx, env, operations);
  }

  method ApplyBranch(doc: UnifiedDoc, ctx: PatchCtx, env: Env, op: PatchOp, found: bool, strict: bool)
    returns (r: Outcome)
    requires op.kind.Conditional? || op.kind.FindMod? || op.kind.Setting?
    requires doc.Honest([], []) && ctx.changed == [] && ctx.topChanged == []
    modifies doc, doc.index, ctx
    ensures Sound(doc, ctx, r)
    ensures doc.index == old(doc.index) || fresh(doc.index)
    ensures Out(State(doc, ctx), r) ==
            BranchSpec(RootReading, doc.defsRoot, env, old(State(doc, ctx)), op, found, strict)
    decreases op, 0, 0
  {
    var branch := if found then op.kind.onMatch else op.kind.onNomatch;
    match branch
    case Some(o) => r := ApplyOp(doc, ctx, env, o);
    case None => return Done(if strict && op.kind.onMatch.None? then op.kind.onNomatch.Some? else true);
  }

  /** The steps of a sequence. The notes of a step reach the index before the next step selects,
      also when the step failed. */
  method ApplySequence(doc: UnifiedDoc, ctx: PatchCtx, env: Env, ops: seq<PatchOp>) returns (r: Outcome)
    requires doc.Honest([], []) && ctx.changed == [] && ctx.topChanged == []
    modifies doc, doc.index, ctx
    ensures Sound(doc, ctx, r)
    ensures doc.index == old(doc.index) || fresh(doc.index)
    ensures Out(State(doc, ctx), r) == SequenceSpec(RootReading, doc.defsRoot, env, old(State(doc, ctx)), ops)
    decreases ops, 0
  {
    var i := 0;
    assert ops[0..] == ops;
    while i < |ops|
      invariant 0 <= i <= |ops|
      invariant doc.Honest([], []) && ctx.changed == [] && ctx.topChanged == []
      invariant doc.index == old(doc.index) || fresh(doc.index)
      invariant SequenceSpec(RootReading, doc.defsRoot, env, State(doc, ctx), ops[i..])
             == SequenceSpec(RootReading, doc.defsRoot, env, old(State(doc, ctx)), ops)
    {
      assert ops[i..][1..] == ops[i + 1..];
      r := ApplyOp(doc, ctx, env, ops[i]);
      if r.Panicked? {
        return;
      }
      ctx.FlushIndexNotes(doc);
      if r != Done(true) {
        return;
      }
      i := i + 1;
    }
    return Done(true);
  }

  // ---------------------------------------------------------------- all patches

  method RunTopLevel(doc: UnifiedDoc, env: Env, top: Scheduled) returns (event: Event)
    requires doc.Honest([], [])
    modifies doc, doc.index
    ensures doc.Honest([], [])
    ensures doc.index == old(doc.index) || fresh(doc.index)
    ensures var out := OpSpec(RootReading, doc.defsRoot, env, St(old(doc.forest), old(doc.issued), top.fuse), top.op);
            doc.forest == out.st.f && doc.issued == out.st.issued && event == EventOf(out.r)
  {
    var ctx := new PatchCtx(top.fuse);
    var r := ApplyOp(doc, ctx, env, top.op);
    if r.Panicked? {
      doc.MarkIndexDirty();
    }
    ctx.FlushIndexNotes(doc);
    event := EventOf(r);
  }

  /** The whole report is what happened so far and the rest. */
  predicate Continues(whole: Report, events: seq<Event>, rest: Report) {
    whole == rest.(events := events + rest.events)
  }

  lemma ContinuesOn(whole: Report, events: seq<Event>, rest: Report, event: Event, rest': Report)
    requires Continues(whole, events, rest) && rest == rest'.(events := [event] + rest'.events)
    ensures Continues(whole, events + [event], rest')
  {
    assert events + ([event] + rest'.events) == (events + [event]) + rest'.events;
  }

  lemma PatchesFirst(root: Id, env: Env, f: Forest, issued: Id, ops: seq<Scheduled>, i: nat)
    requires i < |ops|
    ensures var out := OpSpec(RootReading, root, env, St(f, issued, ops[i].fuse), ops[i].op);
            var rest := PatchesSpec(RootReading, root, env, out.st.f, out.st.issued, ops[i + 1..]);
            PatchesSpec(RootReading, root, env, f, issued, ops[i..]) == rest.(events := [EventOf(out.r)] + rest.events)
  {
    assert ops[i..][1..] == ops[i + 1..];
  }

  /** Runs every top-level operation in order. From any merged document the final document and the
      events are those of the reference interpreter. */
  method ApplyPatches(doc: UnifiedDoc, env: Env, ops: seq<Scheduled>) returns (events: seq<Event>)
    requires doc.Honest([], [])
    modifies doc, doc.index
    ensures doc.Honest([], [])
    ensures Report(doc.forest, doc.issued, events) ==
            PatchesSpec(RootReading, doc.defsRoot, env, old(doc.forest), old(doc.issued), ops)
  {
    events := [];
    var i := 0;
    assert ops[0..] == ops;
    ghost var whole := PatchesSpec(RootReading, doc.defsRoot, env, doc.forest, doc.issued, ops);
    while i < |ops|
      invariant 0 <= i <= |ops|
      invariant doc.Honest([], [])
      invariant doc.index == old(doc.index) || fresh(doc.index)
      invariant Continues(whole, events, PatchesSpec(RootReading, doc.defsRoot, env, doc.forest, doc.issued, ops[i..]))
    {
      PatchesFirst(doc.defsRoot, env, doc.forest, doc.issued, ops, i);
      ghost var rest := PatchesSpec(RootReading, doc.defsRoot, env, doc.forest, doc.issued, ops[i..]);
      var event := RunTopLevel(doc, env, ops[i]);
      ContinuesOn(whole, events, rest, event,
                  PatchesSpec(RootReading, doc.defsRoot, env, doc.forest, doc.issued, ops[i + 1..]));
      events := events + [event];
      i := i + 1;
    }
    assert events + [] == events;
  }
}
