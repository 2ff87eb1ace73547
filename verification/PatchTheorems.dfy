/** What the engine's shortcut means for the game's own reading of a patch: when the two agree, when
    they do not, and that ordinary patches can never make them disagree. */
module PatchTheorems {
  import opened Wrappers
  import opened Arena
  import opened DefScan
  import opened IndexNotes
  import opened UnifiedDocument
  import opened PatchSpec
  import opened PatchEngine

  // ---------------------------------------------------------------- one selection

  lemma RootKids(f: Forest, bound: Id, root: Id)
    requires WellFormed(f, bound, root) && Usable(f, root)
    ensures KidsOf(f, root) == KidsAt(f.kids, root)
    ensures IsDefs(LevelAt(f.kids, root))
  {
    UsableIsAttached(f, root);
    AtOfLevel(f, DOC, root);
  }

  /** Looking below the engine's own `Defs` root answers every expression as the whole-document scan
      does exactly when no other `Defs` child of the document holds a named element. */
  lemma IndexReadingExact(f: Forest, bound: Id, root: Id)
    requires WellFormed(f, bound, root) && Usable(f, root)
    ensures (forall keys :: ScanDocument(KidsOf(f, DOC), keys) == ScanDefs(KidsOf(f, root), keys))
       <==> NoRivals(KidsOf(f, DOC), root)
  {
    RootKids(f, bound, root);
    if NoRivals(f.kids, root) {
      forall keys ensures ScanDocument(KidsOf(f, DOC), keys) == ScanDefs(KidsOf(f, root), keys) {
        RivalFreeScan(f.kids, root, keys);
      }
    } else {
      var key := RivalIsFound(f.kids, root);
      assert ScanDocument(KidsOf(f, DOC), [key]) != ScanDefs(KidsOf(f, root), [key]);
    }
  }

  // ---------------------------------------------------------------- a run where the readings differ

  /** `<Defs/>` as the merge leaves it. */
  const BARE: Forest := Node(DOC, Document, "", "", [], Node(1, Element, "Defs", "", [], Nil, Nil), Nil)

  /** `<Defs><A><defName>x</defName></A></Defs>` as a patch value. */
  const SECOND_DEFS: Val :=
    VNode(false, "Defs", "", [],
          VNode(false, "A", "", [], VNode(false, "defName", "", [], VNode(true, "", "x", [], VNil, VNil), VNil), VNil),
                VNil)

  const KEY_AX: DefKey := DefKey("A", "x")

  function AnyEnv(): Env { Env(_ => true, _ => true, _ => true, {}) }

  /** Inserts a second `Defs` element beside the first, then asks for `Defs/A[defName="x"]`. */
  function SecondDefsRun(): seq<Scheduled> {
    [Scheduled(PatchOp(Normal, Edit(Some(General(_ => Found([XNode(1)]))), Insert(Some(SECOND_DEFS), AppendOrder))),
               -1),
     Scheduled(PatchOp(Normal, Test(Some(Planned([KEY_AX], None)))), -1)]
  }

  function TwoDefs(): Forest {
    Node(DOC, Document, "", "", [], Node(1, Element, "Defs", "", [], Nil, SecondDefs()), Nil)
  }

  function SecondDefs(): Forest {
    Node(2, Element, "Defs", "", [],
      Node(3, Element, "A", "", [], Node(4, Element, "defName", "", [], Node(5, Text, "", "x", [], Nil, Nil), Nil),
           Nil), Nil)
  }

  lemma SecondDefsImports()
    ensures Import(SECOND_DEFS, 2) == SecondDefs() && ValSize(SECOND_DEFS) == 4
    ensures Importable(AnyEnv(), SECOND_DEFS)
  {
    var leaf := VNode(true, "", "x", [], VNil, VNil);
    var name := VNode(false, "defName", "", [], leaf, VNil);
    var a := VNode(false, "A", "", [], name, VNil);
    assert ValSize(leaf) == 1 && ValSize(name) == 2 && ValSize(a) == 3;
    assert Import(leaf, 5) == Node(5, Text, "", "x", [], Nil, Nil);
    assert Import(name, 4) == Node(4, Element, "defName", "", [], Import(leaf, 5), Nil);
    assert Import(a, 3) == Node(3, Element, "A", "", [], Import(name, 4), Nil);
  }

  lemma FirstStep(reading: Reading)
    ensures OpSpec(reading, 1, AnyEnv(), St(BARE, 2, -1), SecondDefsRun()[0].op) ==
            Out(St(TwoDefs(), 6, -1), Done(true))
  {
    SecondDefsImports();
    var c := Cur(St(BARE, 2, -1), false, []);
    var leaf := Insert(Some(SECOND_DEFS), AppendOrder);
    assert ParentOf(BARE, 1) == Some(DOC) && At(BARE, 1) == Node(1, Element, "Defs", "", [], Nil, Nil);
    assert Rev(SecondDefs()) == SecondDefs();
    var kids := ReplaceAt(KidsOf(BARE, DOC), 1, InsertedList(BARE, 1, SecondDefs(), AppendOrder));
    assert SetKids(BARE, DOC, kids) == TwoDefs();
    var c' := Cur(St(TwoDefs(), 6, -1), true, []);
    assert TargetSpec(AnyEnv(), leaf, c, XNode(1)) == Go(c');
    assert [XNode(1)][1..] == [];
    assert TargetsSpec(AnyEnv(), leaf, c', []) == Go(c');
    assert TargetsSpec(AnyEnv(), leaf, c, [XNode(1)]) == Go(c');
  }

  lemma SecondStep(reading: Reading)
    ensures OpSpec(reading, 1, AnyEnv(), St(TwoDefs(), 6, -1), SecondDefsRun()[1].op)
         == Out(St(TwoDefs(), 6, -1), Done(reading.GameReading?))
  {
    var keys := [KEY_AX];
    var name := Node(4, Element, "defName", "", [], Node(5, Text, "", "x", [], Nil, Nil), Nil);
    var a := Node(3, Element, "A", "", [], name, Nil);
    assert TextBelow(name.kids) == "x" + TextBelow(Nil) == "x";
    assert Names(name) == {"x"} + Names(Nil);
    assert keys[0] == KEY_AX && Matches(a, keys);
    assert ScanDefs(a, keys) == [3] + ScanDefs(Nil, keys) == [3];
    assert ScanDocument(SecondDefs(), keys) == [3] + ScanDocument(Nil, keys) == [3];
    assert ScanDocument(KidsOf(TwoDefs(), DOC), keys) == [3];
    assert ScanDefs(KidsOf(TwoDefs(), 1), keys) == [];
    assert At(TwoDefs(), 1).Node? && 1 in Ids(TwoDefs().kids);
    assert Usable(TwoDefs(), 1);
    assert AsNodes([3]) != [];
  }

  /** The readings do differ: after this run the engine finds nothing where the game finds `A`. */
  lemma ReadingsDiffer()
    ensures PatchesSpec(GameReading, 1, AnyEnv(), BARE, 2, SecondDefsRun()).events ==
            [Event(true, false), Event(true, false)]
    ensures PatchesSpec(RootReading, 1, AnyEnv(), BARE, 2, SecondDefsRun()).events ==
            [Event(true, false), Event(false, false)]
    ensures WellFormed(BARE, 2, 1) && Usable(BARE, 1)
  {
    forall reading: Reading
      ensures PatchesSpec(reading, 1, AnyEnv(), BARE, 2, SecondDefsRun()).events
           == [Event(true, false), Event(reading.GameReading?, false)]
    {
      FirstStep(reading);
      SecondStep(reading);
      var ops := SecondDefsRun();
      assert ops[1..] == [ops[1]] && ops[1..][1..] == [];
      assert PatchesSpec(reading, 1, AnyEnv(), TwoDefs(), 6, []).events == [];
      assert PatchesSpec(reading, 1, AnyEnv(), TwoDefs(), 6, ops[1..]).events == [Event(reading.GameReading?, false)];
    }
  }

  // ---------------------------------------------------------------- runs where they never differ

  /** No child of the document but the engine's root is an element named `Defs`. */
  ghost predicate SoleDefs(l: Forest, root: Id) {
    l.Node? ==> (l.kind.Element? && l.name == DEFS_TAG ==> l.id == root) && SoleDefs(l.next, root)
  }

  ghost predicate ProperDoc(f: Forest, issued: Id, root: Id) {
    WellFormed(f, issued, root) && SoleDefs(f.kids, root)
  }

  ghost predicate Proper(st: St, root: Id) {
    ProperDoc(st.f, st.issued, root)
  }

  predicate NoDefs(v: Val) {
    v.VNode? ==> (v.isText || v.name != DEFS_TAG) && NoDefs(v.next)
  }

  /** The operation neither brings a value whose own top level has a `Defs` element nor renames
      anything to `Defs`. The value of `AddModExtension` never reaches the document's level. */
  predicate TameLeaf(leaf: Leaf) {
    match leaf
    case Add(v, _) => v.Some? ==> NoDefs(v.value)
    case Insert(v, _) => v.Some? ==> NoDefs(v.value)
    case Replace(v) => v.Some? ==> NoDefs(v.value)
    case SetName(name) => name != Some(DEFS_TAG)
    case _ => true
  }

  predicate TameOp(op: PatchOp) {
    match op.kind
    case Edit(_, leaf) => TameLeaf(leaf)
    case Conditional(_, m, n) => (m.Some? ==> TameOp(m.value)) && (n.Some? ==> TameOp(n.value))
    case FindMod(_, m, n) => (m.Some? ==> TameOp(m.value)) && (n.Some? ==> TameOp(n.value))
    case Setting(_, m, n) => (m.Some? ==> TameOp(m.value)) && (n.Some? ==> TameOp(n.value))
    case Sequence(_, ops) => forall i :: 0 <= i < |ops| ==> TameOp(ops[i])
    case _ => true
  }

  lemma {:induction l} SoleFacts(l: Forest, g: Forest, root: Id, id: Id)
    ensures SoleDefs(Append(l, g), root) <==> SoleDefs(l, root) && SoleDefs(g, root)
    ensures SoleDefs(l, root) ==> SoleDefs(LevelAt(l, id), root)
  {
  }

  lemma {:induction l} SoleEdits(l: Forest, root: Id, p: Id, h: Forest, attrs: seq<(string, string)>)
    ensures SoleDefs(SetKids(l, p, h), root) == SoleDefs(l, root)
    ensures SoleDefs(SetAttrs(l, p, attrs), root) == SoleDefs(l, root)
  {
  }

  lemma {:induction l} SoleReplace(l: Forest, root: Id, id: Id, g: Forest)
    requires SoleDefs(l, root) && SoleDefs(g, root)
    ensures SoleDefs(ReplaceAt(l, id, g), root)
  {
    if l.Node? { SoleFacts(g, l.next, root, id); }
  }

  lemma {:induction l} SoleRev(l: Forest, root: Id)
    requires SoleDefs(l, root)
    ensures SoleDefs(Rev(l), root)
  {
    if l.Node? { SoleFacts(Rev(l.next), l.(next := Nil), root, 0); }
  }

  lemma {:induction false} SoleImport(v: Val, at: Id, root: Id)
    requires NoDefs(v)
    ensures SoleDefs(Import(v, at), root)
  {
    if v.VNode? { SoleImport(v.next, at + 1 + ValSize(v.kids), root); }
  }

  lemma {:induction l} SoleHasNoRivals(l: Forest, root: Id)
    requires SoleDefs(l, root)
    ensures NoRivals(l, root)
  {
  }

  /** With no second `Defs` the two readings of a selection agree. */
  lemma SelectAgrees(root: Id, st: St, xpath: Option<XPath>)
    requires Proper(st, root)
    ensures Select(RootReading, root, st, xpath) == Select(GameReading, root, st, xpath)
  {
    if Usable(st.f, root) {
      SoleHasNoRivals(st.f.kids, root);
      IndexReadingExact(st.f, st.issued, root);
      if xpath.Some? && xpath.value.Planned? {
        assert ScanDocument(KidsOf(st.f, DOC), xpath.value.keys) == ScanDefs(KidsOf(st.f, root), xpath.value.keys);
      }
    }
  }

  /** An edit of a child list keeps the document proper: the notes play no part, so a document that
      is due for a full rebuild anyway stands in for any other. */
  lemma MemberProper(st: St, root: Id, p: Id, id: Id, g: Forest, extra: Forest, affected: seq<Id>, issued: Id)
    requires Proper(st, root) && (p == DOC ==> SoleDefs(g, root))
    requires Linkable(st.f, st.issued, p, id, g, extra, affected, issued)
    ensures ProperDoc(Edited(st.f, p, ReplaceAt(KidsOf(st.f, p), id, g), extra), issued, root)
  {
    MemberCoherent(st.f, st.issued, root, map[], Notes(true, [], [], []), p, id, g, extra, affected, issued);
    var h := ReplaceAt(KidsOf(st.f, p), id, g);
    if p == DOC {
      SoleReplace(st.f.kids, root, id, g);
    } else {
      SoleEdits(st.f.kids, root, p, h, []);
    }
  }

  lemma AddedProper(st: St, root: Id, p: Id, items: Forest, order: Order, used: nat)
    requires Proper(st, root) && (p == DOC ==> SoleDefs(items, root))
    requires p in Ids(st.f) && Distinct(items) && forall x :: x in Ids(items) ==> st.issued <= x < st.issued + used
    ensures ProperDoc(SetKids(st.f, p, AddKids(st.f, p, items, order)), st.issued + used, root)
  {
    var h := AddKids(st.f, p, items, order);
    LevelListFacts(items);
    AddedCoherent(st.f, st.issued, root, map[], Notes(true, [], [], []), p, items, h, LevelList(items),
                  st.issued + used);
    if p == DOC {
      SoleFacts(st.f.kids, items, root, 0);
      SoleFacts(items, st.f.kids, root, 0);
    } else {
      SoleEdits(st.f.kids, root, p, h, []);
    }
  }

  lemma AttrsProper(st: St, root: Id, p: Id, attrs: seq<(string, string)>)
    requires Proper(st, root)
    ensures ProperDoc(SetAttrs(st.f, p, attrs), st.issued, root)
  {
    AttrsCoherent(st.f, st.issued, root, map[], Notes(true, [], [], []), p, attrs);
    SoleEdits(st.f.kids, root, p, Nil, attrs);
  }

  lemma AddStep(env: Env, v: Val, order: Order, c: Cur, target: XNode, root: Id)
    requires Proper(c.st, root) && NoDefs(v)
    ensures Proper(AddSpec(env, v, order, c, target).c.st, root)
  {
    match target
    case XAttr(owner, position) =>
      var a := At(c.st.f, owner);
      if a.Node? && a.kind.Element? && position < |a.attrs| {
        var (name, current) := a.attrs[position];
        var updated := if order.AppendOrder? then current + TextOf(v) else TextOf(v) + current;
        AttrsProper(c.st, root, owner, PutAttr(a.attrs, name, updated));
      }
    case XNode(id) =>
      AtFacts(c.st.f, id);
      if id in Ids(c.st.f) {
        ImportFacts(v, c.st.issued);
        SoleImport(v, c.st.issued, root);
        AddedProper(c.st, root, id, Import(v, c.st.issued), order, ValSize(v));
      }
  }

  lemma InsertStep(env: Env, v: Val, order: Order, c: Cur, target: XNode, root: Id)
    requires Proper(c.st, root) && NoDefs(v)
    ensures Proper(InsertSpec(env, v, order, c, target).c.st, root)
  {
    if target.XNode? && ParentOf(c.st.f, target.id).Some? {
      ImportFacts(v, c.st.issued);
      SoleImport(v, c.st.issued, root);
      InsertedProper(c.st, root, ParentOf(c.st.f, target.id).value, target.id, Import(v, c.st.issued), order,
                     ValSize(v));
    }
  }

  lemma InsertedProper(st: St, root: Id, p: Id, id: Id, items: Forest, order: Order, used: nat)
    requires Proper(st, root) && ParentOf(st.f, id) == Some(p) && SoleDefs(items, root)
    requires Distinct(items) && forall x :: x in Ids(items) ==> st.issued <= x < st.issued + used
    ensures ProperDoc(SetKids(st.f, p, ReplaceAt(KidsOf(st.f, p), id, InsertedList(st.f, id, items, order))),
                      st.issued + used, root)
  {
    var f, g := st.f, InsertedList(st.f, id, items, order);
    ParentFacts(f, id);
    AtFacts(f, id);
    InsertLinkable(f, p, id, items, order, st.issued, used);
    if p == DOC {
      AtOfLevel(f, DOC, id);
      SoleFacts(f.kids, Nil, root, id);
      SoleRev(items, root);
      SoleFacts(At(f, id), Rev(items), root, 0);
      SoleFacts(Rev(items), At(f, id), root, 0);
    }
    MemberProper(st, root, p, id, g, Nil, LevelList(items), st.issued + used);
    AppendNil(SetKids(f, p, ReplaceAt(KidsOf(f, p), id, g)));
  }

  lemma ReplaceStep(env: Env, v: Val, c: Cur, target: XNode, root: Id)
    requires Proper(c.st, root) && NoDefs(v)
    ensures Proper(ReplaceSpec(env, v, c, target).c.st, root)
  {
    var f := c.st.f;
    if target.XNode? && ParentOf(f, target.id).Some? {
      var id, p, items := target.id, ParentOf(f, target.id).value, Import(v, c.st.issued);
      ImportLinkable(f, p, id, v, c.st.issued);
      SoleImport(v, c.st.issued, root);
      MemberProper(c.st, root, p, id, items, At(f, id), LevelList(items) + [id], c.st.issued + ValSize(v));
    }
  }

  lemma RemoveStep(c: Cur, target: XNode, root: Id)
    requires Proper(c.st, root)
    ensures Proper(RemoveSpec(c, target).c.st, root)
  {
    if target.XNode? && ParentOf(c.st.f, target.id).Some? {
      RemoveLinkable(c.st.f, ParentOf(c.st.f, target.id).value, target.id, c.st.issued);
      MemberProper(c.st, root, ParentOf(c.st.f, target.id).value, target.id, Nil, At(c.st.f, target.id), [target.id],
                   c.st.issued);
    }
  }

  lemma ExtendStep(env: Env, v: Val, c: Cur, id: Id, ext: Id, root: Id)
    requires Proper(c.st, root) && ext in Level(KidsOf(c.st.f, id))
    ensures Proper(ExtendSpec(env, v, c, ext).c.st, root)
  {
    LevelAtFacts(KidsOf(c.st.f, id), ext);
    KidsOfFacts(c.st.f, id);
    RootsAreNoKids(c.st.f, DOC, id);
    ImportFacts(v, c.st.issued);
    AddedProper(c.st, root, ext, Import(v, c.st.issued), AppendOrder, ValSize(v));
  }

  lemma CreateStep(env: Env, v: Val, c: Cur, id: Id, root: Id)
    requires Proper(c.st, root) && id in Ids(c.st.f) && IsElement(c.st.f, id)
             && ChildNamed(KidsOf(c.st.f, id), MOD_EXTENSIONS).None?
    ensures Proper(ExtensionSpec(env, v, c, XNode(id)).c.st, root)
  {
    var f, ext := c.st.f, c.st.issued;
    var e := NewElement(ext, MOD_EXTENSIONS, Nil);
    var kids := Append(KidsOf(f, id), e);
    AddedProper(c.st, root, id, e, AppendOrder, 1);
    var made := CreateSpec(c, id);
    if made.Go? {
      SetKidsSame(f, id, kids);
      AppendFacts(KidsOf(f, id), e);
      ExtendStep(env, v, made.c, id, ext, root);
    }
  }

  lemma ExtensionStep(env: Env, v: Val, c: Cur, target: XNode, root: Id)
    requires Proper(c.st, root)
    ensures Proper(ExtensionSpec(env, v, c, target).c.st, root)
  {
    if target.XNode? && IsElement(c.st.f, target.id) {
      AtFacts(c.st.f, target.id);
      ChildNamedFacts(KidsOf(c.st.f, target.id), MOD_EXTENSIONS);
      match ChildNamed(KidsOf(c.st.f, target.id), MOD_EXTENSIONS)
      case Some(present) => ExtendStep(env, v, c, target.id, present, root);
      case None => CreateStep(env, v, c, target.id, root);
    }
  }

  lemma AttributeStep(env: Env, attribute: Option<string>, value: string, mode: AttributeMode, c: Cur, target: XNode,
                      root: Id)
    requires Proper(c.st, root)
    ensures Proper(AttributeSpec(env, attribute, value, mode, c, target).c.st, root)
  {
    if target.XNode? && IsElement(c.st.f, target.id) && attribute.Some? {
      var attrs := At(c.st.f, target.id).attrs;
      AttrsProper(c.st, root, target.id, PutAttr(attrs, attribute.value, value));
      AttrsProper(c.st, root, target.id, DropAttr(attrs, attribute.value));
    }
  }

  lemma SetNameStep(env: Env, name: Option<string>, c: Cur, target: XNode, root: Id)
    requires Proper(c.st, root) && name != Some(DEFS_TAG)
    ensures Proper(SetNameSpec(env, name, c, target).c.st, root)
  {
    var f := c.st.f;
    if target.XNode? && ParentOf(f, target.id).Some? && name.Some? {
      var id, p := target.id, ParentOf(f, target.id).value;
      var renamed := NewElement(c.st.issued, name.value, KidsOf(f, id));
      RenameLinkable(f, p, id, name.value, c.st.issued);
      MemberProper(c.st, root, p, id, renamed, Nil, [id, c.st.issued], c.st.issued + 1);
      AppendNil(SetKids(f, p, ReplaceAt(KidsOf(f, p), id, renamed)));
    }
  }

  lemma TargetStep(env: Env, leaf: Leaf, c: Cur, target: XNode, root: Id)
    requires Ready(leaf) && TameLeaf(leaf) && Proper(c.st, root)
    ensures Proper(TargetSpec(env, leaf, c, target).c.st, root)
  {
    match leaf
    case Add(v, order) => AddStep(env, v.value, order, c, target, root);
    case Insert(v, order) => InsertStep(env, v.value, order, c, target, root);
    case Replace(v) => ReplaceStep(env, v.value, c, target, root);
    case Remove => RemoveStep(c, target, root);
    case AddModExtension(v) => ExtensionStep(env, v.value, c, target, root);
    case Attribute(name, value, mode) =>
      AttributeStep(env, name, if value.Some? then value.value else "", mode, c, target, root);
    case SetName(name) => SetNameStep(env, name, c, target, root);
  }

  lemma {:induction false} TargetsStep(env: Env, leaf: Leaf, c: Cur, targets: seq<XNode>, root: Id)
    requires Ready(leaf) && TameLeaf(leaf) && Proper(c.st, root)
    ensures Proper(TargetsSpec(env, leaf, c, targets).c.st, root)
    decreases |targets|
  {
    if targets != [] {
      TargetStep(env, leaf, c, targets[0], root);
      var flow := TargetSpec(env, leaf, c, targets[0]);
      if flow.Go? { TargetsStep(env, leaf, flow.c, targets[1..], root); }
    }
  }

  lemma {:induction false} FreeStep(st: St, nodes: seq<Id>, root: Id)
    requires Proper(st, root)
    ensures Proper(st.(f := FreeSpec(st.f, nodes)), root)
    decreases |nodes|
  {
    if nodes != [] {
      var r := nodes[0];
      if r in Level(st.f) && r != DOC {
        FreeCoherent(st.f, st.issued, root, map[], Notes(true, [], [], []), r);
        FreeStep(st.(f := ReplaceAt(st.f, r, Nil)), nodes[1..], root);
      } else {
        FreeStep(st, nodes[1..], root);
      }
    }
  }

  lemma LeafStep(env: Env, leaf: Leaf, st: St, targets: seq<XNode>, root: Id)
    requires Ready(leaf) && TameLeaf(leaf) && Proper(st, root)
    ensures Proper(LeafSpec(env, leaf, st, targets).st, root)
  {
    TargetsStep(env, leaf, Cur(st, false, []), targets, root);
    var flow := TargetsSpec(env, leaf, Cur(st, false, []), targets);
    FreeStep(flow.c.st, flow.c.detached, root);
  }

  /** A tame operation leaves the document proper and means the same under both readings. */
  lemma {:induction false} OpAgrees(root: Id, env: Env, st: St, op: PatchOp)
    requires Proper(st, root) && TameOp(op)
    ensures OpSpec(RootReading, root, env, st, op) == OpSpec(GameReading, root, env, st, op)
    ensures Proper(OpSpec(GameReading, root, env, st, op).st, root)
    decreases op, 1
  {
    match op.kind
    case Edit(xpath, leaf) =>
      SelectAgrees(root, st, xpath);
      var (st', found) := Select(GameReading, root, st, xpath);
      if Ready(leaf) && found.Some? && found.value.Found? {
        LeafStep(env, leaf, st', found.value.nodes, root);
      }
    case Test(xpath) => SelectAgrees(root, st, xpath);
    case Conditional(xpath, _, _) =>
      SelectAgrees(root, st, xpath);
      var (st', found) := Select(GameReading, root, st, xpath);
      if found.Some? && found.value.Found? {
        BranchAgrees(root, env, st', op, found.value.nodes != [], true);
      }
    case FindMod(mods, _, _) =>
      BranchAgrees(root, env, st, op, exists i :: 0 <= i < |mods| && mods[i] in env.modNames, false);
    case Setting(setting, _, _) =>
      if setting.Some? { BranchAgrees(root, env, st, op, setting.value, true); }
    case Sequence(given, operations) => SequenceAgrees(root, env, st, operations);
    case _ =>
  }

  lemma {:induction false} BranchAgrees(root: Id, env: Env, st: St, op: PatchOp, found: bool, strict: bool)
    requires op.kind.Conditional? || op.kind.FindMod? || op.kind.Setting?
    requires Proper(st, root) && TameOp(op)
    ensures BranchSpec(RootReading, root, env, st, op, found, strict) ==
            BranchSpec(GameReading, root, env, st, op, found, strict)
    ensures Proper(BranchSpec(GameReading, root, env, st, op, found, strict).st, root)
    decreases op, 0, 0
  {
    var branch := if found then op.kind.onMatch else op.kind.onNomatch;
    if branch.Some? { OpAgrees(root, env, st, branch.value); }
  }

  lemma {:induction false} SequenceAgrees(root: Id, env: Env, st: St, ops: seq<PatchOp>)
    requires Proper(st, root) && forall i :: 0 <= i < |ops| ==> TameOp(ops[i])
    ensures SequenceSpec(RootReading, root, env, st, ops) == SequenceSpec(GameReading, root, env, st, ops)
    ensures Proper(SequenceSpec(GameReading, root, env, st, ops).st, root)
    decreases ops, 0
  {
    if ops != [] {
      OpAgrees(root, env, st, ops[0]);
      SequenceAgrees(root, env, OpSpec(GameReading, root, env, st, ops[0]).st, ops[1..]);
    }
  }

  /** Whole runs: patches that never bring a second `Defs` mean what the game means by them, through
      every failure and every panic. */
  lemma {:induction false} RunsAgree(root: Id, env: Env, f: Forest, issued: Id, ops: seq<Scheduled>)
    requires WellFormed(f, issued, root) && SoleDefs(f.kids, root)
    requires forall i :: 0 <= i < |ops| ==> TameOp(ops[i].op)
    ensures PatchesSpec(RootReading, root, env, f, issued, ops) == PatchesSpec(GameReading, root, env, f, issued, ops)
    decreases |ops|
  {
    if ops != [] {
      OpAgrees(root, env, St(f, issued, ops[0].fuse), ops[0].op);
      var out := OpSpec(GameReading, root, env, St(f, issued, ops[0].fuse), ops[0].op);
      RunsAgree(root, env, out.st.f, out.st.issued, ops[1..]);
    }
  }

  /** Merging and patching: the indexed engine on a fresh document ends exactly where the plain
      scanning interpreter ends. */
  method PatchMerged(f: Forest, issued: Id, root: Id, env: Env, ops: seq<Scheduled>)
    returns (doc: UnifiedDoc, events: seq<Event>)
    requires WellFormed(f, issued, root) && SoleDefs(f.kids, root)
    requires forall i :: 0 <= i < |ops| ==> TameOp(ops[i].op)
    ensures Report(doc.forest, doc.issued, events) == PatchesSpec(GameReading, root, env, f, issued, ops)
  {
    doc := new UnifiedDoc.Merged(f, issued, root);
    RunsAgree(root, env, f, issued, ops);
    events := ApplyPatches(doc, env, ops);
  }

  // ---------------------------------------------------------------- several values beside one target

  /** Inserts the members of `items` one after the other directly after (or before) member `id`. */
  function InsertEach(l: Forest, id: Id, items: Forest, order: Order): Forest
    decreases items
  {
    match items
    case Nil => l
    case Node(_, _, _, _, _, _, next) => InsertEach(InsertOne(l, id, items.(next := Nil), order), id, next, order)
  }

  function InsertOne(l: Forest, id: Id, item: Forest, order: Order): Forest {
    match l
    case Nil => Nil
    case Node(n, _, _, _, _, _, next) =>
      if n != id then l.(next := InsertOne(next, id, item, order))
      else if order.AppendOrder? then l.(next := Append(item, next))
      else Append(item, l)
  }

  lemma {:induction a} AppendAssoc(a: Forest, b: Forest, c: Forest)
    ensures Append(Append(a, b), c) == Append(a, Append(b, c))
  {
  }

  lemma {:induction l} InsertedFirst(l: Forest, id: Id, item: Forest, rest: Forest, order: Order)
    requires id in Level(l) && item.Node? && item.next == Nil && item.id != id
    ensures var l', t := InsertOne(l, id, item, order), LevelAt(l, id);
            && id in Level(l') && LevelAt(l', id) == t
            && (order.AppendOrder? ==>
              ReplaceAt(l', id, Append(t, Rev(rest))) == ReplaceAt(l, id, Append(t, Rev(item.(next := rest)))))
            && (order.PrependOrder? ==>
              ReplaceAt(l', id, Append(rest, t)) == ReplaceAt(l, id, Append(item.(next := rest), t)))
  {
    if l.id == id {
      var t := LevelAt(l, id);
      assert Append(Nil, l) == l;
      assert Append(item, l) == item.(next := l);
      AppendAssoc(Append(t, Rev(rest)), item, l.next);
      AppendAssoc(t, Rev(rest), item);
    }
  }

  lemma {:induction false} InsertedEach(l: Forest, id: Id, items: Forest, order: Order)
    requires id in Level(l) && id !in Level(items)
    ensures InsertEach(l, id, items, order) ==
            ReplaceAt(l, id, if order.AppendOrder? then Append(LevelAt(l, id), Rev(items))
                      else Append(items, LevelAt(l, id)))
    decreases items
  {
    if items.Nil? {
      AppendNil(LevelAt(l, id));
      ReplaceBySelf(l, id);
    } else {
      InsertedFirst(l, id, items.(next := Nil), items.next, order);
      InsertedEach(InsertOne(l, id, items.(next := Nil), order), id, items.next, order);
    }
  }

  lemma {:induction l} ReplaceBySelf(l: Forest, id: Id)
    requires id in Level(l)
    ensures ReplaceAt(l, id, LevelAt(l, id)) == l
  {
    assert Append(Nil, l.next) == l.next;
  }

  /** The link loop of an insertion - forwards after the target, backwards before it - builds the
      list the reference meaning puts in the target's place. */
  lemma InsertedOneByOne(f: Forest, p: Id, id: Id, items: Forest, order: Order)
    requires Distinct(f) && id in Level(KidsOf(f, p)) && id !in Level(items)
    ensures InsertEach(KidsOf(f, p), id, if order.AppendOrder? then items else Rev(items), order)
         == ReplaceAt(KidsOf(f, p), id, InsertedList(f, id, items, order))
  {
    AtOfLevel(f, p, id);
    RevFacts(items);
    InsertedEach(KidsOf(f, p), id, if order.AppendOrder? then items else Rev(items), order);
  }

  // ---------------------------------------------------------------- what single operations do

  /** A node linked into a child list stands in the document with its whole subtree. */
  lemma LinkedMember(st: St, root: Id, p: Id, id: Id, g: Forest, issued: Id, x: Id)
    requires Proper(st, root) && ParentOf(st.f, id) == Some(p) && x in Level(g)
    requires ProperDoc(SetKids(st.f, p, ReplaceAt(KidsOf(st.f, p), id, g)), issued, root)
    requires LevelAt(ReplaceAt(KidsOf(st.f, p), id, g), x) == LevelAt(g, x)
    ensures At(SetKids(st.f, p, ReplaceAt(KidsOf(st.f, p), id, g)), x) == LevelAt(g, x)
    ensures ParentOf(SetKids(st.f, p, ReplaceAt(KidsOf(st.f, p), id, g)), x) == Some(p)
  {
    var h := ReplaceAt(KidsOf(st.f, p), id, g);
    var f' := SetKids(st.f, p, h);
    ParentFacts(st.f, id);
    SetKidsSame(st.f, p, h);
    LevelAtFacts(g, x);
    LevelAtFacts(h, x);
    AtOfLevel(f', p, x);
    ParentIff(f', x, p);
  }

  /** The handles after `g` was linked where child `id` of `p` was. */
  lemma MemberIds(f: Forest, p: Id, id: Id, g: Forest)
    requires Distinct(f) && ParentOf(f, id) == Some(p) && Distinct(g) && Ids(g) !! (Ids(f) - Ids(At(f, id)))
    ensures Distinct(ReplaceAt(KidsOf(f, p), id, g))
    ensures Ids(SetKids(f, p, ReplaceAt(KidsOf(f, p), id, g))) == (Ids(f) - Ids(At(f, id))) + Ids(g)
  {
    var kids := KidsOf(f, p);
    ParentFacts(f, id);
    AtOfLevel(f, p, id);
    KidsOfFacts(f, p);
    LevelAtFacts(kids, id);
    ReplaceAtFacts(kids, id, g);
    SetKidsFacts(f, p, ReplaceAt(kids, id, g));
    InnerExchange(Ids(f), Ids(kids), Ids(At(f, id)), Ids(g));
  }

  lemma InnerExchange(all: set<Id>, inner: set<Id>, gone: set<Id>, come: set<Id>)
    requires gone <= inner <= all
    ensures (all - inner) + ((inner - gone) + come) == (all - gone) + come
  {
  }

  /** A rename is a new element in the old one's place with all its children; the old one is gone. */
  lemma RenameTakesOver(env: Env, name: string, c: Cur, id: Id, p: Id, root: Id)
    requires Proper(c.st, root) && IsElement(c.st.f, id) && ParentOf(c.st.f, id) == Some(p)
    requires env.nameOk(name) && name != DEFS_TAG && c.st.fuse < 0
    ensures var flow, renamed := SetNameSpec(env, Some(name), c, XNode(id)), c.st.issued;
            && flow.Go? && flow.c.hit
            && At(flow.c.st.f, renamed) == NewElement(renamed, name, KidsOf(c.st.f, id))
            && ParentOf(flow.c.st.f, renamed) == Some(p)
            && Ids(flow.c.st.f) == Ids(c.st.f) - {id} + {renamed}
  {
    var f, n := c.st.f, c.st.issued;
    var g := NewElement(n, name, KidsOf(f, id));
    SetNameStep(env, Some(name), c, XNode(id), root);
    RenamedIds(f, p, id, name, n);
    ParentFacts(f, id);
    AtFacts(f, id);
    KidsOfFacts(f, id);
    RenamedPlace(f, p, id, g, n);
    LinkedMember(c.st, root, p, id, g, n + 1, n);
  }

  lemma RenamedIds(f: Forest, p: Id, id: Id, name: string, n: Id)
    requires Distinct(f) && ParentOf(f, id) == Some(p) && forall x :: x in Ids(f) ==> x < n
    ensures Ids(SetKids(f, p, ReplaceAt(KidsOf(f, p), id, NewElement(n, name, KidsOf(f, id))))) == Ids(f) - {id} + {n}
  {
    ParentFacts(f, id);
    AtFacts(f, id);
    KidsOfFacts(f, id);
    MemberIds(f, p, id, NewElement(n, name, KidsOf(f, id)));
  }

  lemma RenamedPlace(f: Forest, p: Id, id: Id, g: Forest, n: Id)
    requires Distinct(f) && ParentOf(f, id) == Some(p) && g.Node? && g.id == n && g.next == Nil
    requires Distinct(g) && Ids(g) !! (Ids(f) - Ids(At(f, id)))
    ensures LevelAt(ReplaceAt(KidsOf(f, p), id, g), n) == LevelAt(g, n) == g
  {
    ParentFacts(f, id);
    AtOfLevel(f, p, id);
    KidsOfFacts(f, p);
    ReplaceLevel(KidsOf(f, p), id, g, n);
  }

  /** Freeing a tree that was just detached leaves no trace of it. */
  lemma FreedDetached(f: Forest, t: Forest)
    requires t.Node? && t.next == Nil && t.id != DOC && Distinct(Append(f, t))
    ensures Ids(FreeSpec(Append(f, t), [t.id])) == Ids(f)
  {
    var all := Append(f, t);
    AppendFacts(f, t);
    AppendAt(f, t, t.id);
    LevelAtFacts(f, t.id);
    ReplaceAtFacts(all, t.id, Nil);
    assert [t.id][1..] == [];
  }

  /** A replacement puts the new nodes in and takes exactly the old subtree out of the arena; with an
      empty value that is a removal. */
  lemma ReplaceExchanges(env: Env, v: Val, st: St, id: Id, root: Id)
    requires Proper(st, root) && ParentOf(st.f, id).Some? && Importable(env, v) && NoDefs(v) && st.fuse < 0
    ensures var out := LeafSpec(env, Replace(Some(v)), st, [XNode(id)]);
            out.r == Done(true) && Ids(out.st.f) == Ids(st.f) - Ids(At(st.f, id)) + Ids(Import(v, st.issued))
  {
    var f, p, items := st.f, ParentOf(st.f, id).value, Import(v, st.issued);
    var c := Cur(st, false, []);
    var kids := ReplaceAt(KidsOf(f, p), id, items);
    ReplaceStep(env, v, c, XNode(id), root);
    ParentFacts(f, id);
    ReplacedRun(env, v, st, id, p);
    ImportFacts(v, st.issued);
    AtFacts(f, id);
    MemberIds(f, p, id, items);
    RootsAreNoKids(f, DOC, p);
    LevelAtFacts(KidsOf(f, p), id);
    FreedDetached(SetKids(f, p, kids), At(f, id));
  }

  /** The run of one replacement without a panic: the edit, then the old tree is freed. */
  lemma ReplacedRun(env: Env, v: Val, st: St, id: Id, p: Id)
    requires ParentOf(st.f, id) == Some(p) && id in Ids(st.f) && Importable(env, v) && st.fuse < 0
    ensures var edited := Append(SetKids(st.f, p, ReplaceAt(KidsOf(st.f, p), id, Import(v, st.issued))), At(st.f, id));
            var flow := ReplaceSpec(env, v, Cur(st, false, []), XNode(id));
            flow == Go(Cur(St(edited, st.issued + ValSize(v), flow.c.st.fuse), true, [id]))
            && LeafSpec(env, Replace(Some(v)), st, [XNode(id)]) ==
              Out(flow.c.st.(f := FreeSpec(edited, [id])), Done(true))
  {
    var flow := ReplaceSpec(env, v, Cur(st, false, []), XNode(id));
    assert [] + [id] == [id];
    assert [XNode(id)][1..] == [];
    assert TargetsSpec(env, Replace(Some(v)), flow.c, []) == flow;
  }
}
