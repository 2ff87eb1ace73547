/** How patch operations compose: targets and steps in order, branches, rewritten results, panics. */
module PatchRuns {
  import opened Wrappers
  import opened Arena
  import opened DefScan
  import opened IndexNotes
  import opened PatchSpec
  import opened PatchEngine
  import opened PatchTheorems
  import opened DocumentMeaning
  import opened PatchMeaning

  // ---------------------------------------------------------------- in order

  /** Targets are edited one after the other until one of them stops the operation. */
  lemma {:induction false} TargetsInOrder(env: Env, leaf: Leaf, c: Cur, target: XNode, a: seq<XNode>, b: seq<XNode>)
    requires Ready(leaf)
    ensures TargetsSpec(env, leaf, c, []) == Go(c)
    ensures TargetsSpec(env, leaf, c, [target]) == TargetSpec(env, leaf, c, target)
    ensures TargetsSpec(env, leaf, c, a + b) ==
            var first := TargetsSpec(env, leaf, c, a);
            if first.Go? then TargetsSpec(env, leaf, first.c, b) else first
    decreases |a|
  {
    assert [target][1..] == [];
    var one := TargetSpec(env, leaf, c, target);
    if one.Go? { assert TargetsSpec(env, leaf, one.c, []) == one; }
    if a == [] {
      assert a + b == b;
    } else {
      assert (a + b)[0] == a[0] && (a + b)[1..] == a[1..] + b;
      var first := TargetSpec(env, leaf, c, a[0]);
      if first.Go? { TargetsInOrder(env, leaf, first.c, target, a[1..], b); }
    }
  }

  /** Steps run one after the other until one is not a success, whose result is that of the sequence. */
  lemma {:induction false} StepsInOrder(reading: Reading, root: Id, env: Env, st: St, op: PatchOp, a: seq<PatchOp>,
                                        b: seq<PatchOp>)
    ensures SequenceSpec(reading, root, env, st, []) == Out(st, Done(true))
    ensures SequenceSpec(reading, root, env, st, [op]) == OpSpec(reading, root, env, st, op)
    ensures SequenceSpec(reading, root, env, st, a + b) ==
            var first := SequenceSpec(reading, root, env, st, a);
            if first.r == Done(true) then SequenceSpec(reading, root, env, first.st, b) else first
    decreases |a|
  {
    assert [op][1..] == [];
    var one := OpSpec(reading, root, env, st, op);
    assert SequenceSpec(reading, root, env, one.st, []) == Out(one.st, Done(true));
    if a == [] {
      assert a + b == b;
    } else {
      assert (a + b)[0] == a[0] && (a + b)[1..] == a[1..] + b;
      var first := OpSpec(reading, root, env, st, a[0]);
      if first.r == Done(true) { StepsInOrder(reading, root, env, first.st, op, a[1..], b); }
    }
  }

  /** Top-level operations run one after the other whatever their results; each has its event. */
  lemma {:induction false} PatchesInOrder(reading: Reading, root: Id, env: Env, f: Forest, issued: Id, op: Scheduled,
                                          a: seq<Scheduled>, b: seq<Scheduled>)
    ensures PatchesSpec(reading, root, env, f, issued, []) == Report(f, issued, [])
    ensures var out := OpSpec(reading, root, env, St(f, issued, op.fuse), op.op);
            PatchesSpec(reading, root, env, f, issued, [op]) ==
            Report(out.st.f, out.st.issued, [Event(out.r == Done(true), out.r.Raised? || out.r.Panicked?)])
    ensures PatchesSpec(reading, root, env, f, issued, a + b) ==
            var first := PatchesSpec(reading, root, env, f, issued, a);
            var second := PatchesSpec(reading, root, env, first.f, first.issued, b);
            Report(second.f, second.issued, first.events + second.events)
    decreases |a|
  {
    assert [op][1..] == [];
    var one := OpSpec(reading, root, env, St(f, issued, op.fuse), op.op);
    assert PatchesSpec(reading, root, env, one.st.f, one.st.issued, []) == Report(one.st.f, one.st.issued, []);
    if a == [] {
      assert a + b == b;
      assert PatchesSpec(reading, root, env, f, issued, a) == Report(f, issued, []);
      var second := PatchesSpec(reading, root, env, f, issued, b);
      assert [] + second.events == second.events;
    } else {
      assert (a + b)[0] == a[0] && (a + b)[1..] == a[1..] + b;
      var first := OpSpec(reading, root, env, St(f, issued, a[0].fuse), a[0].op);
      PatchesInOrder(reading, root, env, first.st.f, first.st.issued, op, a[1..], b);
      var rest := PatchesSpec(reading, root, env, first.st.f, first.st.issued, a[1..]);
      var second := PatchesSpec(reading, root, env, rest.f, rest.issued, b);
      assert [EventOf(first.r)] + (rest.events + second.events) == ([EventOf(first.r)] + rest.events) + second.events;
    }
  }

  // ---------------------------------------------------------------- results

  /** The `success` setting changes results and nothing else; failures and panics stay what they are. */
  lemma SuccessMeaning(reading: Reading, root: Id, env: Env, st: St, op: PatchOp)
    ensures var own, out := WorkerSpec(reading, root, env, st, op), OpSpec(reading, root, env, st, op);
            && out.st == own.st && (own.r.Raised? <==> out.r.Raised?) && (own.r.Panicked? <==> out.r.Panicked?)
            && (out.r == Done(true) <==>
                own.r.Done?
                  && (op.success.Always? || (op.success.Normal? && own.r.ok) || (op.success.Invert? && !own.r.ok)))
  {
  }

  /** What the expression of an operation finds, and where the evaluation leaves the fuse. */
  ghost predicate Finds(reading: Reading, root: Id, st: St, xpath: Option<XPath>, found: Found, st': St) {
    && found == SelectSpec(reading, root, st.f, xpath)
    && st.fuse != 0 && st' == St(st.f, st.issued, if st.fuse < 0 then st.fuse else st.fuse - 1)
  }

  /** Operations without steps of their own. */
  lemma PlainMeaning(reading: Reading, root: Id, env: Env, st: St, op: PatchOp, found: Found, st': St)
    ensures var out, k := WorkerSpec(reading, root, env, st, op), op.kind;
            && (k.Base? || k.Unknown? || (k.Setting? && k.setting.None?) ==> out == Out(st, Done(false)))
            && ((k.Edit? && !Ready(k.leaf)) || (k.Sequence? && !k.given) ==> out == Out(st, Raised))
            && (st.fuse == 0 && ((k.Edit? && Ready(k.leaf)) || k.Test? || k.Conditional?) ==> out == Out(st, Panicked))
            && (k.Test? && Finds(reading, root, st, k.xpath, found, st') ==>
                out == Out(st', if found.EvalError? then Raised else Done(|found.nodes| > 0)))
            && (k.Edit? && Ready(k.leaf) && Finds(reading, root, st, k.xpath, found, st') ==>
                out == if found.EvalError? then Out(st', Raised) else LeafSpec(env, k.leaf, st', found.nodes))
            && (k.Conditional? && Finds(reading, root, st, k.xpath, found, st') && found.EvalError? ==>
                out == Out(st', Raised))
            && (k.Sequence? && k.given ==> out == SequenceSpec(reading, root, env, st, k.operations))
  {
  }

  /** A conditional whose expression, mods or setting decide for `yes` runs that branch; a branch that is not
      there makes the result say whether the other one is, and always true for `FindMod`. */
  lemma BranchMeaning(reading: Reading, root: Id, env: Env, st: St, op: PatchOp, found: Found, st': St, yes: bool)
    requires var k := op.kind;
             || (k.Conditional? && Finds(reading, root, st, k.xpath, found, st') && found.Found?
               && yes == (|found.nodes| > 0))
             || (k.FindMod? && st' == st && yes == exists m :: m in k.mods && m in env.modNames)
             || (k.Setting? && st' == st && k.setting == Some(yes))
    ensures var out, k := WorkerSpec(reading, root, env, st, op), op.kind;
            && (yes && k.onMatch.Some? ==> out == OpSpec(reading, root, env, st', k.onMatch.value))
            && (!yes && k.onNomatch.Some? ==> out == OpSpec(reading, root, env, st', k.onNomatch.value))
            && (yes && k.onMatch.None? ==> out == Out(st', Done(k.FindMod? || k.onNomatch.Some?)))
            && (!yes && k.onNomatch.None? ==> out == Out(st', Done(k.FindMod? || k.onMatch.Some?)))
  {
    if op.kind.FindMod? {
      var mods := op.kind.mods;
      assert (exists m :: m in mods && m in env.modNames) <==> exists i :: 0 <= i < |mods| && mods[i] in env.modNames;
    }
  }

  /** The definitions a planned expression starts from, as a list in document order. */
  ghost predicate Starts(reading: Reading, root: Id, f: Forest, keys: seq<DefKey>, s: seq<Id>) {
    InOrder(f, s) && forall x :: x in s <==>
      match reading
      case GameReading => Selected(f, Children(f, DOC), keys, x)
      case RootReading => x in Children(f, root) && KeyedBy(f, x, keys)
  }

  /** The nodes of these definitions, or what the remaining steps make of them. */
  function After(rest: Option<(Forest, seq<Id>) -> Found>, f: Forest, s: seq<Id>): Found {
    match rest
    case None => Found(seq(|s|, i requires 0 <= i < |s| => XNode(s[i])))
    case Some(steps) => steps(f, s)
  }

  /** What an expression finds, the definitions being `all` in the document and `below` those of the root. */
  ghost predicate Selects(reading: Reading, root: Id, f: Forest, xpath: Option<XPath>, all: seq<Id>, below: seq<Id>,
                          found: Found)
  {
    match xpath
    case None => found == EvalError
    case Some(Malformed) => found == EvalError
    case Some(General(eval)) => found == eval(f)
    case Some(Planned(keys, rest)) =>
      && Starts(GameReading, root, f, keys, all) && Starts(RootReading, root, f, keys, below)
      && var quick := After(rest, f, below);
         found == if reading.RootReading? && FirstNamed(f, Children(f, DOC), None, root)
                     && !(quick.Found? && exists n :: n in quick.nodes && n.XAttr?)
                  then quick else After(rest, f, all)
  }

  /** The game enters every `Defs` of the document; the engine looks below its root while that is the document
      element, and asks again from the document when it finds attributes. */
  lemma SelectMeaning(reading: Reading, root: Id, f: Forest, xpath: Option<XPath>)
    returns (all: seq<Id>, below: seq<Id>)
    requires Distinct(f)
    ensures Selects(reading, root, f, xpath, all, below, SelectSpec(reading, root, f, xpath))
  {
    all, below := [], [];
    if xpath.Some? && xpath.value.Planned? {
      var keys, rest := xpath.value.keys, xpath.value.rest;
      all, below := ScanDocument(KidsOf(f, DOC), keys), ScanDefs(KidsOf(f, root), keys);
      ScanMeaning(f, root, keys, DOC);
      forall x ensures x in all <==> Selected(f, Children(f, DOC), keys, x) { ScanMeaning(f, root, keys, x); }
      forall x ensures x in below <==> x in Children(f, root) && KeyedBy(f, x, keys) { ScanMeaning(f, root, keys, x); }
      UsableMeaning(f, root);
      assert Finish(f, all, rest) == After(rest, f, all);
      assert Finish(f, below, rest) == After(rest, f, below);
    }
  }

  // ---------------------------------------------------------------- freeing

  /** What is freed are the roots of the list, with their trees; the other trees stay as they are. */
  lemma {:induction false} FreeMeaning(f: Forest, nodes: seq<Id>)
    requires Distinct(f)
    ensures var f' := FreeSpec(f, nodes);
            && Distinct(f')
            && (forall r :: r in LevelList(f') <==> r in LevelList(f) && (r == DOC || r !in nodes))
            && (forall r :: r in LevelList(f') ==> At(f', r) == At(f, r))
    decreases |nodes|
  {
    if nodes != [] {
      var n, rest := nodes[0], nodes[1..];
      var f1 := if n in Level(f) && n != DOC then ReplaceAt(f, n, Nil) else f;
      LevelListFacts(f);
      if n in Level(f) && n != DOC { FreedOne(f, n); }
      FreeMeaning(f1, rest);
      assert forall r :: r in nodes <==> r == n || r in rest;
    }
  }

  lemma {:induction false} FreedOne(f: Forest, n: Id)
    requires Distinct(f) && n in Level(f)
    ensures var f' := ReplaceAt(f, n, Nil);
            && Distinct(f')
            && (forall r :: r in LevelList(f') <==> r in LevelList(f) && r != n)
            && (forall r :: r in LevelList(f') ==> At(f', r) == At(f, r))
  {
    var f' := ReplaceAt(f, n, Nil);
    ReplaceAtFacts(f, n, Nil);
    LevelListFacts(f);
    LevelListFacts(f');
    forall r ensures LevelAt(f', r) == if r == n then Nil else LevelAt(f, r) { FreedLevel(f, n, r); }
    forall r ensures r in Level(f') <==> r in Level(f) && r != n { LevelAtFacts(f', r); LevelAtFacts(f, r); }
    forall r | r in Level(f') ensures At(f', r) == At(f, r) { AtOfRoot(f', r); AtOfRoot(f, r); }
  }

  lemma {:induction false} FreedLevel(f: Forest, n: Id, r: Id)
    requires Distinct(f) && n in Level(f)
    ensures LevelAt(ReplaceAt(f, n, Nil), r) == if r == n then Nil else LevelAt(f, r)
    decreases f
  {
    LevelAtFacts(f.next, r);
    LevelAtFacts(f.next, n);
    if f.id != n { FreedLevel(f.next, n, r); }
  }

  // ---------------------------------------------------------------- panics

  /** How an edit with `fuse` moments left relates to the one without a panic: it changes nothing, or panics
      just before the edit, or just after it, or goes on. */
  ghost predicate PanicsAt(c: Cur, calm: Flow, flow: Flow) {
    var fuse := c.st.fuse;
    || (calm.c.st == c.st.(fuse := -1)
        && flow == if calm.Go? then Go(calm.c.(st := c.st)) else Stop(calm.c.(st := c.st), calm.r))
    || (fuse == 0 && flow == Stop(c, Panicked))
    || (fuse == 1 && flow == Stop(c.(st := calm.c.st.(fuse := 0)), Panicked))
    || (fuse >= 2 && flow == Go(calm.c.(st := calm.c.st.(fuse := fuse - 2))))
  }

  lemma PanicPlaces(env: Env, leaf: Leaf, c: Cur, target: XNode)
    requires Ready(leaf) && !leaf.AddModExtension? && c.st.fuse >= 0
    ensures PanicsAt(c, TargetSpec(env, leaf, c.(st := c.st.(fuse := -1)), target), TargetSpec(env, leaf, c, target))
  {
    if leaf.Add? || leaf.Attribute? {
      PanicsInPlace(env, leaf, c, target);
    } else {
      PanicsBeside(env, leaf, c, target);
    }
  }

  lemma PanicsInPlace(env: Env, leaf: Leaf, c: Cur, target: XNode)
    requires Ready(leaf) && (leaf.Add? || leaf.Attribute?) && c.st.fuse >= 0
    ensures PanicsAt(c, TargetSpec(env, leaf, c.(st := c.st.(fuse := -1)), target), TargetSpec(env, leaf, c, target))
  {
  }

  lemma PanicsBeside(env: Env, leaf: Leaf, c: Cur, target: XNode)
    requires Ready(leaf) && (leaf.Insert? || leaf.Replace? || leaf.Remove? || leaf.SetName?) && c.st.fuse >= 0
    ensures PanicsAt(c, TargetSpec(env, leaf, c.(st := c.st.(fuse := -1)), target), TargetSpec(env, leaf, c, target))
  {
  }
}
