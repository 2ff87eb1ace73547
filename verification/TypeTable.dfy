/** The def types of the game assemblies: which types derive from the root, whatever the base links
    look like. */
module TypeTable {
  import opened Wrappers

  datatype TypeDef = TypeDef(fullName: string, base: Option<string>, isAbstract: bool)

  datatype Assembly = Assembly(name: string, types: seq<TypeDef>)

  datatype Entry = Entry(assembly: string, ty: TypeDef)

  datatype TypeInfo = TypeInfo(base: Option<string>, isAbstract: bool, assembly: string)

  // ---------------------------------------------------------------- base chains

  function Base(defs: map<string, Entry>, n: string): Option<string> {
    if n in defs then defs[n].ty.base else None
  }

  /** The `k`-th base above `n`. */
  function Up(defs: map<string, Entry>, n: string, k: nat): Option<string>
    decreases k
  {
    if k == 0 then Some(n)
    else match Base(defs, n)
         case None => None
         case Some(b) => Up(defs, b, k - 1)
  }

  /** The root is `n` itself or one of its bases at any distance. */
  ghost predicate Reaches(defs: map<string, Entry>, n: string, root: string) {
    exists k: nat :: Up(defs, n, k) == Some(root)
  }

  lemma ReachesStep(defs: map<string, Entry>, n: string, root: string)
    ensures Reaches(defs, n, root) <==> n == root || (Base(defs, n).Some? && Reaches(defs, Base(defs, n).value, root))
  {
    if Reaches(defs, n, root) {
      var k: nat :| Up(defs, n, k) == Some(root);
      if k > 0 { assert Up(defs, Base(defs, n).value, k - 1) == Some(root); }
    }
    if n == root { assert Up(defs, n, 0) == Some(root); }
    if Base(defs, n).Some? && Reaches(defs, Base(defs, n).value, root) {
      var k: nat :| Up(defs, Base(defs, n).value, k) == Some(root);
      assert Up(defs, n, k + 1) == Some(root);
    }
  }

  /** Names whose bases stay among them and leave out the root never reach it: a cycle answers no. */
  lemma {:induction false} ClosedStays(defs: map<string, Entry>, names: set<string>, n: string, root: string, k: nat)
    requires n in names && root !in names
    requires forall x :: x in names ==> Base(defs, x).Some? && Base(defs, x).value in names
    ensures Up(defs, n, k) != Some(root)
    decreases k
  {
    if k > 0 { ClosedStays(defs, names, Base(defs, n).value, root, k - 1); }
  }

  // ---------------------------------------------------------------- memoised search

  ghost predicate MemoOk(defs: map<string, Entry>, root: string, memo: map<string, bool>) {
    forall n :: n in memo ==> (memo[n] <==> Reaches(defs, n, root))
  }

  /** A walk up the bases: each name is the base of the one before, none twice, none the root. */
  ghost predicate Walk(defs: map<string, Entry>, root: string, chain: seq<string>, current: Option<string>) {
    && (forall i :: 0 <= i < |chain| ==> chain[i] != root)
    && (forall i :: 0 <= i < |chain| ==> Linked(defs, chain, current, i))
  }

  ghost predicate Linked(defs: map<string, Entry>, chain: seq<string>, current: Option<string>, i: nat)
    requires i < |chain|
  {
    Base(defs, chain[i]) == if i + 1 < |chain| then Some(chain[i + 1]) else current
  }

  lemma WalkOn(defs: map<string, Entry>, root: string, chain: seq<string>, n: string)
    requires Walk(defs, root, chain, Some(n)) && n != root
    ensures Walk(defs, root, chain + [n], Base(defs, n))
  {
    var chain' := chain + [n];
    forall i | 0 <= i < |chain'| ensures Linked(defs, chain', Base(defs, n), i) {
      if i < |chain| { assert Linked(defs, chain, Some(n), i); }
    }
  }

  lemma {:induction false} WalkAnswers(defs: map<string, Entry>, root: string, chain: seq<string>,
                                       current: Option<string>, i: nat)
    requires Walk(defs, root, chain, current) && i < |chain|
    ensures Reaches(defs, chain[i], root) <==> current.Some? && Reaches(defs, current.value, root)
    decreases |chain| - i
  {
    ReachesStep(defs, chain[i], root);
    assert chain[i] != root && Linked(defs, chain, current, i);
    if i + 1 < |chain| { WalkAnswers(defs, root, chain, current, i + 1); }
  }

  lemma CycleAnswersNo(defs: map<string, Entry>, root: string, chain: seq<string>, n: string)
    requires Walk(defs, root, chain, Some(n)) && n in chain
    ensures !Reaches(defs, n, root)
  {
    var names := set x | x in chain;
    forall x | x in names ensures Base(defs, x).Some? && Base(defs, x).value in names {
      var i :| 0 <= i < |chain| && chain[i] == x;
      assert Linked(defs, chain, Some(n), i);
      if i + 1 < |chain| { assert chain[i + 1] in chain; }
    }
    assert root !in names;
    if Reaches(defs, n, root) {
      var k: nat :| Up(defs, n, k) == Some(root);
      ClosedStays(defs, names, n, root, k);
    }
  }

  /** Every name a walk from `name` can meet. */
  ghost function Universe(defs: map<string, Entry>, name: string): set<string> {
    {name} + set n | n in defs && defs[n].ty.base.Some? :: defs[n].ty.base.value
  }

  /** How far the walk up from `name` is. */
  ghost predicate Walking(defs: map<string, Entry>, root: string, name: string, chain: seq<string>, seen: set<string>,
                          current: Option<string>)
  {
    && seen == (set x | x in chain)
    && Walk(defs, root, chain, current)
    && (current.Some? ==> current.value in Universe(defs, name))
    && seen <= Universe(defs, name)
    && (if chain == [] then current == Some(name) else chain[0] == name)
  }

  lemma WalkingOn(defs: map<string, Entry>, root: string, name: string, chain: seq<string>, seen: set<string>,
                  n: string)
    requires Walking(defs, root, name, chain, seen, Some(n)) && n !in seen
    ensures |Universe(defs, name) - (seen + {n})| < |Universe(defs, name) - seen|
    ensures n != root ==> Walking(defs, root, name, chain + [n], seen + {n}, Base(defs, n))
  {
    assert n in Universe(defs, name) - seen;
    Smaller(Universe(defs, name) - (seen + {n}), Universe(defs, name) - seen);
    if n != root { WalkOn(defs, root, chain, n); }
  }

  lemma AtRoot(defs: map<string, Entry>, root: string, name: string, chain: seq<string>, seen: set<string>)
    requires Walking(defs, root, name, chain, seen, Some(root))
    ensures Answered(defs, root, chain + [root], true) && name in chain + [root]
  {
    ReachesStep(defs, root, root);
    AllAnswered(defs, root, chain, Some(root), true);
    assert chain != [] ==> (chain + [root])[0] == name;
  }

  /** The walk ends before the root: a remembered answer, a name met again, or no base. */
  lemma Ended(defs: map<string, Entry>, root: string, name: string, chain: seq<string>, seen: set<string>,
              current: Option<string>, answer: bool)
    requires Walking(defs, root, name, chain, seen, current)
    requires match current
             case None => !answer
             case Some(n) => (answer ==> Reaches(defs, n, root)) && (Reaches(defs, n, root) ==> answer || n in seen)
    ensures Answered(defs, root, chain, answer) && (chain == [] ==> current == Some(name))
            && (chain != [] ==> name in chain)
  {
    if current.Some? && current.value in seen { CycleAnswersNo(defs, root, chain, current.value); }
    AllAnswered(defs, root, chain, current, answer);
  }

  /** True exactly when `name` is the root or has it among its bases; cycles and missing links answer
      no, and every answer given on the way is remembered. */
  method DerivesFrom(name: string, root: string, defs: map<string, Entry>, memo: map<string, bool>)
    returns (answer: bool, memo': map<string, bool>)
    requires MemoOk(defs, root, memo)
    ensures answer <==> Reaches(defs, name, root)
    ensures MemoOk(defs, root, memo')
    ensures memo.Keys <= memo'.Keys && name in memo'
  {
    var chain: seq<string> := [];
    var seen: set<string> := {};
    var current := Some(name);
    answer := false;
    while current.Some?
      invariant Walking(defs, root, name, chain, seen, current)
      invariant !answer
      decreases |Universe(defs, name) - seen|
    {
      var n := current.value;
      if n in memo {
        answer := memo[n];
        Ended(defs, root, name, chain, seen, current, answer);
        break;
      }
      if n in seen {
        Ended(defs, root, name, chain, seen, current, answer);
        break;
      }
      WalkingOn(defs, root, name, chain, seen, n);
      if n == root { AtRoot(defs, root, name, chain, seen); }
      seen := seen + {n};
      chain := chain + [n];
      if n == root {
        answer := true;
        break;
      }
      current := Base(defs, n);
    }
    if current.None? { Ended(defs, root, name, chain, seen, current, answer); }
    memo' := Remember(defs, root, memo, chain, answer);
  }

  ghost predicate Answered(defs: map<string, Entry>, root: string, chain: seq<string>, answer: bool) {
    forall i :: 0 <= i < |chain| ==> (Reaches(defs, chain[i], root) <==> answer)
  }

  lemma AllAnswered(defs: map<string, Entry>, root: string, chain: seq<string>, current: Option<string>, answer: bool)
    requires Walk(defs, root, chain, current)
    requires answer <==> current.Some? && Reaches(defs, current.value, root)
    ensures Answered(defs, root, chain, answer)
  {
    forall i | 0 <= i < |chain| ensures Reaches(defs, chain[i], root) <==> answer {
      WalkAnswers(defs, root, chain, current, i);
    }
  }

  lemma Smaller(a: set<string>, b: set<string>)
    requires a < b
    ensures |a| < |b|
  {
    var x :| x in b && x !in a;
    assert b == a + (b - a) && x in b - a;
  }

  method Remember(defs: map<string, Entry>, root: string, memo: map<string, bool>, chain: seq<string>, answer: bool)
    returns (memo': map<string, bool>)
    requires MemoOk(defs, root, memo)
    requires Answered(defs, root, chain, answer)
    ensures MemoOk(defs, root, memo')
    ensures memo.Keys <= memo'.Keys && forall i :: 0 <= i < |chain| ==> chain[i] in memo'
  {
    memo' := memo;
    for k := 0 to |chain|
      invariant MemoOk(defs, root, memo') && memo.Keys <= memo'.Keys
      invariant forall i :: 0 <= i < k ==> chain[i] in memo'
    {
      memo' := memo'[chain[k] := answer];
    }
  }

  // ---------------------------------------------------------------- the table

  /** All definitions in load order. */
  function Declared(assemblies: seq<Assembly>): seq<Entry>
    decreases |assemblies|
  {
    if assemblies == [] then []
    else
      var n := |assemblies| - 1;
      var a := assemblies[n];
      Declared(assemblies[..n]) + EntriesOf(a, |a.types|)
  }

  function EntriesOf(a: Assembly, n: nat): seq<Entry>
    requires n <= |a.types|
  {
    if n == 0 then [] else EntriesOf(a, n - 1) + [Entry(a.name, a.types[n - 1])]
  }

  predicate Names(entries: seq<Entry>, name: string) {
    exists k :: 0 <= k < |entries| && entries[k].ty.fullName == name
  }

  /** The last definition of a name: the later assembly wins. */
  function Winner(entries: seq<Entry>, name: string): Entry
    requires Names(entries, name)
    decreases |entries|
  {
    var n := |entries| - 1;
    if entries[n].ty.fullName == name then entries[n] else Winner(entries[..n], name)
  }

  /** Each name once, where it was first defined. */
  function FirstNames(entries: seq<Entry>): seq<string>
    decreases |entries|
  {
    if entries == [] then []
    else
      var n := |entries| - 1;
      var name := entries[n].ty.fullName;
      FirstNames(entries[..n]) + (if Names(entries[..n], name) then [] else [name])
  }

  ghost function Kept(defs: map<string, Entry>, root: string, order: seq<string>): seq<string>
    decreases |order|
  {
    if order == [] then []
    else
      var n := |order| - 1;
      Kept(defs, root, order[..n]) + (if Reaches(defs, order[n], root) then [order[n]] else [])
  }

  ghost predicate DefsOf(entries: seq<Entry>, defs: map<string, Entry>) {
    && (forall name :: name in defs <==> Names(entries, name))
    && (forall name :: name in defs ==> defs[name] == Winner(entries, name))
  }

  lemma NamesSplit(entries: seq<Entry>, e: Entry, name: string)
    ensures Names(entries + [e], name) <==> Names(entries, name) || e.ty.fullName == name
  {
    var all := entries + [e];
    if k :| 0 <= k < |all| && all[k].ty.fullName == name { assert k < |entries| ==> entries[k] == all[k]; }
    if k :| 0 <= k < |entries| && entries[k].ty.fullName == name { assert all[k] == entries[k]; }
    assert all[|entries|] == e;
  }

  lemma DefsGrow(entries: seq<Entry>, e: Entry, defs: map<string, Entry>)
    requires DefsOf(entries, defs)
    ensures DefsOf(entries + [e], defs[e.ty.fullName := e])
    ensures FirstNames(entries + [e]) == FirstNames(entries) + (if e.ty.fullName in defs then [] else [e.ty.fullName])
  {
    assert (entries + [e])[..|entries|] == entries;
    forall name ensures Names(entries + [e], name) <==> Names(entries, name) || e.ty.fullName == name {
      NamesSplit(entries, e, name);
    }
  }

  /** The definitions: for each name the last one, and the names in the order they first appear. */
  method CollectDefs(assemblies: seq<Assembly>) returns (defs: map<string, Entry>, order: seq<string>)
    ensures DefsOf(Declared(assemblies), defs) && order == FirstNames(Declared(assemblies))
  {
    defs, order := map[], [];
    for a := 0 to |assemblies|
      invariant DefsOf(Declared(assemblies[..a]), defs) && order == FirstNames(Declared(assemblies[..a]))
    {
      assert assemblies[..a + 1][..a] == assemblies[..a];
      defs, order := CollectTypes(assemblies[a], defs, order, Declared(assemblies[..a]));
    }
    assert assemblies[..|assemblies|] == assemblies;
  }

  /** The types of one assembly, in metadata order. */
  method CollectTypes(asm: Assembly, defs: map<string, Entry>, order: seq<string>, ghost before: seq<Entry>)
    returns (defs': map<string, Entry>, order': seq<string>)
    requires DefsOf(before, defs) && order == FirstNames(before)
    ensures DefsOf(before + EntriesOf(asm, |asm.types|), defs')
            && order' == FirstNames(before + EntriesOf(asm, |asm.types|))
  {
    defs', order' := defs, order;
    ghost var done := before;
    assert before + [] == before;
    for i := 0 to |asm.types|
      invariant done == before + EntriesOf(asm, i)
      invariant DefsOf(done, defs') && order' == FirstNames(done)
    {
      var e := Entry(asm.name, asm.types[i]);
      DefsGrow(done, e, defs');
      if e.ty.fullName !in defs' {
        order' := order' + [e.ty.fullName];
      }
      defs' := defs'[e.ty.fullName := e];
      done := done + [e];
    }
  }

  function InfoOf(e: Entry): TypeInfo { TypeInfo(e.ty.base, e.ty.isAbstract, e.assembly) }

  lemma {:induction false} FirstNamesFacts(entries: seq<Entry>)
    ensures forall name :: name in FirstNames(entries) <==> Names(entries, name)
    ensures NoDup(FirstNames(entries))
    decreases |entries|
  {
    if entries != [] {
      var n := |entries| - 1;
      FirstNamesFacts(entries[..n]);
      assert entries == entries[..n] + [entries[n]];
      forall name ensures Names(entries, name) <==> Names(entries[..n], name) || entries[n].ty.fullName == name {
        NamesSplit(entries[..n], entries[n], name);
      }
    }
  }

  lemma {:induction false} KeptFacts(defs: map<string, Entry>, root: string, order: seq<string>)
    requires NoDup(order)
    ensures forall name :: name in Kept(defs, root, order) <==> name in order && Reaches(defs, name, root)
    ensures NoDup(Kept(defs, root, order))
    decreases |order|
  {
    if order != [] {
      var n := |order| - 1;
      var before := order[..n];
      forall i, j | 0 <= i < j < n ensures before[i] != before[j] { assert order[i] != order[j]; }
      forall i | 0 <= i < n ensures before[i] != order[n] { assert order[i] != order[n]; }
      KeptFacts(defs, root, before);
      assert order == before + [order[n]];
      assert order[n] !in Kept(defs, root, before);
    }
  }

  /** The kept names in order, each with the data of its definition. */
  ghost predicate TableOf(entries: seq<Entry>, root: string, types: seq<(string, TypeInfo)>, defs: map<string, Entry>) {
    && DefsOf(entries, defs)
    && |types| == |Kept(defs, root, FirstNames(entries))|
    && forall i :: 0 <= i < |types| ==>
         && types[i].0 == Kept(defs, root, FirstNames(entries))[i]
         && types[i].0 in defs && types[i].1 == InfoOf(defs[types[i].0])
  }

  /** The table: exactly the defined types that derive from the root, each once, in the order of first
      definition, with the data of the last. */
  method BuildTypeTable(assemblies: seq<Assembly>, root: string)
    returns (types: seq<(string, TypeInfo)>, ghost defs: map<string, Entry>)
    ensures TableOf(Declared(assemblies), root, types, defs)
    ensures forall i, j :: 0 <= i < j < |types| ==> types[i].0 != types[j].0
    ensures forall name :: (exists i :: 0 <= i < |types| && types[i].0 == name)
                      <==> Names(Declared(assemblies), name) && Reaches(defs, name, root)
  {
    var found, order := CollectDefs(assemblies);
    defs := found;
    FirstNamesFacts(Declared(assemblies));
    KeptFacts(found, root, order);
    types := SelectTypes(found, order, root);
    ghost var kept := Kept(found, root, order);
    forall name ensures (exists i :: 0 <= i < |types| && types[i].0 == name) <==> name in kept {
      if name in kept { var i :| 0 <= i < |kept| && kept[i] == name; assert types[i].0 == name; }
    }
  }

  method SelectTypes(defs: map<string, Entry>, order: seq<string>, root: string)
    returns (types: seq<(string, TypeInfo)>)
    requires forall i :: 0 <= i < |order| ==> order[i] in defs
    ensures |types| == |Kept(defs, root, order)|
    ensures forall i :: 0 <= i < |types| ==>
              types[i].0 == Kept(defs, root, order)[i] && types[i].0 in defs && types[i].1 == InfoOf(defs[types[i].0])
  {
    types := [];
    var memo: map<string, bool> := map[];
    for k := 0 to |order|
      invariant MemoOk(defs, root, memo)
      invariant |types| == |Kept(defs, root, order[..k])|
      invariant forall i :: 0 <= i < |types| ==>
                  types[i].0 == Kept(defs, root, order[..k])[i] && types[i].0 in defs
                    && types[i].1 == InfoOf(defs[types[i].0])
    {
      assert order[..k + 1][..k] == order[..k];
      var derives;
      derives, memo := DerivesFrom(order[k], root, defs, memo);
      if derives {
        types := types + [(order[k], InfoOf(defs[order[k]]))];
      }
    }
    assert order[..|order|] == order;
  }
}
