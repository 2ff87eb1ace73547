/** The type table told by where types are defined: in which assembly, and where in it. */
module TypeMeaning {
  import opened Wrappers
  import opened TypeTable

  // ---------------------------------------------------------------- the statements

  /** A definition: the assembly in load order, and the place in it. */
  datatype Where = Where(asm: nat, ty: nat)

  predicate Defined(assemblies: seq<Assembly>, w: Where) { w.asm < |assemblies| && w.ty < |assemblies[w.asm].types| }

  function TypeAt(assemblies: seq<Assembly>, w: Where): TypeDef
    requires Defined(assemblies, w)
  {
    assemblies[w.asm].types[w.ty]
  }

  predicate Sooner(v: Where, w: Where) { v.asm < w.asm || (v.asm == w.asm && v.ty < w.ty) }

  predicate Named(assemblies: seq<Assembly>, w: Where, name: string) {
    Defined(assemblies, w) && TypeAt(assemblies, w).fullName == name
  }

  ghost predicate FirstOf(assemblies: seq<Assembly>, w: Where, name: string) {
    Named(assemblies, w, name) && forall v :: Named(assemblies, v, name) ==> v == w || Sooner(w, v)
  }

  ghost predicate LastOf(assemblies: seq<Assembly>, w: Where, name: string) {
    Named(assemblies, w, name) && forall v :: Named(assemblies, v, name) ==> v == w || Sooner(v, w)
  }

  /** The last definition of `n` has the base `b`. */
  ghost predicate BasedOn(assemblies: seq<Assembly>, n: string, b: string) {
    exists w :: LastOf(assemblies, w, n) && TypeAt(assemblies, w).base == Some(b)
  }

  /** A chain of bases from `n` to the root. */
  ghost predicate Chain(assemblies: seq<Assembly>, names: seq<string>, n: string, root: string) {
    && |names| > 0 && names[0] == n && names[|names| - 1] == root
    && forall i :: 0 <= i < |names| - 1 ==> BasedOn(assemblies, names[i], names[i + 1])
  }

  ghost predicate Derives(assemblies: seq<Assembly>, n: string, root: string) {
    exists names :: Chain(assemblies, names, n, root)
  }

  // ---------------------------------------------------------------- places in the list of all definitions

  function Start(assemblies: seq<Assembly>, a: nat): nat
    requires a <= |assemblies|
  {
    |Declared(assemblies[..a])|
  }

  lemma {:induction false} EntriesAt(a: Assembly, n: nat)
    requires n <= |a.types|
    ensures |EntriesOf(a, n)| == n && forall t :: 0 <= t < n ==> EntriesOf(a, n)[t] == Entry(a.name, a.types[t])
  {
    if n > 0 { EntriesAt(a, n - 1); }
  }

  lemma NextStart(assemblies: seq<Assembly>, a: nat)
    requires a < |assemblies|
    ensures Declared(assemblies[..a + 1]) == Declared(assemblies[..a]) + EntriesOf(assemblies[a], |assemblies[a].types|)
    ensures Start(assemblies, a + 1) == Start(assemblies, a) + |assemblies[a].types|
  {
    assert assemblies[..a + 1][..a] == assemblies[..a];
    EntriesAt(assemblies[a], |assemblies[a].types|);
  }

  lemma {:induction false} StartsGrow(assemblies: seq<Assembly>, a: nat, b: nat)
    requires a <= b <= |assemblies|
    ensures Start(assemblies, a) <= Start(assemblies, b) && Declared(assemblies[..a]) <= Declared(assemblies[..b])
    decreases b
  {
    if a < b {
      StartsGrow(assemblies, a, b - 1);
      NextStart(assemblies, b - 1);
    }
  }

  /** The definition `w` stands in the list at this place. */
  function Place(assemblies: seq<Assembly>, w: Where): nat
    requires Defined(assemblies, w)
  {
    Start(assemblies, w.asm) + w.ty
  }

  lemma PlaceFacts(assemblies: seq<Assembly>, w: Where)
    requires Defined(assemblies, w)
    ensures Place(assemblies, w) < |Declared(assemblies)|
    ensures Declared(assemblies)[Place(assemblies, w)] == Entry(assemblies[w.asm].name, TypeAt(assemblies, w))
  {
    NextStart(assemblies, w.asm);
    EntriesAt(assemblies[w.asm], |assemblies[w.asm].types|);
    StartsGrow(assemblies, w.asm + 1, |assemblies|);
    assert assemblies[..|assemblies|] == assemblies;
    var upTo := Declared(assemblies[..w.asm + 1]);
    assert upTo[Place(assemblies, w)] == EntriesOf(assemblies[w.asm], |assemblies[w.asm].types|)[w.ty];
  }

  lemma PlacesOrdered(assemblies: seq<Assembly>, v: Where, w: Where)
    requires Defined(assemblies, v) && Defined(assemblies, w)
    ensures Sooner(v, w) <==> Place(assemblies, v) < Place(assemblies, w)
  {
    if v.asm < w.asm { NextStart(assemblies, v.asm); StartsGrow(assemblies, v.asm + 1, w.asm); }
    if w.asm < v.asm { NextStart(assemblies, w.asm); StartsGrow(assemblies, w.asm + 1, v.asm); }
  }

  lemma {:induction false} WhereIs(assemblies: seq<Assembly>, a: nat, k: nat) returns (w: Where)
    requires a <= |assemblies| && k < Start(assemblies, a)
    ensures Defined(assemblies, w) && Place(assemblies, w) == k
    decreases a
  {
    w := Where(0, 0);
    if a == 0 {
      assert false;
    } else {
      NextStart(assemblies, a - 1);
      if k < Start(assemblies, a - 1) {
        w := WhereIs(assemblies, a - 1, k);
      } else {
        w := Where(a - 1, k - Start(assemblies, a - 1));
      }
    }
  }

  lemma At(assemblies: seq<Assembly>, k: nat) returns (w: Where)
    requires k < |Declared(assemblies)|
    ensures Defined(assemblies, w) && Place(assemblies, w) == k
    ensures Declared(assemblies)[k] == Entry(assemblies[w.asm].name, TypeAt(assemblies, w))
  {
    assert assemblies[..|assemblies|] == assemblies;
    w := WhereIs(assemblies, |assemblies|, k);
    PlaceFacts(assemblies, w);
  }

  // ---------------------------------------------------------------- first and last definitions

  lemma {:induction false} WinnerAt(entries: seq<Entry>, name: string) returns (k: nat)
    requires Names(entries, name)
    ensures k < |entries| && Winner(entries, name) == entries[k] && entries[k].ty.fullName == name
    ensures forall l :: k < l < |entries| ==> entries[l].ty.fullName != name
    decreases |entries|
  {
    var n := |entries| - 1;
    k := n;
    if entries[n].ty.fullName != name {
      var j :| 0 <= j < |entries| && entries[j].ty.fullName == name;
      assert entries[..n][j].ty.fullName == name;
      k := WinnerAt(entries[..n], name);
      forall l | k < l < |entries| ensures entries[l].ty.fullName != name {
        if l < n { assert entries[..n][l] == entries[l]; }
      }
    }
  }

  /** The definition that counts is the last one. */
  lemma WinnerIsLast(assemblies: seq<Assembly>, name: string) returns (w: Where)
    requires Names(Declared(assemblies), name)
    ensures LastOf(assemblies, w, name)
    ensures Winner(Declared(assemblies), name) == Entry(assemblies[w.asm].name, TypeAt(assemblies, w))
  {
    var k := WinnerAt(Declared(assemblies), name);
    w := At(assemblies, k);
    forall v | Named(assemblies, v, name) ensures v == w || Sooner(v, w) {
      PlaceFacts(assemblies, v);
      PlacesOrdered(assemblies, v, w);
      PlacesOrdered(assemblies, w, v);
    }
  }

  lemma NamesMeaning(assemblies: seq<Assembly>, name: string)
    ensures Names(Declared(assemblies), name) <==> exists w :: Named(assemblies, w, name)
  {
    if Names(Declared(assemblies), name) {
      var k :| 0 <= k < |Declared(assemblies)| && Declared(assemblies)[k].ty.fullName == name;
      var w := At(assemblies, k);
      assert Named(assemblies, w, name);
    }
    if w :| Named(assemblies, w, name) { PlaceFacts(assemblies, w); }
  }

  ghost predicate FirstAt(entries: seq<Entry>, name: string, k: nat) {
    k < |entries| && entries[k].ty.fullName == name && !Names(entries[..k], name)
  }

  lemma FirstAtMore(entries: seq<Entry>, n: nat, name: string, k: nat)
    requires n <= |entries| && FirstAt(entries[..n], name, k)
    ensures FirstAt(entries, name, k) && k < n
  {
    assert entries[..n][..k] == entries[..k];
  }

  /** Where each name of the list is first defined. */
  lemma {:induction false} FirstNamesAt(entries: seq<Entry>) returns (at: seq<nat>)
    ensures |at| == |FirstNames(entries)|
    ensures forall x :: 0 <= x < |at| ==> FirstAt(entries, FirstNames(entries)[x], at[x])
    ensures forall x, y :: 0 <= x < y < |at| ==> at[x] < at[y]
    decreases |entries|
  {
    at := [];
    if entries != [] {
      var n := |entries| - 1;
      var before := FirstNamesAt(entries[..n]);
      forall x | 0 <= x < |before| ensures FirstAt(entries, FirstNames(entries[..n])[x], before[x]) && before[x] < n {
        FirstAtMore(entries, n, FirstNames(entries[..n])[x], before[x]);
      }
      at := before + if Names(entries[..n], entries[n].ty.fullName) then [] else [n];
    }
  }

  lemma NamedBefore(entries: seq<Entry>, k: nat, l: nat)
    requires l < k <= |entries|
    ensures Names(entries[..k], entries[l].ty.fullName)
  {
    assert entries[..k][l] == entries[l];
  }

  lemma FirstPlace(assemblies: seq<Assembly>, k: nat) returns (w: Where)
    requires k < |Declared(assemblies)| && !Names(Declared(assemblies)[..k], Declared(assemblies)[k].ty.fullName)
    ensures Defined(assemblies, w) && Place(assemblies, w) == k
    ensures FirstOf(assemblies, w, Declared(assemblies)[k].ty.fullName)
  {
    w := At(assemblies, k);
    var name := Declared(assemblies)[k].ty.fullName;
    forall v | Named(assemblies, v, name) ensures v == w || Sooner(w, v) {
      PlaceFacts(assemblies, v);
      PlacesOrdered(assemblies, v, w);
      PlacesOrdered(assemblies, w, v);
      if Place(assemblies, v) < k { NamedBefore(Declared(assemblies), k, Place(assemblies, v)); }
    }
  }

  /** The kept names are some of the names, in the same order. */
  lemma {:induction false} KeptAt(defs: map<string, Entry>, root: string, order: seq<string>) returns (at: seq<nat>)
    ensures |at| == |Kept(defs, root, order)|
    ensures forall x :: 0 <= x < |at| ==> at[x] < |order| && Kept(defs, root, order)[x] == order[at[x]]
    ensures forall x, y :: 0 <= x < y < |at| ==> at[x] < at[y]
    decreases |order|
  {
    at := [];
    if order != [] {
      var n := |order| - 1;
      var before := KeptAt(defs, root, order[..n]);
      forall x | 0 <= x < |before| ensures before[x] < n && Kept(defs, root, order[..n])[x] == order[before[x]] {
        assert order[..n][before[x]] == order[before[x]];
      }
      at := before + if Reaches(defs, order[n], root) then [n] else [];
    }
  }

  // ---------------------------------------------------------------- the table

  lemma BaseMeaning(assemblies: seq<Assembly>, defs: map<string, Entry>, n: string, b: string)
    requires DefsOf(Declared(assemblies), defs)
    ensures Base(defs, n) == Some(b) <==> BasedOn(assemblies, n, b)
  {
    NamesMeaning(assemblies, n);
    if n in defs {
      var w := WinnerIsLast(assemblies, n);
      if BasedOn(assemblies, n, b) {
        var v :| LastOf(assemblies, v, n) && TypeAt(assemblies, v).base == Some(b);
        assert v == w;
      }
    }
  }

  lemma {:induction false} ChainReaches(assemblies: seq<Assembly>, defs: map<string, Entry>, names: seq<string>,
                                        n: string, root: string)
    requires DefsOf(Declared(assemblies), defs) && Chain(assemblies, names, n, root)
    ensures Reaches(defs, n, root)
    decreases |names|
  {
    ReachesStep(defs, n, root);
    if |names| > 1 {
      BaseMeaning(assemblies, defs, n, names[1]);
      assert BasedOn(assemblies, names[0], names[1]);
      var rest := names[1..];
      forall i | 0 <= i < |rest| - 1 ensures BasedOn(assemblies, rest[i], rest[i + 1]) {
        assert BasedOn(assemblies, names[i + 1], names[i + 1 + 1]);
      }
      ChainReaches(assemblies, defs, rest, names[1], root);
    }
  }

  lemma {:induction false} UpHasChain(assemblies: seq<Assembly>, defs: map<string, Entry>, n: string, root: string,
                                      k: nat)
    returns (names: seq<string>)
    requires DefsOf(Declared(assemblies), defs) && Up(defs, n, k) == Some(root)
    ensures Chain(assemblies, names, n, root)
    decreases k
  {
    names := [n];
    if k > 0 {
      var b := Base(defs, n).value;
      BaseMeaning(assemblies, defs, n, b);
      var rest := UpHasChain(assemblies, defs, b, root, k - 1);
      names := [n] + rest;
      forall i | 0 <= i < |names| - 1 ensures BasedOn(assemblies, names[i], names[i + 1]) {
        if i > 0 { assert BasedOn(assemblies, rest[i - 1], rest[i - 1 + 1]); }
      }
    }
  }

  lemma DerivesMeaning(assemblies: seq<Assembly>, defs: map<string, Entry>, n: string, root: string)
    requires DefsOf(Declared(assemblies), defs)
    ensures Reaches(defs, n, root) <==> Derives(assemblies, n, root)
  {
    if Reaches(defs, n, root) {
      var k: nat :| Up(defs, n, k) == Some(root);
      var names := UpHasChain(assemblies, defs, n, root, k);
    }
    if names :| Chain(assemblies, names, n, root) { ChainReaches(assemblies, defs, names, n, root); }
  }

  /** Each type of the table is defined, and it is told by its last definition. */
  lemma RowMeaning(assemblies: seq<Assembly>, root: string, types: seq<(string, TypeInfo)>, defs: map<string, Entry>,
                   i: nat) returns (last: Where)
    requires TableOf(Declared(assemblies), root, types, defs) && i < |types|
    ensures LastOf(assemblies, last, types[i].0)
    ensures types[i].1 == TypeInfo(TypeAt(assemblies, last).base, TypeAt(assemblies, last).isAbstract,
                                   assemblies[last.asm].name)
  {
    last := WinnerIsLast(assemblies, types[i].0);
  }

  /** The types stand in the order in which they were first defined. */
  lemma TableInOrder(assemblies: seq<Assembly>, root: string, types: seq<(string, TypeInfo)>, defs: map<string, Entry>,
                     i: nat, j: nat)
    requires TableOf(Declared(assemblies), root, types, defs) && i < j < |types|
    ensures forall v, w :: FirstOf(assemblies, v, types[i].0) && FirstOf(assemblies, w, types[j].0) ==> Sooner(v, w)
  {
    var places := FirstNamesAt(Declared(assemblies));
    var kept := KeptAt(defs, root, FirstNames(Declared(assemblies)));
    assert FirstAt(Declared(assemblies), FirstNames(Declared(assemblies))[kept[i]], places[kept[i]]);
    assert FirstAt(Declared(assemblies), FirstNames(Declared(assemblies))[kept[j]], places[kept[j]]);
    var first := FirstPlace(assemblies, places[kept[i]]);
    var later := FirstPlace(assemblies, places[kept[j]]);
    PlacesOrdered(assemblies, first, later);
    forall v, w | FirstOf(assemblies, v, types[i].0) && FirstOf(assemblies, w, types[j].0) ensures Sooner(v, w) {
      assert v == first && w == later;
    }
  }

  /** The table lists exactly the defined types from which a chain of bases leads to the root. */
  lemma MembersMeaning(assemblies: seq<Assembly>, root: string, types: seq<(string, TypeInfo)>,
                       defs: map<string, Entry>, name: string)
    requires TableOf(Declared(assemblies), root, types, defs)
    ensures (exists i :: 0 <= i < |types| && types[i].0 == name)
            <==> (exists w :: Named(assemblies, w, name)) && Derives(assemblies, name, root)
  {
    var kept := Kept(defs, root, FirstNames(Declared(assemblies)));
    FirstNamesFacts(Declared(assemblies));
    KeptFacts(defs, root, FirstNames(Declared(assemblies)));
    NamesMeaning(assemblies, name);
    DerivesMeaning(assemblies, defs, name, root);
    if name in kept { var i :| 0 <= i < |kept| && kept[i] == name; assert types[i].0 == name; }
  }
}
