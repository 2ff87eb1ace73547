/** The def database of one type: mods override each other by name, in database order.

    Inside one mod the first def of a name counts and the others are skipped; over all mods the last
    one counts and the others are overridden. The build keeps a list of slots, empties the slot of a
    def that is replaced and remembers where each name stands. The specification is the sequence of
    all additions: what is left of it when only the last of each name stays, which consecutive pairs
    share a name, and which members were never added because their mod had the name already. */
module Database {
  import opened Wrappers

  /** A def: its place in the document, its name and the mod it came from; none for a def a patch
      created. */
  datatype Def = Def(place: nat, name: string, modIdx: Option<nat>)

  datatype Database = Database(entries: seq<Def>, byName: map<string, Def>, overridden: seq<(Def, Def)>,
    skipped: seq<(Def, Def)>)

  // ---------------------------------------------------------------- what the databases mean

  /** The members of one mod, in document order. */
  function ByMod(members: seq<Def>, m: nat): seq<Def>
    decreases |members|
  {
    if members == [] then []
    else
      var n := |members| - 1;
      ByMod(members[..n], m)
      + (if members[n].modIdx == Some(m) then [members[n]] else [])
  }

  function Created(members: seq<Def>): seq<Def>
    decreases |members|
  {
    if members == [] then []
    else
      var n := |members| - 1;
      Created(members[..n]) + (if members[n].modIdx == None then [members[n]] else [])
  }

  predicate Has(s: seq<Def>, name: string) {
    exists k :: 0 <= k < |s| && s[k].name == name
  }

  function FirstOf(s: seq<Def>, name: string): Def
    requires Has(s, name)
    decreases |s|
  {
    var n := |s| - 1;
    if Has(s[..n], name) then FirstOf(s[..n], name) else s[n]
  }

  lemma HasSplit(s: seq<Def>, name: string)
    requires s != []
    ensures Has(s, name) <==> Has(s[..|s| - 1], name) || s[|s| - 1].name == name
  {
    var n := |s| - 1;
    if k :| 0 <= k < |s| && s[k].name == name { assert k < n ==> s[..n][k] == s[k]; }
    if k :| 0 <= k < n && s[..n][k].name == name { assert s[k] == s[..n][k]; }
  }

  /** The kept def is a member with that name, and no member before it has it. */
  lemma {:induction false} FirstOfFacts(s: seq<Def>, name: string) returns (k: nat)
    requires Has(s, name)
    ensures k < |s| && FirstOf(s, name) == s[k] && s[k].name == name && !Has(s[..k], name)
    decreases |s|
  {
    var n := |s| - 1;
    k := n;
    HasSplit(s, name);
    if Has(s[..n], name) {
      k := FirstOfFacts(s[..n], name);
      assert s[..n][..k] == s[..k];
    }
  }

  /** The first def of each name. */
  function Firsts(list: seq<Def>): seq<Def>
    decreases |list|
  {
    if list == [] then []
    else
      var n := |list| - 1;
      Firsts(list[..n]) + (if Has(list[..n], list[n].name) then [] else [list[n]])
  }

  /** The others, each with the one that was kept. */
  function Skips(list: seq<Def>): seq<(Def, Def)>
    decreases |list|
  {
    if list == [] then []
    else
      var n := |list| - 1;
      var name := list[n].name;
      Skips(list[..n]) + (if Has(list[..n], name) then [(FirstOf(list[..n], name), list[n])] else [])
  }

  /** Everything that is added, mod by mod. */
  function Contributed(members: seq<Def>, order: seq<nat>): seq<Def>
    decreases |order|
  {
    if order == [] then []
    else
      var n := |order| - 1;
      Contributed(members, order[..n]) + Firsts(ByMod(members, order[n]))
  }

  function AllSkips(members: seq<Def>, order: seq<nat>): seq<(Def, Def)>
    decreases |order|
  {
    if order == [] then []
    else
      var n := |order| - 1;
      AllSkips(members, order[..n]) + Skips(ByMod(members, order[n]))
  }

  function WithoutName(s: seq<Def>, name: string): seq<Def>
    decreases |s|
  {
    if s == [] then []
    else
      var n := |s| - 1;
      WithoutName(s[..n], name) + (if s[n].name == name then [] else [s[n]])
  }

  /** Only the last of each name stays. */
  function KeepLast(c: seq<Def>): seq<Def>
    decreases |c|
  {
    if c == [] then []
    else
      var n := |c| - 1;
      WithoutName(KeepLast(c[..n]), c[n].name) + [c[n]]
  }

  predicate LastAt(c: seq<Def>, k: nat)
    requires k < |c|
  {
    forall l :: k < l < |c| ==> c[l].name != c[k].name
  }

  /** Each def that replaces another of its name, with the one it replaces. */
  function Pairs(c: seq<Def>): seq<(Def, Def)>
    decreases |c|
  {
    if c == [] then []
    else
      var n := |c| - 1;
      var name := c[n].name;
      Pairs(c[..n]) + (if Has(c[..n], name) then [(LastOf(c[..n], name), c[n])] else [])
  }

  function LastOf(c: seq<Def>, name: string): Def
    requires Has(c, name)
    decreases |c|
  {
    var n := |c| - 1;
    if c[n].name == name then c[n] else LastOf(c[..n], name)
  }

  /** The mods that have members but no place in the order, ascending. */
  function Unordered(members: seq<Def>, order: seq<nat>): seq<nat>
    decreases |members|
  {
    if members == [] then []
    else
      var n := |members| - 1;
      var rest := Unordered(members[..n], order);
      if members[n].modIdx.Some? && members[n].modIdx.value !in order
      then InsertMod(rest, members[n].modIdx.value) else rest
  }

  function InsertMod(s: seq<nat>, m: nat): seq<nat> {
    if s == [] then [m]
    else if m < s[0] then [m] + s
    else if m == s[0] then s
    else [s[0]] + InsertMod(s[1..], m)
  }

  function Sequence(members: seq<Def>, modOrder: seq<nat>): seq<Def> {
    Contributed(members, modOrder + Unordered(members, modOrder)) + Created(members)
  }

  // ---------------------------------------------------------------- slots with holes

  function Filled(slots: seq<Option<Def>>): seq<Def>
    decreases |slots|
  {
    if slots == [] then []
    else
      var n := |slots| - 1;
      Filled(slots[..n]) + (if slots[n].Some? then [slots[n].value] else [])
  }

  /** The slots of the additions `c`: the last of each name in its place, holes for the others. */
  ghost predicate SlotsOf(c: seq<Def>, slots: seq<Option<Def>>, pos: map<string, nat>) {
    && |slots| == |c|
    && (forall k :: 0 <= k < |c| ==> slots[k] == if LastAt(c, k) then Some(c[k]) else None)
    && (forall name :: name in pos <==> Has(c, name))
    && (forall name :: name in pos ==> pos[name] < |c| && c[pos[name]].name == name && LastAt(c, pos[name]))
  }

  /** No two filled slots share a name. */
  ghost predicate NamesApart(slots: seq<Option<Def>>) {
    forall i, j :: 0 <= i < j < |slots| && slots[i].Some? && slots[j].Some?
                   ==> slots[i].value.name != slots[j].value.name
  }

  lemma {:induction false} FilledWithout(slots: seq<Option<Def>>, p: nat, name: string)
    requires p < |slots| && slots[p].Some? && slots[p].value.name == name && NamesApart(slots)
    ensures Filled(slots[p := None]) == WithoutName(Filled(slots), name)
    decreases |slots|
  {
    var n := |slots| - 1;
    assert slots == slots[..n] + [slots[n]];
    if p == n {
      assert slots[p := None] == slots[..n] + [None];
      LastEmptied(slots[..n], slots[n], name);
    } else {
      assert slots[p := None] == slots[..n][p := None] + [slots[n]];
      FilledWithout(slots[..n], p, name);
      EarlierEmptied(slots[..n], slots[..n][p := None], slots[n], name);
    }
  }

  lemma LastEmptied(head: seq<Option<Def>>, slot: Option<Def>, name: string)
    requires slot.Some? && slot.value.name == name
    requires forall k :: 0 <= k < |head| && head[k].Some? ==> head[k].value.name != name
    ensures Filled(head + [None]) == WithoutName(Filled(head + [slot]), name)
  {
    FilledAppend(head, None);
    FilledAppend(head, slot);
    WithoutAppend(Filled(head), slot.value, name);
    NothingToDrop(head, name);
  }

  lemma EarlierEmptied(head: seq<Option<Def>>, emptied: seq<Option<Def>>, slot: Option<Def>, name: string)
    requires Filled(emptied) == WithoutName(Filled(head), name) && (slot.Some? ==> slot.value.name != name)
    ensures Filled(emptied + [slot]) == WithoutName(Filled(head + [slot]), name)
  {
    FilledAppend(emptied, slot);
    FilledAppend(head, slot);
    if slot.Some? { WithoutAppend(Filled(head), slot.value, name); }
  }

  lemma FilledAppend(slots: seq<Option<Def>>, slot: Option<Def>)
    ensures Filled(slots + [slot]) == if slot.Some? then Filled(slots) + [slot.value] else Filled(slots)
  {
    assert (slots + [slot])[..|slots|] == slots;
  }

  lemma WithoutAppend(s: seq<Def>, x: Def, name: string)
    ensures WithoutName(s + [x], name) == if x.name == name then WithoutName(s, name) else WithoutName(s, name) + [x]
  {
    assert (s + [x])[..|s|] == s;
  }

  lemma {:induction false} NothingToDrop(slots: seq<Option<Def>>, name: string)
    requires forall k :: 0 <= k < |slots| && slots[k].Some? ==> slots[k].value.name != name
    ensures WithoutName(Filled(slots), name) == Filled(slots)
    decreases |slots|
  {
    if slots != [] {
      var n := |slots| - 1;
      NothingToDrop(slots[..n], name);
      if slots[n].Some? {
        WithoutAppend(Filled(slots[..n]), slots[n].value, name);
      } else {
        assert Filled(slots) == Filled(slots[..n]);
      }
    }
  }

  lemma SlotsApart(c: seq<Def>, slots: seq<Option<Def>>, pos: map<string, nat>)
    requires SlotsOf(c, slots, pos)
    ensures NamesApart(slots)
  {
  }

  lemma LastOfAt(c: seq<Def>, k: nat)
    requires k < |c| && LastAt(c, k)
    ensures Has(c, c[k].name) && LastOf(c, c[k].name) == c[k]
    decreases |c|
  {
    var n := |c| - 1;
    if k < n {
      assert c[..n][k] == c[k];
      LastOfAt(c[..n], k);
    }
  }

  /** Adds one def: empties the slot of the def it replaces and takes a new one at the end. */
  method AddDef(i: Def, slots: seq<Option<Def>>, pos: map<string, nat>, overridden: seq<(Def, Def)>, ghost c: seq<Def>)
    returns (slots': seq<Option<Def>>, pos': map<string, nat>, overridden': seq<(Def, Def)>)
    requires SlotsOf(c, slots, pos) && Filled(slots) == KeepLast(c) && overridden == Pairs(c)
    ensures SlotsOf(c + [i], slots', pos')
    ensures Filled(slots') == KeepLast(c + [i]) && overridden' == Pairs(c + [i])
  {
    AddedSlots(c, i, slots, pos);
    AddedFilled(c, i, slots, pos);
    var name := i.name;
    slots', overridden' := slots, overridden;
    if name in pos && slots[pos[name]].Some? {
      var p := pos[name];
      overridden' := overridden' + [(slots[p].value, i)];
      slots' := slots'[p := None];
    }
    slots' := slots' + [Some(i)];
    pos' := pos[name := |slots'| - 1];
  }

  /** What an addition leaves of the slots, and the pair it makes. */
  lemma AddedFilled(c: seq<Def>, i: Def, slots: seq<Option<Def>>, pos: map<string, nat>)
    requires SlotsOf(c, slots, pos) && Filled(slots) == KeepLast(c)
    ensures i.name in pos ==> slots[pos[i.name]].Some?
    ensures Filled((if i.name in pos then slots[pos[i.name] := None] else slots) + [Some(i)]) == KeepLast(c + [i])
    ensures Pairs(c + [i]) ==
            if i.name in pos then Pairs(c) + [(slots[pos[i.name]].value, i)] else Pairs(c)
  {
    var name := i.name;
    SlotsApart(c, slots, pos);
    assert (c + [i])[..|c|] == c;
    if name in pos {
      LastOfAt(c, pos[name]);
      FilledWithout(slots, pos[name], name);
      FilledAppend(slots[pos[name] := None], Some(i));
    } else {
      assert !Has(c, name);
      NothingToDrop(slots, name);
      FilledAppend(slots, Some(i));
    }
  }

  /** Whether an earlier addition is still the last of its name. */
  lemma StillLast(c: seq<Def>, i: Def, k: nat)
    requires k < |c|
    ensures LastAt(c + [i], k) <==> LastAt(c, k) && c[k].name != i.name
  {
    var c' := c + [i];
    assert c'[|c|] == i && c'[k] == c[k];
    if LastAt(c', k) {
      forall l | k < l < |c| ensures c[l].name != c[k].name { assert c'[l] == c[l]; }
    }
  }

  lemma StillHas(c: seq<Def>, i: Def, name: string)
    ensures Has(c + [i], name) <==> Has(c, name) || name == i.name
  {
    HasSplit(c + [i], name);
    assert (c + [i])[..|c|] == c;
  }

  lemma AddedSlots(c: seq<Def>, i: Def, slots: seq<Option<Def>>, pos: map<string, nat>)
    requires SlotsOf(c, slots, pos)
    ensures var name := i.name;
            SlotsOf(c + [i], (if name in pos then slots[pos[name] := None] else slots) + [Some(i)], pos[name := |c|])
  {
    var name := i.name;
    var c', slots' := c + [i], (if name in pos then slots[pos[name] := None] else slots) + [Some(i)];
    forall k | 0 <= k < |c'| ensures slots'[k] == if LastAt(c', k) then Some(c'[k]) else None {
      if k < |c| {
        StillLast(c, i, k);
        OnlyLast(c, slots, pos, k);
      }
    }
    forall x ensures x in pos[name := |c|] <==> Has(c', x) { StillHas(c, i, x); }
    forall x | x in pos && x != name
      ensures pos[x] < |c'| && c'[pos[x]].name == x && LastAt(c', pos[x])
    {
      StillLast(c, i, pos[x]);
    }
  }

  lemma OnlyLast(c: seq<Def>, slots: seq<Option<Def>>, pos: map<string, nat>, k: nat)
    requires SlotsOf(c, slots, pos) && k < |c|
    ensures c[k].name in pos && (LastAt(c, k) <==> pos[c[k].name] == k)
  {
    assert Has(c, c[k].name);
  }

  // ---------------------------------------------------------------- the build

  /** The members of each mod. */
  method GroupByMod(members: seq<Def>) returns (byMod: map<nat, seq<Def>>, created: seq<Def>)
    ensures forall m: nat :: ByMod(members, m) == if m in byMod then byMod[m] else []
    ensures forall m: nat :: m in byMod ==> byMod[m] != []
    ensures created == Created(members)
  {
    byMod, created := map[], [];
    for k := 0 to |members|
      invariant forall m: nat :: ByMod(members[..k], m) == if m in byMod then byMod[m] else []
      invariant forall m: nat :: m in byMod ==> byMod[m] != []
      invariant created == Created(members[..k])
    {
      assert members[..k + 1][..k] == members[..k];
      var i := members[k];
      match i.modIdx
      case Some(m) => byMod := byMod[m := (if m in byMod then byMod[m] else []) + [i]];
      case None => created := created + [i];
    }
    assert members[..|members|] == members;
  }

  /** Strictly ascending, so each value once. */
  predicate Ascending(s: seq<nat>) {
    forall i, j :: 0 <= i < j < |s| ==> s[i] < s[j]
  }

  lemma {:induction false} InsertModFacts(s: seq<nat>, m: nat)
    requires Ascending(s)
    ensures Ascending(InsertMod(s, m))
    ensures forall x: nat :: x in InsertMod(s, m) <==> x in s || x == m
    decreases |s|
  {
    if s != [] {
      assert s == [s[0]] + s[1..];
      if m > s[0] {
        InsertModFacts(s[1..], m);
        HeadBelow(s, m);
      }
    }
  }

  lemma HeadBelow(s: seq<nat>, m: nat)
    requires s != [] && Ascending(s) && m > s[0] && Ascending(InsertMod(s[1..], m))
    requires forall x: nat :: x in InsertMod(s[1..], m) <==> x in s[1..] || x == m
    ensures Ascending([s[0]] + InsertMod(s[1..], m))
  {
    var rest := InsertMod(s[1..], m);
    forall j | 0 <= j < |rest| ensures s[0] < rest[j] { assert rest[j] in rest; }
  }

  lemma {:induction false} UnorderedFacts(members: seq<Def>, order: seq<nat>)
    ensures Ascending(Unordered(members, order))
    ensures forall m: nat :: m in Unordered(members, order) <==> m !in order && ByMod(members, m) != []
    decreases |members|
  {
    if members != [] {
      var n := |members| - 1;
      UnorderedFacts(members[..n], order);
      if members[n].modIdx.Some? {
        InsertModFacts(Unordered(members[..n], order), members[n].modIdx.value);
      }
    }
  }

  lemma {:induction false} AscendingUnique(a: seq<nat>, b: seq<nat>)
    requires Ascending(a) && Ascending(b) && forall x: nat :: x in a <==> x in b
    ensures a == b
    decreases |a|
  {
    assert |b| > 0 ==> b[0] in b;
    if a != [] {
      assert a[0] in b;
      assert b[0] in a;
      var i :| 0 <= i < |b| && b[i] == a[0];
      var j :| 0 <= j < |a| && a[j] == b[0];
      assert a[0] == b[0];
      forall x: nat ensures x in a[1..] <==> x in b[1..] {
        assert x in a <==> x == a[0] || x in a[1..];
        assert x in b <==> x == b[0] || x in b[1..];
        if x in a[1..] { var k :| 0 <= k < |a| - 1 && a[1..][k] == x; assert a[0] < a[k + 1]; }
        if x in b[1..] { var k :| 0 <= k < |b| - 1 && b[1..][k] == x; assert b[0] < b[k + 1]; }
      }
      AscendingUnique(a[1..], b[1..]);
    }
  }

  /** The keys that are missing from the order, sorted. */
  method RemainingMods(members: seq<Def>, byMod: map<nat, seq<Def>>, order: seq<nat>) returns (remaining: seq<nat>)
    requires forall m: nat :: ByMod(members, m) == if m in byMod then byMod[m] else []
    requires forall m: nat :: m in byMod ==> byMod[m] != []
    ensures remaining == Unordered(members, order)
  {
    remaining := [];
    var todo := byMod.Keys;
    while todo != {}
      invariant Ascending(remaining) && todo <= byMod.Keys
      invariant forall m: nat :: m in remaining <==> m in byMod && m !in todo && m !in order
      decreases |todo|
    {
      var m :| m in todo;
      todo := todo - {m};
      if m !in order {
        InsertModFacts(remaining, m);
        remaining := InsertMod(remaining, m);
      }
    }
    UnorderedFacts(members, order);
    AscendingUnique(remaining, Unordered(members, order));
  }

  /** The growing result while mods are added. */
  datatype Draft = Draft(slots: seq<Option<Def>>, pos: map<string, nat>, overridden: seq<(Def, Def)>,
    skipped: seq<(Def, Def)>)

  ghost predicate DraftOf(c: seq<Def>, d: Draft) {
    Drafted(c, d.slots, d.pos, d.overridden)
  }

  ghost predicate Drafted(c: seq<Def>, slots: seq<Option<Def>>, pos: map<string, nat>, overridden: seq<(Def, Def)>) {
    SlotsOf(c, slots, pos) && Filled(slots) == KeepLast(c) && overridden == Pairs(c)
  }

  method AddToDraft(i: Def, d: Draft, ghost c: seq<Def>) returns (d': Draft)
    requires DraftOf(c, d)
    ensures DraftOf(c + [i], d') && d'.skipped == d.skipped
  {
    var slots, pos, overridden := AddDef(i, d.slots, d.pos, d.overridden, c);
    d' := Draft(slots, pos, overridden, d.skipped);
  }

  /** The names seen so far, each with its first def. */
  ghost predicate SeenOf(s: seq<Def>, seen: map<string, Def>) {
    && (forall name :: name in seen <==> Has(s, name))
    && (forall name :: name in seen ==> seen[name] == FirstOf(s, name))
  }

  /** Adds the defs of one mod; of several with one name only the first. */
  method AddMod(list: seq<Def>, d: Draft, ghost c: seq<Def>) returns (d': Draft)
    requires DraftOf(c, d)
    ensures DraftOf(c + Firsts(list), d')
    ensures d'.skipped == d.skipped + Skips(list)
  {
    d' := d;
    var seen: map<string, Def> := map[];
    assert c + [] == c && d.skipped + [] == d.skipped;
    for k := 0 to |list|
      invariant DraftOf(c + Firsts(list[..k]), d')
      invariant d'.skipped == d.skipped + Skips(list[..k])
      invariant SeenOf(list[..k], seen)
    {
      d', seen := AddUnlessSeen(list, k, d', seen, c + Firsts(list[..k]));
      AddedNext(list, k, c, d.skipped);
    }
    assert list[..|list|] == list;
  }

  lemma AddedNext(list: seq<Def>, k: nat, c: seq<Def>, skipped: seq<(Def, Def)>)
    requires k < |list|
    ensures var name := list[k].name;
            if Has(list[..k], name)
            then Firsts(list[..k + 1]) == Firsts(list[..k])
                 && skipped + Skips(list[..k + 1]) == skipped + Skips(list[..k]) + [(FirstOf(list[..k], name), list[k])]
            else c + Firsts(list[..k + 1]) == c + Firsts(list[..k]) + [list[k]]
                 && Skips(list[..k + 1]) == Skips(list[..k])
  {
    assert list[..k + 1][..k] == list[..k];
  }

  lemma SeenNext(list: seq<Def>, k: nat, seen: map<string, Def>)
    requires k < |list| && SeenOf(list[..k], seen)
    ensures var name := list[k].name;
            SeenOf(list[..k + 1], if name in seen then seen else seen[name := list[k]])
  {
    SeenStep(list, k);
  }

  method AddUnlessSeen(list: seq<Def>, k: nat, d: Draft, seen: map<string, Def>, ghost c: seq<Def>)
    returns (d': Draft, seen': map<string, Def>)
    requires k < |list| && DraftOf(c, d) && SeenOf(list[..k], seen)
    ensures SeenOf(list[..k + 1], seen')
    ensures var name := list[k].name;
            if Has(list[..k], name)
            then DraftOf(c, d') && d'.skipped == d.skipped + [(FirstOf(list[..k], name), list[k])]
            else DraftOf(c + [list[k]], d') && d'.skipped == d.skipped
  {
    var i := list[k];
    SeenNext(list, k, seen);
    seen' := seen;
    if i.name in seen {
      d' := Draft(d.slots, d.pos, d.overridden, d.skipped + [(seen[i.name], i)]);
    } else {
      seen' := seen[i.name := i];
      d' := AddToDraft(i, d, c);
    }
  }

  lemma SeenStep(list: seq<Def>, k: nat)
    requires k < |list|
    ensures forall name :: Has(list[..k + 1], name) <==> Has(list[..k], name) || name == list[k].name
    ensures forall name :: Has(list[..k], name) ==> FirstOf(list[..k + 1], name) == FirstOf(list[..k], name)
    ensures !Has(list[..k], list[k].name) ==> FirstOf(list[..k + 1], list[k].name) == list[k]
  {
    var s := list[..k + 1];
    assert s[..k] == list[..k] && s[k] == list[k];
    forall name | Has(list[..k], name) ensures Has(s, name) {
      var j :| 0 <= j < k && list[..k][j].name == name;
      assert s[j] == list[..k][j];
    }
    forall name | Has(s, name) && name != list[k].name ensures Has(list[..k], name) {
      var j :| 0 <= j < |s| && s[j].name == name;
      assert list[..k][j] == s[j];
    }
    assert Has(s, s[k].name);
  }

  /** Name lookup over the entries. */
  method IndexNames(entries: seq<Def>) returns (byName: map<string, Def>)
    ensures forall name :: name in byName <==> Has(entries, name)
    ensures forall name :: name in byName ==> byName[name] == LastOf(entries, name)
  {
    byName := map[];
    for k := 0 to |entries|
      invariant forall name :: name in byName <==> Has(entries[..k], name)
      invariant forall name :: name in byName ==> byName[name] == LastOf(entries[..k], name)
    {
      assert entries[..k + 1][..k] == entries[..k];
      SeenStep(entries, k);
      byName := byName[entries[k].name := entries[k]];
    }
    assert entries[..|entries|] == entries;
  }

  ghost predicate Built(members: seq<Def>, modOrder: seq<nat>, db: Database) {
    var c := Sequence(members, modOrder);
    && db.entries == KeepLast(c) && db.overridden == Pairs(c)
    && db.skipped == AllSkips(members, modOrder + Unordered(members, modOrder))
    && (forall name :: name in db.byName <==> Has(db.entries, name))
    && (forall name :: name in db.byName ==> db.byName[name] == LastOf(db.entries, name))
  }

  /** `AddAllInMods` for one type: mod by mod in database order, then the mods outside it, then what
      patches created. */
  method BuildDatabase(members: seq<Def>, modOrder: seq<nat>) returns (db: Database)
    ensures Built(members, modOrder, db)
  {
    var byMod, created := GroupByMod(members);
    var remaining := RemainingMods(members, byMod, modOrder);
    var order := modOrder + remaining;
    var d := AddMods(members, byMod, order);
    d := AddCreated(created, d, Contributed(members, order));
    var entries := Filled(d.slots);
    var byName := IndexNames(entries);
    db := Database(entries, byName, d.overridden, d.skipped);
  }

  method AddMods(members: seq<Def>, byMod: map<nat, seq<Def>>, order: seq<nat>) returns (d: Draft)
    requires forall m: nat :: ByMod(members, m) == if m in byMod then byMod[m] else []
    ensures DraftOf(Contributed(members, order), d) && d.skipped == AllSkips(members, order)
  {
    d := Draft([], map[], [], []);
    for k := 0 to |order|
      invariant DraftOf(Contributed(members, order[..k]), d)
      invariant d.skipped == AllSkips(members, order[..k])
    {
      assert order[..k + 1][..k] == order[..k];
      if order[k] in byMod {
        d := AddMod(byMod[order[k]], d, Contributed(members, order[..k]));
      } else {
        assert Contributed(members, order[..k + 1]) == Contributed(members, order[..k]);
        assert AllSkips(members, order[..k + 1]) == AllSkips(members, order[..k]);
      }
    }
    assert order[..|order|] == order;
  }

  method AddCreated(created: seq<Def>, d: Draft, ghost c: seq<Def>) returns (d': Draft)
    requires DraftOf(c, d)
    ensures DraftOf(c + created, d') && d'.skipped == d.skipped
  {
    d' := d;
    ghost var now := c;
    ghost var all := c + created;
    assert created[0..] == created;
    for k := 0 to |created|
      invariant now + created[k..] == all
      invariant DraftOf(now, d')
      invariant d'.skipped == d.skipped
    {
      AddedOne(now, created, k);
      d' := AddToDraft(created[k], d', now);
      now := now + [created[k]];
    }
    assert now + [] == now;
  }

  lemma AddedOne(now: seq<Def>, created: seq<Def>, k: nat)
    requires k < |created|
    ensures (now + [created[k]]) + created[k + 1..] == now + created[k..]
  {
  }

  // ---------------------------------------------------------------- what holds of every database

  ghost predicate NamesDistinct(s: seq<Def>) {
    forall i, j :: 0 <= i < j < |s| ==> s[i].name != s[j].name
  }

  /** The last of a name is an element of that name with none after it. */
  lemma {:induction false} LastOfFacts(c: seq<Def>, name: string) returns (k: nat)
    requires Has(c, name)
    ensures k < |c| && c[k] == LastOf(c, name) && c[k].name == name && LastAt(c, k)
    decreases |c|
  {
    var n := |c| - 1;
    HasSplit(c, name);
    k := n;
    if c[n].name != name {
      k := LastOfFacts(c[..n], name);
      forall l | k < l < |c| ensures c[l].name != c[k].name { if l < n { assert c[..n][l] == c[l]; } }
    }
  }

  lemma {:induction false} WithoutFacts(s: seq<Def>, name: string)
    requires NamesDistinct(s)
    ensures NamesDistinct(WithoutName(s, name))
    ensures forall x :: Has(WithoutName(s, name), x) <==> Has(s, x) && x != name
    ensures forall i :: i in WithoutName(s, name) <==> i in s && i.name != name
    decreases |s|
  {
    if s != [] {
      var n := |s| - 1;
      var rest := WithoutName(s[..n], name);
      assert NamesDistinct(s[..n]);
      WithoutFacts(s[..n], name);
      assert s == s[..n] + [s[n]];
      forall x ensures Has(WithoutName(s, name), x) <==> Has(s, x) && x != name {
        HasSplit(s, x);
        if s[n].name != name { StillHas(rest, s[n], x); } else { assert WithoutName(s, name) == rest; }
      }
      if s[n].name != name { AppendDistinct(rest, s[n], s[..n]); }
    }
  }

  lemma AppendDistinct(rest: seq<Def>, i: Def, s: seq<Def>)
    requires NamesDistinct(rest) && NamesDistinct(s + [i])
    requires forall j :: j in rest ==> j in s
    ensures NamesDistinct(rest + [i])
  {
    forall k | 0 <= k < |rest| ensures rest[k].name != i.name {
      assert rest[k] in s;
      var l :| 0 <= l < |s| && s[l] == rest[k];
      assert (s + [i])[l] == rest[k] && (s + [i])[|s|] == i;
    }
  }

  /** The entries: each added name once, and it is the def added last under it. */
  lemma {:induction false} EntriesFacts(c: seq<Def>)
    ensures NamesDistinct(KeepLast(c))
    ensures forall name :: Has(KeepLast(c), name) <==> Has(c, name)
    ensures forall i :: i in KeepLast(c) <==> Has(c, i.name) && LastOf(c, i.name) == i
    decreases |c|
  {
    if c != [] {
      var n := |c| - 1;
      var name := c[n].name;
      var was, rest := KeepLast(c[..n]), WithoutName(KeepLast(c[..n]), c[n].name);
      EntriesFacts(c[..n]);
      WithoutFacts(was, name);
      forall k | 0 <= k < |rest| ensures rest[k].name != name { assert rest[k] in rest; }
      forall x ensures Has(KeepLast(c), x) <==> Has(c, x) {
        HasSplit(c, x);
        StillHas(rest, c[n], x);
      }
      forall i ensures i in KeepLast(c) <==> Has(c, i.name) && LastOf(c, i.name) == i {
        HasSplit(c, i.name);
      }
    }
  }

  /** Name lookup is the exact inverse of the entries. */
  lemma LookupInverse(c: seq<Def>, byName: map<string, Def>)
    requires forall name :: name in byName <==> Has(KeepLast(c), name)
    requires forall name :: name in byName ==> byName[name] == LastOf(KeepLast(c), name)
    ensures forall name, i :: (name in byName && byName[name] == i) <==> (i in KeepLast(c) && i.name == name)
  {
    var e := KeepLast(c);
    EntriesFacts(c);
    forall name, i ensures (name in byName && byName[name] == i) <==> (i in e && i.name == name) {
      if name in byName {
        var k := LastOfFacts(e, name);
        if i in e && i.name == name { var l :| 0 <= l < |e| && e[l] == i; assert l == k; }
      }
      if i in e && i.name == name { var l :| 0 <= l < |e| && e[l] == i; assert Has(e, name); }
    }
  }

  /** A skipped def and the kept one come from one list; the kept one is the first of their name. */
  lemma {:induction false} SkipFacts(list: seq<Def>, j: nat) returns (k: nat, l: nat)
    requires j < |Skips(list)|
    ensures k < l < |list| && Skips(list)[j] == (list[k], list[l])
    ensures list[k].name == list[l].name && !Has(list[..k], list[k].name)
    decreases |list|
  {
    var n := |list| - 1;
    if j < |Skips(list[..n])| {
      k, l := SkipFacts(list[..n], j);
      assert list[..n][..k] == list[..k];
    } else {
      l := n;
      k := FirstOfFacts(list[..n], list[n].name);
      assert list[..n][..k] == list[..k];
    }
  }

  /** An overridden def and its successor: no addition of their name lies between them. */
  lemma {:induction false} PairFacts(c: seq<Def>, j: nat) returns (k: nat, l: nat)
    requires j < |Pairs(c)|
    ensures k < l < |c| && Pairs(c)[j] == (c[k], c[l])
    ensures c[k].name == c[l].name && forall x :: k < x < l ==> c[x].name != c[k].name
    decreases |c|
  {
    var n := |c| - 1;
    if j < |Pairs(c[..n])| {
      k, l := PairFacts(c[..n], j);
      forall x | k < x < l ensures c[x].name != c[k].name { assert c[..n][x] == c[x]; }
    } else {
      l := n;
      k := LastOfFacts(c[..n], c[n].name);
      forall x | k < x < l ensures c[x].name != c[k].name { assert c[..n][x] == c[x]; }
    }
  }

  // ---------------------------------------------------------------- nothing is lost

  function Olds(pairs: seq<(Def, Def)>): seq<Def>
    decreases |pairs|
  {
    if pairs == [] then [] else Olds(pairs[..|pairs| - 1]) + [pairs[|pairs| - 1].0]
  }

  function News(pairs: seq<(Def, Def)>): seq<Def>
    decreases |pairs|
  {
    if pairs == [] then [] else News(pairs[..|pairs| - 1]) + [pairs[|pairs| - 1].1]
  }

  lemma OldsAppend(pairs: seq<(Def, Def)>, p: (Def, Def))
    ensures Olds(pairs + [p]) == Olds(pairs) + [p.0] && News(pairs + [p]) == News(pairs) + [p.1]
  {
    assert (pairs + [p])[..|pairs|] == pairs;
  }

  lemma {:induction false} WithoutOne(s: seq<Def>, i: Def)
    requires NamesDistinct(s) && i in s
    ensures multiset(WithoutName(s, i.name)) + multiset{i} == multiset(s)
    decreases |s|
  {
    var n := |s| - 1;
    var name := i.name;
    assert s == s[..n] + [s[n]];
    if s[n].name == name {
      forall k | 0 <= k < n ensures s[..n][k].name != name { assert s[..n][k] == s[k]; }
      assert s[n] == i;
      NothingWithout(s[..n], name);
    } else {
      WithoutOne(s[..n], i);
    }
  }

  lemma {:induction false} NothingWithout(s: seq<Def>, name: string)
    requires forall k :: 0 <= k < |s| ==> s[k].name != name
    ensures WithoutName(s, name) == s
    decreases |s|
  {
    if s != [] {
      var n := |s| - 1;
      NothingWithout(s[..n], name);
      NothingMore(s[..n], s[n], name);
      assert s == s[..n] + [s[n]];
    }
  }

  lemma NothingMore(s: seq<Def>, x: Def, name: string)
    requires WithoutName(s, name) == s && x.name != name
    ensures WithoutName(s + [x], name) == s + [x]
  {
    WithoutAppend(s, x, name);
  }

  ghost function KeptOrReplaced(c: seq<Def>): multiset<Def> { multiset(KeepLast(c)) + multiset(Olds(Pairs(c))) }

  /** Every addition ends up as an entry or as a replaced def. */
  lemma {:induction false} AddedIsKeptOrReplaced(c: seq<Def>)
    ensures KeptOrReplaced(c) == multiset(c)
    decreases |c|
  {
    if c != [] {
      var before, d := c[..|c| - 1], c[|c| - 1];
      assert before + [d] == c;
      AddedIsKeptOrReplaced(before);
      if Has(before, d.name) { OneReplaced(before, d); } else { OneNew(before, d); }
    }
  }

  lemma OneReplaced(c: seq<Def>, d: Def)
    requires Has(c, d.name)
    ensures KeptOrReplaced(c + [d]) == KeptOrReplaced(c) + multiset{d}
  {
    var replaced := LastOf(c, d.name);
    assert (c + [d])[..|c|] == c;
    EntriesFacts(c);
    var k := LastOfFacts(c, d.name);
    WithoutOne(KeepLast(c), replaced);
    assert KeepLast(c + [d]) == WithoutName(KeepLast(c), d.name) + [d];
    OldsAppend(Pairs(c), (replaced, d));
    assert Olds(Pairs(c + [d])) == Olds(Pairs(c)) + [replaced];
    Swapped(multiset(WithoutName(KeepLast(c), d.name)), multiset(KeepLast(c)), multiset(Olds(Pairs(c))), replaced, d);
  }

  lemma Swapped(rest: multiset<Def>, was: multiset<Def>, olds: multiset<Def>, replaced: Def, d: Def)
    requires rest + multiset{replaced} == was
    ensures rest + multiset{d} + (olds + multiset{replaced}) == was + olds + multiset{d}
  {
  }

  lemma OneNew(c: seq<Def>, d: Def)
    requires !Has(c, d.name)
    ensures KeptOrReplaced(c + [d]) == KeptOrReplaced(c) + multiset{d}
  {
    assert (c + [d])[..|c|] == c;
    EntriesFacts(c);
    NothingWithout(KeepLast(c), d.name);
    assert KeepLast(c + [d]) == KeepLast(c) + [d];
    assert Pairs(c + [d]) == Pairs(c);
  }

  lemma OneMember(before: seq<Def>, d: Def, list: seq<Def>)
    requires list == before + [d]
    ensures multiset(Firsts(list)) + multiset(News(Skips(list))) ==
            multiset(Firsts(before)) + multiset(News(Skips(before))) + multiset{d}
  {
    assert list[..|list| - 1] == before;
    if Has(before, d.name) {
      OldsAppend(Skips(before), (FirstOf(before, d.name), d));
      assert Firsts(list) == Firsts(before) + [] == Firsts(before);
    } else {
      assert Skips(list) == Skips(before) + [] == Skips(before);
    }
  }

  lemma {:induction false} MemberIsFirstOrSkipped(list: seq<Def>)
    ensures multiset(Firsts(list)) + multiset(News(Skips(list))) == multiset(list)
    decreases |list|
  {
    if list != [] {
      var n := |list| - 1;
      MemberIsFirstOrSkipped(list[..n]);
      assert list == list[..n] + [list[n]];
      OneMember(list[..n], list[n], list);
    }
  }

  lemma {:induction false} NewsConcat(a: seq<(Def, Def)>, b: seq<(Def, Def)>)
    ensures News(a + b) == News(a) + News(b)
    decreases |b|
  {
    if b == [] {
      assert a + b == a;
    } else {
      var n := |b| - 1;
      assert (a + b)[..|a + b| - 1] == a + b[..n];
      NewsConcat(a, b[..n]);
      OldsAppend(a + b[..n], b[n]);
    }
  }

  /** How often a mod is visited. */
  function Visits(order: seq<nat>, m: nat): nat { multiset(order)[m] }

  /** How often member `i` is handled: once per visit of its mod. */
  function Handled(members: seq<Def>, order: seq<nat>, i: Def): nat
    decreases |order|
  {
    if order == [] then 0
    else
      var n := |order| - 1;
      Handled(members, order[..n], i) + (if i.modIdx == Some(order[n]) then multiset(members)[i] else 0)
  }

  lemma {:induction false} HandledPerVisit(members: seq<Def>, order: seq<nat>, i: Def)
    ensures Handled(members, order, i) == if i.modIdx.Some? then Visits(order, i.modIdx.value) * multiset(members)[i]
            else 0
    decreases |order|
  {
    if order != [] {
      var before, last := order[..|order| - 1], order[|order| - 1];
      HandledPerVisit(members, before, i);
      assert order == before + [last];
      if i.modIdx == Some(last) { OncePerVisit(Visits(before, last), multiset(members)[i]); }
    }
  }

  lemma OncePerVisit(v: nat, n: nat)
    ensures (v + 1) * n == v * n + n
  {
  }

  lemma {:induction false} ByModCount(members: seq<Def>, m: nat, i: Def)
    ensures multiset(ByMod(members, m))[i] == if i.modIdx == Some(m) then multiset(members)[i] else 0
    decreases |members|
  {
    if members != [] {
      var n := |members| - 1;
      ByModCount(members[..n], m, i);
      assert members == members[..n] + [members[n]];
    }
  }

  lemma {:induction false} CreatedCount(members: seq<Def>, i: Def)
    ensures multiset(Created(members))[i] == if i.modIdx == None then multiset(members)[i] else 0
    decreases |members|
  {
    if members != [] {
      var n := |members| - 1;
      CreatedCount(members[..n], i);
      assert members == members[..n] + [members[n]];
    }
  }

  lemma {:induction false} HandledCount(members: seq<Def>, order: seq<nat>, i: Def)
    ensures multiset(Contributed(members, order))[i] + multiset(News(AllSkips(members, order)))[i] ==
            Handled(members, order, i)
    decreases |order|
  {
    if order != [] {
      var before, m := order[..|order| - 1], order[|order| - 1];
      assert before + [m] == order;
      HandledCount(members, before, i);
      OneMoreMod(members, before, m, i);
    }
  }

  lemma OneMoreMod(members: seq<Def>, order: seq<nat>, m: nat, i: Def)
    ensures multiset(Contributed(members, order + [m]))[i] + multiset(News(AllSkips(members, order + [m])))[i]
            == multiset(Contributed(members, order))[i] + multiset(News(AllSkips(members, order)))[i]
               + (if i.modIdx == Some(m) then multiset(members)[i] else 0)
  {
    assert (order + [m])[..|order|] == order;
    var list := ByMod(members, m);
    MemberIsFirstOrSkipped(list);
    NewsConcat(AllSkips(members, order), Skips(list));
    ByModCount(members, m, i);
    var firsts, skipped := multiset(Firsts(list)), multiset(News(Skips(list)));
    assert (firsts + skipped)[i] == firsts[i] + skipped[i];
  }

  /** Everything the database accounts for: entries, replaced defs and skipped defs. */
  ghost function Accounted(members: seq<Def>, modOrder: seq<nat>): multiset<Def> {
    var c := Sequence(members, modOrder);
    multiset(KeepLast(c)) + multiset(Olds(Pairs(c)))
    + multiset(News(AllSkips(members, modOrder + Unordered(members, modOrder))))
  }

  lemma AccountedCount(members: seq<Def>, modOrder: seq<nat>, i: Def)
    ensures Accounted(members, modOrder)[i] ==
            if i.modIdx.None? then multiset(members)[i]
            else (if i.modIdx.value in modOrder then Visits(modOrder, i.modIdx.value) else 1) * multiset(members)[i]
  {
    var order := modOrder + Unordered(members, modOrder);
    AddedIsKeptOrReplaced(Sequence(members, modOrder));
    HandledCount(members, order, i);
    HandledPerVisit(members, order, i);
    CreatedCount(members, i);
    if i.modIdx.Some? {
      var m := i.modIdx.value;
      UnorderedFacts(members, modOrder);
      ByModCount(members, m, i);
      OnceIn(Unordered(members, modOrder), m);
      assert Visits(order, m) == Visits(modOrder, m) + Visits(Unordered(members, modOrder), m);
      if i in members {
        assert multiset(members)[i] > 0;
        assert i in multiset(ByMod(members, m));
      }
    }
  }

  lemma {:induction false} OnceIn(s: seq<nat>, m: nat)
    requires Ascending(s)
    ensures multiset(s)[m] == if m in s then 1 else 0
    decreases |s|
  {
    if s != [] {
      assert s == [s[0]] + s[1..];
      OnceIn(s[1..], m);
      if s[0] in s[1..] { var k :| 0 <= k < |s| - 1 && s[1..][k] == s[0]; assert s[0] < s[k + 1]; }
    }
  }

  ghost predicate Conserves(members: seq<Def>, modOrder: seq<nat>) {
    forall i: Def :: Accounted(members, modOrder)[i] == multiset(members)[i]
  }

  ghost predicate VisitedOnce(members: seq<Def>, modOrder: seq<nat>) {
    forall m: nat :: Visits(modOrder, m) > 1 ==> ByMod(members, m) == []
  }

  /** Every member is accounted for exactly once - as an entry, a replaced def or a skipped one -
      exactly when no mod with members stands twice in the order. */
  lemma ConservationExact(members: seq<Def>, modOrder: seq<nat>)
    ensures Conserves(members, modOrder) <==> VisitedOnce(members, modOrder)
  {
    if VisitedOnce(members, modOrder) {
      forall i: Def ensures Accounted(members, modOrder)[i] == multiset(members)[i] {
        AccountedOnce(members, modOrder, i);
      }
    } else {
      var m: nat :| Visits(modOrder, m) > 1 && ByMod(members, m) != [];
      var i := AccountedTwice(members, modOrder, m);
    }
  }

  lemma AccountedOnce(members: seq<Def>, modOrder: seq<nat>, i: Def)
    requires VisitedOnce(members, modOrder)
    ensures Accounted(members, modOrder)[i] == multiset(members)[i]
  {
    AccountedCount(members, modOrder, i);
    if i.modIdx.Some? {
      var m := i.modIdx.value;
      ByModCount(members, m, i);
      if Visits(modOrder, m) > 1 { assert multiset(ByMod(members, m))[i] == 0; }
    }
  }

  lemma AccountedTwice(members: seq<Def>, modOrder: seq<nat>, m: nat) returns (i: Def)
    requires Visits(modOrder, m) > 1 && ByMod(members, m) != []
    ensures Accounted(members, modOrder)[i] > multiset(members)[i]
  {
    i := ByMod(members, m)[0];
    assert i in multiset(ByMod(members, m));
    ByModCount(members, m, i);
    AccountedCount(members, modOrder, i);
    MoreThanOnce(Visits(modOrder, m), multiset(members)[i]);
  }

  lemma MoreThanOnce(v: nat, n: nat)
    requires v > 1 && n > 0
    ensures v * n > n
  {
  }

  /** One mod listed twice: its def replaces itself. */
  lemma TwiceInOrder(d: Def, m: nat)
    requires d.modIdx == Some(m)
    ensures Sequence([d], [m, m]) == [d, d] && Pairs([d, d]) == [(d, d)]
    ensures !Conserves([d], [m, m])
  {
    assert [d][..0] == [] && [d, d][..1] == [d];
    assert ByMod([d], m) == [d];
    assert Firsts([d]) == [d];
    assert [m, m][..1] == [m] && [m][..0] == [] && [m, m] + [] == [m, m];
    TwiceContributed(d, m);
    TwicePairs(d);
    TwiceVisited(d, m);
    ConservationExact([d], [m, m]);
  }

  lemma TwicePairs(d: Def)
    ensures Pairs([d, d]) == [(d, d)]
  {
    assert [d][..0] == [] && [d, d][..1] == [d];
    assert [d][0].name == d.name;
    assert Has([d], d.name);
    assert Pairs([d]) == [];
  }

  lemma TwiceVisited(d: Def, m: nat)
    requires ByMod([d], m) == [d]
    ensures !VisitedOnce([d], [m, m])
  {
    assert Visits([m, m], m) == 2;
  }

  lemma TwiceContributed(d: Def, m: nat)
    requires d.modIdx == Some(m) && ByMod([d], m) == [d] && Firsts([d]) == [d]
    ensures Sequence([d], [m, m]) == [d, d]
  {
    NothingElse(d, m);
    assert [m, m] + [] == [m, m];
    var once := Contributed([d], [m]);
    assert [m][..0] == [] && Contributed([d], []) == [];
    assert once == [d];
    assert [m, m][..1] == [m];
    assert Contributed([d], [m, m]) == once + [d];
    assert [d] + [d] + [] == [d, d];
  }

  lemma NothingElse(d: Def, m: nat)
    requires d.modIdx == Some(m)
    ensures Unordered([d], [m, m]) == [] && Created([d]) == []
  {
    assert [d][..0] == [];
  }
}
