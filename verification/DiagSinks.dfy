/** The bounded diagnostic sink: exact counts, and per code the first `cap` diagnostics of everything
    ever reported, however the reports were split over sinks and in whatever order these were merged. */
module DiagSinks {
  import opened Diagnostics
  import opened Sorting

  // ---------------------------------------------------------------- histories

  datatype Selection = OfCode(code: string) | OfSeverity(severity: Severity)

  predicate Selects(sel: Selection, d: Diagnostic) {
    if sel.OfCode? then d.code == sel.code else d.severity == sel.severity
  }

  function Chosen(all: seq<Diagnostic>, sel: Selection): seq<Diagnostic>
    decreases |all|
  {
    if all == [] then []
    else Chosen(all[..|all| - 1], sel) + (if Selects(sel, all[|all| - 1]) then [all[|all| - 1]] else [])
  }

  /** The samples a sink must hold: the first `cap` of the sorted reports of the code. */
  function Top(all: seq<Diagnostic>, code: string, cap: nat): seq<Diagnostic> {
    Take(Folded(Upto, [], Chosen(all, OfCode(code))), cap)
  }

  lemma {:induction false} ChosenAppend(a: seq<Diagnostic>, b: seq<Diagnostic>, sel: Selection)
    ensures Chosen(a + b, sel) == Chosen(a, sel) + Chosen(b, sel)
    decreases |b|
  {
    if b == [] {
      assert a + b == a;
    } else {
      var n := |b| - 1;
      assert (a + b)[..|a + b| - 1] == a + b[..n];
      ChosenAppend(a, b[..n], sel);
    }
  }

  lemma {:induction false} ChosenCount(all: seq<Diagnostic>, sel: Selection)
    ensures forall d :: multiset(Chosen(all, sel))[d] == if Selects(sel, d) then multiset(all)[d] else 0
    decreases |all|
  {
    if all != [] {
      var n := |all| - 1;
      ChosenCount(all[..n], sel);
      assert all == all[..n] + [all[n]];
    }
  }

  lemma ChosenPermuted(a: seq<Diagnostic>, b: seq<Diagnostic>, sel: Selection)
    requires multiset(a) == multiset(b)
    ensures multiset(Chosen(a, sel)) == multiset(Chosen(b, sel))
    ensures |Chosen(a, sel)| == |Chosen(b, sel)|
  {
    ChosenCount(a, sel);
    ChosenCount(b, sel);
    assert multiset(Chosen(a, sel)) == multiset(Chosen(b, sel));
    assert |multiset(Chosen(a, sel))| == |multiset(Chosen(b, sel))|;
  }

  /** The order of the reports does not matter. */
  lemma TopPermuted(a: seq<Diagnostic>, b: seq<Diagnostic>, code: string, cap: nat)
    requires multiset(a) == multiset(b)
    ensures Top(a, code, cap) == Top(b, code, cap)
  {
    ChosenPermuted(a, b, OfCode(code));
    UptoIsOrder();
    FoldedPermuted(Upto, Chosen(a, OfCode(code)), Chosen(b, OfCode(code)));
  }

  /** Merging the samples of two sinks: exact when the source's cap is no smaller, or it dropped nothing. */
  lemma TopMerged(a: seq<Diagnostic>, b: seq<Diagnostic>, code: string, cap: nat, bound: nat)
    requires cap <= bound || |Chosen(b, OfCode(code))| <= bound
    ensures Kept(Upto, Top(a, code, cap), Top(b, code, bound), cap) == Top(a + b, code, cap)
  {
    ChosenAppend(a, b, OfCode(code));
    UptoIsOrder();
    MergedBound(Upto, Chosen(a, OfCode(code)), Chosen(b, OfCode(code)), cap, bound);
  }

  /** The condition is exact: a source with a smaller cap that dropped something spoils the merge
      into some sink, the empty one for instance. */
  lemma MergeExact(b: seq<Diagnostic>, code: string, cap: nat, bound: nat)
    ensures (forall a :: Kept(Upto, Top(a, code, cap), Top(b, code, bound), cap) == Top(a + b, code, cap))
       <==> (cap <= bound || |Chosen(b, OfCode(code))| <= bound)
  {
    if cap <= bound || |Chosen(b, OfCode(code))| <= bound {
      forall a ensures Kept(Upto, Top(a, code, cap), Top(b, code, bound), cap) == Top(a + b, code, cap) {
        TopMerged(a, b, code, cap, bound);
      }
    } else {
      UptoIsOrder();
      LossyBound(Upto, Chosen(b, OfCode(code)), cap, bound);
      assert [] + b == b && Top([], code, cap) == [];
      assert Kept(Upto, Top([], code, cap), Top(b, code, bound), cap) != Top([] + b, code, cap);
    }
  }

  /** The first `cap` of the sorted reports, after one more report. */
  lemma TopPushed(all: seq<Diagnostic>, d: Diagnostic, code: string, cap: nat)
    ensures Top(all + [d], code, cap) ==
            if d.code == code then Take(Inserted(Upto, Top(all, code, cap), d), cap) else Top(all, code, cap)
  {
    assert (all + [d])[..|all|] == all;
    if d.code == code {
      var chosen := Chosen(all, OfCode(code));
      assert Chosen(all + [d], OfCode(code)) == chosen + [d];
      assert (chosen + [d])[..|chosen|] == chosen;
      assert Folded(Upto, [], chosen + [d]) == Inserted(Upto, Folded(Upto, [], chosen), d);
      UptoIsOrder();
      TakeInserted(Upto, Folded(Upto, [], chosen), cap, d);
    } else {
      assert Chosen(all + [d], OfCode(code)) == Chosen(all, OfCode(code));
    }
  }

  lemma TopSorted(all: seq<Diagnostic>, code: string, cap: nat)
    ensures Sorted(Upto, Top(all, code, cap)) && |Top(all, code, cap)| <= cap
    ensures |Top(all, code, cap)| == if |Chosen(all, OfCode(code))| <= cap then |Chosen(all, OfCode(code))| else cap
    ensures forall d :: d in Top(all, code, cap) ==> d.code == code
  {
    var chosen := Chosen(all, OfCode(code));
    UptoIsOrder();
    FoldedFacts(Upto, [], chosen);
    assert |multiset(Folded(Upto, [], chosen))| == |multiset(chosen)|;
    ChosenCount(all, OfCode(code));
    forall d | d in Top(all, code, cap) ensures d.code == code {
      assert d in multiset(Folded(Upto, [], chosen));
    }
  }

  // ---------------------------------------------------------------- counters and samples as values

  function CountIn(counts: map<string, nat>, code: string): nat { if code in counts then counts[code] else 0 }

  function ListOf(samples: map<string, seq<Diagnostic>>, code: string): seq<Diagnostic> {
    if code in samples then samples[code] else []
  }

  /** The counters of the codes are those of the reports. */
  ghost predicate CodesCounted(counts: map<string, nat>, all: seq<Diagnostic>) {
    && (forall code :: CountIn(counts, code) == |Chosen(all, OfCode(code))|)
    && (forall code :: code in counts ==> counts[code] > 0)
  }

  ghost predicate SeveritiesCounted(bySeverity: seq<nat>, all: seq<Diagnostic>) {
    |bySeverity| == 4 && forall s :: bySeverity[Slot(s)] == |Chosen(all, OfSeverity(s))|
  }

  /** A list of samples of one code: sorted, bounded, and of that code only. */
  ghost predicate SampleOk(list: seq<Diagnostic>, code: string, cap: nat) {
    Sorted(Upto, list) && |list| <= cap && forall d :: d in list ==> d.code == code
  }

  ghost predicate SamplesOk(samples: map<string, seq<Diagnostic>>, cap: nat) {
    && (forall code :: SampleOk(ListOf(samples, code), code, cap))
    && (forall code :: code in samples ==> samples[code] != [])
  }

  lemma ChosenMore(all: seq<Diagnostic>, d: Diagnostic, sel: Selection)
    ensures Chosen(all + [d], sel) == Chosen(all, sel) + (if Selects(sel, d) then [d] else [])
  {
    assert (all + [d])[..|all|] == all;
  }

  lemma CodesPushed(counts: map<string, nat>, all: seq<Diagnostic>, d: Diagnostic)
    requires CodesCounted(counts, all)
    ensures CodesCounted(counts[d.code := CountIn(counts, d.code) + 1], all + [d])
  {
    var counts' := counts[d.code := CountIn(counts, d.code) + 1];
    forall code ensures CountIn(counts', code) == |Chosen(all + [d], OfCode(code))| {
      ChosenMore(all, d, OfCode(code));
      assert CountIn(counts, code) == |Chosen(all, OfCode(code))|;
    }
  }

  lemma SeveritiesPushed(tally: seq<nat>, all: seq<Diagnostic>, d: Diagnostic)
    requires SeveritiesCounted(tally, all)
    ensures SeveritiesCounted(tally[Slot(d.severity) := tally[Slot(d.severity)] + 1], all + [d])
  {
    SlotsApart();
    forall s ensures tally[Slot(d.severity) := tally[Slot(d.severity)] + 1][Slot(s)] ==
      |Chosen(all + [d], OfSeverity(s))| {
      ChosenMore(all, d, OfSeverity(s));
      assert tally[Slot(s)] == |Chosen(all, OfSeverity(s))|;
    }
  }

  lemma CodesMerged(mine: map<string, nat>, theirs: map<string, nat>, both: map<string, nat>,
                    all: seq<Diagnostic>, more: seq<Diagnostic>)
    requires CodesCounted(mine, all) && CodesCounted(theirs, more)
    requires forall code :: CountIn(both, code) == CountIn(mine, code) + CountIn(theirs, code)
    requires forall code :: code in both ==> both[code] > 0
    ensures CodesCounted(both, all + more)
  {
    forall code ensures CountIn(both, code) == |Chosen(all + more, OfCode(code))| {
      ChosenAppend(all, more, OfCode(code));
      assert CountIn(mine, code) == |Chosen(all, OfCode(code))|
             && CountIn(theirs, code) == |Chosen(more, OfCode(code))|;
    }
  }

  lemma SeveritiesMerged(mine: seq<nat>, theirs: seq<nat>, both: seq<nat>, all: seq<Diagnostic>, more: seq<Diagnostic>)
    requires SeveritiesCounted(mine, all) && SeveritiesCounted(theirs, more)
    requires |both| == 4 && forall i :: 0 <= i < 4 ==> both[i] == mine[i] + theirs[i]
    ensures SeveritiesCounted(both, all + more)
  {
    forall s ensures both[Slot(s)] == |Chosen(all + more, OfSeverity(s))| {
      ChosenAppend(all, more, OfSeverity(s));
      assert mine[Slot(s)] == |Chosen(all, OfSeverity(s))| && theirs[Slot(s)] == |Chosen(more, OfSeverity(s))|;
    }
  }

  lemma SampleOkAt(samples: map<string, seq<Diagnostic>>, code: string, cap: nat)
    requires SamplesOk(samples, cap)
    ensures SampleOk(ListOf(samples, code), code, cap)
  {
  }

  lemma SamplesUpdated(samples: map<string, seq<Diagnostic>>, code: string, list: seq<Diagnostic>, cap: nat)
    requires SamplesOk(samples, cap) && SampleOk(list, code, cap) && list != []
    ensures SamplesOk(samples[code := list], cap)
  {
    var now := samples[code := list];
    forall c ensures SampleOk(ListOf(now, c), c, cap) { SampleOkAt(samples, c, cap); }
  }

  /** A report that does not sort before the last of a full list is not kept. */
  lemma LateReport(list: seq<Diagnostic>, cap: nat, d: Diagnostic)
    requires Sorted(Upto, list) && |list| == cap > 0 && Order(d, list[|list| - 1]) != Less
    ensures Take(Inserted(Upto, list, d), cap) == list
  {
    NotLess(d, list[|list| - 1]);
    UptoIsOrder();
    TooLate(Upto, list, cap, d);
  }

  /** One report more in a bounded list. */
  lemma SamplePushed(list: seq<Diagnostic>, code: string, cap: nat, d: Diagnostic)
    requires SampleOk(list, code, cap) && d.code == code
    ensures SampleOk(Take(Inserted(Upto, list, d), cap), code, cap)
  {
    UptoIsOrder();
    InsertedFacts(Upto, list, d);
    var longer := Inserted(Upto, list, d);
    forall x | x in Take(longer, cap) ensures x.code == code {
      assert x in multiset(longer);
    }
  }

  /** All codes but `todo` are merged. */
  ghost predicate MergedSoFar(mine: map<string, seq<Diagnostic>>, theirs: map<string, seq<Diagnostic>>,
                              now: map<string, seq<Diagnostic>>, todo: set<string>, cap: nat)
  {
    forall code :: ListOf(now, code) ==
      if code in todo then ListOf(mine, code) else Kept(Upto, ListOf(mine, code), ListOf(theirs, code), cap)
  }

  lemma MergedStep(mine: map<string, seq<Diagnostic>>, theirs: map<string, seq<Diagnostic>>,
                   now: map<string, seq<Diagnostic>>,
                   next: map<string, seq<Diagnostic>>, todo: set<string>, code: string, cap: nat)
    requires MergedSoFar(mine, theirs, now, todo, cap) && code in todo
    requires ListOf(next, code) == Kept(Upto, ListOf(now, code), ListOf(theirs, code), cap)
    requires forall c :: c != code ==> ListOf(next, c) == ListOf(now, c)
    ensures MergedSoFar(mine, theirs, next, todo - {code}, cap)
  {
  }

  /** The lists of all codes but `todo` are listed, one after the other. */
  ghost predicate ListsChosen(samples: map<string, seq<Diagnostic>>, listed: seq<Diagnostic>, todo: set<string>) {
    forall code :: Chosen(listed, OfCode(code)) == if code in todo then [] else ListOf(samples, code)
  }

  ghost predicate Earlier(listed: seq<Diagnostic>, todo: set<string>) {
    forall d, code :: d in listed && code in todo ==> CmpText(d.code, code).Less?
  }

  lemma EarlierStep(listed: seq<Diagnostic>, list: seq<Diagnostic>, todo: set<string>, code: string)
    requires Earlier(listed, todo) && code in todo
    requires forall d :: d in list ==> d.code == code
    requires forall c :: c in todo && c != code ==> CmpText(code, c).Less?
    ensures Earlier(listed + list, todo - {code})
  {
  }

  lemma ListedAt(list: seq<Diagnostic>, listed: seq<Diagnostic>, code: string, c: string)
    requires forall d :: d in list ==> d.code == code
    ensures Chosen(listed + list, OfCode(c)) == Chosen(listed, OfCode(c)) + (if c == code then list else [])
  {
    ChosenAppend(listed, list, OfCode(c));
    ChosenWhole(list, code, c);
  }

  lemma ListsStep(samples: map<string, seq<Diagnostic>>, listed: seq<Diagnostic>, todo: set<string>, code: string,
                  cap: nat)
    requires ListsChosen(samples, listed, todo) && code in todo && SampleOk(ListOf(samples, code), code, cap)
    ensures ListsChosen(samples, listed + ListOf(samples, code), todo - {code})
  {
    var list := ListOf(samples, code);
    forall c ensures Chosen(listed + list, OfCode(c)) == if c in todo - {code} then [] else ListOf(samples, c) {
      ListedAt(list, listed, code, c);
      assert Chosen(listed, OfCode(c)) == if c in todo then [] else ListOf(samples, c);
      assert [] + list == list && Chosen(listed, OfCode(c)) + [] == Chosen(listed, OfCode(c));
    }
  }

  /** The samples are the first `cap` of the reports of each code. */
  ghost predicate Tops(samples: map<string, seq<Diagnostic>>, all: seq<Diagnostic>, cap: nat) {
    forall code :: ListOf(samples, code) == Top(all, code, cap)
  }

  lemma TopsPushed(before: map<string, seq<Diagnostic>>, now: map<string, seq<Diagnostic>>, all: seq<Diagnostic>,
                   d: Diagnostic,
                   cap: nat)
    requires Tops(before, all, cap)
    requires ListOf(now, d.code) == Take(Inserted(Upto, ListOf(before, d.code), d), cap)
    requires forall code :: code != d.code ==> ListOf(now, code) == ListOf(before, code)
    ensures Tops(now, all + [d], cap)
  {
    forall code ensures ListOf(now, code) == Top(all + [d], code, cap) {
      TopPushed(all, d, code, cap);
      assert ListOf(before, code) == Top(all, code, cap);
    }
  }

  lemma TopsMerged(mine: map<string, seq<Diagnostic>>, theirs: map<string, seq<Diagnostic>>,
                   now: map<string, seq<Diagnostic>>,
                   all: seq<Diagnostic>, more: seq<Diagnostic>, cap: nat, bound: nat)
    requires Tops(mine, all, cap) && Tops(theirs, more, bound)
    requires cap <= bound || forall code :: |Chosen(more, OfCode(code))| <= bound
    requires forall code :: ListOf(now, code) == Kept(Upto, ListOf(mine, code), ListOf(theirs, code), cap)
    ensures Tops(now, all + more, cap)
  {
    forall code ensures ListOf(now, code) == Top(all + more, code, cap) {
      TopMerged(all, more, code, cap, bound);
      assert ListOf(mine, code) == Top(all, code, cap) && ListOf(theirs, code) == Top(more, code, bound);
    }
  }

  lemma NothingKept(samples: map<string, seq<Diagnostic>>, code: string)
    requires SamplesOk(samples, 0)
    ensures ListOf(samples, code) == []
  {
    assert SampleOk(ListOf(samples, code), code, 0);
  }

  predicate Short(counts: map<string, nat>, samples: map<string, seq<Diagnostic>>, code: string) {
    CountIn(counts, code) > |ListOf(samples, code)|
  }

  /** Some listed code outside `todo` has more reports than samples. */
  ghost predicate ShortListed(counts: map<string, nat>, samples: map<string, seq<Diagnostic>>, todo: set<string>) {
    exists code :: code in samples && code !in todo && Short(counts, samples, code)
  }

  lemma ShortStep(counts: map<string, nat>, samples: map<string, seq<Diagnostic>>, todo: set<string>, code: string)
    requires code in todo && code in samples
    ensures ShortListed(counts, samples, todo - {code})
            <==> ShortListed(counts, samples, todo) || Short(counts, samples, code)
  {
    if c :| c in samples && c !in todo - {code} && Short(counts, samples, c) {
      if c != code { assert c !in todo; }
    }
    if c :| c in samples && c !in todo && Short(counts, samples, c) { assert c !in todo - {code}; }
    if Short(counts, samples, code) { assert code !in todo - {code}; }
  }

  /** How far the listing is: all codes but `todo` are in the list, and the flag knows them. */
  ghost predicate Listing(counts: map<string, nat>, samples: map<string, seq<Diagnostic>>, listed: seq<Diagnostic>,
                          todo: set<string>, flag: bool)
  {
    && Sorted(Upto, listed) && Earlier(listed, todo) && ListsChosen(samples, listed, todo)
    && (flag <==> ShortListed(counts, samples, todo))
  }

  lemma ListingStep(counts: map<string, nat>, samples: map<string, seq<Diagnostic>>, cap: nat, listed: seq<Diagnostic>,
                    todo: set<string>, flag: bool, code: string)
    requires Listing(counts, samples, listed, todo, flag) && SamplesOk(samples, cap)
    requires code in todo && code in samples && forall c :: c in todo && c != code ==> CmpText(code, c).Less?
    ensures Listing(counts, samples, listed + samples[code], todo - {code}, flag || Short(counts, samples, code))
  {
    SampleOkAt(samples, code, cap);
    ListedNext(listed, samples[code], code);
    EarlierStep(listed, samples[code], todo, code);
    ListsStep(samples, listed, todo, code, cap);
    ShortStep(counts, samples, todo, code);
  }

  /** A code that is counted but has no samples. */
  lemma Unlisted(counts: map<string, nat>, samples: map<string, seq<Diagnostic>>, d: Diagnostic, cap: nat)
    requires CodesCounted(counts, [d]) && SamplesOk(samples, cap) && forall code :: ListOf(samples, code) == []
    ensures CountIn(counts, d.code) == 1 && Short(counts, samples, d.code) && !ShortListed(counts, samples, {})
  {
    ChosenMore([], d, OfCode(d.code));
    assert [] + [d] == [d];
    assert CountIn(counts, d.code) == |Chosen([d], OfCode(d.code))|;
    forall code ensures code !in samples { assert ListOf(samples, code) == []; }
  }

  // ---------------------------------------------------------------- the sink

  class DiagSink {
    const cap: nat
    var counts: map<string, nat>
    var samples: map<string, seq<Diagnostic>>
    var bySeverity: seq<nat>

    function CountOf(code: string): nat
      reads this
    {
      CountIn(counts, code)
    }

    function SamplesOf(code: string): seq<Diagnostic>
      reads this
    {
      ListOf(samples, code)
    }

    /** The counters are those of the reports `all`. */
    ghost predicate Counts(all: seq<Diagnostic>)
      reads this
    {
      SeveritiesCounted(bySeverity, all) && CodesCounted(counts, all)
    }

    /** What every sink keeps, whatever it merged: exact counters and orderly samples. */
    ghost predicate Sound(all: seq<Diagnostic>)
      reads this
    {
      Counts(all) && SamplesOk(samples, cap)
    }

    /** The samples are the first `cap` of the reports of each code. */
    ghost predicate Holds(all: seq<Diagnostic>)
      reads this
    {
      Sound(all) && Tops(samples, all, cap)
    }

    /** Some code had more reports than it has samples: what the summary's flag is documented to say. */
    ghost predicate Lossy()
      reads this
    {
      exists code :: Short(counts, samples, code)
    }

    /** When the flag can be trusted: nothing is ever kept, or every counted code has samples, or a code
        with samples is short anyway. */
    ghost predicate FlagTells()
      reads this
    {
      cap == 0 || (forall code :: code in counts ==> code in samples) || ShortListed(counts, samples, {})
    }

    constructor (cap: nat)
      ensures Holds([]) && this.cap == cap
    {
      this.cap := cap;
      counts, samples, bySeverity := map[], map[], [0, 0, 0, 0];
    }

    method Push(d: Diagnostic, ghost all: seq<Diagnostic>)
      requires Sound(all)
      modifies this
      ensures Sound(all + [d])
      ensures old(Holds(all)) ==> Holds(all + [d])
    {
      Count(d, all);
      KeepSample(d);
      if old(Holds(all)) { TopsPushed(old(samples), samples, all, d, cap); }
    }

    method Count(d: Diagnostic, ghost all: seq<Diagnostic>)
      requires Counts(all)
      modifies this`counts, this`bySeverity
      ensures Counts(all + [d])
    {
      CodesPushed(counts, all, d);
      SeveritiesPushed(bySeverity, all, d);
      counts := counts[d.code := CountOf(d.code) + 1];
      bySeverity := bySeverity[Slot(d.severity) := bySeverity[Slot(d.severity)] + 1];
    }

    /** Keeps a report when it sorts among the first `cap` of its code. */
    method KeepSample(d: Diagnostic)
      requires SamplesOk(samples, cap)
      modifies this`samples
      ensures SamplesOk(samples, cap)
      ensures ListOf(samples, d.code) == Take(Inserted(Upto, ListOf(old(samples), d.code), d), cap)
      ensures forall code :: code != d.code ==> ListOf(samples, code) == ListOf(old(samples), code)
    {
      SampleOkAt(samples, d.code, cap);
      if cap == 0 {
        return;
      }
      var list := SamplesOf(d.code);
      if |list| >= cap && Order(d, list[|list| - 1]) != Less {
        LateReport(list, cap, d);
        return;
      }
      SamplePushed(list, d.code, cap, d);
      list := Inserted(Upto, list, d);
      list := if |list| > cap then list[..cap] else list;
      SamplesUpdated(samples, d.code, list, cap);
      samples := samples[d.code := list];
    }

    /** Nothing a merge into a sink of this cap would need was dropped. */
    ghost predicate Enough(all: seq<Diagnostic>, wanted: nat) {
      wanted <= cap || forall code :: |Chosen(all, OfCode(code))| <= cap
    }

    /** Folds another sink into this one. The counters are exact in any case; the samples are when
        the other sink did not drop what this one would keep. */
    method Merge(other: DiagSink, ghost all: seq<Diagnostic>, ghost more: seq<Diagnostic>)
      requires other != this && Sound(all) && other.Sound(more)
      modifies this
      ensures Sound(all + more)
      ensures forall code ::
              ListOf(samples, code) == Kept(Upto, ListOf(old(samples), code), ListOf(other.samples, code), cap)
      ensures old(Holds(all)) && other.Holds(more) && other.Enough(more, cap) ==> Holds(all + more)
    {
      MergeCounts(other, all, more);
      MergeSamples(other);
      if old(Holds(all)) && other.Holds(more) && other.Enough(more, cap) {
        TopsMerged(old(samples), other.samples, samples, all, more, cap, other.cap);
      }
    }

    method MergeCounts(other: DiagSink, ghost all: seq<Diagnostic>, ghost more: seq<Diagnostic>)
      requires other != this && Counts(all) && other.Counts(more)
      modifies this`counts, this`bySeverity
      ensures Counts(all + more)
    {
      MergeCodes(other);
      CodesMerged(old(counts), other.counts, counts, all, more);
      var mine, theirs := bySeverity, other.bySeverity;
      bySeverity := seq(4, i requires 0 <= i < 4 => mine[i] + theirs[i]);
      SeveritiesMerged(mine, theirs, bySeverity, all, more);
    }

    method MergeCodes(other: DiagSink)
      requires other != this && forall code :: code in counts ==> counts[code] > 0
      requires forall code :: code in other.counts ==> other.counts[code] > 0
      modifies this`counts
      ensures forall code :: CountIn(counts, code) == CountIn(old(counts), code) + CountIn(other.counts, code)
      ensures forall code :: code in counts ==> counts[code] > 0
    {
      var todo := other.counts.Keys;
      while todo != {}
        invariant todo <= other.counts.Keys
        invariant forall code :: CountIn(counts, code) ==
                    CountIn(old(counts), code) + (if code in todo then 0 else CountIn(other.counts, code))
        invariant forall code :: code in counts ==> counts[code] > 0
        decreases |todo|
      {
        var code :| code in todo;
        counts := counts[code := CountOf(code) + other.counts[code]];
        todo := todo - {code};
      }
    }

    method MergeSamples(other: DiagSink)
      requires other != this && SamplesOk(samples, cap) && SamplesOk(other.samples, other.cap)
      modifies this`samples
      ensures SamplesOk(samples, cap)
      ensures forall code ::
              ListOf(samples, code) == Kept(Upto, ListOf(old(samples), code), ListOf(other.samples, code), cap)
    {
      var todo := other.samples.Keys;
      while todo != {}
        invariant todo <= other.samples.Keys
        invariant SamplesOk(samples, cap)
        invariant MergedSoFar(old(samples), other.samples, samples, todo, cap)
        decreases |todo|
      {
        var code :| code in todo;
        ghost var before := samples;
        assert SampleOk(ListOf(other.samples, code), code, other.cap);
        MergeList(code, ListOf(other.samples, code));
        MergedStep(old(samples), other.samples, before, samples, todo, code, cap);
        todo := todo - {code};
      }
    }

    method MergeList(code: string, list: seq<Diagnostic>)
      requires SamplesOk(samples, cap) && forall d :: d in list ==> d.code == code
      modifies this`samples
      ensures SamplesOk(samples, cap)
      ensures ListOf(samples, code) == Kept(Upto, ListOf(old(samples), code), list, cap)
      ensures forall c :: c != code ==> ListOf(samples, c) == ListOf(old(samples), c)
    {
      for i := 0 to |list|
        invariant SamplesOk(samples, cap)
        invariant ListOf(samples, code) == Kept(Upto, ListOf(old(samples), code), list[..i], cap)
        invariant forall c :: c != code ==> ListOf(samples, c) == ListOf(old(samples), c)
      {
        assert list[i] in list && list[..i + 1][..i] == list[..i];
        KeepSample(list[i]);
      }
      assert list[..|list|] == list;
    }

    /** The samples of all codes in one sorted list, and a flag. For every sink, whatever it merged, the
        list is that of all samples, and the flag says whether a code has more reports than samples
        exactly when `FlagTells`. */
    method Summary(ghost all: seq<Diagnostic>) returns (listed: seq<Diagnostic>, truncated: bool)
      requires Sound(all)
      ensures Sorted(Upto, listed)
      ensures forall code :: Chosen(listed, OfCode(code)) == SamplesOf(code)
      ensures truncated <==> ShortListed(counts, samples, {}) || (cap == 0 && |counts| > 0)
      ensures (truncated <==> Lossy()) <==> FlagTells()
      ensures Holds(all) ==> (truncated <==> exists code :: |Chosen(all, OfCode(code))| > cap)
    {
      listed, truncated := ListSamples(counts, samples, cap);
      if cap == 0 && |counts| > 0 {
        truncated := true;
      }
      FlagMeaning(all, truncated);
      if Holds(all) { HeldFlag(all, truncated); }
    }

    lemma FlagMeaning(all: seq<Diagnostic>, flag: bool)
      requires Sound(all) && (flag <==> ShortListed(counts, samples, {}) || (cap == 0 && |counts| > 0))
      ensures (flag <==> Lossy()) <==> FlagTells()
    {
      if cap == 0 {
        forall code ensures Short(counts, samples, code) <==> code in counts {
          assert SampleOk(ListOf(samples, code), code, cap);
        }
        if |counts| > 0 { var code :| code in counts; assert Short(counts, samples, code); }
      } else if code :| code in counts && code !in samples {
        assert Short(counts, samples, code);
      }
    }

    /** A sink that kept what it should always tells. */
    lemma HeldFlag(all: seq<Diagnostic>, flag: bool)
      requires Holds(all) && (flag <==> ShortListed(counts, samples, {}) || (cap == 0 && |counts| > 0))
      ensures FlagTells() && (flag <==> exists code :: |Chosen(all, OfCode(code))| > cap)
    {
      FlagMeaning(all, flag);
      forall code ensures Short(counts, samples, code) <==> |Chosen(all, OfCode(code))| > cap {
        TopSorted(all, code, cap);
        assert SamplesOf(code) == Top(all, code, cap) && CountIn(counts, code) == |Chosen(all, OfCode(code))|;
      }
      forall code | code in counts && cap > 0 ensures code in samples {
        TopSorted(all, code, cap);
        assert SamplesOf(code) == Top(all, code, cap) && CountIn(counts, code) == |Chosen(all, OfCode(code))|;
      }
      if code :| |Chosen(all, OfCode(code))| > cap { assert Short(counts, samples, code); }
    }
  }

  /** A sink that merged one report from a sink of cap zero. */
  method MergedFromNothing(d: Diagnostic) returns (target: DiagSink)
    ensures fresh(target) && target.cap == 5 && target.Sound([d])
    ensures forall code :: ListOf(target.samples, code) == []
  {
    var source := new DiagSink(0);
    source.Push(d, []);
    assert [] + [d] == [d];
    target := new DiagSink(5);
    target.Merge(source, [], [d]);
    forall code ensures ListOf(target.samples, code) == [] { NothingKept(source.samples, code); }
  }

  /** The flag can fail: a report that a source of cap zero counted but did not keep. The target counts
      it, has no sample of it, and its summary says that nothing is missing. */
  method CountedNotKept(d: Diagnostic) returns (target: DiagSink, truncated: bool)
    ensures target.Sound([d]) && target.Lossy() && !truncated
    ensures target.CountOf(d.code) == 1 && target.SamplesOf(d.code) == []
  {
    target := MergedFromNothing(d);
    Unlisted(target.counts, target.samples, d, target.cap);
    var listed;
    listed, truncated := target.Summary([d]);
  }

  /** The next list starts with a later code than anything listed so far. */
  lemma ListedNext(listed: seq<Diagnostic>, list: seq<Diagnostic>, code: string)
    requires Sorted(Upto, listed) && Sorted(Upto, list)
    requires forall d :: d in list ==> d.code == code
    requires forall d :: d in listed ==> CmpText(d.code, code).Less?
    ensures Sorted(Upto, listed + list)
  {
    var both := listed + list;
    forall i, j | 0 <= i < j < |both| ensures Upto(both[i], both[j]) {
      if i < |listed| <= j {
        assert both[i] in listed && both[j] in list;
        EarlierCode(both[i], both[j]);
      }
    }
  }

  lemma EarlierCode(a: Diagnostic, b: Diagnostic)
    requires CmpText(a.code, b.code).Less?
    ensures Upto(a, b)
  {
  }

  lemma {:induction false} ChosenWhole(list: seq<Diagnostic>, code: string, c: string)
    requires forall d :: d in list ==> d.code == code
    ensures Chosen(list, OfCode(c)) == if c == code then list else []
    decreases |list|
  {
    if list != [] {
      var n := |list| - 1;
      assert list == list[..n] + [list[n]] && list[n] in list;
      ChosenWhole(list[..n], code, c);
    }
  }

  /** Lists the samples code by code, and finds out whether a listed code is short. */
  method ListSamples(counts: map<string, nat>, samples: map<string, seq<Diagnostic>>, ghost cap: nat)
    returns (listed: seq<Diagnostic>, truncated: bool)
    requires SamplesOk(samples, cap)
    ensures Listing(counts, samples, listed, {}, truncated)
  {
    listed, truncated := [], false;
    var todo := samples.Keys;
    while todo != {}
      invariant todo <= samples.Keys
      invariant Listing(counts, samples, listed, todo, truncated)
      decreases |todo|
    {
      var code := LeastCode(todo);
      ListingStep(counts, samples, cap, listed, todo, truncated, code);
      listed := listed + samples[code];
      if CountIn(counts, code) > |samples[code]| {
        truncated := true;
      }
      todo := todo - {code};
    }
  }

  method LeastCode(codes: set<string>) returns (least: string)
    requires codes != {}
    ensures least in codes && forall c :: c in codes && c != least ==> CmpText(least, c).Less?
  {
    least :| least in codes;
    var todo := codes - {least};
    while todo != {}
      invariant todo <= codes && least in codes && least !in todo
      invariant forall c :: c in codes && c !in todo && c != least ==> CmpText(least, c).Less?
      decreases |todo|
    {
      var next :| next in todo;
      todo := todo - {next};
      var was := least;
      if CmpText(next, least).Less? {
        least := next;
      }
      TextsLawful(next, was, next);
      forall c | c in codes && c !in todo && c != least ensures CmpText(least, c).Less? {
        TextsLawful(least, was, c);
      }
    }
  }

  lemma SlotsApart()
    ensures forall a, b :: Slot(a) == Slot(b) <==> a == b
  {
  }

  lemma NotLess(d: Diagnostic, last: Diagnostic)
    ensures Order(d, last) != Less <==> Upto(last, d)
  {
    OrderLawful(d, last, d);
  }

  // ---------------------------------------------------------------- many sinks

  function Everything(alls: seq<seq<Diagnostic>>): seq<Diagnostic>
    decreases |alls|
  {
    if alls == [] then [] else Everything(alls[..|alls| - 1]) + alls[|alls| - 1]
  }

  /** Merges many sinks into one with the given cap. */
  method MergeAll(sinks: seq<DiagSink>, cap: nat, ghost alls: seq<seq<Diagnostic>>) returns (out: DiagSink)
    requires |alls| == |sinks| && forall i :: 0 <= i < |sinks| ==> sinks[i].Sound(alls[i])
    ensures out.Sound(Everything(alls)) && out.cap == cap
    ensures (forall i :: 0 <= i < |sinks| ==> sinks[i].Holds(alls[i]) && sinks[i].Enough(alls[i], cap))
            ==> out.Holds(Everything(alls))
  {
    out := new DiagSink(cap);
    ghost var whole := forall i :: 0 <= i < |sinks| ==> sinks[i].Holds(alls[i]) && sinks[i].Enough(alls[i], cap);
    for i := 0 to |sinks|
      invariant out.Sound(Everything(alls[..i])) && out.cap == cap
      invariant whole ==> out.Holds(Everything(alls[..i]))
      invariant out !in sinks
      invariant forall k :: 0 <= k < |sinks| ==> sinks[k].Sound(alls[k])
      invariant whole ==> forall k :: 0 <= k < |sinks| ==> sinks[k].Holds(alls[k]) && sinks[k].Enough(alls[k], cap)
    {
      assert alls[..i + 1][..i] == alls[..i];
      out.Merge(sinks[i], Everything(alls[..i]), alls[i]);
    }
    assert alls[..|alls|] == alls;
  }

  /** Two sinks of one cap that stand for the same reports, in whatever order and partition, are the
      same in every counter and every sample. */
  lemma SameReportsSameSink(a: DiagSink, b: DiagSink, all: seq<Diagnostic>, all': seq<Diagnostic>)
    requires a.Holds(all) && b.Holds(all') && multiset(all) == multiset(all') && a.cap == b.cap
    ensures a.bySeverity == b.bySeverity
    ensures forall code :: a.CountOf(code) == b.CountOf(code) && a.SamplesOf(code) == b.SamplesOf(code)
    ensures a.counts == b.counts
  {
    forall sel ensures |Chosen(all, sel)| == |Chosen(all', sel)| { ChosenPermuted(all, all', sel); }
    forall code ensures a.SamplesOf(code) == b.SamplesOf(code) { TopPermuted(all, all', code, a.cap); }
    forall i | 0 <= i < 4 ensures a.bySeverity[i] == b.bySeverity[i] {
      var s := if i == 0 then Error else if i == 1 then Warning else if i == 2 then Info else Hint;
      assert a.bySeverity[Slot(s)] == b.bySeverity[Slot(s)];
    }
    forall code ensures code in a.counts <==> code in b.counts {
      assert a.CountOf(code) == b.CountOf(code);
    }
    forall code | code in a.counts ensures a.counts[code] == b.counts[code] {
      assert a.CountOf(code) == b.CountOf(code);
    }
  }
}
