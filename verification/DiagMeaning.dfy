/** The order of diagnostics and what a sink keeps, told field by field. */
module DiagMeaning {
  import opened Wrappers
  import opened Diagnostics
  import opened Sorting
  import opened DiagSinks

  // ---------------------------------------------------------------- which of two comes first

  /** None before some, and smaller numbers first. */
  predicate NumberBefore(a: Option<nat>, b: Option<nat>) { b.Some? && (a.None? || a.value < b.value) }

  /** Lines and columns before byte ranges; line, then column; start, then end. */
  predicate SpanBefore(a: Span, b: Span) {
    || (a.LineCol? && b.Bytes?)
    || (a.LineCol? && b.LineCol? && (a.line < b.line || (a.line == b.line && a.column < b.column)))
    || (a.Bytes? && b.Bytes? && (a.start < b.start || (a.start == b.start && a.end < b.end)))
  }

  predicate PlaceBefore(a: Option<Span>, b: Option<Span>) { b.Some? && (a.None? || SpanBefore(a.value, b.value)) }

  predicate SeverityBefore(a: Severity, b: Severity) {
    (a.Error? && !b.Error?) || (a.Warning? && (b.Info? || b.Hint?)) || (a.Info? && b.Hint?)
  }

  predicate ArgBefore(a: (string, string), b: (string, string)) {
    TextBefore(a.0, b.0) || (a.0 == b.0 && TextBefore(a.1, b.1))
  }

  predicate ArgsBefore(a: seq<(string, string)>, b: seq<(string, string)>) {
    exists n :: 0 <= n <= |a| && n < |b| && a[..n] == b[..n] && (n == |a| || ArgBefore(a[n], b[n]))
  }

  /** In the first field that differs - code, mod, file, place, message, severity, arguments - `a` is the smaller. */
  predicate SortsBefore(a: Diagnostic, b: Diagnostic) {
    || TextBefore(a.code, b.code)
    || (a.code == b.code
        && (|| NumberBefore(a.modIdx, b.modIdx)
            || (a.modIdx == b.modIdx
                && (|| NumberBefore(a.file, b.file)
                    || (a.file == b.file
                        && (|| PlaceBefore(a.span, b.span)
                            || (a.span == b.span
                                && (|| TextBefore(a.message, b.message)
                                    || (a.message == b.message
                                        && (|| SeverityBefore(a.severity, b.severity)
                                            || (a.severity == b.severity && ArgsBefore(a.args, b.args))))))))))))
  }

  // ---------------------------------------------------------------- the comparison means that

  lemma {:induction false} ArgsOrder(a: seq<(string, string)>, b: seq<(string, string)>)
    ensures CmpArgs(a, b).Less? <==> ArgsBefore(a, b)
    ensures CmpArgs(a, b).Equal? <==> a == b
    decreases |a|
  {
    ArgsLawful(a, b, b);
    if a == [] {
      assert b != [] ==> a[..0] == b[..0];
    } else if b != [] {
      ArgsOrder(a[1..], b[1..]);
      TextOrder(a[0].0, b[0].0);
      TextOrder(a[0].1, b[0].1);
      ArgsBeforeTail(a, b);
    }
  }

  lemma ArgsBeforeTail(a: seq<(string, string)>, b: seq<(string, string)>)
    requires a != [] && b != []
    ensures ArgsBefore(a, b) <==> ArgBefore(a[0], b[0]) || (a[0] == b[0] && ArgsBefore(a[1..], b[1..]))
  {
    if n :| 0 <= n <= |a| && n < |b| && a[..n] == b[..n] && (n == |a| || ArgBefore(a[n], b[n])) {
      if n > 0 { SamePrefix(a, b, n); }
    }
    if ArgBefore(a[0], b[0]) { assert a[..0] == b[..0]; }
    var a', b' := a[1..], b[1..];
    if n :| a[0] == b[0] && 0 <= n <= |a'| && n < |b'| && a'[..n] == b'[..n] && (n == |a'| || ArgBefore(a'[n], b'[n])) {
      SamePrefix(a, b, n + 1);
    }
  }

  lemma SmallOrders(a: Diagnostic, b: Diagnostic)
    ensures CmpOption(a.modIdx, b.modIdx).Less? <==> NumberBefore(a.modIdx, b.modIdx)
    ensures CmpOption(a.modIdx, b.modIdx).Equal? <==> a.modIdx == b.modIdx
    ensures CmpOption(a.file, b.file).Less? <==> NumberBefore(a.file, b.file)
    ensures CmpOption(a.file, b.file).Equal? <==> a.file == b.file
    ensures CmpSpans(a.span, b.span).Less? <==> PlaceBefore(a.span, b.span)
    ensures CmpSpans(a.span, b.span).Equal? <==> a.span == b.span
    ensures CmpNat(Slot(a.severity), Slot(b.severity)).Less? <==> SeverityBefore(a.severity, b.severity)
    ensures CmpNat(Slot(a.severity), Slot(b.severity)).Equal? <==> a.severity == b.severity
  {
  }

  /** The sort key compares exactly so. */
  lemma OrderMeaning(a: Diagnostic, b: Diagnostic)
    ensures Order(a, b).Less? <==> SortsBefore(a, b)
    ensures Order(a, b).Equal? <==> a == b
  {
    SmallOrders(a, b);
    TextOrder(a.code, b.code);
    TextOrder(a.message, b.message);
    ArgsOrder(a.args, b.args);
  }

  /** No later one of the list belongs before an earlier one. */
  ghost predicate Listed(s: seq<Diagnostic>) {
    forall i, j :: 0 <= i < j < |s| ==> !SortsBefore(s[j], s[i])
  }

  lemma UptoMeaning(a: Diagnostic, b: Diagnostic)
    ensures Upto(a, b) <==> !SortsBefore(b, a)
  {
    OrderLawful(a, b, b);
    OrderMeaning(b, a);
  }

  lemma SortedMeaning(s: seq<Diagnostic>)
    ensures Sorted(Upto, s) <==> Listed(s)
  {
    forall i, j | 0 <= i < j < |s| ensures Upto(s[i], s[j]) <==> !SortsBefore(s[j], s[i]) { UptoMeaning(s[i], s[j]); }
  }

  // ---------------------------------------------------------------- what is kept

  /** The samples of a code: in order, of that code, no more than were reported, and none of them belongs
      after a report of the code that was dropped. */
  ghost predicate BestOf(all: seq<Diagnostic>, code: string, kept: seq<Diagnostic>) {
    && Listed(kept)
    && (forall d :: d in kept ==> d.code == code)
    && (forall d: Diagnostic :: multiset(kept)[d] <= multiset(all)[d])
    && (forall d: Diagnostic, k :: k in kept && d.code == code && multiset(kept)[d] < multiset(all)[d] ==>
      !SortsBefore(d, k))
  }

  /** How many reports have the code. */
  function Reports(all: seq<Diagnostic>, code: string): nat {
    if all == [] then 0 else (if all[0].code == code then 1 else 0) + Reports(all[1..], code)
  }

  lemma {:induction false} ReportsMore(all: seq<Diagnostic>, code: string)
    requires all != []
    ensures var n := |all| - 1; Reports(all, code) == Reports(all[..n], code) + if all[n].code == code then 1 else 0
    decreases |all|
  {
    var n := |all| - 1;
    if n > 0 {
      ReportsMore(all[1..], code);
      assert all[1..][..n - 1] == all[..n][1..];
    } else {
      assert all[1..] == [] && all[..0] == [];
    }
  }

  lemma {:induction false} ReportsChosen(all: seq<Diagnostic>, code: string)
    ensures |Chosen(all, OfCode(code))| == Reports(all, code)
    decreases |all|
  {
    if all != [] {
      ReportsChosen(all[..|all| - 1], code);
      ReportsMore(all, code);
    }
  }

  /** Nothing behind the front of a sorted list belongs before anything in it. */
  lemma FrontOfSorted(whole: seq<Diagnostic>, n: nat, d: Diagnostic, k: Diagnostic)
    requires Sorted(Upto, whole) && n <= |whole| && k in whole[..n] && multiset(whole[..n])[d] < multiset(whole)[d]
    ensures !SortsBefore(d, k)
  {
    var rest := whole[n..];
    BehindFront(whole, n, d);
    var i :| 0 <= i < n && whole[..n][i] == k;
    var j :| 0 <= j < |rest| && rest[j] == d;
    assert whole[i] == k && whole[n + j] == d;
    UptoMeaning(k, d);
  }

  lemma BehindFront(whole: seq<Diagnostic>, n: nat, d: Diagnostic)
    requires n <= |whole| && multiset(whole[..n])[d] < multiset(whole)[d]
    ensures d in whole[n..]
  {
    assert whole == whole[..n] + whole[n..];
    assert multiset(whole[n..])[d] > 0;
  }

  lemma FrontCounts(whole: seq<Diagnostic>, n: nat)
    requires n <= |whole|
    ensures forall d: Diagnostic :: multiset(whole[..n])[d] <= multiset(whole)[d]
  {
    assert whole == whole[..n] + whole[n..];
  }

  lemma TopMeaning(all: seq<Diagnostic>, code: string, cap: nat)
    ensures BestOf(all, code, Top(all, code, cap))
    ensures |Top(all, code, cap)| == if Reports(all, code) < cap then Reports(all, code) else cap
  {
    var chosen := Chosen(all, OfCode(code));
    var whole := Folded(Upto, [], chosen);
    ReportsChosen(all, code);
    TopSorted(all, code, cap);
    SortedMeaning(Top(all, code, cap));
    UptoIsOrder();
    FoldedFacts(Upto, [], chosen);
    assert multiset(whole) == multiset(chosen);
    ChosenCount(all, OfCode(code));
    FrontOfCode(all, code, whole, Top(all, code, cap));
  }

  lemma FrontOfCode(all: seq<Diagnostic>, code: string, whole: seq<Diagnostic>, kept: seq<Diagnostic>)
    requires Sorted(Upto, whole) && |kept| <= |whole| && kept == whole[..|kept|] && Listed(kept)
    requires forall d: Diagnostic :: multiset(whole)[d] == if Selects(OfCode(code), d) then multiset(all)[d] else 0
    requires forall d :: d in kept ==> d.code == code
    ensures BestOf(all, code, kept)
  {
    FrontCounts(whole, |kept|);
    forall d: Diagnostic ensures multiset(kept)[d] <= multiset(all)[d] {
      assert multiset(whole[..|kept|])[d] <= multiset(whole)[d];
    }
    forall d: Diagnostic, k | k in kept && d.code == code && multiset(kept)[d] < multiset(all)[d]
      ensures !SortsBefore(d, k) {
      FrontOfSorted(whole, |kept|, d, k);
    }
  }

  /** What a sink that dropped nothing it needed holds: exact counters, and of each code the best samples. */
  lemma SinkMeaning(sink: DiagSink, all: seq<Diagnostic>, code: string)
    requires sink.Holds(all)
    ensures BestOf(all, code, sink.SamplesOf(code))
    ensures |sink.SamplesOf(code)| == if Reports(all, code) < sink.cap then Reports(all, code) else sink.cap
    ensures sink.CountOf(code) == Reports(all, code)
  {
    TopMeaning(all, code, sink.cap);
    ReportsChosen(all, code);
    assert ListOf(sink.samples, code) == Top(all, code, sink.cap);
    assert CountIn(sink.counts, code) == |Chosen(all, OfCode(code))|;
  }

  /** How many reports have the severity. */
  function Graded(all: seq<Diagnostic>, severity: Severity): nat {
    if all == [] then 0 else (if all[0].severity == severity then 1 else 0) + Graded(all[1..], severity)
  }

  lemma {:induction false} GradedChosen(all: seq<Diagnostic>, severity: Severity)
    ensures |Chosen(all, OfSeverity(severity))| == Graded(all, severity)
    decreases |all|
  {
    if all != [] {
      var rest := all[1..];
      GradedChosen(rest, severity);
      assert all == [all[0]] + rest;
      ChosenAppend([all[0]], rest, OfSeverity(severity));
      assert [all[0]][..0] == [];
    }
  }

  /** The severity counters of every sink, errors first. */
  lemma SeverityMeaning(sink: DiagSink, all: seq<Diagnostic>)
    requires sink.Sound(all)
    ensures sink.bySeverity == [Graded(all, Error), Graded(all, Warning), Graded(all, Info), Graded(all, Hint)]
  {
    GradedChosen(all, Error);
    GradedChosen(all, Warning);
    GradedChosen(all, Info);
    GradedChosen(all, Hint);
    assert sink.bySeverity[Slot(Error)] == Graded(all, Error) && sink.bySeverity[Slot(Warning)] == Graded(all, Warning);
    assert sink.bySeverity[Slot(Info)] == Graded(all, Info) && sink.bySeverity[Slot(Hint)] == Graded(all, Hint);
  }
}
