/** Diagnostics and the deterministic order they are listed in. */
module Diagnostics {
  import opened Sorting
  import opened Wrappers

  datatype Severity = Error | Warning | Info | Hint

  datatype Span = LineCol(line: nat, column: nat) | Bytes(start: nat, end: nat)

  /** The arguments are the entries of an ordered map. */
  datatype Diagnostic = Diagnostic(code: string, severity: Severity, modIdx: Option<nat>, file: Option<nat>,
                                   message: string, span: Option<Span>, args: seq<(string, string)>)

  datatype Ordering = Less | Equal | Greater

  function Then(first: Ordering, second: Ordering): Ordering { if first.Equal? then second else first }

  function Flip(o: Ordering): Ordering {
    match o case Less => Greater case Equal => Equal case Greater => Less
  }

  function Slot(s: Severity): (i: nat)
    ensures i < 4
  {
    match s case Error => 0 case Warning => 1 case Info => 2 case Hint => 3
  }

  function CmpNat(a: nat, b: nat): Ordering { if a < b then Less else if a == b then Equal else Greater }

  function CmpOption(a: Option<nat>, b: Option<nat>): Ordering {
    match (a, b)
    case (None, None) => Equal
    case (None, Some(_)) => Less
    case (Some(_), None) => Greater
    case (Some(x), Some(y)) => CmpNat(x, y)
  }

  function CmpSpan(a: Span, b: Span): Ordering {
    match (a, b)
    case (LineCol(l, c), LineCol(l', c')) => Then(CmpNat(l, l'), CmpNat(c, c'))
    case (LineCol(_, _), Bytes(_, _)) => Less
    case (Bytes(_, _), LineCol(_, _)) => Greater
    case (Bytes(s, e), Bytes(s', e')) => Then(CmpNat(s, s'), CmpNat(e, e'))
  }

  function CmpSpans(a: Option<Span>, b: Option<Span>): Ordering {
    match (a, b)
    case (None, None) => Equal
    case (None, Some(_)) => Less
    case (Some(_), None) => Greater
    case (Some(x), Some(y)) => CmpSpan(x, y)
  }

  function CmpText(a: string, b: string): Ordering {
    if a == "" then (if b == "" then Equal else Less)
    else if b == "" then Greater
    else Then(CmpNat(a[0] as nat, b[0] as nat), CmpText(a[1..], b[1..]))
  }

  function CmpArgs(a: seq<(string, string)>, b: seq<(string, string)>): Ordering {
    if a == [] then (if b == [] then Equal else Less)
    else if b == [] then Greater
    else Then(Then(CmpText(a[0].0, b[0].0), CmpText(a[0].1, b[0].1)), CmpArgs(a[1..], b[1..]))
  }

  /** The sort key: code, mod, file, span, message, severity, arguments. */
  function Order(a: Diagnostic, b: Diagnostic): Ordering {
    Then(CmpText(a.code, b.code),
    Then(CmpOption(a.modIdx, b.modIdx),
    Then(CmpOption(a.file, b.file),
    Then(CmpSpans(a.span, b.span),
    Then(CmpText(a.message, b.message),
    Then(CmpNat(Slot(a.severity), Slot(b.severity)), CmpArgs(a.args, b.args)))))))
  }

  // ---------------------------------------------------------------- a total order

  /** What a comparison of three values a, b, c must do. */
  datatype Three = Three(ab: Ordering, ba: Ordering, bc: Ordering, ac: Ordering, sameAb: bool, sameBc: bool)

  ghost predicate Lawful(t: Three) {
    && (t.ab.Equal? <==> t.sameAb)
    && t.ba == Flip(t.ab)
    && (t.ab.Less? && t.bc.Less? ==> t.ac.Less?)
    && (t.ab.Equal? ==> t.ac == t.bc)
    && (t.bc.Equal? ==> t.ac == t.ab)
    && (t.bc.Equal? <==> t.sameBc)
  }

  ghost function Both(t: Three, u: Three): Three {
    Three(Then(t.ab, u.ab), Then(t.ba, u.ba), Then(t.bc, u.bc), Then(t.ac, u.ac),
          t.sameAb && u.sameAb, t.sameBc && u.sameBc)
  }

  lemma BothLawful(t: Three, u: Three)
    requires Lawful(t) && Lawful(u)
    ensures Lawful(Both(t, u))
  {
  }

  ghost function Nats(a: nat, b: nat, c: nat): (t: Three)
    ensures Lawful(t)
  {
    Three(CmpNat(a, b), CmpNat(b, a), CmpNat(b, c), CmpNat(a, c), a == b, b == c)
  }

  ghost function Texts(a: string, b: string, c: string): Three {
    Three(CmpText(a, b), CmpText(b, a), CmpText(b, c), CmpText(a, c), a == b, b == c)
  }

  lemma {:induction false} TextsLawful(a: string, b: string, c: string)
    ensures Lawful(Texts(a, b, c))
    decreases |a| + |b| + |c|
  {
    if a != "" && b != "" && c != "" {
      TextsLawful(a[1..], b[1..], c[1..]);
      var head := Nats(a[0] as nat, b[0] as nat, c[0] as nat);
      BothLawful(head, Texts(a[1..], b[1..], c[1..]));
      assert a == [a[0]] + a[1..] && b == [b[0]] + b[1..] && c == [c[0]] + c[1..];
    } else if a != "" && b != "" {
      TextsLawful(a[1..], b[1..], "");
      assert a == [a[0]] + a[1..] && b == [b[0]] + b[1..];
    } else if b != "" && c != "" {
      TextsLawful("", b[1..], c[1..]);
      assert b == [b[0]] + b[1..] && c == [c[0]] + c[1..];
    }
  }

  ghost function ArgLists(a: seq<(string, string)>, b: seq<(string, string)>, c: seq<(string, string)>): Three {
    Three(CmpArgs(a, b), CmpArgs(b, a), CmpArgs(b, c), CmpArgs(a, c), a == b, b == c)
  }

  ghost function Entries(a: (string, string), b: (string, string), c: (string, string)): Three {
    Both(Texts(a.0, b.0, c.0), Texts(a.1, b.1, c.1))
  }

  lemma EntriesLawful(a: (string, string), b: (string, string), c: (string, string))
    ensures Lawful(Entries(a, b, c)) && Entries(a, b, c).sameAb == (a == b) && Entries(a, b, c).sameBc == (b == c)
  {
    TextsLawful(a.0, b.0, c.0);
    TextsLawful(a.1, b.1, c.1);
    BothLawful(Texts(a.0, b.0, c.0), Texts(a.1, b.1, c.1));
  }

  lemma {:induction false} ArgsLawful(a: seq<(string, string)>, b: seq<(string, string)>, c: seq<(string, string)>)
    ensures Lawful(ArgLists(a, b, c))
    decreases |a| + |b| + |c|
  {
    if a != [] && b != [] && c != [] {
      ArgsLawful(a[1..], b[1..], c[1..]);
      EntriesLawful(a[0], b[0], c[0]);
      BothLawful(Entries(a[0], b[0], c[0]), ArgLists(a[1..], b[1..], c[1..]));
      assert a == [a[0]] + a[1..] && b == [b[0]] + b[1..] && c == [c[0]] + c[1..];
    } else if a != [] && b != [] {
      ArgsLawful(a[1..], b[1..], []);
      EntriesLawful(a[0], b[0], b[0]);
      assert a == [a[0]] + a[1..] && b == [b[0]] + b[1..];
    } else if b != [] && c != [] {
      ArgsLawful([], b[1..], c[1..]);
      EntriesLawful(b[0], b[0], c[0]);
      assert b == [b[0]] + b[1..] && c == [c[0]] + c[1..];
    }
  }

  ghost function Options(a: Option<nat>, b: Option<nat>, c: Option<nat>): (t: Three)
    ensures Lawful(t)
  {
    Three(CmpOption(a, b), CmpOption(b, a), CmpOption(b, c), CmpOption(a, c), a == b, b == c)
  }

  ghost function Spans(a: Option<Span>, b: Option<Span>, c: Option<Span>): (t: Three)
    ensures Lawful(t)
  {
    Three(CmpSpans(a, b), CmpSpans(b, a), CmpSpans(b, c), CmpSpans(a, c), a == b, b == c)
  }

  ghost function Whole(a: Diagnostic, b: Diagnostic, c: Diagnostic): Three {
    Three(Order(a, b), Order(b, a), Order(b, c), Order(a, c), a == b, b == c)
  }

  lemma SlotsDiffer(a: Severity, b: Severity)
    ensures Slot(a) == Slot(b) <==> a == b
  {
  }

  /** The sort key is a total order whose ties are equal diagnostics: sorting leaves nothing to chance. */
  lemma OrderLawful(a: Diagnostic, b: Diagnostic, c: Diagnostic)
    ensures Order(a, b).Equal? <==> a == b
    ensures Order(b, a) == Flip(Order(a, b))
    ensures !Order(a, b).Greater? && !Order(b, c).Greater? ==> !Order(a, c).Greater?
    ensures Order(a, b).Less? && !Order(b, c).Greater? ==> Order(a, c).Less?
  {
    TextsLawful(a.code, b.code, c.code);
    TextsLawful(a.message, b.message, c.message);
    ArgsLawful(a.args, b.args, c.args);
    SlotsDiffer(a.severity, b.severity);
    SlotsDiffer(b.severity, c.severity);
    var t7 := ArgLists(a.args, b.args, c.args);
    var t6 := Both(Nats(Slot(a.severity), Slot(b.severity), Slot(c.severity)), t7);
    BothLawful(Nats(Slot(a.severity), Slot(b.severity), Slot(c.severity)), t7);
    var t5 := Both(Texts(a.message, b.message, c.message), t6);
    BothLawful(Texts(a.message, b.message, c.message), t6);
    var t4 := Both(Spans(a.span, b.span, c.span), t5);
    BothLawful(Spans(a.span, b.span, c.span), t5);
    var t3 := Both(Options(a.file, b.file, c.file), t4);
    BothLawful(Options(a.file, b.file, c.file), t4);
    var t2 := Both(Options(a.modIdx, b.modIdx, c.modIdx), t3);
    BothLawful(Options(a.modIdx, b.modIdx, c.modIdx), t3);
    BothLawful(Texts(a.code, b.code, c.code), t2);
    assert Whole(a, b, c) == Both(Texts(a.code, b.code, c.code), t2);
  }

  predicate Upto(a: Diagnostic, b: Diagnostic) { !Order(a, b).Greater? }

  lemma UptoIsOrder()
    ensures TotalOrder(Upto)
  {
    forall a, b, c
      ensures (Upto(a, b) || Upto(b, a)) && (Upto(a, b) && Upto(b, a) ==> a == b)
              && (Upto(a, b) && Upto(b, c) ==> Upto(a, c))
    {
      OrderLawful(a, b, c);
    }
  }

  // ---------------------------------------------------------------- texts

  /** The first character in which two texts differ is smaller, or the text ends there. */
  predicate TextBefore(a: string, b: string) {
    exists n :: 0 <= n <= |a| && n < |b| && a[..n] == b[..n] && (n == |a| || a[n] < b[n])
  }

  lemma {:induction false} TextOrder(a: string, b: string)
    ensures CmpText(a, b).Less? <==> TextBefore(a, b)
    ensures CmpText(a, b).Equal? <==> a == b
    decreases |a|
  {
    TextsLawful(a, b, b);
    if a == "" {
      assert b != "" ==> a[..0] == b[..0];
    } else if b != "" {
      TextOrder(a[1..], b[1..]);
      TextBeforeTail(a, b);
    }
  }

  lemma SamePrefix<T>(a: seq<T>, b: seq<T>, n: nat)
    requires 0 < n <= |a| && n <= |b|
    ensures a[..n] == b[..n] <==> a[0] == b[0] && a[1..][..n - 1] == b[1..][..n - 1]
  {
    assert a[..n] == [a[0]] + a[1..][..n - 1];
    assert b[..n] == [b[0]] + b[1..][..n - 1];
  }

  lemma TextBeforeTail(a: string, b: string)
    requires a != "" && b != ""
    ensures TextBefore(a, b) <==> a[0] < b[0] || (a[0] == b[0] && TextBefore(a[1..], b[1..]))
  {
    if n :| 0 <= n <= |a| && n < |b| && a[..n] == b[..n] && (n == |a| || a[n] < b[n]) {
      if n > 0 { SamePrefix(a, b, n); }
    }
    if a[0] < b[0] { assert a[..0] == b[..0]; }
    var a', b' := a[1..], b[1..];
    if n :| a[0] == b[0] && 0 <= n <= |a'| && n < |b'| && a'[..n] == b'[..n] && (n == |a'| || a'[n] < b'[n]) {
      SamePrefix(a, b, n + 1);
    }
  }
}
