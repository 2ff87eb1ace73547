/** Lists kept sorted under a total order, and what a bound on their length may drop. */
module Sorting {
  /** Names three values the laws of an order are wanted for; it keeps the verifier from combining
      every comparison with every other. */
  ghost predicate Via<T>(a: T, b: T, c: T) { true }

  /** Any two values compare, and ties are equal values. */
  ghost predicate TotalOrder<T(!new)>(le: (T, T) -> bool) {
    forall a, b, c {:trigger Via(a, b, c)} ::
      && (le(a, b) || le(b, a))
      && (le(a, b) && le(b, a) ==> a == b)
      && (le(a, b) && le(b, c) ==> le(a, c))
  }

  lemma LeTotal<T(!new)>(le: (T, T) -> bool, a: T, b: T)
    requires TotalOrder(le)
    ensures le(a, b) || le(b, a)
    ensures le(a, b) && le(b, a) ==> a == b
  {
    assert Via(a, b, a);
  }

  lemma LeTrans<T(!new)>(le: (T, T) -> bool, a: T, b: T, c: T)
    requires TotalOrder(le)
    ensures le(a, b) && le(b, c) ==> le(a, c)
  {
    assert Via(a, b, c);
  }

  // ---------------------------------------------------------------- sorting

  ghost predicate Sorted<T(!new)>(le: (T, T) -> bool, s: seq<T>) {
    forall i, j :: 0 <= i < j < |s| ==> le(s[i], s[j])
  }

  /** The first place whose value comes after `d`. */
  function PartitionPoint<T(!new)>(le: (T, T) -> bool, list: seq<T>, d: T): (at: nat)
    ensures at <= |list|
    ensures forall i :: 0 <= i < at ==> le(list[i], d)
    ensures at < |list| ==> !le(list[at], d)
  {
    if list == [] || !le(list[0], d) then 0 else 1 + PartitionPoint(le, list[1..], d)
  }

  function Inserted<T(!new)>(le: (T, T) -> bool, list: seq<T>, d: T): seq<T> {
    var at := PartitionPoint(le, list, d);
    list[..at] + [d] + list[at..]
  }

  /** Inserts the values of `s` one after the other. */
  function Folded<T(!new)>(le: (T, T) -> bool, list: seq<T>, s: seq<T>): seq<T>
    decreases |s|
  {
    if s == [] then list else Inserted(le, Folded(le, list, s[..|s| - 1]), s[|s| - 1])
  }

  function Take<T>(s: seq<T>, n: nat): (r: seq<T>)
    ensures |r| == if |s| <= n then |s| else n
  {
    if |s| <= n then s else s[..n]
  }

  lemma InsertedFacts<T(!new)>(le: (T, T) -> bool, list: seq<T>, d: T)
    requires TotalOrder(le) && Sorted(le, list)
    ensures Sorted(le, Inserted(le, list, d)) && multiset(Inserted(le, list, d)) == multiset(list) + multiset{d}
  {
    var at, r := PartitionPoint(le, list, d), Inserted(le, list, d);
    forall i, j | 0 <= i < j < |r| ensures le(r[i], r[j]) { InsertedPair(le, list, d, i, j); }
    assert list == list[..at] + list[at..];
  }

  lemma InsertedPair<T(!new)>(le: (T, T) -> bool, list: seq<T>, d: T, i: nat, j: nat)
    requires TotalOrder(le) && Sorted(le, list) && i < j < |Inserted(le, list, d)|
    ensures le(Inserted(le, list, d)[i], Inserted(le, list, d)[j])
  {
    var at := PartitionPoint(le, list, d);
    if j > at {
      InsertedAfter(le, list, d, j - 1);
      if i < at { LeTrans(le, list[i], d, list[j - 1]); }
    }
  }

  lemma InsertedAfter<T(!new)>(le: (T, T) -> bool, list: seq<T>, d: T, j: nat)
    requires TotalOrder(le) && Sorted(le, list) && PartitionPoint(le, list, d) <= j
    ensures j < |list| ==> le(d, list[j])
  {
    if j < |list| {
      var at := PartitionPoint(le, list, d);
      LeTotal(le, list[at], d);
      LeTrans(le, d, list[at], list[j]);
    }
  }

  lemma {:induction false} FoldedFacts<T(!new)>(le: (T, T) -> bool, list: seq<T>, s: seq<T>)
    requires TotalOrder(le) && Sorted(le, list)
    ensures Sorted(le, Folded(le, list, s)) && multiset(Folded(le, list, s)) == multiset(list) + multiset(s)
    decreases |s|
  {
    if s != [] {
      var n := |s| - 1;
      FoldedFacts(le, list, s[..n]);
      InsertedFacts(le, Folded(le, list, s[..n]), s[n]);
      assert s == s[..n] + [s[n]];
      assert multiset(s) == multiset(s[..n]) + multiset{s[n]};
    }
  }

  lemma LowestFirst<T(!new)>(le: (T, T) -> bool, a: seq<T>, b: seq<T>)
    requires TotalOrder(le) && Sorted(le, a) && Sorted(le, b) && multiset(a) == multiset(b) && |a| > 0
    ensures |b| > 0 && a[0] == b[0]
  {
    assert a[0] in multiset(a) && |multiset(a)| == |multiset(b)|;
    assert a[0] in b && b[0] in multiset(b) && b[0] in a;
    var i :| 0 <= i < |b| && b[i] == a[0];
    var j :| 0 <= j < |a| && a[j] == b[0];
    LeTotal(le, a[0], b[0]);
    assert (j == 0 || le(a[0], a[j])) && (i == 0 || le(b[0], b[i]));
  }

  /** A multiset has exactly one sorted listing. */
  lemma {:induction false} SortedUnique<T(!new)>(le: (T, T) -> bool, a: seq<T>, b: seq<T>)
    requires TotalOrder(le) && Sorted(le, a) && Sorted(le, b) && multiset(a) == multiset(b)
    ensures a == b
    decreases |a|
  {
    assert |multiset(a)| == |multiset(b)|;
    if |a| > 0 {
      LowestFirst(le, a, b);
      assert a == [a[0]] + a[1..] && b == [b[0]] + b[1..];
      assert multiset(a[1..]) == multiset(a) - multiset{a[0]};
      assert multiset(b[1..]) == multiset(b) - multiset{b[0]};
      SortedUnique(le, a[1..], b[1..]);
    }
  }

  // ---------------------------------------------------------------- bounded lists

  lemma {:induction false} PartitionOfTake<T(!new)>(le: (T, T) -> bool, list: seq<T>, k: nat, d: T)
    requires TotalOrder(le)
    ensures var at := PartitionPoint(le, list, d);
            PartitionPoint(le, Take(list, k), d) == if at <= k then at else k
  {
    if k > 0 && list != [] && le(list[0], d) {
      PartitionOfTake(le, list[1..], k - 1, d);
      assert Take(list, k)[1..] == Take(list[1..], k - 1);
    }
  }

  /** Bounding before an insertion loses nothing that a bound after it would keep. */
  lemma TakeInserted<T(!new)>(le: (T, T) -> bool, list: seq<T>, k: nat, d: T)
    requires TotalOrder(le)
    ensures Take(Inserted(le, Take(list, k), d), k) == Take(Inserted(le, list, d), k)
  {
    PartitionOfTake(le, list, k, d);
  }

  /** A value that does not come before the last of `k` kept ones changes nothing. */
  lemma TooLate<T(!new)>(le: (T, T) -> bool, list: seq<T>, k: nat, d: T)
    requires TotalOrder(le) && Sorted(le, list) && 0 < k <= |list| && le(list[k - 1], d)
    ensures Take(Inserted(le, list, d), k) == Take(list, k)
  {
    var at := PartitionPoint(le, list, d);
    if at < k { LeTrans(le, list[at], list[k - 1], d); }
  }

  /** Folding a sorted list whose own bound is at least `k` gives the same `k` as folding all of it. */
  lemma {:induction false} BoundedFold<T(!new)>(le: (T, T) -> bool, list: seq<T>, k: nat, s: seq<T>, bound: nat)
    requires TotalOrder(le) && Sorted(le, list) && Sorted(le, s) && (k <= bound || |s| <= bound)
    ensures Take(Folded(le, list, Take(s, bound)), k) == Take(Folded(le, list, s), k)
    decreases |s|
  {
    if |s| > bound {
      var n := |s| - 1;
      BoundedFold(le, list, k, s[..n], bound);
      assert Take(s[..n], bound) == Take(s, bound);
      LastTooLate(le, list, k, s);
    }
  }

  /** The last of more than `k` sorted values never gets in. */
  lemma LastTooLate<T(!new)>(le: (T, T) -> bool, list: seq<T>, k: nat, s: seq<T>)
    requires TotalOrder(le) && Sorted(le, list) && Sorted(le, s) && k < |s|
    ensures Take(Folded(le, list, s), k) == Take(Folded(le, list, s[..|s| - 1]), k)
  {
    if k > 0 {
      FoldedFacts(le, list, s[..|s| - 1]);
      ManyBefore(le, list, s, k);
      TooLate(le, Folded(le, list, s[..|s| - 1]), k, s[|s| - 1]);
    }
  }

  /** When `l[k]` comes after the last value of `s`, all the others stand before it. */
  lemma AllInFront<T(!new)>(le: (T, T) -> bool, s: seq<T>, l: seq<T>, k: nat)
    requires TotalOrder(le) && Sorted(le, l) && Sorted(le, s) && s != [] && k < |l| && !le(l[k], s[|s| - 1])
    requires multiset(s[..|s| - 1]) <= multiset(l)
    ensures multiset(s[..|s| - 1]) <= multiset(l[..k])
  {
    var n := |s| - 1;
    forall d | d in multiset(s[..n]) ensures multiset(s[..n])[d] <= multiset(l[..k])[d] {
      var i :| 0 <= i < n && s[i] == d;
      assert le(s[i], s[n]);
      AllBefore(le, l, k, d, s[n]);
    }
  }

  lemma FewInFront<T(!new)>(le: (T, T) -> bool, s: seq<T>, l: seq<T>, k: nat)
    requires TotalOrder(le) && Sorted(le, l) && Sorted(le, s) && 0 < k < |s| && k <= |l|
    requires multiset(s[..|s| - 1]) <= multiset(l)
    ensures le(l[k - 1], s[|s| - 1])
  {
    if !le(l[k - 1], s[|s| - 1]) {
      AllInFront(le, s, l, k - 1);
      assert |multiset(l[..k - 1])| == k - 1 && |multiset(s[..|s| - 1])| == |s| - 1;
      SubsetSize(multiset(s[..|s| - 1]), multiset(l[..k - 1]));
    }
  }

  /** At least `k` of the values folded so far do not come after the last value of `s`. */
  lemma ManyBefore<T(!new)>(le: (T, T) -> bool, list: seq<T>, s: seq<T>, k: nat)
    requires TotalOrder(le) && Sorted(le, list) && Sorted(le, s) && 0 < k < |s|
    ensures |Folded(le, list, s[..|s| - 1])| >= k
    ensures le(Folded(le, list, s[..|s| - 1])[k - 1], s[|s| - 1])
  {
    var l := Folded(le, list, s[..|s| - 1]);
    FoldedFacts(le, list, s[..|s| - 1]);
    assert |multiset(l)| == |multiset(list)| + |multiset(s[..|s| - 1])|;
    FewInFront(le, s, l, k);
  }

  /** Values up to `last` all stand before a value that is not. */
  lemma AllBefore<T(!new)>(le: (T, T) -> bool, l: seq<T>, k: nat, d: T, last: T)
    requires TotalOrder(le) && Sorted(le, l) && k < |l| && le(d, last) && !le(l[k], last)
    ensures multiset(l)[d] == multiset(l[..k])[d]
  {
    LaterAbsent(le, l, k, d, last);
    assert l == l[..k] + l[k..];
    assert multiset(l[k..])[d] == 0;
  }

  lemma LaterAbsent<T(!new)>(le: (T, T) -> bool, l: seq<T>, k: nat, d: T, last: T)
    requires TotalOrder(le) && Sorted(le, l) && k < |l| && le(d, last) && !le(l[k], last)
    ensures d !in l[k..]
  {
    forall j | k <= j < |l| ensures l[j] != d { LeTrans(le, l[k], l[j], last); }
  }

  lemma SubsetSize<T>(a: multiset<T>, b: multiset<T>)
    requires a <= b
    ensures |a| <= |b|
  {
    assert b == a + (b - a);
  }

  /** Pushing in one at a time with the bound applied each time. */
  function Kept<T(!new)>(le: (T, T) -> bool, list: seq<T>, s: seq<T>, cap: nat): seq<T>
    decreases |s|
  {
    if s == [] then list else Take(Inserted(le, Kept(le, list, s[..|s| - 1], cap), s[|s| - 1]), cap)
  }

  lemma {:induction false} KeptIsBound<T(!new)>(le: (T, T) -> bool, list: seq<T>, s: seq<T>, cap: nat)
    requires TotalOrder(le)
    ensures Kept(le, Take(list, cap), s, cap) == Take(Folded(le, list, s), cap)
    decreases |s|
  {
    if s != [] {
      var n := |s| - 1;
      KeptIsBound(le, list, s[..n], cap);
      TakeInserted(le, Folded(le, list, s[..n]), cap, s[n]);
    }
  }

  /** Merging bounded listings: exact when the source's bound is no smaller, or it dropped nothing. */
  lemma MergedBound<T(!new)>(le: (T, T) -> bool, a: seq<T>, b: seq<T>, cap: nat, bound: nat)
    requires TotalOrder(le) && (cap <= bound || |b| <= bound)
    ensures Kept(le, Take(Folded(le, [], a), cap), Take(Folded(le, [], b), bound), cap) ==
            Take(Folded(le, [], a + b), cap)
  {
    var sa, sb := Folded(le, [], a), Folded(le, [], b);
    FoldedFacts(le, [], a);
    FoldedFacts(le, [], b);
    assert |multiset(sb)| == |multiset(b)|;
    BoundedFold(le, sa, cap, sb, bound);
    KeptIsBound(le, sa, Take(sb, bound), cap);
    FoldedFacts(le, sa, sb);
    FoldedFacts(le, [], a + b);
    SortedUnique(le, Folded(le, sa, sb), Folded(le, [], a + b));
  }

  /** Otherwise the empty target shows the loss. */
  lemma LossyBound<T(!new)>(le: (T, T) -> bool, b: seq<T>, cap: nat, bound: nat)
    requires TotalOrder(le) && bound < cap && bound < |b|
    ensures Kept(le, [], Take(Folded(le, [], b), bound), cap) != Take(Folded(le, [], b), cap)
  {
    var sb := Folded(le, [], b);
    FoldedFacts(le, [], b);
    assert |multiset(sb)| == |multiset(b)|;
    KeptIsBound(le, [], Take(sb, bound), cap);
    FoldedFacts(le, [], Take(sb, bound));
    assert |multiset(Folded(le, [], Take(sb, bound)))| == |multiset(Take(sb, bound))|;
  }

  /** Reports in another order give the same listing. */
  lemma FoldedPermuted<T(!new)>(le: (T, T) -> bool, a: seq<T>, b: seq<T>)
    requires TotalOrder(le) && multiset(a) == multiset(b)
    ensures Folded(le, [], a) == Folded(le, [], b)
  {
    FoldedFacts(le, [], a);
    FoldedFacts(le, [], b);
    SortedUnique(le, Folded(le, [], a), Folded(le, [], b));
  }
}
