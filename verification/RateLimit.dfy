/** The progress limiter of a job: at most one message per interval, the newest held-back record kept. */
module RateLimit {
  import opened Wrappers

  datatype Limiter<P> = Limiter(interval: nat, last: Option<nat>, pending: Option<P>)

  /** One record offered at a clock reading; readings need not be monotone. */
  datatype Offering<P> = Offering(at: nat, record: P)

  /** A send: when, and which offer (by number) it was. */
  datatype Sent = Sent(at: nat, offer: nat)

  /** The time from one clock reading to another; none when the clock went back. */
  function Since(before: nat, now: nat): nat { if now >= before then now - before else 0 }

  predicate HeldBack<P>(l: Limiter<P>, now: nat) {
    l.last.Some? && (if now >= l.last.value then now - l.last.value else 0) < l.interval
  }

  function Offered<P>(l: Limiter<P>, now: nat, p: P): Limiter<P> {
    if HeldBack(l, now) then l.(pending := Some(p)) else l.(last := Some(now), pending := None)
  }

  class RateLimiter<P> {
    const intervalMs: nat
    var lastMs: Option<nat>
    var pending: Option<P>

    function View(): Limiter<P>
      reads this
    {
      Limiter(intervalMs, lastMs, pending)
    }

    constructor (intervalMs: nat)
      ensures View() == Limiter(intervalMs, None, None)
    {
      this.intervalMs := intervalMs;
      lastMs, pending := None, None;
    }

    /** Returns the record when it may be sent now; otherwise it becomes the pending record. */
    method Offer(now: nat, p: P) returns (send: Option<P>)
      modifies this
      ensures View() == Offered(old(View()), now, p)
      ensures send == if HeldBack(old(View()), now) then None else Some(p)
      ensures send.Some? <==> old(lastMs).None? || Since(old(lastMs).value, now) >= intervalMs
      ensures lastMs == if send.Some? then Some(now) else old(lastMs)
      ensures pending == if send.Some? then None else Some(p)
    {
      if lastMs.Some? && (if now >= lastMs.value then now - lastMs.value else 0) < intervalMs {
        pending := Some(p);
        return None;
      }
      lastMs, pending := Some(now), None;
      return Some(p);
    }

    method TakePending() returns (p: Option<P>)
      modifies this`pending
      ensures p == old(pending) && View() == old(View()).(pending := None)
    {
      p := pending;
      pending := None;
    }
  }

  // ---------------------------------------------------------------- whole runs

  function After<P>(interval: nat, offers: seq<Offering<P>>): Limiter<P>
    decreases |offers|
  {
    if offers == [] then Limiter(interval, None, None)
    else
      var o := offers[|offers| - 1];
      Offered(After(interval, offers[..|offers| - 1]), o.at, o.record)
  }

  function Sends<P>(interval: nat, offers: seq<Offering<P>>): seq<Sent>
    decreases |offers|
  {
    if offers == [] then []
    else
      var n := |offers| - 1;
      Sends(interval, offers[..n])
      + (if HeldBack(After(interval, offers[..n]), offers[n].at) then [] else [Sent(offers[n].at, n)])
  }

  function SentNumbers<P>(interval: nat, offers: seq<Offering<P>>): (numbers: seq<nat>)
    ensures |numbers| == |Sends(interval, offers)|
    ensures forall i :: 0 <= i < |numbers| ==> numbers[i] == Sends(interval, offers)[i].offer
  {
    var sends := Sends(interval, offers);
    seq(|sends|, i requires 0 <= i < |sends| => sends[i].offer)
  }

  /** What the receiver gets: the sends, and at the end the record still held back. */
  function Delivered<P>(interval: nat, offers: seq<Offering<P>>): seq<nat> {
    SentNumbers(interval, offers)
    + (if offers != [] && After(interval, offers).pending.Some? then [|offers| - 1] else [])
  }

  lemma SendsFacts<P>(interval: nat, offers: seq<Offering<P>>)
    ensures var s, l := Sends(interval, offers), After(interval, offers);
            && l.interval == interval
            && (l.last == if s == [] then None else Some(s[|s| - 1].at))
            && (forall i :: 0 <= i < |s| ==> s[i].offer < |offers| && s[i].at == offers[s[i].offer].at)
            && (forall i, j :: 0 <= i < j < |s| ==> s[i].offer < s[j].offer)
            && (offers == [] <==> s == [])
            && (l.pending.Some? ==> l.pending.value == offers[|offers| - 1].record && s[|s| - 1].offer < |offers| - 1)
            && (l.pending.None? && offers != [] ==> s[|s| - 1].offer == |offers| - 1)
  {
    LastFacts(interval, offers);
    SendsInOrder(interval, offers);
    if offers != [] {
      LastFacts(interval, offers[..|offers| - 1]);
      SendsInOrder(interval, offers[..|offers| - 1]);
    }
  }

  /** The limiter remembers the last send; the first offer is always sent. */
  lemma {:induction false} LastFacts<P>(interval: nat, offers: seq<Offering<P>>)
    ensures var s, l := Sends(interval, offers), After(interval, offers);
            && l.interval == interval
            && (l.last == if s == [] then None else Some(s[|s| - 1].at))
            && (offers == [] <==> s == [])
    decreases |offers|
  {
    if offers != [] { LastFacts(interval, offers[..|offers| - 1]); }
  }

  /** Sends of offers, each at its own reading, in the order of the offers. */
  ghost predicate Sequenced<P>(s: seq<Sent>, offers: seq<Offering<P>>) {
    && (forall i :: 0 <= i < |s| ==> s[i].offer < |offers| && s[i].at == offers[s[i].offer].at)
    && (forall i, j :: 0 <= i < j < |s| ==> s[i].offer < s[j].offer)
  }

  lemma {:induction false} SendsInOrder<P>(interval: nat, offers: seq<Offering<P>>)
    ensures Sequenced(Sends(interval, offers), offers)
    decreases |offers|
  {
    if offers != [] {
      var n := |offers| - 1;
      SendsInOrder(interval, offers[..n]);
      OneMoreSend(Sends(interval, offers[..n]), offers, n);
    }
  }

  lemma OneMoreSend<P>(s: seq<Sent>, offers: seq<Offering<P>>, n: nat)
    requires n < |offers| && Sequenced(s, offers[..n])
    ensures Sequenced(s, offers) && Sequenced(s + [Sent(offers[n].at, n)], offers)
  {
    forall i | 0 <= i < |s| ensures s[i].offer < n && s[i].at == offers[s[i].offer].at {
      assert offers[..n][s[i].offer] == offers[s[i].offer];
    }
  }

  /** Consecutive sends are at least the interval apart, whatever the clock does. */
  lemma {:induction false} SendsApart<P>(interval: nat, offers: seq<Offering<P>>)
    requires interval > 0
    ensures var s := Sends(interval, offers);
            forall i :: 0 <= i < |s| - 1 ==> s[i + 1].at >= s[i].at + interval
    decreases |offers|
  {
    if offers != [] {
      SendsApart(interval, offers[..|offers| - 1]);
      SendsFacts(interval, offers[..|offers| - 1]);
    }
  }

  lemma {:induction false} Spread(s: seq<Sent>, interval: nat, i: nat, j: nat)
    requires i <= j < |s|
    requires forall k :: 0 <= k < |s| - 1 ==> s[k + 1].at >= s[k].at + interval
    ensures s[j].at >= s[i].at + (j - i) * interval
    decreases j
  {
    if i < j {
      Spread(s, interval, i, j - 1);
      assert s[j - 1 + 1].at >= s[j - 1].at + interval;
      assert (j - i) * interval == (j - 1 - i) * interval + interval;
    }
  }

  /** `n` messages in a row span at least `(n - 1) * interval`, so a span `s` holds at most
      `s / interval + 1` of them. */
  lemma SendsBounded<P>(interval: nat, offers: seq<Offering<P>>, i: nat, j: nat)
    requires interval > 0 && i <= j < |Sends(interval, offers)|
    ensures var s := Sends(interval, offers); (j - i) * interval <= s[j].at - s[i].at
  {
    SendsApart(interval, offers);
    Spread(Sends(interval, offers), interval, i, j);
  }

  /** The receiver sees a subsequence of the reported records, and the last reported one is always the
      last one it sees. */
  lemma NothingNewerIsLost<P>(interval: nat, offers: seq<Offering<P>>)
    ensures var d := Delivered(interval, offers);
            && (forall i, j :: 0 <= i < j < |d| ==> d[i] < d[j])
            && (forall i :: 0 <= i < |d| ==> d[i] < |offers|)
            && (offers != [] ==> d != [] && d[|d| - 1] == |offers| - 1)
  {
    SendsFacts(interval, offers);
    var numbers := SentNumbers(interval, offers);
    if offers != [] { LastNumber(interval, offers, numbers); }
    if offers != [] && After(interval, offers).pending.Some? { IncreasingMore(numbers, |offers| - 1); }
  }

  lemma LastNumber<P>(interval: nat, offers: seq<Offering<P>>, numbers: seq<nat>)
    requires offers != [] && numbers == SentNumbers(interval, offers)
    ensures numbers != []
    ensures if After(interval, offers).pending.Some? then numbers[|numbers| - 1] < |offers| - 1
            else numbers[|numbers| - 1] == |offers| - 1
  {
    SendsFacts(interval, offers);
  }

  lemma IncreasingMore(numbers: seq<nat>, n: nat)
    requires numbers != [] && numbers[|numbers| - 1] < n
    requires forall i, j :: 0 <= i < j < |numbers| ==> numbers[i] < numbers[j]
    ensures forall i, j :: 0 <= i < j < |numbers + [n]| ==> (numbers + [n])[i] < (numbers + [n])[j]
  {
    var more := numbers + [n];
    forall i, j | 0 <= i < j < |more| ensures more[i] < more[j] {
      if j == |numbers| && i < |numbers| - 1 { assert numbers[i] < numbers[|numbers| - 1]; }
    }
  }

  // ---------------------------------------------------------------- exactly which offers are sent

  /** The last offer before number `n` that was sent. */
  ghost predicate LastBefore(numbers: seq<nat>, n: nat, m: nat) {
    m in numbers && m < n && forall k :: k in numbers && k < n ==> k <= m
  }

  lemma {:induction false} SentEarlier<P>(interval: nat, offers: seq<Offering<P>>, n: nat, m: nat)
    requires m < n <= |offers|
    ensures m in SentNumbers(interval, offers) <==> m in SentNumbers(interval, offers[..n])
    decreases |offers|
  {
    if n < |offers| {
      var rest := offers[..|offers| - 1];
      SentEarlier(interval, rest, n, m);
      assert rest[..n] == offers[..n];
      OneMoreOffer(interval, offers, m);
    } else {
      assert offers[..n] == offers;
    }
  }

  lemma OneMoreOffer<P>(interval: nat, offers: seq<Offering<P>>, m: nat)
    requires offers != []
    ensures var n := |offers| - 1;
            m in SentNumbers(interval, offers) <==>
            m in SentNumbers(interval, offers[..n])
            || (m == n && !HeldBack(After(interval, offers[..n]), offers[n].at))
  {
    var n := |offers| - 1;
    var before, sends := Sends(interval, offers[..n]), Sends(interval, offers);
    assert forall i :: 0 <= i < |before| ==> sends[i] == before[i];
    var numbers, earlier := SentNumbers(interval, offers), SentNumbers(interval, offers[..n]);
    assert forall i :: 0 <= i < |earlier| ==> numbers[i] == earlier[i];
    if |sends| > |before| { assert numbers[|before|] == n; }
  }

  /** An offer is sent exactly when nothing was sent before it or the last send before it is at least the
      interval ago. */
  lemma SentIff<P>(interval: nat, offers: seq<Offering<P>>, n: nat)
    requires n < |offers|
    ensures n in SentNumbers(interval, offers) <==>
            forall m: nat :: LastBefore(SentNumbers(interval, offers), n, m) ==>
              Since(offers[m].at, offers[n].at) >= interval
  {
    var numbers, upTo, before := SentNumbers(interval, offers), offers[..n + 1], offers[..n];
    SentEarlier(interval, offers, n + 1, n);
    forall m | 0 <= m < n ensures m in numbers <==> m in SentNumbers(interval, before) {
      SentEarlier(interval, offers, n, m);
    }
    assert upTo[..n] == before;
    OneMoreOffer(interval, upTo, n);
    SendsFacts(interval, before);
    LastSend(interval, before);
  }

  /** The last send is what the limiter remembers. */
  lemma LastSend<P>(interval: nat, offers: seq<Offering<P>>)
    ensures AllBelow(SentNumbers(interval, offers), |offers|)
    ensures var numbers, last := SentNumbers(interval, offers), After(interval, offers).last;
            if numbers == [] then last == None
            else
              var m := numbers[|numbers| - 1];
              LastBefore(numbers, |offers|, m) && last == Some(offers[m].at)
  {
    SendsFacts(interval, offers);
    var numbers, sends := SentNumbers(interval, offers), Sends(interval, offers);
    if sends != [] { LastOfIncreasing(numbers, |offers|); }
  }

  lemma LastOfIncreasing(numbers: seq<nat>, n: nat)
    requires numbers != [] && AllBelow(numbers, n)
    requires forall i, j :: 0 <= i < j < |numbers| ==> numbers[i] < numbers[j]
    ensures LastBefore(numbers, n, numbers[|numbers| - 1])
  {
  }

  predicate AllBelow(numbers: seq<nat>, n: nat) { forall i :: 0 <= i < |numbers| ==> numbers[i] < n }

  /** What the receiver gets beside the sends is the last offer. */
  lemma DeliveredIff<P>(interval: nat, offers: seq<Offering<P>>, n: nat)
    requires n < |offers|
    ensures n in Delivered(interval, offers) <==> n in SentNumbers(interval, offers) || n == |offers| - 1
  {
    SendsFacts(interval, offers);
    NothingNewerIsLost(interval, offers);
    var numbers, all := SentNumbers(interval, offers), Delivered(interval, offers);
    assert forall i :: 0 <= i < |numbers| ==> all[i] == numbers[i];
    assert all[|all| - 1] == |offers| - 1;
  }
}
