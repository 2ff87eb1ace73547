/** What the calls of the job runner and the operations of a job do: which entries and jobs they change, how,
    and that they change no others. */
module JobMeaning {
  import opened Wrappers
  import opened RateLimit
  import opened Jobs
  import opened JobTheorems

  // ---------------------------------------------------------------- calls

  /** The job of the entry ended a minute ago or earlier. */
  predicate Gone(e: Entry, now: nat) { e.finishedAt.Some? && e.finishedAt.value + 60_000 <= now }

  /** The registry holds an entry for the id that is not due for removal. */
  predicate Holds(w: World, id: Id, now: nat) { id in w.registry && !Gone(w.registry[id], now) }

  /** The entry of `id` is only touched by the removal of old entries. */
  ghost predicate OnlyPruned(w: World, w': World, now: nat, id: Id) {
    (id in w'.registry <==> Holds(w, id, now)) && (id in w'.registry ==> w'.registry[id] == w.registry[id])
  }

  lemma PruneMeaning(w: World, now: nat)
    ensures var w' := Step(w, Status(now));
            && (forall id :: OnlyPruned(w, w', now, id))
            && w'.jobs == w.jobs && w'.latest == Later(w.latest, now)
  {
    forall id: Id ensures id in w.registry ==> (Expired(w.registry[id], now) <==> Gone(w.registry[id], now)) {}
  }

  function Later(a: nat, b: nat): nat { if a < b then b else a }

  /** Cancelling an unfinished job marks its entry and its token. */
  lemma CancelMeaning(w: World, id: Id, now: nat)
    requires Inv(w) && Holds(w, id, now) && !w.registry[id].state.Ended?
    ensures var w', e := Step(w, Cancel(id, now)), w.registry[id];
            && CancelStep(w, id, now).1 == NowCancelling
            && id in w'.registry && w'.registry[id] == e.(state := Cancelling)
            && e.job < |w.jobs| && w'.jobs == w.jobs[e.job := w.jobs[e.job].(cancelled := true)]
            && (forall x :: x != id ==> OnlyPruned(w, w', now, x)) && w'.latest == Later(w.latest, now)
  {
    EntryJob(w, id);
    CancelHeld(w, id, now);
  }

  lemma CancelHeld(w: World, id: Id, now: nat)
    requires Holds(w, id, now) && !w.registry[id].state.Ended? && w.registry[id].job < |w.jobs|
    ensures var w', e := Step(w, Cancel(id, now)), w.registry[id];
            && CancelStep(w, id, now).1 == NowCancelling
            && id in w'.registry && w'.registry[id] == e.(state := Cancelling)
            && w'.jobs == w.jobs[e.job := w.jobs[e.job].(cancelled := true)]
            && (forall x :: x != id ==> OnlyPruned(w, w', now, x)) && w'.latest == Later(w.latest, now)
  {
    var p := Prune(w, now);
    PruneMeaning(w, now);
    assert OnlyPruned(w, p, now, id);
    CancelledEntry(p, id);
    CancelOthers(w, p, CancelEntry(p, id), id, now);
  }

  lemma CancelOthers(w: World, p: World, w': World, id: Id, now: nat)
    requires forall x :: OnlyPruned(w, p, now, x)
    requires id in p.registry && forall x :: x != id ==> (x in w'.registry <==> x in p.registry)
    requires forall x :: x != id && x in p.registry ==> w'.registry[x] == p.registry[x]
    ensures forall x :: x != id ==> OnlyPruned(w, w', now, x)
  {
    forall x | x != id ensures OnlyPruned(w, w', now, x) { assert OnlyPruned(w, p, now, x); }
  }

  /** For an ended or unknown id nothing happens beyond the removal of old entries; the answer says which. */
  lemma CancelTooLate(w: World, id: Id, now: nat)
    requires Holds(w, id, now) ==> w.registry[id].state.Ended?
    ensures Step(w, Cancel(id, now)) == Step(w, Status(now))
    ensures CancelStep(w, id, now).1 == if Holds(w, id, now) then AlreadyEnded else Unknown
  {
    PruneMeaning(w, now);
    assert OnlyPruned(w, Prune(w, now), now, id);
  }

  lemma EntryJob(w: World, id: Id)
    requires Inv(w) && id in w.registry
    ensures w.registry[id].job < |w.jobs| && w.jobs[w.registry[id].job].id == id
  {
    assert EntryOk(w, id);
  }

  lemma CancelledEntry(p: World, id: Id)
    requires id in p.registry ==> p.registry[id].job < |p.jobs|
    ensures id in p.registry ==>
              var e := p.registry[id];
              CancelEntry(p, id) ==
              if e.state.Ended? then p
              else p.(registry := p.registry[id := e.(state := Cancelling)],
                      jobs := p.jobs[e.job := p.jobs[e.job].(cancelled := true)])
  {
  }

  /** The same for every unfinished job at once; nothing is removed. */
  lemma CancelAllMeaning(w: World)
    requires Inv(w)
    ensures var w' := Step(w, CancelAll);
            && w'.registry.Keys == w.registry.Keys && w'.latest == w.latest && |w'.jobs| == |w.jobs|
            && (forall id :: id in w.registry ==>
                  w'.registry[id] == if w.registry[id].state.Ended? then w.registry[id]
                                     else w.registry[id].(state := Cancelling))
            && (forall j :: 0 <= j < |w.jobs| ==>
                  w'.jobs[j] == if Unfinished(w, j) then w.jobs[j].(cancelled := true) else w.jobs[j])
  {
    forall j | 0 <= j < |w.jobs| ensures Unfinished(w, j) <==> LiveToken(w.registry, w.jobs, j) {
      if Unfinished(w, j) {
        var id :| id in w.registry && w.registry[id].job == j && !w.registry[id].state.Ended?;
        assert EntryOk(w, id);
      }
    }
  }

  /** Some unfinished entry is that of job `j`. */
  ghost predicate Unfinished(w: World, j: nat) {
    exists id :: id in w.registry && w.registry[id].job == j && !w.registry[id].state.Ended?
  }

  /** An id that is held is refused; a free one gets a new entry and a new job that did nothing yet. */
  lemma SpawnMeaning(w: World, id: Id, now: nat)
    ensures var w' := Step(w, Spawn(id, now));
            && (forall x :: x != id ==> OnlyPruned(w, w', now, x)) && w'.latest == Later(w.latest, now)
            && if Holds(w, id, now) then OnlyPruned(w, w', now, id) && w'.jobs == w.jobs
               else
                 && id in w'.registry && w'.registry[id] == Entry(|w.jobs|, Running, None, None, None)
                 && w'.jobs == w.jobs + [Job(id, false, false, Limiter(50, None, None), Starting, [], [], None, None)]
  {
    PruneMeaning(w, now);
    assert forall x :: OnlyPruned(w, Prune(w, now), now, x);
    assert OnlyPruned(w, Prune(w, now), now, id);
  }

  // ---------------------------------------------------------------- operations of one job

  lemma RunMore(w: World, a: Action, rest: seq<Action>)
    requires Enabled(w, a)
    ensures Legal(w, [a] + rest) <==> Legal(Step(w, a), rest)
    ensures Legal(w, [a] + rest) ==> Run(w, [a] + rest) == Run(Step(w, a), rest)
  {
    assert ([a] + rest)[1..] == rest;
  }

  /** Everything but job `j` and the entry `e` now registered under its id is as before. */
  ghost predicate OnlyJob(w: World, w': World, j: nat, job: Job, e: Entry)
    requires j < |w.jobs|
  {
    w' == World(w.registry[w.jobs[j].id := e], w.jobs[j := job], w.latest)
  }

  /** An entry after its job's events were found to have no receiver. */
  function Marked(e: Entry, received: bool): Entry {
    if !received && e.state == Running then e.(state := Cancelling) else e
  }

  /** How a delivery ends: at once, or over cancelling the job. */
  function Delivering(j: nat, received: bool, t: nat): seq<Action> {
    if received then [Advance(j, true, t)] else [Advance(j, false, t), Advance(j, false, t), Advance(j, false, t)]
  }

  function Followed(after: Follow): Pc {
    match after case Resume => Ready case Conclude(o) => Concluding(o) case Leave => Over
  }

  lemma DeliverMeaning(w: World, j: nat, received: bool, t: nat)
    requires j < |w.jobs| && w.jobs[j].pc.Sending? && w.jobs[j].id in w.registry
    ensures var job, acts := w.jobs[j], Delivering(j, received, t);
            && Legal(w, acts)
            && OnlyJob(w, Run(w, acts), j,
                       job.(sends := job.sends + [job.pc.event], cancelled := job.cancelled || !received,
                            pc := Followed(job.pc.after)),
                       Marked(w.registry[job.id], received))
  {
    var a, job := Advance(j, received, t), w.jobs[j];
    HandedMeaning(w, j, received, t);
    if received {
      RunMore(w, a, []);
      assert [a] + [] == [a];
    } else {
      var w1 := Step(w, a);
      LostMeaning(w1, j, t);
      RunMore(w, a, [a, a]);
      assert [a] + [a, a] == [a, a, a];
      OnlyTwice(w, w1, Run(w1, [a, a]), j, w1.jobs[j], w1.registry[job.id], Run(w1, [a, a]).jobs[j],
                Marked(w.registry[job.id], false));
    }
  }

  lemma OnlyTwice(w: World, w1: World, w2: World, j: nat, job1: Job, e1: Entry, job2: Job, e2: Entry)
    requires j < |w.jobs| && w.jobs[j].id == job1.id && OnlyJob(w, w1, j, job1, e1) && OnlyJob(w1, w2, j, job2, e2)
    ensures OnlyJob(w, w2, j, job2, e2)
  {
    assert w.registry[job1.id := e1][job1.id := e2] == w.registry[job1.id := e2];
    assert w.jobs[j := job1][j := job2] == w.jobs[j := job2];
  }

  lemma HandedMeaning(w: World, j: nat, received: bool, t: nat)
    requires j < |w.jobs| && w.jobs[j].pc.Sending? && w.jobs[j].id in w.registry
    ensures var job := w.jobs[j];
            OnlyJob(w, Step(w, Advance(j, received, t)), j,
                    job.(sends := job.sends + [job.pc.event],
                         pc := if received then Followed(job.pc.after) else Losing(job.pc.after)),
                    w.registry[job.id])
  {
  }

  lemma LostMeaning(w: World, j: nat, t: nat)
    requires j < |w.jobs| && w.jobs[j].pc.Losing? && w.jobs[j].id in w.registry
    ensures var job, a := w.jobs[j], Advance(j, false, t);
            Legal(w, [a, a])
            && OnlyJob(w, Run(w, [a, a]), j, job.(cancelled := true, pc := Followed(job.pc.after)),
                       Marked(w.registry[job.id], false))
  {
    var a := Advance(j, false, t);
    var w1 := Step(w, a);
    RunMore(w1, a, []);
    RunMore(w, a, [a]);
    assert [a] + [] == [a] && [a] + [a] == [a, a];
  }

  lemma {:induction false} RunBoth(w: World, a: seq<Action>, b: seq<Action>)
    requires Legal(w, a) && Legal(Run(w, a), b)
    ensures Legal(w, a + b) && Run(w, a + b) == Run(Run(w, a), b)
    decreases |a|
  {
    if a == [] {
      assert a + b == b;
    } else {
      RunBoth(Step(w, a[0]), a[1..], b);
      assert (a + b)[0] == a[0] && (a + b)[1..] == a[1..] + b;
    }
  }

  /** A step of the job and the delivery it leads to. */
  lemma ThenDelivered(w: World, j: nat, e: Entry, received: bool, t: nat)
    requires Enabled(w, Advance(j, true, t)) && w.jobs[j].id in w.registry
    requires var w1 := Step(w, Advance(j, true, t));
             j < |w1.jobs| && OnlyJob(w, w1, j, w1.jobs[j], e) && w1.jobs[j].pc.Sending?
               && w1.jobs[j].id == w.jobs[j].id
    ensures var job, acts := Step(w, Advance(j, true, t)).jobs[j], [Advance(j, true, t)] + Delivering(j, received, t);
            && Legal(w, acts)
            && OnlyJob(w, Run(w, acts), j,
                       job.(sends := job.sends + [job.pc.event], cancelled := job.cancelled || !received,
                            pc := Followed(job.pc.after)),
                       Marked(e, received))
  {
    var a := Advance(j, true, t);
    var w1 := Step(w, a);
    DeliverMeaning(w1, j, received, t);
    RunMore(w, a, Delivering(j, received, t));
    var w2 := Run(w1, Delivering(j, received, t));
    OnlyTwice(w, w1, w2, j, w1.jobs[j], e, w2.jobs[j], Marked(e, received));
  }

  /** A record on its way is put into the registry and then handed over. */
  lemma RecordMeaning(w: World, j: nat, received: bool, t: nat)
    requires j < |w.jobs| && w.jobs[j].pc.Recording? && w.jobs[j].id in w.registry
    ensures var job, acts := w.jobs[j], [Advance(j, true, t)] + Delivering(j, received, t);
            && Legal(w, acts)
            && OnlyJob(w, Run(w, acts), j,
                       job.(sends := job.sends + [Progress(job.pc.record)], cancelled := job.cancelled || !received,
                            pc := Followed(job.pc.after)),
                       Marked(w.registry[job.id].(progress := Some(job.pc.record)), received))
  {
    var job := w.jobs[j];
    var w1 := Step(w, Advance(j, true, t));
    var e1 := w.registry[job.id].(progress := Some(job.pc.record));
    assert OnlyJob(w, w1, j, w1.jobs[j], e1);
    ThenDelivered(w, j, e1, received, t);
  }

  /** Nothing was sent yet, or the last send is at least the interval ago. */
  ghost predicate Due(offers: seq<Offering<Record>>, now: nat) {
    forall m: nat :: LastBefore(SentNumbers(50, offers), |offers|, m) ==> Since(offers[m].at, now) >= 50
  }

  lemma DueIff(job: Job, now: nat)
    requires JobOk(job) && !job.terminalSent
    ensures Due(job.offers, now) <==> !HeldBack(job.limiter, now)
    ensures job.limiter.pending.Some? <==> job.offers != [] && |job.offers| - 1 !in SentNumbers(50, job.offers)
    ensures job.limiter.pending.Some? ==> job.limiter.pending.value == job.offers[|job.offers| - 1].record
  {
    LastSend(50, job.offers);
    SendsFacts(50, job.offers);
    var numbers := SentNumbers(50, job.offers);
    if job.offers != [] {
      LastNumber(50, job.offers, numbers);
      assert forall i :: 0 <= i < |numbers| ==> numbers[i] <= numbers[|numbers| - 1];
    }
  }

  ghost predicate Leads(w: World, acts: seq<Action>, w': World) { Legal(w, acts) && Run(w, acts) == w' }

  /** A report that is due is the next progress event, in the registry and at the receiver. */
  lemma ReportMeaning(w: World, j: nat, now: nat, record: Record, received: bool, t: nat) returns (w': World, job': Job)
    requires Inv(w) && j < |w.jobs| && w.jobs[j].pc.Ready? && Due(w.jobs[j].offers, now)
    ensures Leads(w, [Report(j, now, record)] + [Advance(j, true, t)] + Delivering(j, received, t), w')
    ensures w.jobs[j].id in w.registry
    ensures var job, e := w.jobs[j], w.registry[w.jobs[j].id];
            && OnlyJob(w, w', j, job', Marked(e.(progress := Some(record)), received))
            && job'.sends == job.sends + [Progress(record)] && job'.cancelled == (job.cancelled || !received)
            && job'.offers == job.offers + [Offering(now, record)] && job'.pc == Ready
            && job'.terminalSent == job.terminalSent && job'.outcome == job.outcome && job'.endedAt == job.endedAt
  {
    Ongoing(w, j, now);
    w', job' := SentReport(w, j, now, record, received, t);
  }

  lemma SentReport(w: World, j: nat, now: nat, record: Record, received: bool, t: nat) returns (w': World, job': Job)
    requires j < |w.jobs| && w.jobs[j].pc.Ready? && w.jobs[j].id in w.registry
    requires !w.jobs[j].terminalSent && !HeldBack(w.jobs[j].limiter, now)
    ensures Leads(w, [Report(j, now, record)] + [Advance(j, true, t)] + Delivering(j, received, t), w')
    ensures var job, e := w.jobs[j], w.registry[w.jobs[j].id];
            && OnlyJob(w, w', j, job', Marked(e.(progress := Some(record)), received))
            && job'.sends == job.sends + [Progress(record)] && job'.cancelled == (job.cancelled || !received)
            && job'.offers == job.offers + [Offering(now, record)] && job'.pc == Ready
            && job'.terminalSent == job.terminalSent && job'.outcome == job.outcome && job'.endedAt == job.endedAt
  {
    var job, a := w.jobs[j], Report(j, now, record);
    var w1, more := Step(w, a), [Advance(j, true, t)] + Delivering(j, received, t);
    ReportOnly(w, j, now, record);
    RecordMeaning(w1, j, received, t);
    RunMore(w, a, more);
    w' := Run(w1, more);
    job' := w'.jobs[j];
    OnlyTwice(w, w1, w', j, w1.jobs[j], w.registry[job.id], job', w'.registry[job.id]);
    assert [a] + more == [a] + [Advance(j, true, t)] + Delivering(j, received, t);
  }

  /** Any other report is only remembered. */
  lemma HeldReportMeaning(w: World, j: nat, now: nat, record: Record)
    requires Inv(w) && j < |w.jobs| && w.jobs[j].pc.Ready? && !Due(w.jobs[j].offers, now)
    ensures var job, w' := w.jobs[j], Step(w, Report(j, now, record));
            && w' == w.(jobs := w'.jobs) && |w'.jobs| == |w.jobs|
              && (forall k :: 0 <= k < |w.jobs| && k != j ==> w'.jobs[k] == w.jobs[k])
            && w'.jobs[j] == job.(offers := job.offers + [Offering(now, record)], limiter := w'.jobs[j].limiter)
  {
    Ongoing(w, j, now);
    HeldReport(w, j, now, record);
  }

  lemma HeldReport(w: World, j: nat, now: nat, record: Record)
    requires j < |w.jobs| && w.jobs[j].pc.Ready? && !w.jobs[j].terminalSent && HeldBack(w.jobs[j].limiter, now)
    ensures var job, w' := w.jobs[j], Step(w, Report(j, now, record));
            && w' == w.(jobs := w'.jobs) && |w'.jobs| == |w.jobs|
            && (forall k :: 0 <= k < |w.jobs| && k != j ==> w'.jobs[k] == w.jobs[k])
            && w'.jobs[j] == job.(offers := job.offers + [Offering(now, record)], limiter := w'.jobs[j].limiter)
  {
  }

  lemma ReportOnly(w: World, j: nat, now: nat, record: Record)
    requires Enabled(w, Report(j, now, record)) && w.jobs[j].id in w.registry
    ensures var w1 := Step(w, Report(j, now, record)); OnlyJob(w, w1, j, w1.jobs[j], w.registry[w.jobs[j].id])
  {
    assert w.registry[w.jobs[j].id := w.registry[w.jobs[j].id]] == w.registry;
    assert w.jobs[j := w.jobs[j]] == w.jobs;
  }

  /** A job in work is registered and its end is open. */
  lemma Ongoing(w: World, j: nat, now: nat)
    requires Inv(w) && j < |w.jobs| && w.jobs[j].pc.Ready?
    ensures var job := w.jobs[j];
            && !job.terminalSent && (Due(job.offers, now) <==> !HeldBack(job.limiter, now))
            && (job.limiter.pending.Some? <==> job.offers != [] && |job.offers| - 1 !in SentNumbers(50, job.offers))
            && (job.limiter.pending.Some? ==> job.limiter.pending.value == job.offers[|job.offers| - 1].record)
            && job.id in w.registry && w.registry[job.id].job == j && !w.registry[job.id].state.Ended?
  {
    assert JobOk(w.jobs[j]) && Placed(w, j);
    DueIff(w.jobs[j], now);
    assert EntryOk(w, w.jobs[j].id);
  }

  /** What the work's result means for the job: only a result or an error that says so is a cancellation. */
  lemma OutcomeMeaning(r: WorkResult)
    ensures OutcomeOf(r) == Cancelled <==> !r.Panic? && r.cancelled
    ensures OutcomeOf(r) == Finished <==> r == Output(false)
    ensures OutcomeOf(r) == Failed <==> r.Panic? || r == WorkError(false)
  {
  }

  /** The registry gets the end record, then the receiver the terminal event. */
  lemma ConcludeMeaning(w: World, j: nat, received: bool, t: nat)
    requires j < |w.jobs| && w.jobs[j].pc.Concluding? && w.jobs[j].id in w.registry
    ensures var job, acts := w.jobs[j], [Advance(j, true, t)] + Delivering(j, received, t);
            && Legal(w, acts)
            && OnlyJob(w, Run(w, acts), j,
                       job.(sends := job.sends + [Terminal(job.pc.outcome)], cancelled := job.cancelled || !received,
                            pc := Over, endedAt := Some(t)),
                       w.registry[job.id].(state := Ended(job.pc.outcome), finishedAt := Some(t),
                                           terminal := Some(Terminal(job.pc.outcome))))
  {
    var job := w.jobs[j];
    var w1 := Step(w, Advance(j, true, t));
    var e1 := w.registry[job.id].(state := Ended(job.pc.outcome), finishedAt := Some(t),
                                  terminal := Some(Terminal(job.pc.outcome)));
    assert OnlyJob(w, w1, j, w1.jobs[j], e1);
    assert Marked(e1, received) == e1;
    ThenDelivered(w, j, e1, received, t);
  }

  /** The last report was not let through. */
  ghost predicate HeldLast(offers: seq<Offering<Record>>) {
    offers != [] && |offers| - 1 !in SentNumbers(50, offers)
  }

  /** The end of the work after a report that was let through, or none: the end record, then the terminal event. */
  lemma EndMeaning(w: World, j: nat, result: WorkResult, last: bool, t: nat) returns (w': World, job': Job)
    requires Inv(w) && j < |w.jobs| && w.jobs[j].pc.Ready? && !HeldLast(w.jobs[j].offers)
    ensures Leads(w, [End(j, result)] + [] + ([Advance(j, true, t)] + Delivering(j, last, t)), w')
    ensures w.jobs[j].id in w.registry
    ensures var job, e, o := w.jobs[j], w.registry[w.jobs[j].id], OutcomeOf(result);
            && OnlyJob(w, w', j, job', e.(state := Ended(o), finishedAt := Some(t), terminal := Some(Terminal(o))))
            && job'.sends == job.sends + [Terminal(o)] && job'.pc == Over && job'.outcome == Some(o)
            && job'.endedAt == Some(t) && job'.offers == job.offers && job'.cancelled == (job.cancelled || !last)
  {
    Ongoing(w, j, 0);
    w', job' := EndPlainly(w, j, result, last, t);
  }

  /** When the last report was held back, it goes out first. */
  lemma EndFlushMeaning(w: World, j: nat, result: WorkResult, first: bool, last: bool, t: nat)
    returns (w': World, job': Job)
    requires Inv(w) && j < |w.jobs| && w.jobs[j].pc.Ready? && HeldLast(w.jobs[j].offers)
    ensures Leads(w, [End(j, result)] + ([Advance(j, true, t)] + Delivering(j, first, t))
                     + ([Advance(j, true, t)] + Delivering(j, last, t)), w')
    ensures w.jobs[j].id in w.registry
    ensures var job, e, o := w.jobs[j], w.registry[w.jobs[j].id], OutcomeOf(result);
            var record := job.offers[|job.offers| - 1].record;
            && OnlyJob(w, w', j, job', e.(state := Ended(o), finishedAt := Some(t), terminal := Some(Terminal(o)),
                                          progress := Some(record)))
            && job'.sends == job.sends + [Progress(record)] + [Terminal(o)] && job'.pc == Over
            && job'.outcome == Some(o) && job'.endedAt == Some(t) && job'.offers == job.offers
            && job'.cancelled == (job.cancelled || !last || !first)
  {
    Ongoing(w, j, 0);
    w', job' := EndFlushing(w, j, result, first, last, t);
  }

  lemma EndPlainly(w: World, j: nat, result: WorkResult, last: bool, t: nat) returns (w': World, job': Job)
    requires j < |w.jobs| && w.jobs[j].pc.Ready? && w.jobs[j].id in w.registry
    requires !w.jobs[j].terminalSent && w.jobs[j].limiter.pending.None?
    ensures Leads(w, [End(j, result)] + [] + ([Advance(j, true, t)] + Delivering(j, last, t)), w')
    ensures var job, e, o := w.jobs[j], w.registry[w.jobs[j].id], OutcomeOf(result);
            && OnlyJob(w, w', j, job', e.(state := Ended(o), finishedAt := Some(t), terminal := Some(Terminal(o))))
            && job'.sends == job.sends + [Terminal(o)] && job'.pc == Over && job'.outcome == Some(o)
            && job'.endedAt == Some(t) && job'.offers == job.offers && job'.cancelled == (job.cancelled || !last)
  {
    var job, a, e, o := w.jobs[j], End(j, result), w.registry[w.jobs[j].id], OutcomeOf(result);
    var w1, more := Step(w, a), [Advance(j, true, t)] + Delivering(j, last, t);
    EndOnly(w, j, result);
    ConcludeMeaning(w1, j, last, t);
    RunMore(w, a, more);
    w' := Run(w1, more);
    job' := w'.jobs[j];
    OnlyTwice(w, w1, w', j, w1.jobs[j], e, job',
              e.(state := Ended(o), finishedAt := Some(t), terminal := Some(Terminal(o))));
    assert [a] + [] + more == [a] + more;
  }

  lemma EndOnly(w: World, j: nat, result: WorkResult)
    requires Enabled(w, End(j, result)) && w.jobs[j].id in w.registry
    ensures var w1 := Step(w, End(j, result)); OnlyJob(w, w1, j, w1.jobs[j], w.registry[w.jobs[j].id])
  {
    assert w.registry[w.jobs[j].id := w.registry[w.jobs[j].id]] == w.registry;
    assert w.jobs[j := w.jobs[j]] == w.jobs;
  }

  lemma EndFlushing(w: World, j: nat, result: WorkResult, first: bool, last: bool, t: nat)
    returns (w': World, job': Job)
    requires j < |w.jobs| && w.jobs[j].pc.Ready? && w.jobs[j].id in w.registry
    requires !w.jobs[j].terminalSent && w.jobs[j].limiter.pending.Some?
    ensures Leads(w, [End(j, result)] + ([Advance(j, true, t)] + Delivering(j, first, t))
                     + ([Advance(j, true, t)] + Delivering(j, last, t)), w')
    ensures var job, e, o := w.jobs[j], w.registry[w.jobs[j].id], OutcomeOf(result);
            && OnlyJob(w, w', j, job', e.(state := Ended(o), finishedAt := Some(t), terminal := Some(Terminal(o)),
                                          progress := job.limiter.pending))
            && job'.sends == job.sends + [Progress(job.limiter.pending.value)] + [Terminal(o)] && job'.pc == Over
            && job'.outcome == Some(o) && job'.endedAt == Some(t) && job'.offers == job.offers
            && job'.cancelled == (job.cancelled || !last || !first)
  {
    var job, a, e, o := w.jobs[j], End(j, result), w.registry[w.jobs[j].id], OutcomeOf(result);
    var flush, more := [Advance(j, true, t)] + Delivering(j, first, t), [Advance(j, true, t)] + Delivering(j, last, t);
    var w1 := Step(w, a);
    EndOnly(w, j, result);
    RecordMeaning(w1, j, first, t);
    var w2, e2 := Run(w1, flush), Marked(e.(progress := job.limiter.pending), first);
    OnlyTwice(w, w1, w2, j, w1.jobs[j], e, w2.jobs[j], e2);
    ConcludeMeaning(w2, j, last, t);
    RunBoth(w1, flush, more);
    RunMore(w, a, flush + more);
    w' := Run(w2, more);
    job' := w'.jobs[j];
    OnlyTwice(w, w2, w', j, w2.jobs[j], e2, job',
              e2.(state := Ended(o), finishedAt := Some(t), terminal := Some(Terminal(o))));
    assert [a] + flush + more == [a] + (flush + more);
  }

  /** Once the work has ended, reports and further ends do nothing. */
  lemma OverMeaning(w: World, j: nat, now: nat, record: Record, result: WorkResult)
    requires Inv(w) && j < |w.jobs| && w.jobs[j].pc.Over?
    ensures Step(w, Report(j, now, record)) == w && Step(w, End(j, result)) == w
  {
    assert JobOk(w.jobs[j]);
  }

  /** A new job first tells its receiver that it started. */
  lemma StartMeaning(w: World, j: nat, received: bool, t: nat)
    requires Inv(w) && j < |w.jobs| && w.jobs[j].pc.Starting?
    ensures w.jobs[j].id in w.registry
    ensures var job, acts := w.jobs[j], [Advance(j, true, t)] + Delivering(j, received, t);
            && Legal(w, acts)
            && OnlyJob(w, Run(w, acts), j,
                       job.(sends := [Started], cancelled := job.cancelled || !received, pc := Ready),
                       Marked(w.registry[job.id], received))
  {
    assert JobOk(w.jobs[j]) && Placed(w, j);
    Starts(w, j, received, t);
    assert [] + [Started] == [Started];
  }

  lemma Starts(w: World, j: nat, received: bool, t: nat)
    requires j < |w.jobs| && w.jobs[j].pc.Starting? && w.jobs[j].id in w.registry
    ensures var job, acts := w.jobs[j], [Advance(j, true, t)] + Delivering(j, received, t);
            && Legal(w, acts)
            && OnlyJob(w, Run(w, acts), j,
                       job.(sends := job.sends + [Started], cancelled := job.cancelled || !received, pc := Ready),
                       Marked(w.registry[job.id], received))
  {
    var job, e := w.jobs[j], w.registry[w.jobs[j].id];
    var w1 := Step(w, Advance(j, true, t));
    assert OnlyJob(w, w1, j, w1.jobs[j], e);
    ThenDelivered(w, j, e, received, t);
  }
}
