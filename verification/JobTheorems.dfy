/** What every interleaving of the job runner keeps.

    `Inv` has two halves. Each job has handed its receiver what its program counter says, and that is
    what the limiter let through of its reports. Each registry entry agrees with its job, and an
    entry only disappears once its job has ended and the retention time has passed.

    The runs are sequences of actions of any actors in any order; the results are about every job of
    every run: the events a receiver sees, the states an entry passes through, which unfinished jobs
    can share an id, and when `Cancelling` in the registry means a cancelled token. The last one does
    not hold in every run; it is given with the run that breaks it and with the exact condition. */
module JobTheorems {
  import opened Wrappers
  import opened RateLimit
  import opened Jobs

  // ---------------------------------------------------------------- the invariant

  function Numbers(terminalSent: bool, offers: seq<Offering<Record>>): seq<nat> {
    if terminalSent then Delivered(PROGRESS_INTERVAL_MS, offers) else SentNumbers(PROGRESS_INTERVAL_MS, offers)
  }

  /** The progress handed over is what the limiter let through of the reports, the held-back record
      added at the end. */
  ghost predicate History(handed: seq<Record>, terminalSent: bool, offers: seq<Offering<Record>>,
                          limiter: Limiter<Record>)
  {
    && InRange(offers, Numbers(terminalSent, offers))
    && handed == Picked(offers, Numbers(terminalSent, offers))
    && (!terminalSent ==> limiter == RateLimit.After(PROGRESS_INTERVAL_MS, offers))
  }

  predicate InRange(offers: seq<Offering<Record>>, numbers: seq<nat>) {
    forall i :: 0 <= i < |numbers| ==> numbers[i] < |offers|
  }

  ghost predicate JobOk(job: Job) {
    && Shaped(job)
    && History(Records(job.sends) + InFlight(job.pc), job.terminalSent, job.offers, job.limiter)
  }

  /** An entry agrees with its job, and its end record is written all at once. */
  ghost predicate EntryOk(w: World, id: Id)
    requires id in w.registry
  {
    var e := w.registry[id];
    && e.job < |w.jobs| && w.jobs[e.job].id == id
    && (e.state.Ended? <==> Past(w.jobs[e.job].pc))
    && (e.state.Ended? <==> e.finishedAt.Some?)
    && (e.state.Ended? <==> e.terminal.Some?)
    && (e.state.Ended? ==> e.terminal == Some(Terminal(e.state.outcome)) && e.finishedAt == w.jobs[e.job].endedAt
                           && w.jobs[e.job].outcome == Some(e.state.outcome))
  }

  ghost predicate Registered(w: World, j: nat)
    requires j < |w.jobs|
  {
    var job := w.jobs[j];
    job.id in w.registry && w.registry[job.id].job == j
  }

  /** Only the entry of an ended job disappears, and only after the retention time. */
  ghost predicate Placed(w: World, j: nat)
    requires j < |w.jobs|
  {
    && (Past(w.jobs[j].pc) <==> w.jobs[j].endedAt.Some?)
    && Kept(w, j)
  }

  ghost predicate Kept(w: World, j: nat)
    requires j < |w.jobs|
  {
    Registered(w, j) || (w.jobs[j].endedAt.Some? && w.latest >= w.jobs[j].endedAt.value + RETENTION_MS)
  }

  ghost predicate RegistryInv(w: World) {
    && (forall j :: 0 <= j < |w.jobs| ==> Placed(w, j))
    && (forall id :: id in w.registry ==> EntryOk(w, id))
  }

  ghost predicate Shaped(job: Job) {
    Shape(job.pc, job.sends, job.terminalSent, job.cancelled) && Bound(job.pc, job.sends, job.terminalSent, job.outcome)
  }

  ghost predicate JobsInv(jobs: seq<Job>) {
    forall j :: 0 <= j < |jobs| ==> JobOk(jobs[j])
  }

  ghost predicate Inv(w: World) {
    JobsInv(w.jobs) && RegistryInv(w)
  }

  // ---------------------------------------------------------------- one job

  lemma RecordsAppend(a: seq<Event>, e: Event)
    ensures Records(a + [e]) == if e.Progress? then Records(a) + [e.record] else Records(a)
  {
    assert (a + [e])[..|a|] == a;
  }

  lemma {:induction false} PickedFacts(offers: seq<Offering<Record>>, numbers: seq<nat>)
    requires InRange(offers, numbers)
    ensures |Picked(offers, numbers)| == |numbers|
    ensures forall i :: 0 <= i < |numbers| ==> Picked(offers, numbers)[i] == offers[numbers[i]].record
    decreases |numbers|
  {
    if numbers != [] { PickedFacts(offers, numbers[..|numbers| - 1]); }
  }

  lemma {:induction false} PickedMore(offers: seq<Offering<Record>>, numbers: seq<nat>, o: Offering<Record>)
    requires InRange(offers, numbers)
    ensures Picked(offers + [o], numbers) == Picked(offers, numbers)
    decreases |numbers|
  {
    if numbers != [] { PickedMore(offers, numbers[..|numbers| - 1], o); }
  }

  lemma PickedAppend(offers: seq<Offering<Record>>, numbers: seq<nat>, n: nat)
    requires n < |offers|
    ensures Picked(offers, numbers + [n]) == Picked(offers, numbers) + [offers[n].record]
  {
    assert (numbers + [n])[..|numbers|] == numbers;
  }

  lemma OpenMore(sends: seq<Event>, e: Event)
    requires Open(sends)
    ensures e.Progress? ==> Open(sends + [e])
    ensures e.Terminal? ==> Closed(sends + [e])
  {
    assert (sends + [e])[1..] == sends[1..] + [e];
    assert (sends + [e])[..|sends + [e]| - 1] == sends;
  }

  /** A held-back report leaves what was handed over; one that is let through extends it. */
  lemma HeldHistory(handed: seq<Record>, offers: seq<Offering<Record>>, l: Limiter<Record>, now: nat, record: Record)
    requires History(handed, false, offers, l) && HeldBack(l, now)
    ensures History(handed, false, offers + [Offering(now, record)], Offered(l, now, record))
  {
    var o := Offering(now, record);
    assert (offers + [o])[..|offers|] == offers;
    assert SentNumbers(PROGRESS_INTERVAL_MS, offers + [o]) == SentNumbers(PROGRESS_INTERVAL_MS, offers);
    PickedMore(offers, SentNumbers(PROGRESS_INTERVAL_MS, offers), o);
  }

  lemma SentHistory(handed: seq<Record>, offers: seq<Offering<Record>>, l: Limiter<Record>, now: nat, record: Record)
    requires History(handed, false, offers, l) && !HeldBack(l, now)
    ensures History(handed + [record], false, offers + [Offering(now, record)], Offered(l, now, record))
  {
    var o, numbers := Offering(now, record), SentNumbers(PROGRESS_INTERVAL_MS, offers);
    assert (offers + [o])[..|offers|] == offers && (offers + [o])[|offers|] == o;
    assert SentNumbers(PROGRESS_INTERVAL_MS, offers + [o]) == numbers + [|offers|];
    PickedMore(offers, numbers, o);
    PickedAppend(offers + [o], numbers, |offers|);
  }

  /** At the end the held-back record joins. */
  lemma PendingJoins(handed: seq<Record>, offers: seq<Offering<Record>>, l: Limiter<Record>)
    requires History(handed, false, offers, l) && l.pending.Some?
    ensures History(handed + [l.pending.value], true, offers, l.(pending := None))
  {
    SendsFacts(PROGRESS_INTERVAL_MS, offers);
    var numbers := SentNumbers(PROGRESS_INTERVAL_MS, offers);
    assert Delivered(PROGRESS_INTERVAL_MS, offers) == numbers + [|offers| - 1];
    JoinedAtEnd(handed, offers, numbers);
  }

  lemma JoinedAtEnd(handed: seq<Record>, offers: seq<Offering<Record>>, numbers: seq<nat>)
    requires offers != [] && InRange(offers, numbers) && handed == Picked(offers, numbers)
    ensures var n := |offers| - 1;
            InRange(offers, numbers + [n]) && handed + [offers[n].record] == Picked(offers, numbers + [n])
  {
    PickedAppend(offers, numbers, |offers| - 1);
  }

  lemma NothingJoins(handed: seq<Record>, offers: seq<Offering<Record>>, l: Limiter<Record>)
    requires History(handed, false, offers, l) && l.pending.None?
    ensures History(handed, true, offers, l)
  {
    SendsFacts(PROGRESS_INTERVAL_MS, offers);
    assert Delivered(PROGRESS_INTERVAL_MS, offers) == SentNumbers(PROGRESS_INTERVAL_MS, offers);
  }

  /** A job is sound when its receiver's part and its history are. */
  lemma SoundBy(job: Job, handed: seq<Record>)
    requires Shaped(job) && handed == Records(job.sends) + InFlight(job.pc)
    requires History(handed, job.terminalSent, job.offers, job.limiter)
    ensures JobOk(job)
  {
  }

  lemma HeldKeeps(job: Job, now: nat, record: Record)
    requires JobOk(job) && job.pc.Ready? && HeldBack(job.limiter, now)
    ensures JobOk(job.(limiter := Offered(job.limiter, now, record), offers := job.offers + [Offering(now, record)]))
  {
    HeldHistory(Records(job.sends) + InFlight(Ready), job.offers, job.limiter, now, record);
    SoundBy(job.(limiter := Offered(job.limiter, now, record), offers := job.offers + [Offering(now, record)]),
            Records(job.sends) + InFlight(Ready));
  }

  lemma RecordingKeeps(job: Job, now: nat, record: Record)
    requires JobOk(job) && job.pc.Ready? && !HeldBack(job.limiter, now)
    ensures JobOk(job.(limiter := Offered(job.limiter, now, record), offers := job.offers + [Offering(now, record)],
                       pc := Recording(record, Resume)))
  {
    var handed := Records(job.sends);
    assert handed + InFlight(Ready) == handed;
    SentHistory(handed, job.offers, job.limiter, now, record);
    SoundBy(job.(limiter := Offered(job.limiter, now, record), offers := job.offers + [Offering(now, record)],
                 pc := Recording(record, Resume)),
            handed + [record]);
  }

  lemma EndWithPending(job: Job, outcome: Outcome)
    requires JobOk(job) && job.pc.Ready? && job.limiter.pending.Some?
    ensures JobOk(job.(terminalSent := true, limiter := job.limiter.(pending := None), outcome := Some(outcome),
                       pc := Recording(job.limiter.pending.value, Conclude(outcome))))
  {
    var handed, p := Records(job.sends), job.limiter.pending.value;
    assert handed + InFlight(Ready) == handed;
    PendingJoins(handed, job.offers, job.limiter);
    SoundBy(job.(terminalSent := true, limiter := job.limiter.(pending := None), outcome := Some(outcome),
            pc := Recording(p, Conclude(outcome))), handed + [p]);
  }

  lemma EndWithoutPending(job: Job, outcome: Outcome)
    requires JobOk(job) && job.pc.Ready? && job.limiter.pending.None?
    ensures JobOk(job.(terminalSent := true, limiter := job.limiter.(pending := None), outcome := Some(outcome),
            pc := Concluding(outcome)))
  {
    var handed := Records(job.sends);
    assert handed + InFlight(Ready) == handed && handed + InFlight(Concluding(outcome)) == handed;
    NothingJoins(handed, job.offers, job.limiter);
    assert job.limiter.(pending := None) == job.limiter;
    SoundBy(job.(terminalSent := true, limiter := job.limiter.(pending := None), outcome := Some(outcome),
            pc := Concluding(outcome)), handed);
  }

  function Sent(job: Job, received: bool): Job
    requires job.pc.Sending?
  {
    job.(sends := job.sends + [job.pc.event], pc := if received then Continue(job.pc.after) else Losing(job.pc.after))
  }

  lemma SentShaped(job: Job, received: bool)
    requires Shaped(job) && job.pc.Sending?
    ensures Shaped(Sent(job, received))
  {
    if job.sends != [] { OpenMore(job.sends, job.pc.event); } else { assert Sent(job, received).sends[1..] == []; }
  }

  lemma SentRecords(job: Job, received: bool)
    requires job.pc.Sending?
    ensures Records(job.sends) + InFlight(job.pc) ==
            Records(Sent(job, received).sends) + InFlight(Sent(job, received).pc)
  {
    RecordsAppend(job.sends, job.pc.event);
    assert InFlight(Sent(job, received).pc) == [];
  }

  lemma SendKeeps(job: Job, received: bool)
    requires JobOk(job) && job.pc.Sending?
    ensures JobOk(Sent(job, received))
  {
    SentShaped(job, received);
    SentRecords(job, received);
    SoundBy(Sent(job, received), Records(job.sends) + InFlight(job.pc));
  }

  // ---------------------------------------------------------------- one step

  lemma PruneKeeps(w: World, now: nat)
    requires RegistryInv(w)
    ensures RegistryInv(Prune(w, now))
  {
    var w' := Prune(w, now);
    forall id | id in w'.registry ensures EntryOk(w', id) { assert EntryOk(w, id); }
    forall j | 0 <= j < |w'.jobs| ensures Placed(w', j) {
      assert Placed(w, j);
      if Registered(w, j) { assert EntryOk(w, w.jobs[j].id); }
    }
  }

  lemma SpawnKeeps(w: World, id: Id, now: nat)
    requires RegistryInv(w)
    ensures RegistryInv(SpawnStep(w, id, now))
  {
    PruneKeeps(w, now);
    var p, w' := Prune(w, now), SpawnStep(w, id, now);
    if id !in p.registry {
      forall x | x in w'.registry ensures EntryOk(w', x) { if x != id { assert EntryOk(p, x); } }
      forall j | 0 <= j < |w'.jobs| ensures Placed(w', j) {
        if j < |p.jobs| { assert Placed(p, j); }
      }
    }
  }

  /** Cancel flags and entry changes that end no job. */
  lemma MildKeeps(w: World, w': World)
    requires RegistryInv(w) && w'.latest == w.latest && |w'.jobs| == |w.jobs| && w'.registry.Keys == w.registry.Keys
    requires forall j :: 0 <= j < |w.jobs| ==> SameJob(w.jobs[j], w'.jobs[j])
    requires forall id :: id in w.registry ==> SameEnd(w.registry[id], w'.registry[id])
    ensures RegistryInv(w')
  {
    forall x | x in w'.registry ensures EntryOk(w', x) {
      assert EntryOk(w, x) && SameEnd(w.registry[x], w'.registry[x]);
    }
    forall j | 0 <= j < |w'.jobs| ensures Placed(w', j) {
      assert Placed(w, j) && SameJob(w.jobs[j], w'.jobs[j]);
      if Registered(w, j) { assert SameEnd(w.registry[w.jobs[j].id], w'.registry[w.jobs[j].id]); }
    }
  }

  predicate SameJob(a: Job, b: Job) {
    a.id == b.id && Past(a.pc) == Past(b.pc) && a.endedAt == b.endedAt && (Past(a.pc) ==> a.outcome == b.outcome)
  }

  predicate SameEnd(a: Entry, b: Entry) {
    a.job == b.job && a.finishedAt == b.finishedAt && a.terminal == b.terminal
    && (a.state == b.state || (!a.state.Ended? && !b.state.Ended?))
  }

  lemma ConcludeKeeps(w: World, j: nat, received: bool, now: nat)
    requires RegistryInv(w) && j < |w.jobs| && w.jobs[j].pc.Concluding? && Shaped(w.jobs[j])
    ensures RegistryInv(AdvanceStep(w, j, received, now))
  {
    var w' := AdvanceStep(w, j, received, now);
    assert Placed(w, j) && Registered(w, j);
    forall x | x in w'.registry ensures EntryOk(w', x) { assert EntryOk(w, x); }
    forall k | 0 <= k < |w'.jobs| ensures Placed(w', k) { assert Placed(w, k); }
  }

  lemma AdvanceKeeps(w: World, j: nat, received: bool, now: nat)
    requires RegistryInv(w) && j < |w.jobs| && Shaped(w.jobs[j])
    ensures RegistryInv(AdvanceStep(w, j, received, now))
  {
    var job := w.jobs[j];
    if job.pc.Concluding? {
      ConcludeKeeps(w, j, received, now);
    } else {
      SameAdvanced(job, received, now);
      MildKeeps(w, AdvanceStep(w, j, received, now));
    }
  }

  lemma SameAdvanced(job: Job, received: bool, now: nat)
    requires Shaped(job) && !job.pc.Concluding?
    ensures SameJob(job, Advanced(job, received, now))
    ensures forall e :: SameEnd(e, Touched(job.pc, e, now))
  {
  }

  lemma CancelStepKeeps(w: World, id: Id, now: nat)
    requires RegistryInv(w)
    ensures RegistryInv(CancelStep(w, id, now).0)
  {
    PruneKeeps(w, now);
    MildKeeps(Prune(w, now), CancelStep(w, id, now).0);
  }

  lemma ReportStepKeeps(w: World, j: nat, now: nat, record: Record)
    requires RegistryInv(w) && j < |w.jobs| && Shaped(w.jobs[j]) && (w.jobs[j].pc.Ready? || w.jobs[j].pc.Over?)
    ensures RegistryInv(ReportStep(w, j, now, record))
  {
    MildKeeps(w, ReportStep(w, j, now, record));
  }

  lemma EndStepKeeps(w: World, j: nat, outcome: Outcome)
    requires RegistryInv(w) && j < |w.jobs| && Shaped(w.jobs[j]) && (w.jobs[j].pc.Ready? || w.jobs[j].pc.Over?)
    ensures RegistryInv(EndStep(w, j, outcome))
  {
    MildKeeps(w, EndStep(w, j, outcome));
  }

  lemma CancelAllKeeps(w: World)
    requires RegistryInv(w)
    ensures RegistryInv(CancelAllStep(w))
  {
    MildKeeps(w, CancelAllStep(w));
  }

  lemma RegistryStep(w: World, a: Action)
    requires RegistryInv(w) && Enabled(w, a)
    requires forall j :: 0 <= j < |w.jobs| ==> Shaped(w.jobs[j])
    ensures RegistryInv(Step(w, a))
  {
    match a
    case Spawn(id, now) => SpawnKeeps(w, id, now);
    case Cancel(id, now) => CancelStepKeeps(w, id, now);
    case CancelAll => CancelAllKeeps(w);
    case Status(now) => PruneKeeps(w, now);
    case Report(j, now, record) => ReportStepKeeps(w, j, now, record);
    case End(j, result) => EndStepKeeps(w, j, OutcomeOf(result));
    case Advance(j, received, now) => AdvanceKeeps(w, j, received, now);
  }

  lemma FlagKeeps(job: Job)
    requires JobOk(job)
    ensures JobOk(job.(cancelled := true))
  {
  }

  lemma NewJobOk(id: Id)
    ensures JobOk(NewJob(id))
  {
  }

  lemma QuietShaped(job: Job, received: bool, now: nat)
    requires Shaped(job) && !job.pc.Sending?
    ensures Shaped(Advanced(job, received, now))
    ensures InFlight(Advanced(job, received, now).pc) == InFlight(job.pc)
    ensures Advanced(job, received, now) ==
            job.(pc := Advanced(job, received, now).pc, cancelled := Advanced(job, received, now).cancelled,
                                                 endedAt := Advanced(job, received, now).endedAt)
  {
  }

  lemma AdvancedKeeps(job: Job, received: bool, now: nat)
    requires JobOk(job)
    ensures JobOk(Advanced(job, received, now))
  {
    if job.pc.Sending? {
      SendKeeps(job, received);
    } else {
      QuietShaped(job, received, now);
      SoundBy(Advanced(job, received, now), Records(job.sends) + InFlight(job.pc));
    }
  }

  lemma ReportKeeps(job: Job, now: nat, record: Record)
    requires JobOk(job) && job.pc.Ready?
    ensures JobOk(job.(limiter := Offered(job.limiter, now, record), offers := job.offers + [Offering(now, record)],
                       pc := if HeldBack(job.limiter, now) then Ready else Recording(record, Resume)))
  {
    if HeldBack(job.limiter, now) { HeldKeeps(job, now, record); } else { RecordingKeeps(job, now, record); }
  }

  lemma EndKeeps(job: Job, outcome: Outcome)
    requires JobOk(job) && job.pc.Ready?
    ensures JobOk(job.(terminalSent := true, limiter := job.limiter.(pending := None), outcome := Some(outcome),
                       pc := if job.limiter.pending.Some? then Recording(job.limiter.pending.value, Conclude(outcome))
                             else Concluding(outcome)))
  {
    if job.limiter.pending.Some? { EndWithPending(job, outcome); } else { EndWithoutPending(job, outcome); }
  }

  lemma OneJobChanged(jobs: seq<Job>, j: nat, job: Job)
    requires JobsInv(jobs) && j < |jobs| && JobOk(job)
    ensures JobsInv(jobs[j := job])
  {
  }

  lemma OwnJobStep(w: World, a: Action)
    requires JobsInv(w.jobs) && Enabled(w, a) && (a.Report? || a.End? || a.Advance?)
    ensures JobsInv(Step(w, a).jobs)
  {
    var job := w.jobs[a.job];
    assert JobOk(job);
    match a
    case Report(j, now, record) =>
      if !job.terminalSent {
        ReportKeeps(job, now, record);
        OneJobChanged(w.jobs, j, Step(w, a).jobs[j]);
      }
    case End(j, result) =>
      if !job.terminalSent {
        EndKeeps(job, OutcomeOf(result));
        OneJobChanged(w.jobs, j, Step(w, a).jobs[j]);
      }
    case Advance(j, received, now) =>
      AdvancedKeeps(job, received, now);
      OneJobChanged(w.jobs, j, Step(w, a).jobs[j]);
  }

  /** Cancel flags and new jobs do no harm. */
  lemma FlagsKeep(before: seq<Job>, jobs: seq<Job>)
    requires JobsInv(before) && |before| <= |jobs|
    requires forall j :: 0 <= j < |before| ==> jobs[j] == before[j] || jobs[j] == before[j].(cancelled := true)
    requires forall j :: |before| <= j < |jobs| ==> jobs[j] == NewJob(jobs[j].id)
    ensures JobsInv(jobs)
  {
    forall j | 0 <= j < |jobs| ensures JobOk(jobs[j]) {
      if j < |before| {
        FlagKeeps(before[j]);
      } else {
        NewJobOk(jobs[j].id);
      }
    }
  }

  lemma JobsStep(w: World, a: Action)
    requires JobsInv(w.jobs) && Enabled(w, a)
    ensures JobsInv(Step(w, a).jobs)
  {
    if a.Report? || a.End? || a.Advance? {
      OwnJobStep(w, a);
    } else {
      FlagsKeep(w.jobs, Step(w, a).jobs);
    }
  }

  lemma AllShaped(jobs: seq<Job>)
    requires JobsInv(jobs)
    ensures forall j :: 0 <= j < |jobs| ==> Shaped(jobs[j])
  {
    forall j | 0 <= j < |jobs| ensures Shaped(jobs[j]) { assert JobOk(jobs[j]); }
  }

  /** The registry and every job stay sound under every step of every actor: an ended entry carries
      its end record and only an ended one does; no unfinished job is ever pruned; and so no two
      unfinished jobs share an id. */
  lemma InvStep(w: World, a: Action)
    requires Inv(w) && Enabled(w, a)
    ensures Inv(Step(w, a))
  {
    JobsStep(w, a);
    AllShaped(w.jobs);
    RegistryStep(w, a);
  }

  lemma {:induction false} RunInv(w: World, actions: seq<Action>)
    requires Inv(w) && Legal(w, actions)
    ensures Inv(Run(w, actions))
    decreases |actions|
  {
    if actions != [] {
      InvStep(w, actions[0]);
      RunInv(Step(w, actions[0]), actions[1..]);
    }
  }

  // ---------------------------------------------------------------- what the receiver sees

  /** All the receiver got: the let-through reports in order, the last report last, and the outcome the
      work ended with. */
  ghost predicate Delivery(job: Job) {
    var got, numbers := Records(job.sends), Delivered(PROGRESS_INTERVAL_MS, job.offers);
    && Closed(job.sends) && EndsWith(job.sends, job.outcome)
    && |got| == |numbers| && Increasing(numbers) && InRange(job.offers, numbers)
    && (forall i :: 0 <= i < |got| ==> got[i] == job.offers[numbers[i]].record)
    && (job.offers != [] ==> got != [] && numbers[|numbers| - 1] == |job.offers| - 1)
  }

  predicate Increasing(numbers: seq<nat>) {
    forall i, j :: 0 <= i < j < |numbers| ==> numbers[i] < numbers[j]
  }

  lemma EndedDelivery(job: Job)
    requires Shaped(job) && job.pc.Over?
    requires Records(job.sends) == Picked(job.offers, Delivered(PROGRESS_INTERVAL_MS, job.offers))
    ensures Delivery(job)
  {
    NothingNewerIsLost(PROGRESS_INTERVAL_MS, job.offers);
    PickedFacts(job.offers, Delivered(PROGRESS_INTERVAL_MS, job.offers));
  }

  lemma OverHistory(job: Job)
    requires JobOk(job) && job.pc.Over?
    ensures Records(job.sends) == Picked(job.offers, Delivered(PROGRESS_INTERVAL_MS, job.offers))
  {
    assert Records(job.sends) + InFlight(Over) == Records(job.sends);
  }

  predicate Own(a: Action, j: nat) {
    (a.Report? || a.End? || a.Advance?) && a.job == j
  }

  /** Other actors touch nothing of a job but its cancel flag. */
  lemma OthersKeep(w: World, a: Action, j: nat)
    requires Enabled(w, a) && j < |w.jobs| && !Own(a, j)
    ensures j < |Step(w, a).jobs|
    ensures Step(w, a).jobs[j] == w.jobs[j] || Step(w, a).jobs[j] == w.jobs[j].(cancelled := true)
  {
    match a
    case Cancel(id, n) =>
    case _ =>
  }

  /** The first result the work of a job ended with. */
  function FirstEnd(actions: seq<Action>, j: nat): Option<Outcome> {
    if actions == [] then None
    else if actions[0].End? && actions[0].job == j then Some(OutcomeOf(actions[0].result))
    else FirstEnd(actions[1..], j)
  }

  /** A job's outcome is set once, by the first end of its work. */
  lemma OutcomeStep(w: World, a: Action, j: nat)
    requires JobsInv(w.jobs) && Enabled(w, a) && j < |Step(w, a).jobs|
    ensures Step(w, a).jobs[j].outcome ==
            if j < |w.jobs| && w.jobs[j].outcome.Some? then w.jobs[j].outcome
            else if a.End? && a.job == j then Some(OutcomeOf(a.result)) else None
  {
    if j >= |w.jobs| {
      NewOutcome(w, a, j);
    } else if Own(a, j) {
      assert JobOk(w.jobs[j]);
      OwnOutcome(w, a, j);
    } else {
      OthersKeep(w, a, j);
    }
  }

  lemma NewOutcome(w: World, a: Action, j: nat)
    requires Enabled(w, a) && |w.jobs| <= j < |Step(w, a).jobs|
    ensures a.Spawn? && Step(w, a).jobs[j].outcome == None
  {
  }

  lemma OwnOutcome(w: World, a: Action, j: nat)
    requires Enabled(w, a) && j < |w.jobs| && Own(a, j) && Shaped(w.jobs[j])
    ensures j < |Step(w, a).jobs|
    ensures Step(w, a).jobs[j].outcome ==
            if a.End? && w.jobs[j].outcome.None? then Some(OutcomeOf(a.result)) else w.jobs[j].outcome
  {
    match a
    case Advance(_, _, _) =>
    case _ =>
  }

  lemma {:induction false} OutcomeIsFirstEnd(w: World, actions: seq<Action>, j: nat)
    requires Inv(w) && Legal(w, actions) && j < |Run(w, actions).jobs|
    ensures Run(w, actions).jobs[j].outcome ==
            if j < |w.jobs| && w.jobs[j].outcome.Some? then w.jobs[j].outcome else FirstEnd(actions, j)
    decreases |actions|
  {
    if actions == [] {
      assert JobOk(w.jobs[j]);
    } else {
      var next := Step(w, actions[0]);
      InvStep(w, actions[0]);
      OutcomeIsFirstEnd(next, actions[1..], j);
      if j < |next.jobs| { OutcomeStep(w, actions[0], j); } else { EndsOnlyRegistered(w, actions[0], j); }
    }
  }

  lemma EndsOnlyRegistered(w: World, a: Action, j: nat)
    requires Enabled(w, a) && j >= |Step(w, a).jobs|
    ensures j >= |w.jobs| && !(a.End? && a.job == j)
  {
  }

  /** The end record the registry keeps for a job. */
  predicate Recorded(w: World, j: nat)
    requires j < |w.jobs|
  {
    var job := w.jobs[j];
    job.id in w.registry && w.registry[job.id].job == j ==>
      job.outcome.Some? && w.registry[job.id].state == Ended(job.outcome.value)
      && w.registry[job.id].terminal == Some(Terminal(job.outcome.value))
  }

  /** In every run, a job whose lock is free for good has handed over `Started`, then progress, then
      exactly one terminal event. Its progress is a subsequence of the reports that ends with the last
      of them. The terminal event is the first result its work ended with, and so is the end record in
      the registry for as long as it is kept. */
  lemma EventsOfAJob(actions: seq<Action>, j: nat)
    requires Legal(Initial(), actions) && j < |Run(Initial(), actions).jobs|
    ensures var w := Run(Initial(), actions);
            && (w.jobs[j].pc.Ready? ==> Open(w.jobs[j].sends))
            && (w.jobs[j].pc.Over? ==> Delivery(w.jobs[j]))
            && (Past(w.jobs[j].pc) ==> Recorded(w, j))
            && w.jobs[j].outcome == FirstEnd(actions, j)
  {
    RunInv(Initial(), actions);
    OutcomeIsFirstEnd(Initial(), actions, j);
    var w := Run(Initial(), actions);
    var job := w.jobs[j];
    assert JobOk(job);
    if job.pc.Over? {
      OverHistory(job);
      EndedDelivery(job);
    }
    if Past(job.pc) && Registered(w, j) { assert EntryOk(w, job.id); }
  }

  lemma OwnGrows(w: World, a: Action, j: nat)
    requires Enabled(w, a) && j < |w.jobs| && Own(a, j) && Shaped(w.jobs[j])
    ensures j < |Step(w, a).jobs| && w.jobs[j].sends <= Step(w, a).jobs[j].sends
    ensures w.jobs[j].pc.Over? ==> Step(w, a).jobs[j] == w.jobs[j]
  {
    match a
    case Advance(_, _, _) =>
    case _ =>
  }

  /** Events are only ever appended, and none after the end. */
  lemma SendsGrow(w: World, a: Action, j: nat)
    requires Inv(w) && Enabled(w, a) && j < |w.jobs|
    ensures j < |Step(w, a).jobs| && w.jobs[j].sends <= Step(w, a).jobs[j].sends
    ensures w.jobs[j].pc.Over? ==> Step(w, a).jobs[j].pc.Over? && Step(w, a).jobs[j].sends == w.jobs[j].sends
  {
    AllShaped(w.jobs);
    if Own(a, j) { OwnGrows(w, a, j); } else { OthersKeep(w, a, j); }
  }

  function Rank(s: JobState): nat {
    match s case Running => 0 case Cancelling => 1 case Ended(_) => 2
  }

  lemma AdvanceForward(w: World, j: nat, received: bool, now: nat, id: Id)
    requires RegistryInv(w) && j < |w.jobs| && Shaped(w.jobs[j]) && id in w.registry
    ensures Rank(w.registry[id].state) <= Rank(AdvanceStep(w, j, received, now).registry[id].state)
    ensures w.registry[id].state.Ended? ==> AdvanceStep(w, j, received, now).registry[id].state == w.registry[id].state
  {
    assert Placed(w, j) && EntryOk(w, id);
  }

  lemma RegistryForward(w: World, a: Action, id: Id)
    requires Enabled(w, a) && !a.Advance? && id in w.registry && id in Step(w, a).registry
    requires w.registry[id].job < |w.jobs| && Step(w, a).registry[id].job == w.registry[id].job
    ensures Rank(w.registry[id].state) <= Rank(Step(w, a).registry[id].state)
    ensures w.registry[id].state.Ended? ==> Step(w, a).registry[id].state == w.registry[id].state
  {
    match a
    case Spawn(x, now) => assert id in Prune(w, now).registry ==> Prune(w, now).registry[id] == w.registry[id];
    case Cancel(x, now) => assert Prune(w, now).registry[id] == w.registry[id];
    case _ =>
  }

  /** The state of a registered job only moves forward, and an end state is never replaced. */
  lemma StatesMoveForward(w: World, a: Action, id: Id)
    requires Inv(w)
    ensures Enabled(w, a) && id in w.registry && id in Step(w, a).registry
            && Step(w, a).registry[id].job == w.registry[id].job ==>
              && Rank(w.registry[id].state) <= Rank(Step(w, a).registry[id].state)
              && (w.registry[id].state.Ended? ==> Step(w, a).registry[id].state == w.registry[id].state)
  {
    if Enabled(w, a) && id in w.registry && id in Step(w, a).registry
      && Step(w, a).registry[id].job == w.registry[id].job {
      assert EntryOk(w, id);
      AllShaped(w.jobs);
      if a.Advance? { AdvanceForward(w, a.job, a.received, a.now, id); } else { RegistryForward(w, a, id); }
    }
  }

  /** Two unfinished jobs never share an id. */
  lemma OneUnfinishedPerId(w: World, i: nat, j: nat)
    requires Inv(w) && i < |w.jobs| && j < |w.jobs| && w.jobs[i].id == w.jobs[j].id
    requires !Past(w.jobs[i].pc) && !Past(w.jobs[j].pc)
    ensures i == j
  {
    assert JobOk(w.jobs[i]) && JobOk(w.jobs[j]) && Placed(w, i) && Placed(w, j);
  }

  // ---------------------------------------------------------------- cancel tokens

  /** An entry says `Cancelling` only when the job's token is cancelled. */
  ghost predicate TokensAgree(w: World) {
    forall id :: id in w.registry && w.registry[id].state == Cancelling && w.registry[id].job < |w.jobs|
                 ==> w.jobs[w.registry[id].job].cancelled
  }

  /** A job that has ended, whose terminal event found no receiver, is about to mark the entry of a
      later job that took over its id. */
  ghost predicate MarksStranger(w: World, a: Action) {
    && a.Advance? && a.job < |w.jobs| && w.jobs[a.job].pc.Marking?
    && var id := w.jobs[a.job].id;
       && id in w.registry && w.registry[id].state == Running
       && w.registry[id].job != a.job && w.registry[id].job < |w.jobs|
       && !w.jobs[w.registry[id].job].cancelled
  }

  lemma TokensAdvance(w: World, j: nat, received: bool, now: nat)
    requires RegistryInv(w) && TokensAgree(w) && Enabled(w, Advance(j, received, now)) && Shaped(w.jobs[j])
    ensures TokensAgree(AdvanceStep(w, j, received, now)) <==> !MarksStranger(w, Advance(j, received, now))
  {
    var w', job := AdvanceStep(w, j, received, now), w.jobs[j];
    if MarksStranger(w, Advance(j, received, now)) {
      assert w'.registry[job.id].state == Cancelling && !w'.jobs[w'.registry[job.id].job].cancelled;
    } else {
      forall id | id in w'.registry && w'.registry[id].state == Cancelling && w'.registry[id].job < |w'.jobs|
        ensures w'.jobs[w'.registry[id].job].cancelled
      {
        assert EntryOk(w, id);
        assert id in w.registry && w'.registry[id].job == w.registry[id].job;
        assert id != job.id ==> w'.registry[id] == w.registry[id];
      }
    }
  }

  lemma TokensCancelled(w: World, id: Id)
    requires RegistryInv(w) && TokensAgree(w) && id in w.registry
    ensures TokensAgree(CancelEntry(w, id))
  {
    assert EntryOk(w, id);
  }

  lemma TokensCancelAll(w: World)
    requires RegistryInv(w) && TokensAgree(w)
    ensures TokensAgree(CancelAllStep(w))
  {
    var w' := CancelAllStep(w);
    forall id | id in w'.registry && w'.registry[id].state == Cancelling && w'.registry[id].job < |w'.jobs|
      ensures w'.jobs[w'.registry[id].job].cancelled
    {
      assert EntryOk(w, id);
    }
  }

  lemma TokensSpawn(w: World, id: Id, now: nat)
    requires RegistryInv(w) && TokensAgree(w)
    ensures TokensAgree(SpawnStep(w, id, now))
  {
    var w' := SpawnStep(w, id, now);
    forall x | x in w'.registry && w'.registry[x].state == Cancelling && w'.registry[x].job < |w'.jobs|
      ensures w'.jobs[w'.registry[x].job].cancelled
    {
      assert EntryOk(w, x);
    }
  }

  lemma TokensPruned(w: World, now: nat)
    requires TokensAgree(w)
    ensures TokensAgree(Prune(w, now))
  {
  }

  lemma TokensReported(w: World, j: nat, now: nat, record: Record, outcome: Outcome)
    requires TokensAgree(w) && j < |w.jobs|
    ensures TokensAgree(ReportStep(w, j, now, record)) && TokensAgree(EndStep(w, j, outcome))
  {
  }

  lemma TokensOther(w: World, a: Action)
    requires RegistryInv(w) && TokensAgree(w) && Enabled(w, a) && !a.Advance?
    ensures TokensAgree(Step(w, a))
  {
    match a
    case Spawn(id, now) => TokensSpawn(w, id, now);
    case Cancel(id, now) =>
      PruneKeeps(w, now);
      TokensPruned(w, now);
      if id in Prune(w, now).registry { TokensCancelled(Prune(w, now), id); }
    case CancelAll => TokensCancelAll(w);
    case Status(now) => TokensPruned(w, now);
    case Report(j, now, record) => TokensReported(w, j, now, record, Finished);
    case End(j, result) => TokensReported(w, j, 0, Record("", 0), OutcomeOf(result));
  }

  /** A step keeps the tokens in agreement exactly when it does not mark a stranger. */
  lemma TokensStep(w: World, a: Action)
    requires Inv(w) && TokensAgree(w) && Enabled(w, a)
    ensures TokensAgree(Step(w, a)) <==> !MarksStranger(w, a)
  {
    if a.Advance? {
      AllShaped(w.jobs);
      TokensAdvance(w, a.job, a.received, a.now);
    } else {
      TokensOther(w, a);
    }
  }

  /** It takes the whole retention time between the end record and its delivery. */
  lemma StrangerNeedsRetention(w: World, a: Action)
    requires Inv(w)
    ensures MarksStranger(w, a) ==>
              && Past(w.jobs[a.job].pc) && w.jobs[a.job].endedAt.Some?
              && w.latest >= w.jobs[a.job].endedAt.value + RETENTION_MS
  {
    if a.Advance? && a.job < |w.jobs| { assert JobOk(w.jobs[a.job]) && Placed(w, a.job); }
  }

  ghost predicate TokensAlwaysAgree(w: World, actions: seq<Action>)
    requires Legal(w, actions)
    decreases |actions|
  {
    TokensAgree(w) && (actions != [] ==> TokensAlwaysAgree(Step(w, actions[0]), actions[1..]))
  }

  ghost predicate NeverMarksStranger(w: World, actions: seq<Action>)
    requires Legal(w, actions)
    decreases |actions|
  {
    actions != [] ==> !MarksStranger(w, actions[0]) && NeverMarksStranger(Step(w, actions[0]), actions[1..])
  }

  /** Over a whole run `Cancelling` means a cancelled token exactly when no late delivery ever marks
      the entry of another job. */
  lemma {:induction false} TokensExact(w: World, actions: seq<Action>)
    requires Inv(w) && TokensAgree(w) && Legal(w, actions)
    ensures TokensAlwaysAgree(w, actions) <==> NeverMarksStranger(w, actions)
    decreases |actions|
  {
    if actions != [] {
      InvStep(w, actions[0]);
      TokensStep(w, actions[0]);
      if !MarksStranger(w, actions[0]) { TokensExact(Step(w, actions[0]), actions[1..]); }
    }
  }

  /** No clock reading used for pruning reaches a job's end plus the retention time while its terminal
      event is still being delivered. */
  ghost predicate Prompt(w: World, actions: seq<Action>)
    requires Legal(w, actions)
    decreases |actions|
  {
    && (forall j :: 0 <= j < |w.jobs| && Past(w.jobs[j].pc) && !w.jobs[j].pc.Over? && w.jobs[j].endedAt.Some?
                    ==> w.latest < w.jobs[j].endedAt.value + RETENTION_MS)
    && (actions != [] ==> Prompt(Step(w, actions[0]), actions[1..]))
  }

  lemma {:induction false} PromptRunsAgree(w: World, actions: seq<Action>)
    requires Inv(w) && TokensAgree(w) && Legal(w, actions) && Prompt(w, actions)
    ensures TokensAlwaysAgree(w, actions)
    decreases |actions|
  {
    if actions != [] {
      InvStep(w, actions[0]);
      TokensStep(w, actions[0]);
      if MarksStranger(w, actions[0]) {
        StrangerNeedsRetention(w, actions[0]);
        assert false;
      }
      PromptRunsAgree(Step(w, actions[0]), actions[1..]);
    }
  }

  /** A job ends; its id is taken over a minute later; only then does its terminal event fail. */
  function LateActions(): seq<Action> {
    [Spawn("a", 0), Advance(0, true, 0), Advance(0, true, 0), End(0, Output(false)), Advance(0, true, 0),
     Spawn("a", 60_000), Advance(0, false, 0), Advance(0, true, 0), Advance(0, true, 0)]
  }

  lemma LateDelivery()
    ensures Legal(Initial(), LateActions())
    ensures var w := Run(Initial(), LateActions());
            "a" in w.registry && w.registry["a"] == Entry(1, Cancelling, None, None, None)
            && |w.jobs| == 2 && !w.jobs[1].cancelled
  {
    var w, actions := FirstRuns();
    w, actions := FirstEnds(w, actions);
    w, actions := SecondStarts(w, actions);
    w, actions := LateMark(w, actions);
    assert actions == LateActions();
  }

  lemma {:induction false} OneMore(w: World, actions: seq<Action>, a: Action)
    requires Legal(w, actions) && Enabled(Run(w, actions), a)
    ensures Legal(w, actions + [a]) && Run(w, actions + [a]) == Step(Run(w, actions), a)
    decreases |actions|
  {
    if actions == [] {
      assert [a][1..] == [];
    } else {
      assert (actions + [a])[1..] == actions[1..] + [a];
      OneMore(Step(w, actions[0]), actions[1..], a);
    }
  }

  ghost predicate Arrives(w: World, actions: seq<Action>) { Legal(Initial(), actions) && Run(Initial(), actions) == w }

  lemma Onward(w: World, actions: seq<Action>, a: Action) returns (w': World, actions': seq<Action>)
    requires Arrives(w, actions) && Enabled(w, a)
    ensures w' == Step(w, a) && actions' == actions + [a] && Arrives(w', actions')
  {
    OneMore(Initial(), actions, a);
    w', actions' := Step(w, a), actions + [a];
  }

  /** The first job has started. */
  lemma FirstRuns() returns (w: World, actions: seq<Action>)
    ensures Arrives(w, actions) && actions == [Spawn("a", 0), Advance(0, true, 0), Advance(0, true, 0)]
    ensures w.registry.Keys == {"a"} && w.registry["a"] == Entry(0, Running, None, None, None)
    ensures |w.jobs| == 1 && w.jobs[0] == NewJob("a").(pc := Ready, sends := w.jobs[0].sends)
  {
    w, actions := Initial(), [];
    w, actions := Onward(w, actions, Spawn("a", 0));
    w, actions := Onward(w, actions, Advance(0, true, 0));
    w, actions := Onward(w, actions, Advance(0, true, 0));
  }

  /** The end record of the first job is written; its terminal event is about to be sent. */
  lemma FirstEnds(before: World, so: seq<Action>) returns (w: World, actions: seq<Action>)
    requires Arrives(before, so) && before.registry.Keys == {"a"}
    requires before.registry["a"] == Entry(0, Running, None, None, None)
    requires |before.jobs| == 1 && before.jobs[0] == NewJob("a").(pc := Ready, sends := before.jobs[0].sends)
    ensures Arrives(w, actions) && actions == so + [End(0, Output(false)), Advance(0, true, 0)]
    ensures w.registry.Keys == {"a"}
            && w.registry["a"] == Entry(0, Ended(Finished), Some(0), None, Some(Terminal(Finished)))
    ensures |w.jobs| == 1 && w.jobs[0].id == "a" && w.jobs[0].pc == Sending(Terminal(Finished), Leave)
  {
    w, actions := Onward(before, so, End(0, Output(false)));
    w, actions := Onward(w, actions, Advance(0, true, 0));
  }

  /** A minute later a second job takes over the id. */
  lemma SecondStarts(before: World, so: seq<Action>) returns (w: World, actions: seq<Action>)
    requires Arrives(before, so) && before.registry.Keys == {"a"}
    requires before.registry["a"] == Entry(0, Ended(Finished), Some(0), None, Some(Terminal(Finished)))
    requires |before.jobs| == 1 && before.jobs[0].id == "a" && before.jobs[0].pc == Sending(Terminal(Finished), Leave)
    ensures Arrives(w, actions) && actions == so + [Spawn("a", 60_000)]
    ensures "a" in w.registry && w.registry["a"] == Entry(1, Running, None, None, None)
    ensures |w.jobs| == 2 && w.jobs[0] == before.jobs[0] && w.jobs[1] == NewJob("a")
  {
    assert "a" !in Prune(before, 60_000).registry;
    w, actions := Onward(before, so, Spawn("a", 60_000));
  }

  /** Only then does the first job's terminal event find no receiver. */
  lemma LateMark(before: World, so: seq<Action>) returns (w: World, actions: seq<Action>)
    requires Arrives(before, so) && "a" in before.registry
             && before.registry["a"] == Entry(1, Running, None, None, None)
    requires |before.jobs| == 2 && before.jobs[1] == NewJob("a")
    requires before.jobs[0].id == "a" && before.jobs[0].pc == Sending(Terminal(Finished), Leave)
    ensures Arrives(w, actions) && actions == so + [Advance(0, false, 0), Advance(0, true, 0), Advance(0, true, 0)]
    ensures "a" in w.registry && w.registry["a"] == Entry(1, Cancelling, None, None, None)
    ensures |w.jobs| == 2 && !w.jobs[1].cancelled
  {
    w, actions := Onward(before, so, Advance(0, false, 0));
    w, actions := Onward(w, actions, Advance(0, true, 0));
    w, actions := Onward(w, actions, Advance(0, true, 0));
  }
}
