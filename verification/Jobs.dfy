/** The job runner as a protocol: every step is one lock region, one delivery to the receiver or one
    atomic store, and any number of jobs, reporters, cancellers and readers interleave. JobLocks has
    the locks themselves.

    A job's emitter lock is held from taking a report or the end of the work until its last effect;
    the program counter says how far the holder is. `Ready` and `Over` are the states in which nobody
    holds it. */
module Jobs {
  import opened Wrappers
  import opened RateLimit

  const PROGRESS_INTERVAL_MS: nat := 50
  const RETENTION_MS: nat := 60_000

  type Id = string
  datatype Record = Record(phase: string, done: int)

  datatype Outcome = Finished | Failed | Cancelled

  datatype JobState = Running | Cancelling | Ended(outcome: Outcome)

  datatype Event = Started | Progress(record: Record) | Terminal(outcome: Outcome)

  datatype Entry = Entry(job: nat, state: JobState, finishedAt: Option<nat>, progress: Option<Record>,
    terminal: Option<Event>)

  /** What follows a delivery. */
  datatype Follow = Resume | Conclude(outcome: Outcome) | Leave

  datatype Pc =
    | Starting
    | Ready
    | Recording(record: Record, after: Follow)
    | Sending(event: Event, after: Follow)
    | Losing(after: Follow)
    | Marking(after: Follow)
    | Concluding(outcome: Outcome)
    | Over

  /** One accepted job. `offers`, `outcome` and `endedAt` are history: what was reported, what the work
      ended with, and the clock reading written to the registry at the end. */
  datatype Job = Job(id: Id, cancelled: bool, terminalSent: bool, limiter: Limiter<Record>, pc: Pc, sends: seq<Event>,
                     offers: seq<Offering<Record>>, outcome: Option<Outcome>, endedAt: Option<nat>)

  /** `latest` is the greatest clock reading any pruning used so far. */
  datatype World = World(registry: map<Id, Entry>, jobs: seq<Job>, latest: nat)

  datatype Action =
    | Spawn(id: Id, now: nat)
    | Cancel(id: Id, now: nat)
    | CancelAll
    | Status(now: nat)
    | Report(job: nat, now: nat, record: Record)
    | End(job: nat, result: WorkResult)
    | Advance(job: nat, received: bool, now: nat)

  // ---------------------------------------------------------------- the work's result

  datatype WorkResult = Output(cancelled: bool) | WorkError(cancelled: bool) | Panic

  function OutcomeOf(r: WorkResult): Outcome {
    match r
    case Output(cancelled) => if cancelled then Cancelled else Finished
    case WorkError(cancelled) => if cancelled then Cancelled else Failed
    case Panic => Failed
  }

  // ---------------------------------------------------------------- registry steps

  predicate Expired(e: Entry, now: nat) {
    e.finishedAt.Some? && (if now >= e.finishedAt.value then now - e.finishedAt.value else 0) >= RETENTION_MS
  }

  function Prune(w: World, now: nat): World {
    w.(registry := map id | id in w.registry && !Expired(w.registry[id], now) :: w.registry[id],
       latest := if now > w.latest then now else w.latest)
  }

  function NewJob(id: Id): Job {
    Job(id, false, false, Limiter(PROGRESS_INTERVAL_MS, None, None), Starting, [], [], None, None)
  }

  /** Registers a job under an id that is free. */
  function Inserted(w: World, id: Id): World {
    if id in w.registry then w
    else w.(registry := w.registry[id := Entry(|w.jobs|, Running, None, None, None)], jobs := w.jobs + [NewJob(id)])
  }

  function SpawnStep(w: World, id: Id, now: nat): World { Inserted(Prune(w, now), id) }

  function CancelEntry(w: World, id: Id): World
    requires id in w.registry
  {
    var e := w.registry[id];
    if e.state.Ended? || e.job >= |w.jobs| then w
    else w.(registry := w.registry[id := e.(state := Cancelling)],
      jobs := w.jobs[e.job := w.jobs[e.job].(cancelled := true)])
  }

  datatype CancelState = Unknown | AlreadyEnded | NowCancelling

  function CancelStep(w: World, id: Id, now: nat): (World, CancelState) {
    var p := Prune(w, now);
    if id !in p.registry then (p, Unknown)
    else if p.registry[id].state.Ended? then (p, AlreadyEnded)
    else (CancelEntry(p, id), NowCancelling)
  }

  predicate LiveToken(registry: map<Id, Entry>, jobs: seq<Job>, j: nat)
    requires j < |jobs|
  {
    var id := jobs[j].id;
    id in registry && registry[id].job == j && !registry[id].state.Ended?
  }

  function CancelAllStep(w: World): World {
    w.(registry := map id | id in w.registry ::
                     if w.registry[id].state.Ended? then w.registry[id] else w.registry[id].(state := Cancelling),
       jobs := seq(|w.jobs|, j requires 0 <= j < |w.jobs| =>
                     if LiveToken(w.registry, w.jobs, j) then w.jobs[j].(cancelled := true) else w.jobs[j]))
  }

  // ---------------------------------------------------------------- emitter steps

  function WithJob(w: World, j: nat, job: Job): World
    requires j < |w.jobs|
  {
    w.(jobs := w.jobs[j := job])
  }

  function Continue(after: Follow): Pc {
    match after
    case Resume => Ready
    case Conclude(o) => Concluding(o)
    case Leave => Over
  }

  /** A report takes the emitter lock; after the terminal event it does nothing. */
  function ReportStep(w: World, j: nat, now: nat, record: Record): World
    requires j < |w.jobs|
  {
    var job := w.jobs[j];
    if job.terminalSent then w
    else
      WithJob(w, j, job.(limiter := Offered(job.limiter, now, record), offers := job.offers + [Offering(now, record)],
                         pc := if HeldBack(job.limiter, now) then Ready else Recording(record, Resume)))
  }

  /** The work ended: the terminal flag is set and the held-back record, if any, goes out first. */
  function EndStep(w: World, j: nat, outcome: Outcome): World
    requires j < |w.jobs|
  {
    var job := w.jobs[j];
    if job.terminalSent then w
    else
      WithJob(w, j, job.(terminalSent := true, limiter := job.limiter.(pending := None), outcome := Some(outcome),
                         pc := if job.limiter.pending.Some? then Recording(job.limiter.pending.value, Conclude(outcome))
                               else Concluding(outcome)))
  }

  /** The next effect of a lock holder on its own job: a delivery, the cancel flag, or moving on. */
  function Advanced(job: Job, received: bool, now: nat): Job {
    match job.pc
    case Ready => job
    case Over => job
    case Starting => job.(pc := Sending(Started, Resume))
    case Recording(r, after) => job.(pc := Sending(Progress(r), after))
    case Sending(e, after) => job.(sends := job.sends + [e], pc := if received then Continue(after) else Losing(after))
    case Losing(after) => job.(cancelled := true, pc := Marking(after))
    case Marking(after) => job.(pc := Continue(after))
    case Concluding(o) => job.(pc := Sending(Terminal(o), Leave), endedAt := Some(now))
  }

  /** And on the entry registered under the job's id, whosever it is. */
  function Touched(pc: Pc, e: Entry, now: nat): Entry {
    match pc
    case Recording(r, _) => e.(progress := Some(r))
    case Marking(_) => if e.state == Running then e.(state := Cancelling) else e
    case Concluding(o) => e.(state := Ended(o), finishedAt := Some(now), terminal := Some(Terminal(o)))
    case _ => e
  }

  function AdvanceStep(w: World, j: nat, received: bool, now: nat): World
    requires j < |w.jobs|
  {
    var job := w.jobs[j];
    w.(registry := if job.id in w.registry then w.registry[job.id := Touched(job.pc, w.registry[job.id], now)]
       else w.registry,
       jobs := w.jobs[j := Advanced(job, received, now)])
  }

  predicate Enabled(w: World, a: Action) {
    match a
    case Report(j, _, _) => j < |w.jobs| && (w.jobs[j].pc.Ready? || w.jobs[j].pc.Over?)
    case End(j, _) => j < |w.jobs| && (w.jobs[j].pc.Ready? || w.jobs[j].pc.Over?)
    case Advance(j, _, _) => j < |w.jobs| && !w.jobs[j].pc.Ready? && !w.jobs[j].pc.Over?
    case _ => true
  }

  function Step(w: World, a: Action): World
    requires Enabled(w, a)
  {
    match a
    case Spawn(id, now) => SpawnStep(w, id, now)
    case Cancel(id, now) => CancelStep(w, id, now).0
    case CancelAll => CancelAllStep(w)
    case Status(now) => Prune(w, now)
    case Report(j, now, record) => ReportStep(w, j, now, record)
    case End(j, result) => EndStep(w, j, OutcomeOf(result))
    case Advance(j, received, now) => AdvanceStep(w, j, received, now)
  }

  function Initial(): World { World(map[], [], 0) }

  predicate Legal(w: World, actions: seq<Action>)
    decreases |actions|
  {
    actions == [] || (Enabled(w, actions[0]) && Legal(Step(w, actions[0]), actions[1..]))
  }

  function Run(w: World, actions: seq<Action>): World
    requires Legal(w, actions)
    decreases |actions|
  {
    if actions == [] then w else Run(Step(w, actions[0]), actions[1..])
  }

  // ---------------------------------------------------------------- what holds of one job

  predicate OnlyProgress(events: seq<Event>) {
    forall i :: 0 <= i < |events| ==> events[i].Progress?
  }

  /** `Started`, then progress only. */
  predicate Open(sends: seq<Event>) {
    |sends| > 0 && sends[0].Started? && OnlyProgress(sends[1..])
  }

  /** `Started`, then progress only, then one terminal event. */
  predicate Closed(sends: seq<Event>) {
    |sends| > 1 && sends[|sends| - 1].Terminal? && Open(sends[..|sends| - 1])
  }

  predicate FollowOk(after: Follow, terminalSent: bool) {
    match after
    case Resume => !terminalSent
    case Conclude(_) => terminalSent
    case Leave => terminalSent
  }

  /** What the receiver was handed at each point. */
  predicate Shape(pc: Pc, sends: seq<Event>, terminalSent: bool, cancelled: bool) {
    match pc
    case Starting => sends == [] && !terminalSent
    case Ready => Open(sends) && !terminalSent
    case Recording(_, after) => Open(sends) && !after.Leave? && FollowOk(after, terminalSent)
    case Sending(e, after) =>
      && FollowOk(after, terminalSent)
      && (match e
          case Started => sends == [] && after.Resume?
          case Progress(_) => Open(sends) && !after.Leave?
          case Terminal(o) => Open(sends) && after.Leave?)
    case Losing(after) => FollowOk(after, terminalSent) && (if after.Leave? then Closed(sends) else Open(sends))
    case Marking(after) => FollowOk(after, terminalSent) && cancelled
      && (if after.Leave? then Closed(sends) else Open(sends))
    case Concluding(_) => Open(sends) && terminalSent
    case Over => Closed(sends) && terminalSent
  }

  /** The outcome on its way to the receiver, or there, is the one the work ended with. */
  predicate Bound(pc: Pc, sends: seq<Event>, terminalSent: bool, outcome: Option<Outcome>) {
    && (terminalSent <==> outcome.Some?)
    && (match pc
        case Recording(_, Conclude(o)) => outcome == Some(o)
        case Sending(Progress(_), Conclude(o)) => outcome == Some(o)
        case Losing(Conclude(o)) => outcome == Some(o)
        case Marking(Conclude(o)) => outcome == Some(o)
        case Concluding(o) => outcome == Some(o)
        case Sending(Terminal(o), _) => outcome == Some(o)
        case Losing(Leave) => EndsWith(sends, outcome)
        case Marking(Leave) => EndsWith(sends, outcome)
        case Over => EndsWith(sends, outcome)
        case _ => true)
  }

  predicate EndsWith(sends: seq<Event>, outcome: Option<Outcome>) {
    sends != [] && outcome.Some? && sends[|sends| - 1] == Terminal(outcome.value)
  }

  /** The registry's terminal record is written, so the entry may be pruned and the id reused. */
  predicate Past(pc: Pc) {
    match pc
    case Over => true
    case Sending(_, after) => after.Leave?
    case Losing(after) => after.Leave?
    case Marking(after) => after.Leave?
    case _ => false
  }

  /** The records of the progress events. */
  function Records(events: seq<Event>): seq<Record>
    decreases |events|
  {
    if events == [] then []
    else
      var n := |events| - 1;
      if events[n].Progress? then Records(events[..n]) + [events[n].record] else Records(events[..n])
  }

  /** The record its holder is about to hand over. */
  function InFlight(pc: Pc): seq<Record> {
    match pc
    case Recording(r, _) => [r]
    case Sending(Progress(r), _) => [r]
    case _ => []
  }

  function Picked(offers: seq<Offering<Record>>, numbers: seq<nat>): seq<Record>
    decreases |numbers|
  {
    if numbers == [] then []
    else
      var n := |numbers| - 1;
      if numbers[n] < |offers| then Picked(offers, numbers[..n]) + [offers[numbers[n]].record]
        else Picked(offers, numbers[..n])
  }
}
