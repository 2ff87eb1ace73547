/** The locks of the job runner with their owners, taken and released thread by thread. */
module JobLocks {
  import opened Wrappers
  import opened Jobs
  import JobTheorems

  // ---------------------------------------------------------------- threads and locks

  /** The operations that take the registry lock only. */
  datatype Call = SpawnCall(id: Id) | CancelCall(id: Id) | CancelAllCall | StatusCall

  /** The operations that take an emitter lock. */
  datatype Task = Reporting(record: Record) | Finishing(result: WorkResult)

  /** Where a call stands: it waits for the registry, holds it, has pruned, or is about to release it.
      A spawn then knows the job it registered, if any. */
  datatype Region = Waiting | Locked | Pruned(now: nat) | Written(job: Option<nat>)

  /** Where a thread that serves a job stands with the registry lock. The end of a job visits the
      registry twice: to read the start time, then to write the end record. */
  datatype Stage = Apart | Peeking | Peeked | Holding | Done

  datatype Thread =
    | Idle
    | Calling(call: Call, region: Region)
    | Opening(job: nat, at: Stage)
    | Entering(job: nat, task: Task)
    | Inside(job: nat, todo: Option<Task>, at: Stage)

  datatype Lock = RegistryLock | EmitterLock(job: nat)

  /** `world` is the state of the protocol, `published` the jobs whose emitter the work can reach. The
      program counter of a job is the place in the emitter code of whichever thread serves the job. */
  datatype System = System(world: World, registryLock: Option<nat>, emitterLocks: map<nat, nat>, published: set<nat>,
                           threads: seq<Thread>)

  datatype Move =
    | Begin(thread: nat, call: Call)
    | Enter(thread: nat, job: nat, task: Task)
    | Go(thread: nat, now: nat, received: bool, runtime: bool)

  function Fresh(n: nat): System { System(Initial(), None, map[], {}, seq(n, _ => Idle)) }

  function Owner(s: System, l: Lock): Option<nat> {
    match l
    case RegistryLock => s.registryLock
    case EmitterLock(j) => if j in s.emitterLocks then Some(s.emitterLocks[j]) else None
  }

  predicate NeedsRegistry(pc: Pc) { pc.Recording? || pc.Marking? || pc.Concluding? }

  predicate Quiet(pc: Pc) { pc.Ready? || pc.Over? }

  function PcOf(w: World, j: nat): Pc { if j < |w.jobs| then w.jobs[j].pc else Over }

  function Serving(pc: Pc, at: Stage): Option<Lock> {
    if at.Peeked? || (at.Apart? && NeedsRegistry(pc)) then Some(RegistryLock) else None
  }

  /** The lock a thread needs for its next step. */
  function Wants(w: World, th: Thread): Option<Lock> {
    match th
    case Calling(_, Waiting) => Some(RegistryLock)
    case Opening(j, at) => Serving(PcOf(w, j), at)
    case Entering(j, _) => Some(EmitterLock(j))
    case Inside(j, None, at) => Serving(PcOf(w, j), at)
    case _ => None
  }

  predicate JobKnown(w: World, th: Thread) {
    match th
    case Opening(j, _) => j < |w.jobs|
    case Inside(j, _, _) => j < |w.jobs|
    case _ => true
  }

  /** A thread can go on when it is in an operation and nobody holds the lock it needs, itself
      included: the locks are not reentrant. */
  predicate CanGo(s: System, t: nat) {
    t < |s.threads| && !s.threads[t].Idle? && JobKnown(s.world, s.threads[t])
    && (match Wants(s.world, s.threads[t]) case Some(l) => Owner(s, l).None? case None => true)
  }

  predicate Allowed(s: System, m: Move) {
    match m
    case Begin(t, _) => t < |s.threads| && s.threads[t].Idle?
    case Enter(t, j, _) => t < |s.threads| && s.threads[t].Idle? && j in s.published
    case Go(t, _, _, _) => CanGo(s, t)
  }

  // ---------------------------------------------------------------- steps

  function Moved(s: System, t: nat, th: Thread): System
    requires t < |s.threads|
  {
    s.(threads := s.threads[t := th])
  }

  /** What a call does to the pruned registry. */
  function CallEffect(w: World, call: Call): World {
    match call
    case SpawnCall(id) => Inserted(w, id)
    case CancelCall(id) => if id in w.registry then CancelEntry(w, id) else w
    case CancelAllCall => CancelAllStep(w)
    case StatusCall => w
  }

  function NewJobOf(w: World, call: Call): Option<nat> {
    if call.SpawnCall? && call.id !in w.registry then Some(|w.jobs|) else None
  }

  function CallStep(s: System, t: nat, call: Call, region: Region, now: nat): System
    requires t < |s.threads|
  {
    match region
    case Waiting => Moved(s, t, Calling(call, Locked)).(registryLock := Some(t))
    case Locked =>
      if call.CancelAllCall? then Moved(s, t, Calling(call, Written(None))).(world := CancelAllStep(s.world))
      else Moved(s, t, Calling(call, Pruned(now))).(world := Prune(s.world, now))
    case Pruned(_) => Moved(s, t, Calling(call, Written(NewJobOf(s.world, call)))).(world := CallEffect(s.world, call))
    case Written(r) => Moved(s, t, if r.Some? then Opening(r.value, Apart) else Idle).(registryLock := None)
  }

  /** One step in the emitter code of job `j`, outside or inside its lock. */
  function ServeStep(s: System, t: nat, j: nat, at: Stage, now: nat, received: bool): System
    requires t < |s.threads| && j < |s.world.jobs| && (s.threads[t].Opening? || s.threads[t].Inside?)
  {
    var th, pc := s.threads[t], s.world.jobs[j].pc;
    match at
    case Apart =>
      if NeedsRegistry(pc)
        then Moved(s, t, th.(at := if pc.Concluding? then Peeking else Holding)).(registryLock := Some(t))
      else s.(world := AdvanceStep(s.world, j, received, now))
    case Peeking => Moved(s, t, th.(at := Peeked)).(registryLock := None)
    case Peeked => Moved(s, t, th.(at := Holding)).(registryLock := Some(t))
    case Holding => Moved(s, t, th.(at := Done)).(world := AdvanceStep(s.world, j, received, now))
    case Done => Moved(s, t, th.(at := Apart)).(registryLock := None)
  }

  function TaskEffect(w: World, j: nat, task: Task, now: nat): World
    requires j < |w.jobs|
  {
    match task
    case Reporting(record) => ReportStep(w, j, now, record)
    case Finishing(result) => EndStep(w, j, OutcomeOf(result))
  }

  function GoStep(s: System, t: nat, now: nat, received: bool, runtime: bool): System
    requires CanGo(s, t)
  {
    match s.threads[t]
    case Idle => s
    case Calling(call, region) => CallStep(s, t, call, region, now)
    case Opening(j, at) =>
      if at.Apart? && s.world.jobs[j].pc.Ready? then
        Moved(s, t, if runtime then Idle else Entering(j, Finishing(WorkError(false)))).(published := s.published + {j})
      else ServeStep(s, t, j, at, now, received)
    case Entering(j, task) => Moved(s, t, Inside(j, Some(task), Apart)).(emitterLocks := s.emitterLocks[j := t])
    case Inside(j, Some(task), at) => Moved(s, t, Inside(j, None, at)).(world := TaskEffect(s.world, j, task, now))
    case Inside(j, None, at) =>
      if at.Apart? && Quiet(s.world.jobs[j].pc) then Moved(s, t, Idle).(emitterLocks := s.emitterLocks - {j})
      else ServeStep(s, t, j, at, now, received)
  }

  function Next(s: System, m: Move): System
    requires Allowed(s, m)
  {
    match m
    case Begin(t, call) => Moved(s, t, Calling(call, Waiting))
    case Enter(t, j, task) => Moved(s, t, Entering(j, task))
    case Go(t, now, received, runtime) => GoStep(s, t, now, received, runtime)
  }

  predicate Possible(s: System, moves: seq<Move>)
    decreases |moves|
  {
    moves == [] || (Allowed(s, moves[0]) && Possible(Next(s, moves[0]), moves[1..]))
  }

  function After(s: System, moves: seq<Move>): System
    requires Possible(s, moves)
    decreases |moves|
  {
    if moves == [] then s else After(Next(s, moves[0]), moves[1..])
  }

  // ---------------------------------------------------------------- the invariant

  predicate HasRegistry(th: Thread) {
    match th
    case Calling(_, region) => !region.Waiting?
    case Opening(_, at) => at.Peeking? || at.Holding? || at.Done?
    case Inside(_, _, at) => at.Peeking? || at.Holding? || at.Done?
    case _ => false
  }

  predicate HasEmitter(th: Thread, j: nat) { th.Inside? && th.job == j }

  /** The thread that registered a job and has not handed its emitter out yet. */
  predicate Opens(th: Thread, j: nat) { (th.Opening? && th.job == j) || (th.Calling? && th.region == Written(Some(j))) }

  predicate RegistryHeld(s: System, t: nat) { t < |s.threads| && HasRegistry(s.threads[t]) }

  predicate EmitterHeld(s: System, t: nat, j: nat) { t < |s.threads| && HasEmitter(s.threads[t], j) }

  predicate Opened(s: System, t: nat, j: nat) { t < |s.threads| && Opens(s.threads[t], j) }

  /** The owners are exactly the threads whose position says so. */
  ghost predicate LocksOwned(s: System) {
    && (forall t: nat :: RegistryHeld(s, t) <==> s.registryLock == Some(t))
    && (forall t: nat, j: nat :: EmitterHeld(s, t, j) <==> j in s.emitterLocks && s.emitterLocks[j] == t)
  }

  /** Pruning at `now` finds nothing to do. */
  predicate PrunedAt(w: World, now: nat) {
    now <= w.latest && forall id :: id in w.registry ==> !Expired(w.registry[id], now)
  }

  predicate StageOk(at: Stage, pc: Pc) {
    match at
    case Peeking => pc.Concluding?
    case Peeked => pc.Concluding?
    case Holding => NeedsRegistry(pc)
    case _ => true
  }

  /** The delivery of `Started`. */
  predicate StartPhase(pc: Pc) {
    match pc
    case Starting => true
    case Ready => true
    case Sending(Started, Resume) => true
    case Losing(Resume) => true
    case Marking(Resume) => true
    case _ => false
  }

  predicate CallOk(w: World, published: set<nat>, call: Call, region: Region) {
    match region
    case Pruned(now) => !call.CancelAllCall? && PrunedAt(w, now)
    case Written(Some(j)) => j < |w.jobs| && j !in published && w.jobs[j].pc.Starting?
    case _ => true
  }

  predicate ThreadOk(w: World, published: set<nat>, th: Thread) {
    match th
    case Idle => true
    case Calling(call, region) => CallOk(w, published, call, region)
    case Opening(j, at) => j < |w.jobs| && j !in published && StartPhase(w.jobs[j].pc) && StageOk(at, w.jobs[j].pc)
    case Entering(j, _) => j in published
    case Inside(j, todo, at) =>
      j < |w.jobs| && j in published && StageOk(at, w.jobs[j].pc) && (todo.Some? ==> at.Apart? && Quiet(w.jobs[j].pc))
  }

  ghost predicate ThreadsOk(s: System) {
    forall t :: 0 <= t < |s.threads| ==> ThreadOk(s.world, s.published, s.threads[t])
  }

  /** A job whose emitter nobody holds is between two operations. */
  predicate JobQuiet(s: System, j: nat) {
    j in s.published ==> j < |s.world.jobs| && (j !in s.emitterLocks ==> Quiet(s.world.jobs[j].pc))
  }

  ghost predicate JobsQuiet(s: System) { forall j: nat :: JobQuiet(s, j) }

  ghost predicate OneOpener(s: System) {
    forall t: nat, u: nat, j: nat :: Opened(s, t, j) && Opened(s, u, j) ==> t == u
  }

  ghost predicate Inv(s: System) { LocksOwned(s) && ThreadsOk(s) && JobsQuiet(s) && OneOpener(s) }

  lemma FreshInv(n: nat)
    ensures Inv(Fresh(n))
  {
  }

  // ---------------------------------------------------------------- what one step may change

  predicate Serves(th: Thread, j: nat) { HasEmitter(th, j) || Opens(th, j) }

  /** Only the holder of the registry lock changes the registry, and only the thread that serves a job
      moves it on. */
  ghost predicate Guarded(s: System, w: World, t: nat)
    requires t < |s.threads|
  {
    && (HasRegistry(s.threads[t]) || (w.registry == s.world.registry && w.latest == s.world.latest))
    && |s.world.jobs| <= |w.jobs|
    && (forall j :: 0 <= j < |s.world.jobs| ==> w.jobs[j].pc == s.world.jobs[j].pc || Serves(s.threads[t], j))
  }

  /** Thread `t` went from its old position to `th`; nothing else moved. */
  ghost predicate Only(s: System, s': System, t: nat, th: Thread) {
    t < |s.threads| && s'.threads == s.threads[t := th]
  }

  /** The other threads stay sound. */
  lemma OthersOk(s: System, s': System, t: nat, th: Thread, u: nat)
    requires Inv(s) && Only(s, s', t, th) && Guarded(s, s'.world, t) && u < |s.threads| && u != t
    requires s.published <= s'.published && forall j :: j in s'.published && j !in s.published ==>
             Opens(s.threads[t], j)
    ensures ThreadOk(s'.world, s'.published, s'.threads[u])
  {
    assert ThreadOk(s.world, s.published, s.threads[u]) && ThreadOk(s.world, s.published, s.threads[t]);
    match s.threads[u]
    case Calling(call, Pruned(now)) =>
      assert RegistryHeld(s, u);
      assert RegistryHeld(s, t) <==> s.registryLock == Some(t);
    case Calling(call, Written(Some(j))) =>
      assert Opened(s, u, j);
      assert Opened(s, t, j) ==> t == u;
    case Opening(j, at) =>
      assert Opened(s, u, j);
      assert Opened(s, t, j) ==> t == u;
    case Inside(j, todo, at) =>
      assert EmitterHeld(s, u, j);
      assert EmitterHeld(s, t, j) ==> t == u;
    case _ =>
  }

  /** The registry lock after the step of `t`. */
  ghost predicate RegistryMoved(s: System, s': System, t: nat, th: Thread)
    requires t < |s.threads|
  {
    && s'.registryLock ==
      (if HasRegistry(th) then Some(t) else if HasRegistry(s.threads[t]) then None else s.registryLock)
    && (HasRegistry(th) && !HasRegistry(s.threads[t]) ==> s.registryLock == None)
  }

  ghost predicate EmittersMoved(s: System, s': System, t: nat, th: Thread)
    requires t < |s.threads|
  {
    if th.Inside? == s.threads[t].Inside?
      then s'.emitterLocks == s.emitterLocks && (th.Inside? ==> th.job == s.threads[t].job)
    else if th.Inside? then th.job !in s.emitterLocks && s'.emitterLocks == s.emitterLocks[th.job := t]
    else s'.emitterLocks == s.emitterLocks - {s.threads[t].job}
  }

  lemma LocksKept(s: System, s': System, t: nat, th: Thread)
    requires LocksOwned(s) && Only(s, s', t, th) && RegistryMoved(s, s', t, th) && EmittersMoved(s, s', t, th)
    ensures LocksOwned(s')
  {
    assert RegistryHeld(s, t) <==> s.registryLock == Some(t);
    forall u: nat ensures RegistryHeld(s', u) <==> s'.registryLock == Some(u) {
      assert RegistryHeld(s, u) <==> s.registryLock == Some(u);
    }
    forall u: nat, j: nat ensures EmitterHeld(s', u, j) <==> j in s'.emitterLocks && s'.emitterLocks[j] == u {
      assert EmitterHeld(s, u, j) <==> j in s.emitterLocks && s.emitterLocks[j] == u;
      assert EmitterHeld(s, t, j) <==> j in s.emitterLocks && s.emitterLocks[j] == t;
    }
  }

  /** Who may become an opener: the one before, or the thread that just registered a new job. */
  lemma OpenersKept(s: System, s': System, t: nat, th: Thread)
    requires Inv(s) && Only(s, s', t, th)
    requires forall j: nat :: Opens(th, j) ==> Opens(s.threads[t], j) || j == |s.world.jobs|
    ensures OneOpener(s')
  {
    forall u: nat, v: nat, j: nat | Opened(s', u, j) && Opened(s', v, j) ensures u == v {
      if u != t { assert ThreadOk(s.world, s.published, s.threads[u]); }
      if v != t { assert ThreadOk(s.world, s.published, s.threads[v]); }
      assert Opened(s, u, j) && Opened(s, v, j) ==> u == v;
    }
  }

  /** Jobs stay quiet while nobody holds their emitter. */
  lemma QuietKept(s: System, s': System, t: nat, th: Thread)
    requires Inv(s) && Only(s, s', t, th) && Guarded(s, s'.world, t) && EmittersMoved(s, s', t, th)
    requires s.published <= s'.published
    requires forall j :: j in s'.published && j !in s.published ==>
             Opens(s.threads[t], j) && PcOf(s'.world, j).Ready? && j < |s.world.jobs|
    requires s.threads[t].Inside? && !th.Inside? ==> Quiet(PcOf(s'.world, s.threads[t].job))
    ensures JobsQuiet(s')
  {
    assert ThreadOk(s.world, s.published, s.threads[t]);
    forall j: nat ensures JobQuiet(s', j) {
      assert JobQuiet(s, j);
      assert EmitterHeld(s, t, j) <==> j in s.emitterLocks && s.emitterLocks[j] == t;
      if j in s'.published && j !in s'.emitterLocks && j in s.published {
        assert !Opens(s.threads[t], j);
        if HasEmitter(s.threads[t], j) {
          assert Quiet(PcOf(s'.world, j));
        } else {
          assert s'.world.jobs[j].pc == s.world.jobs[j].pc;
        }
      }
    }
  }

  /** One step keeps the invariant when it is guarded and its own thread lands soundly. */
  lemma InvBy(s: System, s': System, t: nat, th: Thread)
    requires Inv(s) && Only(s, s', t, th) && Guarded(s, s'.world, t)
    requires RegistryMoved(s, s', t, th) && EmittersMoved(s, s', t, th)
    requires forall j: nat :: Opens(th, j) ==> Opens(s.threads[t], j) || j == |s.world.jobs|
    requires s.published <= s'.published
    requires forall j :: j in s'.published && j !in s.published ==>
             Opens(s.threads[t], j) && PcOf(s'.world, j).Ready? && j < |s.world.jobs|
    requires s.threads[t].Inside? && !th.Inside? ==> Quiet(PcOf(s'.world, s.threads[t].job))
    requires ThreadOk(s'.world, s'.published, th)
    ensures Inv(s')
  {
    LocksKept(s, s', t, th);
    OpenersKept(s, s', t, th);
    QuietKept(s, s', t, th);
    forall u | 0 <= u < |s'.threads| ensures ThreadOk(s'.world, s'.published, s'.threads[u]) {
      if u != t { OthersOk(s, s', t, th, u); }
    }
  }

  // ---------------------------------------------------------------- every step keeps the invariant

  lemma PruneSettles(w: World, now: nat)
    ensures PrunedAt(Prune(w, now), now)
  {
  }

  lemma PrunedIsFixed(w: World, now: nat)
    requires PrunedAt(w, now)
    ensures Prune(w, now) == w
  {
    assert Prune(w, now).registry == w.registry;
  }

  lemma CallEffectFacts(w: World, call: Call)
    ensures var w' := CallEffect(w, call);
            && |w.jobs| <= |w'.jobs| && (forall j :: 0 <= j < |w.jobs| ==> w'.jobs[j].pc == w.jobs[j].pc)
            && (NewJobOf(w, call).Some? ==> |w'.jobs| == |w.jobs| + 1 && w'.jobs[|w.jobs|].pc.Starting?)
  {
  }

  lemma CallKeeps(s: System, t: nat, now: nat)
    requires Inv(s) && CanGo(s, t) && s.threads[t].Calling?
    ensures Inv(CallStep(s, t, s.threads[t].call, s.threads[t].region, now))
  {
    var call, region := s.threads[t].call, s.threads[t].region;
    var s' := CallStep(s, t, call, region, now);
    var th := s'.threads[t];
    assert ThreadOk(s.world, s.published, s.threads[t]) && JobQuiet(s, |s.world.jobs|);
    CallEffectFacts(s.world, call);
    PruneSettles(s.world, now);
    InvBy(s, s', t, th);
  }

  /** A step that needs no registry lock leaves the registry alone. */
  lemma AdvanceFacts(w: World, j: nat, received: bool, now: nat)
    requires j < |w.jobs|
    ensures var w' := AdvanceStep(w, j, received, now);
            && |w'.jobs| == |w.jobs| && w'.latest == w.latest
            && (forall k :: 0 <= k < |w.jobs| && k != j ==> w'.jobs[k] == w.jobs[k])
            && (StartPhase(w.jobs[j].pc) ==> StartPhase(w'.jobs[j].pc))
            && (!NeedsRegistry(w.jobs[j].pc) ==> w'.registry == w.registry)
  {
    var job := w.jobs[j];
    if !NeedsRegistry(job.pc) && job.id in w.registry {
      assert Touched(job.pc, w.registry[job.id], now) == w.registry[job.id];
      assert w.registry[job.id := w.registry[job.id]] == w.registry;
    }
  }

  lemma ServeKeeps(s: System, t: nat, now: nat, received: bool)
    requires Inv(s) && CanGo(s, t) && (s.threads[t].Opening? || (s.threads[t].Inside? && s.threads[t].todo.None?))
    requires s.threads[t].at.Apart? ==> !Quiet(s.world.jobs[s.threads[t].job].pc)
    ensures Inv(ServeStep(s, t, s.threads[t].job, s.threads[t].at, now, received))
  {
    var j, at := s.threads[t].job, s.threads[t].at;
    var s' := ServeStep(s, t, j, at, now, received);
    assert ThreadOk(s.world, s.published, s.threads[t]);
    AdvanceFacts(s.world, j, received, now);
    InvBy(s, s', t, s'.threads[t]);
  }

  lemma TaskFacts(w: World, j: nat, task: Task, now: nat)
    requires j < |w.jobs|
    ensures var w' := TaskEffect(w, j, task, now);
            && |w'.jobs| == |w.jobs| && w'.registry == w.registry && w'.latest == w.latest
            && (forall k :: 0 <= k < |w.jobs| && k != j ==> w'.jobs[k] == w.jobs[k])
  {
  }

  lemma GoKeeps(s: System, t: nat, now: nat, received: bool, runtime: bool)
    requires Inv(s) && CanGo(s, t)
    ensures Inv(GoStep(s, t, now, received, runtime))
  {
    var s' := GoStep(s, t, now, received, runtime);
    assert ThreadOk(s.world, s.published, s.threads[t]);
    match s.threads[t]
    case Idle =>
    case Calling(_, _) => CallKeeps(s, t, now);
    case Opening(j, at) =>
      if at.Apart? && s.world.jobs[j].pc.Ready? {
        InvBy(s, s', t, s'.threads[t]);
      } else {
        ServeKeeps(s, t, now, received);
      }
    case Entering(j, task) =>
      assert JobQuiet(s, j);
      InvBy(s, s', t, s'.threads[t]);
    case Inside(j, Some(task), _) =>
      TaskFacts(s.world, j, task, now);
      InvBy(s, s', t, s'.threads[t]);
    case Inside(j, None, at) =>
      if at.Apart? && Quiet(s.world.jobs[j].pc) {
        InvBy(s, s', t, s'.threads[t]);
      } else {
        ServeKeeps(s, t, now, received);
      }
  }

  /** Every step of every thread keeps the owners of the locks true to the threads' positions. */
  lemma InvNext(s: System, m: Move)
    requires Inv(s) && Allowed(s, m)
    ensures Inv(Next(s, m))
  {
    match m
    case Begin(t, call) => InvBy(s, Next(s, m), t, Calling(call, Waiting));
    case Enter(t, j, task) => InvBy(s, Next(s, m), t, Entering(j, task));
    case Go(t, now, received, runtime) => GoKeeps(s, t, now, received, runtime);
  }

  lemma {:induction false} InvAfter(s: System, moves: seq<Move>)
    requires Inv(s) && Possible(s, moves)
    ensures Inv(After(s, moves))
    decreases |moves|
  {
    if moves != [] {
      InvNext(s, moves[0]);
      InvAfter(Next(s, moves[0]), moves[1..]);
    }
  }

  // ---------------------------------------------------------------- who may change what

  lemma GoGuarded(s: System, t: nat, now: nat, received: bool, runtime: bool)
    requires Inv(s) && CanGo(s, t)
    ensures Guarded(s, GoStep(s, t, now, received, runtime).world, t)
  {
    assert ThreadOk(s.world, s.published, s.threads[t]);
    match s.threads[t]
    case Calling(call, _) => CallEffectFacts(s.world, call);
    case Opening(j, _) => AdvanceFacts(s.world, j, received, now);
    case Inside(j, Some(task), _) => TaskFacts(s.world, j, task, now);
    case Inside(j, None, _) => AdvanceFacts(s.world, j, received, now);
    case _ =>
  }

  // ---------------------------------------------------------------- the atomic protocol

  function ServeAction(pc: Pc, j: nat, at: Stage, now: nat, received: bool): Option<Action> {
    if at.Holding? || (at.Apart? && !NeedsRegistry(pc)) then Some(Advance(j, received, now)) else None
  }

  function TaskAction(j: nat, task: Task, now: nat): Action {
    match task
    case Reporting(record) => Report(j, now, record)
    case Finishing(result) => End(j, result)
  }

  function CallAction(call: Call, region: Region, now: nat): Option<Action> {
    match (call, region)
    case (CancelAllCall, Locked) => Some(CancelAll)
    case (_, Locked) => Some(Status(now))
    case (SpawnCall(id), Pruned(n)) => Some(Spawn(id, n))
    case (CancelCall(id), Pruned(n)) => Some(Cancel(id, n))
    case _ => None
  }

  /** The protocol step a move performs; none when it only moves a lock. */
  function Performed(s: System, m: Move): Option<Action>
    requires Allowed(s, m)
  {
    match m
    case Begin(_, _) => None
    case Enter(_, _, _) => None
    case Go(t, now, received, _) =>
      match s.threads[t]
      case Calling(call, region) => CallAction(call, region, now)
      case Opening(j, at) =>
        var pc := s.world.jobs[j].pc;
        if at.Apart? && pc.Ready? then None else ServeAction(pc, j, at, now, received)
      case Inside(j, Some(task), _) => Some(TaskAction(j, task, now))
      case Inside(j, None, at) =>
        var pc := s.world.jobs[j].pc;
        if at.Apart? && Quiet(pc) then None else ServeAction(pc, j, at, now, received)
      case _ => None
  }

  lemma CallRefines(s: System, t: nat, now: nat)
    requires Inv(s) && CanGo(s, t) && s.threads[t].Calling?
    ensures var call, region := s.threads[t].call, s.threads[t].region;
            var w' := CallStep(s, t, call, region, now).world;
            match CallAction(call, region, now)
            case None => w' == s.world
            case Some(a) => Enabled(s.world, a) && w' == Step(s.world, a)
  {
    assert ThreadOk(s.world, s.published, s.threads[t]);
    if s.threads[t].region.Pruned? { PrunedIsFixed(s.world, s.threads[t].region.now); }
  }

  /** Every move is one enabled step of the atomic protocol, or none. */
  lemma MoveRefines(s: System, m: Move)
    requires Inv(s) && Allowed(s, m)
    ensures match Performed(s, m)
            case None => Next(s, m).world == s.world
            case Some(a) => Enabled(s.world, a) && Next(s, m).world == Step(s.world, a)
  {
    if m.Go? {
      var t := m.thread;
      assert ThreadOk(s.world, s.published, s.threads[t]);
      if s.threads[t].Calling? { CallRefines(s, t, m.now); }
    }
  }

  function Actions(s: System, moves: seq<Move>): seq<Action>
    requires Possible(s, moves)
    decreases |moves|
  {
    if moves == [] then []
    else (match Performed(s, moves[0]) case Some(a) => [a] case None => []) + Actions(Next(s, moves[0]), moves[1..])
  }

  /** Every run with locks, of any number of threads, is a run of the atomic protocol. */
  lemma {:induction false} LocksRefine(s: System, moves: seq<Move>)
    requires Inv(s) && Possible(s, moves)
    ensures Legal(s.world, Actions(s, moves)) && Run(s.world, Actions(s, moves)) == After(s, moves).world
    decreases |moves|
  {
    if moves != [] {
      var rest := Actions(Next(s, moves[0]), moves[1..]);
      MoveRefines(s, moves[0]);
      InvNext(s, moves[0]);
      LocksRefine(Next(s, moves[0]), moves[1..]);
      match Performed(s, moves[0])
      case Some(a) => assert ([a] + rest)[1..] == rest;
      case None => assert [] + rest == rest;
    }
  }

  /** So everything proved of the atomic protocol holds under the locks; among it: whenever nobody
      holds the emitter of a job its work can reach, the receiver has `Started` and progress, and after
      the end of the work exactly the delivery of a whole job. */
  lemma EventsUnderLocks(n: nat, moves: seq<Move>, j: nat)
    requires Possible(Fresh(n), moves)
    ensures var s := After(Fresh(n), moves);
            && JobTheorems.Inv(s.world)
            && (j in s.published && j !in s.emitterLocks ==>
                  && j < |s.world.jobs|
                  && (if s.world.jobs[j].outcome.Some? then JobTheorems.Delivery(s.world.jobs[j])
                    else Open(s.world.jobs[j].sends)))
  {
    var s, actions := After(Fresh(n), moves), Actions(Fresh(n), moves);
    FreshInv(n);
    InvAfter(Fresh(n), moves);
    LocksRefine(Fresh(n), moves);
    JobTheorems.RunInv(Initial(), actions);
    assert JobQuiet(s, j);
    if j in s.published && j !in s.emitterLocks {
      assert JobTheorems.JobOk(s.world.jobs[j]);
      JobTheorems.EventsOfAJob(actions, j);
    }
  }

  /** The job differs in more than its cancel flag. */
  predicate Changed(before: Job, now: Job) { now != before && now != before.(cancelled := true) }

  /** The thread spawned the job, and nobody else can reach the emitter yet. */
  predicate SpawnedBy(s: System, t: nat, j: nat) { j !in s.published && Opened(s, t, j) }

  /** The registry is only changed by the thread that holds its lock. Beyond its cancel flag, a job is
      only changed by the thread that holds its emitter lock, or by the thread that spawned it while
      nobody else can reach the emitter. */
  lemma ChangesAreLocked(s: System, m: Move, j: nat)
    requires Inv(s) && Allowed(s, m)
    ensures Next(s, m).world.registry != s.world.registry ==> m.Go? && s.registryLock == Some(m.thread)
    ensures j < |s.world.jobs| ==>
              && j < |Next(s, m).world.jobs|
              && (Changed(s.world.jobs[j], Next(s, m).world.jobs[j]) ==>
                    m.Go? && (Owner(s, EmitterLock(j)) == Some(m.thread) || SpawnedBy(s, m.thread, j)))
  {
    MoveRefines(s, m);
    if m.Go? {
      GoGuarded(s, m.thread, m.now, m.received, m.runtime);
      assert RegistryHeld(s, m.thread) <==> s.registryLock == Some(m.thread);
      assert EmitterHeld(s, m.thread, j) <==> j in s.emitterLocks && s.emitterLocks[j] == m.thread;
      assert ThreadOk(s.world, s.published, s.threads[m.thread]);
      if j < |s.world.jobs| && Performed(s, m).Some? && !JobTheorems.Own(Performed(s, m).value, j) {
        JobTheorems.OthersKeep(s.world, Performed(s, m).value, j);
      }
    }
  }

  // ---------------------------------------------------------------- waiting

  /** `t` needs a lock that `u` holds. */
  predicate WaitsFor(s: System, t: nat, u: nat) {
    t < |s.threads| && (match Wants(s.world, s.threads[t]) case Some(l) => Owner(s, l) == Some(u) case None => false)
  }

  /** Each waits for the next. */
  predicate Chain(s: System, ts: seq<nat>) {
    |ts| < 2 || (WaitsFor(s, ts[0], ts[1]) && Chain(s, ts[1..]))
  }

  /** A holder of the registry waits for nothing, a holder of an emitter at most for the registry, and
      who waits for an emitter holds no lock. */
  lemma HoldersWait(s: System, t: nat)
    requires Inv(s) && t < |s.threads|
    ensures s.registryLock == Some(t) ==> Wants(s.world, s.threads[t]) == None
    ensures forall j: nat :: Owner(s, EmitterLock(j)) == Some(t) ==>
              Wants(s.world, s.threads[t]) == None || Wants(s.world, s.threads[t]) == Some(RegistryLock)
    ensures forall j: nat, k: nat :: Wants(s.world, s.threads[t]) == Some(EmitterLock(j)) ==>
              s.registryLock != Some(t) && Owner(s, EmitterLock(k)) != Some(t)
  {
    assert RegistryHeld(s, t) <==> s.registryLock == Some(t);
    forall j: nat ensures Owner(s, EmitterLock(j)) == Some(t) <==> EmitterHeld(s, t, j) {}
  }

  function Depth(s: System, t: nat): nat {
    if t >= |s.threads| then 0
    else match Wants(s.world, s.threads[t]) case None => 0 case Some(RegistryLock) => 1 case Some(EmitterLock(_)) => 2
  }

  lemma WaitsDown(s: System, t: nat, u: nat)
    requires Inv(s) && WaitsFor(s, t, u)
    ensures u < |s.threads| && Depth(s, u) < Depth(s, t)
  {
    match Wants(s.world, s.threads[t])
    case Some(RegistryLock) =>
      assert RegistryHeld(s, u);
      HoldersWait(s, u);
    case Some(EmitterLock(j)) =>
      assert EmitterHeld(s, u, j);
      HoldersWait(s, u);
      assert Owner(s, EmitterLock(j)) == Some(u);
  }

  lemma {:induction false} ChainDown(s: System, ts: seq<nat>)
    requires Inv(s) && Chain(s, ts) && ts != []
    ensures Depth(s, ts[|ts| - 1]) + |ts| - 1 <= Depth(s, ts[0])
    decreases |ts|
  {
    if |ts| > 1 {
      WaitsDown(s, ts[0], ts[1]);
      ChainDown(s, ts[1..]);
    }
  }

  /** In every reachable state no thread waits for itself, directly or through others, and no chain of
      waiting has more than two links. */
  lemma NoCycle(n: nat, moves: seq<Move>, ts: seq<nat>)
    requires Possible(Fresh(n), moves) && Chain(After(Fresh(n), moves), ts) && |ts| > 1
    ensures ts[0] != ts[|ts| - 1] && |ts| <= 3
  {
    FreshInv(n);
    InvAfter(Fresh(n), moves);
    ChainDown(After(Fresh(n), moves), ts);
  }

  /** One more move. */
  lemma {:induction false} OneMore(s: System, moves: seq<Move>, m: Move)
    requires Possible(s, moves) && Allowed(After(s, moves), m)
    ensures Possible(s, moves + [m]) && After(s, moves + [m]) == Next(After(s, moves), m)
    decreases |moves|
  {
    if moves == [] {
      assert [m][1..] == [];
    } else {
      assert (moves + [m])[1..] == moves[1..] + [m];
      OneMore(Next(s, moves[0]), moves[1..], m);
    }
  }

  ghost predicate Reached(s: System, moves: seq<Move>) { Possible(Fresh(3), moves) && After(Fresh(3), moves) == s }

  lemma Onward(s: System, moves: seq<Move>, m: Move) returns (s': System, moves': seq<Move>)
    requires Reached(s, moves) && Allowed(s, m)
    ensures s' == Next(s, m) && Reached(s', moves')
  {
    OneMore(Fresh(3), moves, m);
    s', moves' := Next(s, m), moves + [m];
  }

  /** A job was spawned and its emitter handed to the work. */
  lemma JobRuns() returns (s: System, moves: seq<Move>)
    ensures Reached(s, moves) && s.threads == [Idle, Idle, Idle] && s.registryLock == None && s.emitterLocks == map[]
    ensures s.published == {0} && |s.world.jobs| == 1
            && s.world.jobs[0] == NewJob("a").(pc := Ready, sends := [Started])
  {
    s, moves := JobRegistered();
    s, moves := Onward(s, moves, Go(0, 0, true, true));
    assert [] + [Started] == [Started];
    s, moves := Onward(s, moves, Go(0, 0, true, true));
    s, moves := Onward(s, moves, Go(0, 0, true, true));
    assert s.threads == [Idle, Idle, Idle];
  }

  lemma JobRegistered() returns (s: System, moves: seq<Move>)
    ensures Reached(s, moves) && s.threads == [Opening(0, Apart), Idle, Idle] && s.registryLock == None
            && s.emitterLocks == map[]
    ensures s.published == {} && s.world.jobs == [NewJob("a")]
  {
    s, moves := Fresh(3), [];
    s, moves := Onward(s, moves, Begin(0, SpawnCall("a")));
    s, moves := Onward(s, moves, Go(0, 0, true, true));
    s, moves := Onward(s, moves, Go(0, 0, true, true));
    assert "a" !in s.world.registry && s.world.jobs == [];
    s, moves := Onward(s, moves, Go(0, 0, true, true));
    s, moves := Onward(s, moves, Go(0, 0, true, true));
    assert s.threads == [Opening(0, Apart), Idle, Idle];
  }

  /** A reporter holds the emitter and needs the registry. */
  lemma ReporterInside() returns (s: System, moves: seq<Move>)
    ensures Reached(s, moves) && s.threads == [Inside(0, None, Apart), Idle, Idle] && s.registryLock == None
    ensures s.emitterLocks == map[0 := 0] && s.published == {0} && |s.world.jobs| == 1 && s.world.jobs[0].pc.Recording?
  {
    s, moves := JobRuns();
    s, moves := Onward(s, moves, Enter(0, 0, Reporting(Record("p", 1))));
    s, moves := Onward(s, moves, Go(0, 0, true, true));
    s, moves := Onward(s, moves, Go(0, 0, true, true));
    assert s.threads == [Inside(0, None, Apart), Idle, Idle];
  }

  /** Two links do occur: a reporter waits for a reporter that waits for a reader of the registry. */
  lemma TwoLinks() returns (s: System, moves: seq<Move>)
    ensures Reached(s, moves) && Chain(s, [1, 0, 2])
  {
    s, moves := ReporterInside();
    s, moves := Onward(s, moves, Enter(1, 0, Reporting(Record("p", 2))));
    s, moves := Onward(s, moves, Begin(2, StatusCall));
    s, moves := Onward(s, moves, Go(2, 0, true, true));
    assert [1, 0, 2][1..] == [0, 2] && [0, 2][1..] == [2];
    assert WaitsFor(s, 1, 0) && WaitsFor(s, 0, 2);
  }

  /** From every thread inside an operation the chain of waiting leads to a thread that can go on. */
  lemma ChainRuns(s: System, t: nat) returns (ts: seq<nat>)
    requires Inv(s) && t < |s.threads| && !s.threads[t].Idle?
    ensures ts != [] && ts[0] == t && Chain(s, ts) && CanGo(s, ts[|ts| - 1])
    decreases Depth(s, t)
  {
    assert ThreadOk(s.world, s.published, s.threads[t]);
    if CanGo(s, t) {
      ts := [t];
    } else {
      var l := Wants(s.world, s.threads[t]).value;
      var u := Owner(s, l).value;
      WaitsDown(s, t, u);
      assert RegistryHeld(s, u) <==> s.registryLock == Some(u);
      if l.EmitterLock? { assert EmitterHeld(s, u, l.job); }
      var rest := ChainRuns(s, u);
      ts := [t] + rest;
      assert ts[1..] == rest;
    }
  }

  // ---------------------------------------------------------------- every operation comes to its end

  function Later(after: Follow): nat { if after.Conclude? then 10 else 0 }

  /** The steps left in the emitter code. */
  function StepsLeft(pc: Pc): nat {
    match pc
    case Ready => 0
    case Over => 0
    case Starting => 6
    case Recording(_, after) => 8 + Later(after)
    case Sending(_, after) => 5 + Later(after)
    case Losing(after) => 4 + Later(after)
    case Marking(after) => 3 + Later(after)
    case Concluding(_) => 10
  }

  function ServeWork(pc: Pc, at: Stage): nat {
    match at
    case Apart => StepsLeft(pc)
    case Peeking => 9
    case Peeked => 8
    case Holding => if pc.Concluding? then 7 else if StepsLeft(pc) > 0 then StepsLeft(pc) - 1 else 0
    case Done => StepsLeft(pc) + 1
  }

  /** An upper bound of the steps a thread has left in its operation. */
  function Work(w: World, th: Thread): nat {
    match th
    case Idle => 0
    case Calling(_, Waiting) => 32
    case Calling(_, Locked) => 31
    case Calling(_, Pruned(_)) => 30
    case Calling(_, Written(Some(_))) => 29
    case Calling(_, Written(None)) => 1
    case Opening(j, at) => 22 + ServeWork(PcOf(w, j), at)
    case Entering(_, _) => 21
    case Inside(_, Some(_), _) => 20
    case Inside(j, None, at) => 1 + ServeWork(PcOf(w, j), at)
  }

  lemma ServeDown(s: System, t: nat, now: nat, received: bool)
    requires Inv(s) && CanGo(s, t) && (s.threads[t].Opening? || (s.threads[t].Inside? && s.threads[t].todo.None?))
    requires s.threads[t].at.Apart? ==> !Quiet(s.world.jobs[s.threads[t].job].pc)
    ensures var s' := ServeStep(s, t, s.threads[t].job, s.threads[t].at, now, received);
            Work(s'.world, s'.threads[t]) < Work(s.world, s.threads[t])
  {
    assert ThreadOk(s.world, s.published, s.threads[t]);
  }

  /** Its own step brings a thread nearer to the end of its operation. */
  lemma OwnStepWorks(s: System, t: nat, now: nat, received: bool, runtime: bool)
    requires Inv(s) && CanGo(s, t)
    ensures var s' := GoStep(s, t, now, received, runtime); Work(s'.world, s'.threads[t]) < Work(s.world, s.threads[t])
  {
    assert ThreadOk(s.world, s.published, s.threads[t]);
    match s.threads[t]
    case Calling(call, _) => CallEffectFacts(s.world, call);
    case Opening(j, at) => if !(at.Apart? && s.world.jobs[j].pc.Ready?) { ServeDown(s, t, now, received); }
    case Inside(j, None, at) => if !(at.Apart? && Quiet(s.world.jobs[j].pc)) { ServeDown(s, t, now, received); }
    case _ =>
  }

  /** No two threads serve one job. */
  lemma ServesAlone(s: System, t: nat, u: nat, j: nat)
    requires Inv(s) && t < |s.threads| && u < |s.threads| && t != u && Serves(s.threads[t], j)
    ensures !Serves(s.threads[u], j)
  {
    assert ThreadOk(s.world, s.published, s.threads[t]) && ThreadOk(s.world, s.published, s.threads[u]);
    assert Opened(s, u, j) && Opened(s, t, j) ==> t == u;
    assert EmitterHeld(s, u, j) && EmitterHeld(s, t, j) ==> t == u;
  }

  /** And nobody else's step does anything to it. */
  lemma OthersStepKeeps(s: System, m: Move, u: nat)
    requires Inv(s) && Allowed(s, m) && u < |s.threads| && m.thread != u
    ensures Next(s, m).threads[u] == s.threads[u]
    ensures Work(Next(s, m).world, s.threads[u]) == Work(s.world, s.threads[u])
  {
    assert ThreadOk(s.world, s.published, s.threads[u]);
    if m.Go? {
      GoGuarded(s, m.thread, m.now, m.received, m.runtime);
      if s.threads[u].Opening? || s.threads[u].Inside? { ServesAlone(s, u, m.thread, s.threads[u].job); }
    }
  }

  predicate Starts(m: Move) { m.Begin? || m.Enter? }

  function StepsOf(moves: seq<Move>, t: nat): nat {
    if moves == [] then 0 else (if moves[0].thread == t then 1 else 0) + StepsOf(moves[1..], t)
  }

  lemma OneStepOf(s: System, m: Move, t: nat)
    requires Inv(s) && Allowed(s, m) && t < |s.threads| && (m.thread == t ==> !Starts(m))
    ensures |Next(s, m).threads| == |s.threads|
    ensures (if m.thread == t then 1 else 0) + Work(Next(s, m).world, Next(s, m).threads[t]) <=
            Work(s.world, s.threads[t])
  {
    if m.thread == t { OwnStepWorks(s, t, m.now, m.received, m.runtime); } else { OthersStepKeeps(s, m, t); }
  }

  /** However the others are interleaved, an operation ends after at most 32 steps of its own thread. */
  lemma {:induction false} BoundedOperation(s: System, moves: seq<Move>, t: nat)
    requires Inv(s) && Possible(s, moves) && t < |s.threads|
    requires forall i :: 0 <= i < |moves| && moves[i].thread == t ==> !Starts(moves[i])
    ensures t < |After(s, moves).threads|
    ensures StepsOf(moves, t) + Work(After(s, moves).world, After(s, moves).threads[t]) <=
            Work(s.world, s.threads[t]) <= 32
    decreases |moves|
  {
    assert ThreadOk(s.world, s.published, s.threads[t]);
    if moves != [] {
      var m := moves[0];
      InvNext(s, m);
      OneStepOf(s, m, t);
      BoundedOperation(Next(s, m), moves[1..], t);
    }
  }

  function TotalWork(w: World, threads: seq<Thread>): nat
    decreases |threads|
  {
    if threads == [] then 0 else TotalWork(w, threads[..|threads| - 1]) + Work(w, threads[|threads| - 1])
  }

  lemma {:induction false} TotalDown(w: World, threads: seq<Thread>, w': World, threads': seq<Thread>, t: nat)
    requires |threads'| == |threads|
    requires forall u :: 0 <= u < |threads| && u != t ==> Work(w', threads'[u]) == Work(w, threads[u])
    requires t < |threads| ==> Work(w', threads'[t]) < Work(w, threads[t])
    ensures TotalWork(w', threads') + (if t < |threads| then 1 else 0) <= TotalWork(w, threads)
    decreases |threads|
  {
    if threads != [] { TotalDown(w, threads[..|threads| - 1], w', threads'[..|threads| - 1], t); }
  }

  lemma MoveShrinks(s: System, m: Move)
    requires Inv(s) && Allowed(s, m) && m.Go?
    ensures TotalWork(Next(s, m).world, Next(s, m).threads) < TotalWork(s.world, s.threads)
  {
    var s' := Next(s, m);
    OneStepOf(s, m, m.thread);
    forall u | 0 <= u < |s.threads| && u != m.thread
      ensures Work(s'.world, s'.threads[u]) == Work(s.world, s.threads[u])
    {
      OthersStepKeeps(s, m, u);
    }
    TotalDown(s.world, s.threads, s'.world, s'.threads, m.thread);
  }

  lemma {:induction false} PendingShrinks(s: System, moves: seq<Move>)
    requires Inv(s) && Possible(s, moves) && forall i :: 0 <= i < |moves| ==> moves[i].Go?
    ensures |moves| + TotalWork(After(s, moves).world, After(s, moves).threads) <= TotalWork(s.world, s.threads)
    decreases |moves|
  {
    if moves != [] {
      InvNext(s, moves[0]);
      MoveShrinks(s, moves[0]);
      PendingShrinks(Next(s, moves[0]), moves[1..]);
    }
  }

  /** No deadlock and no endless run: from every reachable state the operations under way take a
      bounded number of steps in all, and when none can go on any more, every one has returned and all
      locks are free. */
  lemma EveryoneReturns(n: nat, moves: seq<Move>, pending: seq<Move>)
    requires Possible(Fresh(n), moves) && Possible(After(Fresh(n), moves), pending)
    requires forall i :: 0 <= i < |pending| ==> pending[i].Go?
    ensures var s := After(Fresh(n), moves);
            var end := After(s, pending);
            && |pending| <= TotalWork(s.world, s.threads)
            && ((forall t: nat :: !CanGo(end, t)) ==>
                  && (forall t :: 0 <= t < |end.threads| ==> end.threads[t].Idle?)
                  && end.registryLock == None && end.emitterLocks == map[])
  {
    var s := After(Fresh(n), moves);
    var end := After(s, pending);
    FreshInv(n);
    InvAfter(Fresh(n), moves);
    PendingShrinks(s, pending);
    InvAfter(s, pending);
    if forall t: nat :: !CanGo(end, t) {
      forall t | 0 <= t < |end.threads| ensures end.threads[t].Idle? {
        if !end.threads[t].Idle? { var ts := ChainRuns(end, t); }
      }
      AllFree(end);
    }
  }

  lemma AllFree(s: System)
    requires Inv(s) && forall t :: 0 <= t < |s.threads| ==> s.threads[t].Idle?
    ensures s.registryLock == None && s.emitterLocks == map[]
  {
    assert s.registryLock.Some? ==> RegistryHeld(s, s.registryLock.value);
    forall j: nat ensures j !in s.emitterLocks {
      assert j in s.emitterLocks ==> EmitterHeld(s, s.emitterLocks[j], j);
    }
  }
}
