/** What a completed operation of a thread has performed, however the other threads were interleaved. */
module JobCalls {
  import opened Wrappers
  import opened Jobs
  import opened JobLocks

  /** The protocol steps of one thread in a run with locks. */
  function Performs(s: System, moves: seq<Move>, t: nat): seq<Action>
    requires Possible(s, moves)
    decreases |moves|
  {
    if moves == [] then []
    else
      (if moves[0].thread == t && Performed(s, moves[0]).Some? then [Performed(s, moves[0]).value] else [])
      + Performs(Next(s, moves[0]), moves[1..], t)
  }

  // ---------------------------------------------------------------- the steps of an operation

  /** Steps in the emitter code of job `j`. */
  predicate Emitting(j: nat, acts: seq<Action>) { forall i :: 0 <= i < |acts| ==> acts[i].Advance? && acts[i].job == j }

  /** One report or end of the work of job `j`, then steps in its emitter code. */
  predicate Tasked(j: nat, task: Task, acts: seq<Action>) {
    && |acts| > 0 && Emitting(j, acts[1..])
    && (match task
        case Reporting(record) => acts[0].Report? && acts[0].job == j && acts[0].record == record
        case Finishing(result) => acts[0] == End(j, result))
  }

  /** A new job tells that it started; when there is no runtime its work ends with an error at once. */
  ghost predicate OpenedWith(j: nat, acts: seq<Action>) {
    exists n :: 0 <= n <= |acts| && Emitting(j, acts[..n])
                && (n == |acts| || Tasked(j, Finishing(WorkError(false)), acts[n..]))
  }

  /** A call removes old entries and then has its effect once, judged by the same clock reading. */
  ghost predicate CalledFrom(call: Call, now: nat, acts: seq<Action>) {
    match call
    case SpawnCall(id) =>
      && |acts| > 0 && acts[0] == Spawn(id, now)
      && (|acts| == 1 || exists j: nat :: OpenedWith(j, acts[1..]))
    case CancelCall(id) => acts == [Cancel(id, now)]
    case CancelAllCall => false
    case StatusCall => acts == []
  }

  ghost predicate Called(call: Call, acts: seq<Action>) {
    if call.CancelAllCall? then acts == [CancelAll]
    else |acts| > 0 && acts[0].Status? && CalledFrom(call, acts[0].now, acts[1..])
  }

  /** What a thread has still to perform until it is idle. */
  ghost predicate Owes(th: Thread, acts: seq<Action>) {
    match th
    case Idle => acts == []
    case Calling(call, Waiting) => Called(call, acts)
    case Calling(call, Locked) => Called(call, acts)
    case Calling(call, Pruned(now)) => CalledFrom(call, now, acts)
    case Calling(_, Written(Some(j))) => OpenedWith(j, acts)
    case Calling(_, Written(None)) => acts == []
    case Opening(j, _) => OpenedWith(j, acts)
    case Entering(j, task) => Tasked(j, task, acts)
    case Inside(j, Some(task), _) => Tasked(j, task, acts)
    case Inside(j, None, _) => Emitting(j, acts)
  }

  lemma OpenedMore(j: nat, a: Action, acts: seq<Action>)
    requires OpenedWith(j, acts) && a.Advance? && a.job == j
    ensures OpenedWith(j, [a] + acts)
  {
    var n :| 0 <= n <= |acts| && Emitting(j, acts[..n])
             && (n == |acts| || Tasked(j, Finishing(WorkError(false)), acts[n..]));
    var all := [a] + acts;
    assert all[..n + 1] == [a] + acts[..n] && all[n + 1..] == acts[n..];
  }

  lemma CallOwes(s: System, t: nat, now: nat, rest: seq<Action>)
    requires Inv(s) && CanGo(s, t) && s.threads[t].Calling?
    requires Owes(CallStep(s, t, s.threads[t].call, s.threads[t].region, now).threads[t], rest)
    ensures var a := CallAction(s.threads[t].call, s.threads[t].region, now);
            Owes(s.threads[t], (if a.Some? then [a.value] else []) + rest)
  {
    var call, region := s.threads[t].call, s.threads[t].region;
    assert ThreadOk(s.world, s.published, s.threads[t]);
    var a := CallAction(call, region, now);
    var acts := (if a.Some? then [a.value] else []) + rest;
    if a.Some? { assert acts[0] == a.value && acts[1..] == rest; } else { assert acts == rest; }
    match region
    case Pruned(_) => if call.SpawnCall? && rest != [] { assert exists j: nat :: OpenedWith(j, rest); }
    case _ =>
  }

  lemma OpeningOwes(s: System, t: nat, now: nat, received: bool, runtime: bool, rest: seq<Action>)
    requires CanGo(s, t) && s.threads[t].Opening? && s.threads[t].job < |s.world.jobs|
    requires Owes(GoStep(s, t, now, received, runtime).threads[t], rest)
    ensures var a := Performed(s, Go(t, now, received, runtime));
            Owes(s.threads[t], (if a.Some? then [a.value] else []) + rest)
  {
    var th, a := s.threads[t], Performed(s, Go(t, now, received, runtime));
    if a.Some? {
      OpenedMore(th.job, a.value, rest);
    } else {
      assert [] + rest == rest;
      if th.at.Apart? && s.world.jobs[th.job].pc.Ready? {
        assert rest[..0] == [] && rest[0..] == rest;
        assert Emitting(th.job, rest[..0]);
      }
    }
  }

  lemma TaskNext(s: System, t: nat, now: nat, received: bool, runtime: bool)
    requires CanGo(s, t) && (s.threads[t].Entering? || s.threads[t].Inside?)
    requires s.threads[t].Inside? ==> s.threads[t].job < |s.world.jobs|
    ensures var th, th' := s.threads[t], GoStep(s, t, now, received, runtime).threads[t];
            var a := Performed(s, Go(t, now, received, runtime));
            if th.Entering? then a == None && th' == Inside(th.job, Some(th.task), Apart)
            else if th.todo.Some?
              then a == Some(TaskAction(th.job, th.todo.value, now)) && th' == Inside(th.job, None, th.at)
            else
              && (a.Some? ==> a.value.Advance? && a.value.job == th.job)
              && (th'.Idle? || (th'.Inside? && th'.job == th.job && th'.todo.None?))
  {
  }

  lemma TaskOwes(th: Thread, th': Thread, a: Option<Action>, now: nat, rest: seq<Action>)
    requires Owes(th', rest) && (th.Entering? || th.Inside?)
    requires if th.Entering? then a == None && th' == Inside(th.job, Some(th.task), Apart)
             else if th.todo.Some?
               then a == Some(TaskAction(th.job, th.todo.value, now)) && th' == Inside(th.job, None, th.at)
             else
               && (a.Some? ==> a.value.Advance? && a.value.job == th.job)
               && (th'.Idle? || (th'.Inside? && th'.job == th.job && th'.todo.None?))
    ensures Owes(th, (if a.Some? then [a.value] else []) + rest)
  {
    if a.Some? {
      assert ([a.value] + rest)[0] == a.value && ([a.value] + rest)[1..] == rest;
    } else {
      assert [] + rest == rest;
    }
  }

  /** A thread that has become idle again has performed exactly what its operation consists of. */
  lemma {:induction false} OperationPerforms(s: System, moves: seq<Move>, t: nat)
    requires Inv(s) && Possible(s, moves) && t < |s.threads| && t < |After(s, moves).threads|
    requires forall i :: 0 <= i < |moves| && moves[i].thread == t ==> !JobLocks.Starts(moves[i])
    requires After(s, moves).threads[t].Idle?
    ensures Owes(s.threads[t], Performs(s, moves, t))
    decreases |moves|
  {
    if moves != [] {
      var m, rest := moves[0], Performs(Next(s, moves[0]), moves[1..], t);
      InvNext(s, m);
      OneStepOf(s, m, t);
      OperationPerforms(Next(s, m), moves[1..], t);
      if m.thread != t {
        OthersStepKeeps(s, m, t);
        assert [] + rest == rest;
      } else if s.threads[t].Calling? {
        CallOwes(s, t, m.now, rest);
      } else if s.threads[t].Opening? {
        OpeningOwes(s, t, m.now, m.received, m.runtime, rest);
      } else {
        assert ThreadOk(s.world, s.published, s.threads[t]);
        TaskNext(s, t, m.now, m.received, m.runtime);
        TaskOwes(s.threads[t], Next(s, m).threads[t], Performed(s, m), m.now, rest);
      }
    }
  }

  /** A completed call, from its beginning; among it: a cancel call cancels exactly once. */
  lemma CallPerforms(s: System, t: nat, call: Call, moves: seq<Move>)
    requires Inv(s) && Possible(s, [Begin(t, call)] + moves) && t < |After(s, [Begin(t, call)] + moves).threads|
    requires forall i :: 0 <= i < |moves| && moves[i].thread == t ==> !JobLocks.Starts(moves[i])
    requires After(s, [Begin(t, call)] + moves).threads[t].Idle?
    ensures Called(call, Performs(s, [Begin(t, call)] + moves, t))
  {
    var m, all := Begin(t, call), [Begin(t, call)] + moves;
    assert all[0] == m && all[1..] == moves;
    InvNext(s, m);
    OperationPerforms(Next(s, m), moves, t);
    assert Next(s, m).threads[t] == Calling(call, Waiting);
    assert Performs(s, all, t) == [] + Performs(Next(s, m), moves, t) == Performs(Next(s, m), moves, t);
  }

  /** And a completed report or end of the work. */
  lemma TaskPerforms(s: System, t: nat, j: nat, task: Task, moves: seq<Move>)
    requires Inv(s) && Possible(s, [Enter(t, j, task)] + moves) && t < |After(s, [Enter(t, j, task)] + moves).threads|
    requires forall i :: 0 <= i < |moves| && moves[i].thread == t ==> !JobLocks.Starts(moves[i])
    requires After(s, [Enter(t, j, task)] + moves).threads[t].Idle?
    ensures Tasked(j, task, Performs(s, [Enter(t, j, task)] + moves, t))
  {
    var m, all := Enter(t, j, task), [Enter(t, j, task)] + moves;
    assert all[0] == m && all[1..] == moves;
    InvNext(s, m);
    OperationPerforms(Next(s, m), moves, t);
    assert Performs(s, all, t) == [] + Performs(Next(s, m), moves, t) == Performs(Next(s, m), moves, t);
  }
}
