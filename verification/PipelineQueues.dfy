/** The pipeline's steps are the queue's operations: each evaluates one blocking
    call, and over a run the two queues see scripts of legal operations.  So what
    holds of the queue holds in the pipeline; above all, tasks leave in order. */
module PipelineQueues {
  import opened Machine
  import opened BoundedFifo
  import opened Pipeline

  // ----- a step evaluates a call --------------------------------------------------------------------

  /** How the producer's call ended in a step: it returned, or fell asleep. */
  function ProducerCall(s: State, s': State): Call {
    if s'.producer.Producing? && s'.producer.asleep then Asleep
    else if s'.producer.Producing? then Returned(OK)
    else Returned(ECANCELED)
  }

  /** A producer with tasks left evaluates `push` on the task queue. */
  lemma ProducerMoveIsPush(s: State, woken: nat, noWaits: seq<Wait<Task>>)
    requires ProtocolOk(s) && Enabled(s, ProducerMove(woken)) && s.producer.next < s.count && noWaits == []
    ensures var s' := MoveProducer(s, woken);
            PushResult(s.tasks, TaskAt(s.producer.next), noWaits, OK) == (s'.tasks, ProducerCall(s, s'))
  {
  }

  function WorkerCall(w: Worker): Call {
    if (w.Popping? || w.Pushing?) && w.asleep then Asleep
    else if w.WorkerDone? then Returned(ECANCELED)
    else Returned(OK)
  }

  /** A worker without a result evaluates `pop` on the task queue and works on what it gets. */
  lemma WorkerMoveIsPop(s: State, i: nat, noWaits: seq<Wait<Task>>)
    requires ProtocolOk(s) && Enabled(s, WorkerMove(i)) && s.workers[i].Popping? && noWaits == []
    ensures var s', (q, call, item) := MoveWorker(s, i), PopResult(s.tasks, noWaits, OK);
            && s'.tasks == q && call == WorkerCall(s'.workers[i]) && s'.results == s.results
            && (item.Some? <==> s'.workers[i].Pushing?)
            && (item.Some? ==> s'.workers[i].outcome == Process(item.value, i))
  {
  }

  /** A worker with a result evaluates `push` on the result queue. */
  lemma WorkerMoveIsPush(s: State, i: nat, noWaits: seq<Wait<Outcome>>)
    requires ProtocolOk(s) && Enabled(s, WorkerMove(i)) && s.workers[i].Pushing? && noWaits == []
    ensures var s' := MoveWorker(s, i);
            && PushResult(s.results, s.workers[i].outcome, noWaits, OK) == (s'.results, WorkerCall(s'.workers[i]))
            && s'.tasks == s.tasks
  {
  }

  /** The output thread evaluates `pop` on the result queue and keeps what it gets. */
  lemma OutputMoveIsPop(s: State, woken: nat, noWaits: seq<Wait<Outcome>>)
    requires ProtocolOk(s) && Enabled(s, OutputMove(woken)) && noWaits == []
    ensures var s', (q, call, item) := MoveOutput(s, woken), PopResult(s.results, noWaits, OK);
            && s'.results == q && s'.tasks == s.tasks
            && s'.received == s.received + (if item.Some? then [item.value] else [])
            && call == (if s'.output == Receiving(true) then Asleep
                        else if s'.output.OutputDone? then Returned(ECANCELED)
                        else Returned(OK))
  {
  }

  /** A call that fell asleep goes on, once woken, as if it were made anew. */
  lemma PushGoesOn<T>(q: Fifo<T>, x: T, noWaits: seq<Wait<T>>, wait: Wait<T>, waits: seq<Wait<T>>)
    requires noWaits == [] && PushPoint(q, noWaits).1 == Asleep && wait.error == OK
    requires AllLegal(q, wait.others) && WaitsLegal(After(q, wait.others), waits)
    ensures WaitsLegal(q, [wait] + waits)
    ensures PushResult(q, x, [wait] + waits, OK) == PushResult(After(q, wait.others), x, waits, OK)
  {
    assert ([wait] + waits)[1..] == waits;
  }

  lemma PopGoesOn<T>(q: Fifo<T>, noWaits: seq<Wait<T>>, wait: Wait<T>, waits: seq<Wait<T>>)
    requires noWaits == [] && PopPoint(q, noWaits).1 == Asleep && wait.error == OK
    requires AllLegal(q, wait.others) && WaitsLegal(After(q, wait.others), waits)
    ensures WaitsLegal(q, [wait] + waits)
    ensures PopResult(q, [wait] + waits, OK) == PopResult(After(q, wait.others), waits, OK)
  {
    assert ([wait] + waits)[1..] == waits;
  }

  // ----- a run is a script ------------------------------------------------------------------------------

  /** What a step does to the task queue. */
  function TaskOps(s: State, move: Move): seq<Op<Task>>
    requires Enabled(s, move)
  {
    match move
    case ProducerMove(_) =>
      if s.producer.next >= s.count then [Close]
      else if s.tasks.Full() || s.tasks.closed then []
      else [Insert(TaskAt(s.producer.next))]
    case WorkerMove(i) => if s.workers[i].Popping? && s.tasks.items != [] then [Remove] else []
    case _ => []
  }

  lemma OneOp<T>(q: Fifo<T>, ops: seq<Op<T>>, op: Op<T>)
    requires ops == [op] && Legal(q, op)
    ensures AllLegal(q, ops) && After(q, ops) == Effect(q, op)
  {
    assert ops[1..] == [];
  }

  lemma NoOp<T>(q: Fifo<T>, ops: seq<Op<T>>)
    requires |ops| == 0
    ensures AllLegal(q, ops) && After(q, ops) == q
  {
  }

  lemma StepIsTaskOps(s: State, move: Move)
    requires ProtocolOk(s) && Enabled(s, move)
    ensures AllLegal(s.tasks, TaskOps(s, move)) && Apply(s, move).tasks == After(s.tasks, TaskOps(s, move))
  {
    var ops := TaskOps(s, move);
    if |ops| == 0 {
      NoOp(s.tasks, ops);
    } else {
      OneOp(s.tasks, ops, ops[0]);
    }
  }

  function TasksUpTo(n: nat): (ts: seq<Task>)
    requires n <= U64_MAX
  {
    seq(n, j requires 0 <= j < n => TaskAt(j))
  }

  /** The tasks that a step creates. */
  lemma StepInserts(s: State, move: Move)
    requires ProtocolOk(s) && Enabled(s, move) && Created(s) <= s.count
    ensures var s' := Apply(s, move);
            Created(s) <= Created(s') <= s.count && s'.count == s.count
            && TasksUpTo(Created(s')) == TasksUpTo(Created(s)) + Inserted(TaskOps(s, move))
  {
    var ops := TaskOps(s, move);
    if |ops| > 0 {
      assert ops[1..] == [];
    }
  }

  lemma {:induction false} RunsKeepProtocol(moves: seq<Move>, states: seq<State>, n: nat)
    requires IsRun(moves, states) && n <= |moves| && ProtocolOk(states[0])
    ensures ProtocolOk(states[n])
  {
    if n > 0 {
      RunsKeepProtocol(moves, states, n - 1);
      RunStep(moves, states, n - 1);
      MoveKeepsProtocol(states[n - 1], moves[n - 1]);
    }
  }

  lemma RunStep(moves: seq<Move>, states: seq<State>, n: nat)
    requires IsRun(moves, states) && n < |moves|
    ensures Enabled(states[n], moves[n]) && states[n + 1] == Apply(states[n], moves[n])
  {
    assert moves[n] == moves[n];
  }

  /** The task queue over a run, its script step by step, and the tasks created so far. */
  ghost function QueuesOf(states: seq<State>): (qs: seq<Fifo<Task>>)
    ensures |qs| == |states|
  {
    seq(|states|, n requires 0 <= n < |states| => states[n].tasks)
  }

  ghost function ScriptOf(moves: seq<Move>, states: seq<State>): (pieces: seq<seq<Op<Task>>>)
    requires |states| == |moves| + 1
    ensures |pieces| == |moves|
  {
    seq(|moves|, n requires 0 <= n < |moves| =>
      if Enabled(states[n], moves[n]) then TaskOps(states[n], moves[n]) else [])
  }

  function TasksOf(s: State): seq<Task> {
    if Created(s) <= U64_MAX then TasksUpTo(Created(s)) else []
  }

  ghost function CreatedOver(states: seq<State>): (xs: seq<seq<Task>>)
    ensures |xs| == |states|
  {
    seq(|states|, n requires 0 <= n < |states| => TasksOf(states[n]))
  }

  lemma StepFeeds(s: State, move: Move)
    requires ProtocolOk(s) && Enabled(s, move)
    ensures TasksOf(Apply(s, move)) == TasksOf(s) + Inserted(TaskOps(s, move))
  {
    StepInserts(s, move);
  }

  lemma StepFollows(s: State, s': State, move: Move, ops: seq<Op<Task>>)
    requires ProtocolOk(s) && Enabled(s, move) && s' == Apply(s, move) && ops == TaskOps(s, move)
    ensures AllLegal(s.tasks, ops) && s'.tasks == After(s.tasks, ops)
    ensures TasksOf(s') == TasksOf(s) + Inserted(ops)
  {
    StepIsTaskOps(s, move);
    StepFeeds(s, move);
  }

  lemma RunFollowsAt(moves: seq<Move>, states: seq<State>, n: nat)
    requires IsRun(moves, states) && ProtocolOk(states[0]) && n < |moves|
    ensures FollowsAt(QueuesOf(states), ScriptOf(moves, states), n)
    ensures FeedsAt(CreatedOver(states), ScriptOf(moves, states), n)
  {
    RunsKeepProtocol(moves, states, n);
    RunStep(moves, states, n);
    StepFollows(states[n], states[n + 1], moves[n], TaskOps(states[n], moves[n]));
  }

  lemma RunFollows(moves: seq<Move>, states: seq<State>)
    requires IsRun(moves, states) && ProtocolOk(states[0])
    ensures Follows(QueuesOf(states), ScriptOf(moves, states))
    ensures Feeds(CreatedOver(states), ScriptOf(moves, states))
  {
    forall n | 0 <= n < |moves|
      ensures FollowsAt(QueuesOf(states), ScriptOf(moves, states), n)
      ensures FeedsAt(CreatedOver(states), ScriptOf(moves, states), n)
    {
      RunFollowsAt(moves, states, n);
    }
  }

  lemma StartIsEmpty(count: U64, workers: nat, s: State)
    requires workers > 0 && s == Initial(count, workers)
    ensures ProtocolOk(s) && |s.tasks.items| == 0 && |TasksOf(s)| == 0
  {
    InitialIsOk(count, workers);
  }

  /** In every run the workers take the tasks in the order of their ids: what they
      took so far and what still waits are together the tasks 1, 2, ... created. */
  lemma TasksLeaveInOrder(count: U64, workers: nat, moves: seq<Move>, states: seq<State>, n: nat)
    requires workers > 0 && IsRun(moves, states) && states[0] == Initial(count, workers) && n <= |moves|
    ensures AllLegal(states[0].tasks, Flat(ScriptOf(moves, states), n))
    ensures Removed(states[0].tasks, Flat(ScriptOf(moves, states), n)) + states[n].tasks.items == TasksOf(states[n])
  {
    StartIsEmpty(count, workers, states[0]);
    RunFollows(moves, states);
    FirstInFirstOutInPieces(QueuesOf(states), CreatedOver(states), ScriptOf(moves, states), n);
  }
}
