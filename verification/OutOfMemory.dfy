/** What becomes of the pipeline when allocations fail: it can then block for good
    exactly if there are more tasks than workers and queue places together. */
module OutOfMemory {
  import opened Machine
  import opened BoundedFifo
  import opened Pipeline
  import opened PipelineProgress

  /** A worker that cannot allocate its result frees the task it popped and ends;
      a producer that cannot allocate a task closes the queue and ends. */
  datatype Fault = WorkerFault(worker: nat) | ProducerFault

  predicate CanFail(s: State, fault: Fault) {
    match fault
    case WorkerFault(i) => i < |s.workers| && s.workers[i] == Popping(false) && s.tasks.items != []
    case ProducerFault => s.producer.Producing? && !s.producer.asleep && s.producer.next < s.count
  }

  function Fail(s: State, fault: Fault): State
    requires CanFail(s, fault)
  {
    match fault
    case WorkerFault(i) =>
      s.(tasks := s.tasks.Pop(), producer := WakeProducer(s.producer), workers := s.workers[i := WorkerDone])
    case ProducerFault =>
      s.(tasks := s.tasks.(closed := true), workers := WakePoppers(s.workers), producer := ProducerDone)
  }

  /** Shutdown order and wake-ups survive failing allocations. */
  lemma FaultKeepsProtocol(s: State, fault: Fault)
    requires ProtocolOk(s) && CanFail(s, fault)
    ensures ProtocolOk(Fail(s, fault))
  {
    match fault
    case WorkerFault(i) => CountsAfter(s.workers, i, WorkerDone);
    case ProducerFault => WakingPoppers(s.workers);
  }

  /** One step of a run in which allocations may fail. */
  ghost predicate FaultyStep(s: State, s': State) {
    || (exists move :: Enabled(s, move) && s' == Apply(s, move))
    || (exists fault :: CanFail(s, fault) && s' == Fail(s, fault))
  }

  ghost predicate IsFaultyRun(states: seq<State>) {
    states != [] && forall n :: 0 <= n < |states| - 1 ==> FaultyStepAt(states, n)
  }

  ghost predicate FaultyStepAt(states: seq<State>, n: nat) {
    n < |states| - 1 && FaultyStep(states[n], states[n + 1])
  }

  lemma FaultyStepKeepsProtocol(s: State, s': State)
    requires ProtocolOk(s) && FaultyStep(s, s')
    ensures ProtocolOk(s')
  {
    if move :| Enabled(s, move) && s' == Apply(s, move) {
      MoveKeepsProtocol(s, move);
    } else {
      var fault :| CanFail(s, fault) && s' == Fail(s, fault);
      FaultKeepsProtocol(s, fault);
    }
  }

  lemma {:induction false} FaultyRunsKeepProtocol(states: seq<State>, n: nat)
    requires IsFaultyRun(states) && ProtocolOk(states[0]) && n < |states|
    ensures ProtocolOk(states[n])
  {
    if n > 0 {
      var m := n - 1;
      FaultyRunsKeepProtocol(states, m);
      assert FaultyStepAt(states, m);
      FaultyStepKeepsProtocol(states[m], states[m + 1]);
    }
  }

  /** With failing allocations a run can stop short of the end, and does so
      exactly in the states where the producer waits and every worker is gone. */
  lemma FaultyRunsDeadlock(count: U64, workers: nat, states: seq<State>, n: nat)
    requires workers > 0 && IsFaultyRun(states) && states[0] == Initial(count, workers) && n < |states|
    requires !states[n].main.Ended?
    ensures CanMove(states[n]) <==> !Blocked(states[n])
  {
    InitialIsOk(count, workers);
    FaultyRunsKeepProtocol(states, n);
    OnlyBlockedDeadlocks(states[n]);
  }

  function Last(states: seq<State>): State
    requires states != []
  {
    states[|states| - 1]
  }

  lemma Longer(states: seq<State>, s': State)
    requires IsFaultyRun(states) && FaultyStep(Last(states), s')
    ensures IsFaultyRun(states + [s']) && (states + [s'])[0] == states[0] && Last(states + [s']) == s'
  {
    var longer := states + [s'];
    forall n | 0 <= n < |longer| - 1
      ensures FaultyStepAt(longer, n)
    {
      if n < |states| - 1 {
        assert FaultyStepAt(states, n);
      }
    }
  }

  lemma ThenMove(states: seq<State>, move: Move) returns (longer: seq<State>)
    requires IsFaultyRun(states) && Enabled(Last(states), move)
    ensures IsFaultyRun(longer) && longer[0] == states[0] && Last(longer) == Apply(Last(states), move)
  {
    longer := states + [Apply(Last(states), move)];
    Longer(states, Apply(Last(states), move));
  }

  lemma ThenFail(states: seq<State>, fault: Fault) returns (longer: seq<State>)
    requires IsFaultyRun(states) && CanFail(Last(states), fault)
    ensures IsFaultyRun(longer) && longer[0] == states[0] && Last(longer) == Fail(Last(states), fault)
  {
    longer := states + [Fail(Last(states), fault)];
    Longer(states, Fail(Last(states), fault));
  }

  // ----- few tasks never block -------------------------------------------------------------------------

  /** Each worker that ended early took a task with it, and what was handed over
      beyond these is what the queue holds at most. */
  ghost predicate HandedOver(s: State) {
    && (s.producer.ProducerNotStarted? ==> s.tasks.items == [] && Count(s.workers, DONE) == 0)
    && (s.producer.Producing? ==>
          && s.producer.next >= |s.tasks.items| + Count(s.workers, DONE)
          && (s.producer.asleep ==> s.producer.next < s.count))
  }

  lemma ProducerHandsOver(s: State, woken: nat)
    requires ProtocolOk(s) && HandedOver(s) && Enabled(s, ProducerMove(woken))
    ensures HandedOver(MoveProducer(s, woken))
  {
    if woken < |s.workers| {
      CountsAfter(s.workers, woken, Woken(s.workers[woken]));
    }
  }

  lemma WorkerHandsOver(s: State, i: nat)
    requires ProtocolOk(s) && HandedOver(s) && Enabled(s, WorkerMove(i))
    ensures HandedOver(MoveWorker(s, i))
  {
    CountsAfter(s.workers, i, MoveWorker(s, i).workers[i]);
  }

  lemma OutputHandsOver(s: State, woken: nat)
    requires HandedOver(s) && Enabled(s, OutputMove(woken))
    ensures HandedOver(MoveOutput(s, woken))
  {
    if woken < |s.workers| {
      CountsAfter(s.workers, woken, Woken(s.workers[woken]));
    }
  }

  lemma MainHandsOver(s: State)
    requires ProtocolOk(s) && HandedOver(s) && Enabled(s, MainMove)
    ensures HandedOver(MoveMain(s))
  {
    match s.main
    case Starting(k) =>
      if 0 < k <= |s.workers| {
        CountsAfter(s.workers, k - 1, Popping(false));
      }
    case ClosingResults => WakingPushers(s.workers);
    case _ =>
  }

  lemma SpuriousHandsOver(s: State, move: Move)
    requires HandedOver(s) && Enabled(s, move) && IsSpurious(move)
    ensures HandedOver(Apply(s, move))
  {
    if move.SpuriousWorker? {
      CountsAfter(s.workers, move.worker, Woken(s.workers[move.worker]));
    }
  }

  lemma MoveHandsOver(s: State, move: Move)
    requires ProtocolOk(s) && HandedOver(s) && Enabled(s, move)
    ensures HandedOver(Apply(s, move)) && SameSize(s, Apply(s, move))
  {
    match move
    case ProducerMove(woken) => ProducerHandsOver(s, woken);
    case WorkerMove(i) => WorkerHandsOver(s, i);
    case OutputMove(woken) => OutputHandsOver(s, woken);
    case MainMove => MainHandsOver(s);
    case _ => SpuriousHandsOver(s, move);
  }

  predicate SameSize(s: State, s': State) {
    s'.count == s.count && |s'.workers| == |s.workers|
  }

  /** A failing worker takes one task out of the queue and itself out of the pool. */
  lemma FaultHandsOver(s: State, fault: Fault)
    requires ProtocolOk(s) && HandedOver(s) && CanFail(s, fault)
    ensures HandedOver(Fail(s, fault)) && SameSize(s, Fail(s, fault))
  {
    if fault.WorkerFault? {
      CountsAfter(s.workers, fault.worker, WorkerDone);
    }
  }

  lemma {:induction false} FaultyRunsHandOver(states: seq<State>, n: nat)
    requires IsFaultyRun(states) && ProtocolOk(states[0]) && HandedOver(states[0]) && n < |states|
    ensures HandedOver(states[n]) && SameSize(states[0], states[n])
  {
    if n > 0 {
      var m := n - 1;
      FaultyRunsHandOver(states, m);
      FaultyRunsKeepProtocol(states, m);
      assert FaultyStepAt(states, m);
      if move :| Enabled(states[m], move) && states[m + 1] == Apply(states[m], move) {
        MoveHandsOver(states[m], move);
      } else {
        var fault :| CanFail(states[m], fault) && states[m + 1] == Fail(states[m], fault);
        FaultHandsOver(states[m], fault);
      }
    }
  }

  lemma {:induction false} AllOf(ws: seq<Worker>, mode: Mode)
    requires forall i :: 0 <= i < |ws| ==> ModeOf(ws[i]) == mode
    ensures Count(ws, mode) == |ws|
  {
    if ws != [] {
      AllOf(ws[..|ws| - 1], mode);
    }
  }

  lemma NotDone(ws: seq<Worker>)
    requires forall i :: 0 <= i < |ws| ==> ModeOf(ws[i]) == NOT_STARTED
    ensures Count(ws, DONE) == 0
  {
    CountPositive(ws, DONE);
  }

  /** A blocked producer has filled the queue and lost a task to every worker. */
  lemma BlockedNeedsTasks(s: State)
    requires ProtocolOk(s) && HandedOver(s) && Blocked(s)
    ensures s.count > |s.workers| + CAPACITY
  {
    AllOf(s.workers, DONE);
  }

  /** With no more tasks than workers and queue places together, no failing
      allocation can stop the pipeline: before the end somebody can always move. */
  lemma FewTasksNeverBlock(count: U64, workers: nat, states: seq<State>, n: nat)
    requires 0 < workers && count <= workers + CAPACITY
    requires IsFaultyRun(states) && states[0] == Initial(count, workers) && n < |states|
    ensures states[n].main.Ended? || CanMove(states[n])
  {
    InitialIsOk(count, workers);
    NotDone(states[0].workers);
    FaultyRunsKeepProtocol(states, n);
    FaultyRunsHandOver(states, n);
    if !states[n].main.Ended? {
      OnlyBlockedDeadlocks(states[n]);
      if Blocked(states[n]) {
        BlockedNeedsTasks(states[n]);
      }
    }
  }

  // ----- more tasks can block ----------------------------------------------------------------------------

  /** A state before any result. */
  function Early(count: U64, tasks: seq<Task>, producer: Producer, workers: seq<Worker>, output: Output,
                 main: Main): State {
    State(count, Fifo(tasks, false), Fifo([], false), producer, workers, output, main, [])
  }

  /** The first `k` workers wait for tasks, the others have not been started. */
  function FirstStarted(workers: nat, k: nat): seq<Worker> {
    seq(workers, i => if i < k then Popping(false) else WorkerNotStarted)
  }

  /** The first `k` workers have ended, the others wait for tasks. */
  function FirstGone(workers: nat, k: nat): seq<Worker> {
    seq(workers, i => if i < k then WorkerDone else Popping(false))
  }

  function TasksFrom(index: nat, n: nat): seq<Task>
    requires index + n <= U64_MAX
  {
    seq(n, j requires 0 <= j < n => TaskAt(index + j))
  }

  /** `main` has started everybody, and the output thread has gone to sleep. */
  lemma EveryoneStarts(count: U64, workers: nat) returns (states: seq<State>)
    ensures IsFaultyRun(states) && states[0] == Initial(count, workers)
    ensures Last(states) == Early(count, [], Producing(0, false), FirstGone(workers, 0), Receiving(true), Joining(0))
  {
    states := ThenMove([Initial(count, workers)], MainMove);
    assert FirstStarted(workers, 0) == Initial(count, workers).workers;
    var k := 0;
    while k < workers
      invariant k <= workers && IsFaultyRun(states) && states[0] == Initial(count, workers)
      invariant Last(states)
             == Early(count, [], ProducerNotStarted, FirstStarted(workers, k), Receiving(false), Starting(k + 1))
    {
      states := ThenMove(states, MainMove);
      assert FirstStarted(workers, k)[k := Popping(false)] == FirstStarted(workers, k + 1);
      k := k + 1;
    }
    assert FirstStarted(workers, workers) == FirstGone(workers, 0);
    states := ThenMove(states, MainMove);
    states := OutputSleeps(states, count, FirstGone(workers, 0));
  }

  lemma OutputSleeps(states: seq<State>, count: U64, ws: seq<Worker>) returns (longer: seq<State>)
    requires IsFaultyRun(states) && forall i :: 0 <= i < |ws| ==> ws[i].Popping?
    requires Last(states) == Early(count, [], Producing(0, false), ws, Receiving(false), Joining(0))
    ensures IsFaultyRun(longer) && longer[0] == states[0]
    ensures Last(longer) == Early(count, [], Producing(0, false), ws, Receiving(true), Joining(0))
  {
    longer := ThenMove(states, OutputMove(0));
  }

  /** The producer pushes a task while there is room and nobody sleeps on the queue. */
  lemma ProducerPushes(states: seq<State>, count: U64, tasks: seq<Task>, next: nat, ws: seq<Worker>)
    returns (longer: seq<State>)
    requires IsFaultyRun(states) && next < count && |tasks| < CAPACITY
    requires forall i :: 0 <= i < |ws| ==> !SleepsOnTasks(ws[i])
    requires Last(states) == Early(count, tasks, Producing(next, false), ws, Receiving(true), Joining(0))
    ensures IsFaultyRun(longer) && longer[0] == states[0]
    ensures Last(longer) == Early(count, tasks + [TaskAt(next)], Producing(next + 1, false), ws,
                                  Receiving(true), Joining(0))
  {
    longer := ThenMove(states, ProducerMove(0));
  }

  /** Worker `k` pops the only task and cannot allocate its result. */
  lemma WorkerFails(states: seq<State>, count: U64, next: nat, workers: nat, k: nat) returns (longer: seq<State>)
    requires IsFaultyRun(states) && k < workers && next < count
    requires Last(states) == Early(count, [TaskAt(next)], Producing(next + 1, false), FirstGone(workers, k),
                                   Receiving(true), Joining(0))
    ensures IsFaultyRun(longer) && longer[0] == states[0]
    ensures Last(longer) == Early(count, [], Producing(next + 1, false), FirstGone(workers, k + 1),
                                  Receiving(true), Joining(0))
  {
    longer := ThenFail(states, WorkerFault(k));
    assert FirstGone(workers, k)[k := WorkerDone] == FirstGone(workers, k + 1);
  }

  /** One task after another ends one worker after another. */
  lemma EveryWorkerFails(count: U64, workers: nat) returns (states: seq<State>)
    requires workers < count
    ensures IsFaultyRun(states) && states[0] == Initial(count, workers)
    ensures Last(states) == Early(count, [], Producing(workers, false), FirstGone(workers, workers),
                                  Receiving(true), Joining(0))
  {
    states := EveryoneStarts(count, workers);
    var k := 0;
    while k < workers
      invariant k <= workers && IsFaultyRun(states) && states[0] == Initial(count, workers)
      invariant Last(states) == Early(count, [], Producing(k, false), FirstGone(workers, k),
                                      Receiving(true), Joining(0))
    {
      states := ProducerPushes(states, count, [], k, FirstGone(workers, k));
      states := WorkerFails(states, count, k, workers, k);
      k := k + 1;
    }
  }

  /** Then the producer fills the queue. */
  lemma QueueFills(count: U64, workers: nat) returns (states: seq<State>)
    requires workers + CAPACITY < count
    ensures IsFaultyRun(states) && states[0] == Initial(count, workers)
    ensures Last(states) == Early(count, TasksFrom(workers, CAPACITY), Producing(workers + CAPACITY, false),
                                  FirstGone(workers, workers), Receiving(true), Joining(0))
  {
    states := EveryWorkerFails(count, workers);
    var j := 0;
    assert TasksFrom(workers, 0) == [];
    while j < CAPACITY
      invariant j <= CAPACITY && IsFaultyRun(states) && states[0] == Initial(count, workers)
      invariant Last(states) == Early(count, TasksFrom(workers, j), Producing(workers + j, false),
                                      FirstGone(workers, workers), Receiving(true), Joining(0))
    {
      states := ProducerPushes(states, count, TasksFrom(workers, j), workers + j, FirstGone(workers, workers));
      assert TasksFrom(workers, j) + [TaskAt(workers + j)] == TasksFrom(workers, j + 1);
      j := j + 1;
    }
  }

  /** If every worker runs out of memory and tasks are left, the producer waits for good. */
  lemma OutOfMemoryBlocks(count: U64, workers: nat) returns (states: seq<State>)
    requires workers + CAPACITY < count
    ensures IsFaultyRun(states) && states[0] == Initial(count, workers) && Blocked(Last(states))
  {
    states := QueueFills(count, workers);
    states := ThenMove(states, ProducerMove(0));
  }

  /** `states` is a run that gets stuck before the end. */
  ghost predicate GetsStuck(count: U64, workers: nat, states: seq<State>) {
    && IsFaultyRun(states) && states[0] == Initial(count, workers)
    && !Last(states).main.Ended? && !CanMove(Last(states))
  }

  /** Failing allocations can stop the pipeline short of its end if and only if
      there are more tasks than workers and queue places together. */
  lemma BlocksIffTooManyTasks(count: U64, workers: nat)
    requires workers > 0
    ensures (exists states :: GetsStuck(count, workers, states)) <==> count > workers + 4
  {
    if count > workers + CAPACITY {
      var states := OutOfMemoryBlocks(count, workers);
      FaultyRunsDeadlock(count, workers, states, |states| - 1);
      assert GetsStuck(count, workers, states);
    } else {
      forall states | IsFaultyRun(states) && states[0] == Initial(count, workers)
        ensures !GetsStuck(count, workers, states)
      {
        FewTasksNeverBlock(count, workers, states, |states| - 1);
      }
    }
  }

  // ----- termination ---------------------------------------------------------------------------------

  lemma FaultAdvances(s: State, fault: Fault)
    requires ProtocolOk(s) && CanFail(s, fault)
    ensures Advances(s, Fail(s, fault))
  {
    match fault
    case WorkerFault(i) => CountsAfter(s.workers, i, WorkerDone);
    case ProducerFault => WakingPoppers(s.workers);
  }

  lemma FaultBurnsFuel(s: State, fault: Fault)
    requires ProtocolOk(s) && CanFail(s, fault)
    ensures Fuel(Fail(s, fault)) <= Fuel(s) - 1
  {
    var s' := Fail(s, fault);
    FaultKeepsProtocol(s, fault);
    RemainingAndAwake(s);
    RemainingAndAwake(s');
    FaultAdvances(s, fault);
    Weigh(|s.workers|, Remaining(s), Remaining(s'), AwakeThreads(s), AwakeThreads(s'));
  }

  /** A step that is more than a spurious wake-up. */
  ghost predicate Progress(s: State, s': State) {
    || (exists move :: Enabled(s, move) && !IsSpurious(move) && s' == Apply(s, move))
    || (exists fault :: CanFail(s, fault) && s' == Fail(s, fault))
  }

  /** Which steps are nothing else. */
  ghost function Wakeups(states: seq<State>): (ups: seq<bool>)
    requires states != []
    ensures |ups| == |states| - 1
  {
    seq(|states| - 1, n requires 0 <= n < |states| - 1 => !Progress(states[n], states[n + 1]))
  }

  lemma FaultyStepBurnsFuel(s: State, s': State)
    requires ProtocolOk(s) && FaultyStep(s, s')
    ensures Fuel(s') <= Fuel(s) + if Progress(s, s') then -1 else 1
  {
    if fault :| CanFail(s, fault) && s' == Fail(s, fault) {
      FaultBurnsFuel(s, fault);
    } else if move :| Enabled(s, move) && !IsSpurious(move) && s' == Apply(s, move) {
      StepsBurnFuel(s, move);
    } else {
      var move :| Enabled(s, move) && s' == Apply(s, move);
      StepsBurnFuel(s, move);
    }
  }

  lemma FaultyRunBurns(states: seq<State>)
    requires IsFaultyRun(states) && ProtocolOk(states[0])
    ensures Burns(FuelsOf(states), Wakeups(states)) && FuelsOf(states)[|states| - 1] >= 0
  {
    forall n | 0 <= n < |states| - 1
      ensures FuelsOf(states)[n + 1] <= FuelsOf(states)[n] + if Wakeups(states)[n] then 1 else -1
    {
      FaultyRunsKeepProtocol(states, n);
      assert FaultyStepAt(states, n);
      FaultyStepBurnsFuel(states[n], states[n + 1]);
    }
    FaultyRunsKeepProtocol(states, |states| - 1);
    FuelIsNatural(states[|states| - 1]);
  }

  lemma StartIsOk(count: U64, workers: nat, s: State)
    requires workers > 0 && s == Initial(count, workers)
    ensures ProtocolOk(s)
  {
    InitialIsOk(count, workers);
  }

  /** However allocations fail, a run with finitely many spurious wake-ups is finite. */
  lemma FaultyRunsAreFinite(count: U64, workers: nat, states: seq<State>)
    requires workers > 0 && IsFaultyRun(states) && states[0] == Initial(count, workers)
    ensures |states| <= FuelsOf(states)[0] + 2 * Trues(Wakeups(states)) + 1
  {
    StartIsOk(count, workers, states[0]);
    FaultyRunBurns(states);
    RunFits(FuelsOf(states), Wakeups(states));
  }
}
