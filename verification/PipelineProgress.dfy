/** The pipeline never gets stuck, and ends if spurious wake-ups do. */
module PipelineProgress {
  import opened Machine
  import opened BoundedFifo
  import opened Pipeline

  // ----- deadlock freedom ------------------------------------------------------------------------------

  /** The move of worker `i`, whoever its signals wake. */
  lemma WorkerCanMove(s: State, i: nat)
    requires i < |s.workers| && ModeOf(s.workers[i]) in {POPPING, PUSHING}
    ensures CanMove(s)
  {
    assert Enabled(s, WorkerMove(i)) && !IsSpurious(WorkerMove(i));
  }

  /** Some thread can take a step without a spurious wake-up. */
  ghost predicate CanMove(s: State) {
    exists move :: Enabled(s, move) && !IsSpurious(move)
  }

  lemma OutputCanMove(s: State)
    requires s.output == Receiving(false)
    ensures CanMove(s)
  {
    var woken: nat := 0;
    if j :| 0 <= j < |s.workers| && SleepsOnResults(s.workers[j]) {
      woken := j;
    }
    assert Enabled(s, OutputMove(woken)) && !IsSpurious(OutputMove(woken));
  }

  lemma ProducerCanMove(s: State)
    requires s.producer.Producing? && !s.producer.asleep
    ensures CanMove(s)
  {
    var woken: nat := 0;
    if j :| 0 <= j < |s.workers| && SleepsOnTasks(s.workers[j]) {
      woken := j;
    }
    assert Enabled(s, ProducerMove(woken)) && !IsSpurious(ProducerMove(woken));
  }

  /** If a worker has not finished, then it, another worker or the output thread can move. */
  lemma WorkersProgress(s: State, i: nat)
    requires ProtocolOk(s) && i < |s.workers| && !s.workers[i].WorkerDone? && !s.workers[i].WorkerNotStarted?
    requires s.tasks.closed || s.tasks.Full()
    ensures CanMove(s)
  {
    CountPositive(s.workers, POPPING);
    CountPositive(s.workers, PUSHING);
    CountPositive(s.workers, POPPING_ASLEEP);
    CountPositive(s.workers, PUSHING_ASLEEP);
    if j :| 0 <= j < |s.workers| && ModeOf(s.workers[j]) in {POPPING, PUSHING} {
      WorkerCanMove(s, j);
    } else {
      assert ModeOf(s.workers[i]) == PUSHING_ASLEEP;
      assert s.results.Full() && s.output == Receiving(false);
      OutputCanMove(s);
    }
  }

  /** The producer waits for room that no worker is left to make. */
  ghost predicate Blocked(s: State) {
    && s.main == Joining(0) && s.producer.Producing? && s.producer.asleep && s.output == Receiving(true)
    && forall i :: 0 <= i < |s.workers| ==> s.workers[i].WorkerDone?
  }

  /** Before the end nobody can move exactly if the producer is blocked like that. */
  lemma OnlyBlockedDeadlocks(s: State)
    requires ProtocolOk(s) && !s.main.Ended?
    ensures CanMove(s) <==> !Blocked(s)
  {
    if Enabled(s, MainMove) {
      assert !IsSpurious(MainMove);
    } else if s.main == Joining(0) {
      if !s.producer.asleep {
        ProducerCanMove(s);
      } else if i :| 0 <= i < |s.workers| && !s.workers[i].WorkerDone? {
        WorkersProgress(s, i);
      } else if s.output == Receiving(false) {
        OutputCanMove(s);
      }
    } else if s.main.Joining? {
      WorkersProgress(s, s.main.thread - 1);
    } else {
      OutputCanMove(s);
    }
  }

  /** In every reachable state before the end somebody can move. */
  lemma NoDeadlock(s: State)
    requires Inv(s) && !s.main.Ended?
    ensures CanMove(s)
  {
    OnlyBlockedDeadlocks(s);
    assert s.workers[0].WorkerDone? ==> s.tasks.closed;
  }

  // ----- termination ----------------------------------------------------------------------------------

  function AwakeThreads(s: State): nat {
    Count(s.workers, POPPING) + Count(s.workers, PUSHING)
    + (if s.producer.Producing? && !s.producer.asleep then 1 else 0)
    + (if s.output.Receiving? && !s.output.asleep then 1 else 0)
  }

  function MainRemaining(s: State): int {
    var w := |s.workers|;
    match s.main
    case Starting(k) => 2 * w + 6 - k
    case Joining(k) => w + 4 - k
    case ClosingResults => 2
    case JoiningOutput => 1
    case Ended => 0
  }

  /** Queue operations, thread ends and steps of `main` that are still to come. */
  function Remaining(s: State): int {
    4 * (s.count - Created(s)) + 3 * |s.tasks.items|
    + 2 * (Count(s.workers, PUSHING) + Count(s.workers, PUSHING_ASLEEP)) + |s.results.items|
    + (|s.workers| - Count(s.workers, DONE))
    + (if s.producer.ProducerDone? then 0 else 1) + (if s.output.OutputDone? then 0 else 1)
    + MainRemaining(s)
  }

  /** What is left to do, with every operation worth more than all the threads it may wake. */
  function Fuel(s: State): int {
    (|s.workers| + 3) * Remaining(s) + AwakeThreads(s)
  }

  lemma {:induction false} CountsBounded(ws: seq<Worker>)
    ensures Count(ws, POPPING) + Count(ws, PUSHING) <= |ws|
    ensures Count(ws, DONE) <= |ws|
  {
    if ws != [] {
      CountsBounded(ws[..|ws| - 1]);
    }
  }

  lemma RemainingAndAwake(s: State)
    requires ProtocolOk(s)
    ensures 0 <= AwakeThreads(s) <= |s.workers| + 2 && Remaining(s) >= 0
  {
    CountsBounded(s.workers);
  }

  /** A step that does not just fall asleep completes an operation. */
  ghost predicate Advances(s: State, s': State) {
    || Remaining(s') <= Remaining(s) - 1
    || (Remaining(s') == Remaining(s) && AwakeThreads(s') <= AwakeThreads(s) - 1)
  }

  lemma ProducerAdvances(s: State, woken: nat)
    requires ProtocolOk(s) && Enabled(s, ProducerMove(woken))
    ensures Advances(s, MoveProducer(s, woken))
  {
    if s.producer.next >= s.count {
      WakingPoppers(s.workers);
    } else if !s.tasks.Full() && woken < |s.workers| {
      CountsAfter(s.workers, woken, Popping(false));
    }
  }

  lemma PoppingAdvances(s: State, i: nat)
    requires Enabled(s, WorkerMove(i)) && s.workers[i].Popping?
    ensures Advances(s, MoveWorker(s, i))
  {
    if s.tasks.items != [] {
      TakingAdvances(s, i, MoveWorker(s, i).workers[i]);
    } else {
      CountsAfter(s.workers, i, MoveWorker(s, i).workers[i]);
    }
  }

  lemma TakingAdvances(s: State, i: nat, w: Worker)
    requires i < |s.workers| && s.workers[i] == Popping(false) && s.tasks.items != [] && ModeOf(w) == PUSHING
    ensures Advances(s, s.(tasks := s.tasks.Pop(), producer := WakeProducer(s.producer), workers := s.workers[i := w]))
  {
    CountsAfter(s.workers, i, w);
  }

  lemma PushingAdvances(s: State, i: nat)
    requires Enabled(s, WorkerMove(i)) && s.workers[i].Pushing?
    ensures Advances(s, MoveWorker(s, i))
  {
    if s.results.Full() || s.results.closed {
      CountsAfter(s.workers, i, MoveWorker(s, i).workers[i]);
    } else {
      GivingAdvances(s, i);
    }
  }

  lemma GivingAdvances(s: State, i: nat)
    requires i < |s.workers| && s.workers[i].Pushing? && !s.workers[i].asleep
    ensures Advances(s, s.(results := s.results.Push(s.workers[i].outcome), output := WakeOutput(s.output),
                           workers := s.workers[i := Popping(false)]))
  {
    CountsAfter(s.workers, i, Popping(false));
  }

  lemma OutputAdvances(s: State, woken: nat)
    requires Enabled(s, OutputMove(woken))
    ensures Advances(s, MoveOutput(s, woken))
  {
    if s.results.items != [] {
      ReceivingAdvances(s, woken, s.received + [s.results.items[0]]);
    }
  }

  lemma ReceivingAdvances(s: State, woken: nat, received: seq<Outcome>)
    requires s.output.Receiving? && s.results.items != []
    ensures Advances(s, s.(results := s.results.Pop(), received := received, workers := SignalPusher(s.workers, woken)))
  {
    SignalledPusher(s.workers, woken);
  }

  /** A signal turns at most one sleeper into a waking thread. */
  lemma SignalledPusher(ws: seq<Worker>, woken: nat)
    ensures var ws' := SignalPusher(ws, woken);
            && |ws'| == |ws| && Count(ws', DONE) == Count(ws, DONE) && Count(ws', POPPING) == Count(ws, POPPING)
            && Count(ws, PUSHING) <= Count(ws', PUSHING) <= Count(ws, PUSHING) + 1
            && Count(ws', PUSHING) + Count(ws', PUSHING_ASLEEP) == Count(ws, PUSHING) + Count(ws, PUSHING_ASLEEP)
  {
    if woken < |ws| {
      CountsAfter(ws, woken, Woken(ws[woken]));
    }
  }

  lemma MainAdvances(s: State)
    requires ProtocolOk(s) && Enabled(s, MainMove)
    ensures Advances(s, MoveMain(s))
  {
    match s.main
    case Starting(k) =>
      if 0 < k <= |s.workers| {
        StartingAdvances(s, k);
      }
    case ClosingResults => ClosingAdvances(s);
    case _ =>
  }

  lemma StartingAdvances(s: State, k: nat)
    requires s.main == Starting(k) && 0 < k <= |s.workers| && s.workers[k - 1].WorkerNotStarted?
    ensures Advances(s, s.(workers := s.workers[k - 1 := Popping(false)], main := Starting(k + 1)))
  {
    CountsAfter(s.workers, k - 1, Popping(false));
  }

  lemma ClosingAdvances(s: State)
    requires s.main.ClosingResults?
    ensures Advances(s, MoveMain(s))
  {
    WakingPushers(s.workers);
  }

  lemma SpuriousAlmostAdvances(s: State, move: Move)
    requires Enabled(s, move) && IsSpurious(move)
    ensures var s' := Apply(s, move); Remaining(s') == Remaining(s) && AwakeThreads(s') == AwakeThreads(s) + 1
  {
    if move.SpuriousWorker? {
      WakingAlmostAdvances(s, move.worker);
    }
  }

  lemma WakingAlmostAdvances(s: State, i: nat)
    requires i < |s.workers| && (s.workers[i].Popping? || s.workers[i].Pushing?) && s.workers[i].asleep
    ensures var s' := s.(workers := s.workers[i := Woken(s.workers[i])]);
            Remaining(s') == Remaining(s) && AwakeThreads(s') == AwakeThreads(s) + 1
  {
    CountsAfter(s.workers, i, Woken(s.workers[i]));
  }

  lemma Weigh(w: nat, r: int, r': int, a: int, a': int)
    requires r' <= r - 1 || (r' == r && a' <= a - 1)
    requires 0 <= a && a' <= w + 2
    ensures (w + 3) * r' + a' <= (w + 3) * r + a - 1
  {
    if r' <= r - 1 {
      AtLeast(w + 3, r - r');
      assert (w + 3) * (r - r') == (w + 3) * r - (w + 3) * r';
    }
  }

  lemma AtLeast(x: nat, n: int)
    requires n >= 1
    ensures x * n >= x
  {
    assert x * n == x + x * (n - 1);
  }

  lemma MovesAdvance(s: State, move: Move)
    requires ProtocolOk(s) && Enabled(s, move) && !IsSpurious(move)
    ensures Advances(s, Apply(s, move))
  {
    match move
    case ProducerMove(woken) => ProducerAdvances(s, woken);
    case WorkerMove(i) =>
      if s.workers[i].Popping? {
        PoppingAdvances(s, i);
      } else {
        PushingAdvances(s, i);
      }
    case OutputMove(woken) => OutputAdvances(s, woken);
    case _ => MainAdvances(s);
  }

  lemma WorkersRemain(s: State, move: Move)
    requires Enabled(s, move)
    ensures |Apply(s, move).workers| == |s.workers| && Apply(s, move).count == s.count
  {
  }

  /** Every step burns fuel; only a spurious wake-up returns some. */
  lemma StepsBurnFuel(s: State, move: Move)
    requires ProtocolOk(s) && Enabled(s, move)
    ensures Fuel(Apply(s, move)) <= Fuel(s) + if IsSpurious(move) then 1 else -1
  {
    MoveKeepsProtocol(s, move);
    RemainingAndAwake(s);
    RemainingAndAwake(Apply(s, move));
    WorkersRemain(s, move);
    if IsSpurious(move) {
      SpuriousAlmostAdvances(s, move);
    } else {
      MovesAdvance(s, move);
      Weigh(|s.workers|, Remaining(s), Remaining(Apply(s, move)), AwakeThreads(s), AwakeThreads(Apply(s, move)));
    }
  }

  function Trues(bs: seq<bool>): nat {
    if bs == [] then 0 else Trues(bs[..|bs| - 1]) + if bs[|bs| - 1] then 1 else 0
  }

  /** Each step burns one unit, or returns one where `ups` says so. */
  ghost predicate Burns(fuels: seq<int>, ups: seq<bool>) {
    |fuels| == |ups| + 1 && forall n :: 0 <= n < |ups| ==> fuels[n + 1] <= fuels[n] + if ups[n] then 1 else -1
  }

  lemma {:induction false} BurningEnds(fuels: seq<int>, ups: seq<bool>, n: nat)
    requires Burns(fuels, ups) && n <= |ups|
    ensures n + fuels[n] <= fuels[0] + 2 * Trues(ups[..n])
  {
    if n > 0 {
      BurningEnds(fuels, ups, n - 1);
      assert ups[..n][..n - 1] == ups[..n - 1];
      assert fuels[n - 1 + 1] <= fuels[n - 1] + if ups[n - 1] then 1 else -1;
    }
  }

  ghost function FuelsOf(states: seq<State>): (fuels: seq<int>)
    ensures |fuels| == |states|
  {
    seq(|states|, n requires 0 <= n < |states| => Fuel(states[n]))
  }

  lemma RunFits(fuels: seq<int>, ups: seq<bool>)
    requires Burns(fuels, ups) && fuels[|ups|] >= 0
    ensures |ups| <= fuels[0] + 2 * Trues(ups)
  {
    BurningEnds(fuels, ups, |ups|);
    assert ups[..|ups|] == ups;
  }

  /** Which moves are spurious wake-ups. */
  function Spurious(moves: seq<Move>): (ups: seq<bool>)
    ensures |ups| == |moves|
  {
    seq(|moves|, n requires 0 <= n < |moves| => IsSpurious(moves[n]))
  }

  lemma RunBurns(moves: seq<Move>, states: seq<State>)
    requires IsRun(moves, states) && Inv(states[0])
    ensures Burns(FuelsOf(states), Spurious(moves)) && FuelsOf(states)[|moves|] >= 0
  {
    forall n | 0 <= n < |moves|
      ensures FuelsOf(states)[n + 1] <= FuelsOf(states)[n] + if Spurious(moves)[n] then 1 else -1
    {
      RunsKeepInv(moves, states, n);
      StepsBurnFuel(states[n], moves[n]);
    }
    RunsKeepInv(moves, states, |moves|);
    FuelIsNatural(states[|moves|]);
  }

  /** A run with finitely many spurious wake-ups is finite, and when nobody can
      move any more every task has been delivered. */
  lemma PipelineTerminates(count: U64, workers: nat, moves: seq<Move>, states: seq<State>)
    requires workers > 0 && IsRun(moves, states) && states[0] == Initial(count, workers)
    ensures |moves| <= FuelsOf(states)[0] + 2 * Trues(Spurious(moves))
    ensures var last := states[|moves|];
            !CanMove(last) ==>
              && last.main.Ended? && last.tasks == Fifo([], true) && last.results == Fifo([], true)
              && (forall x: nat :: Copies(OutcomeIds(last.received), x) == if 1 <= x <= count then 1 else 0)
              && (forall i :: 0 <= i < |last.received| ==> OutcomeOk(last.received[i]))
  {
    InitialIsOk(count, workers);
    var n := |moves|;
    RunBurns(moves, states);
    RunFits(FuelsOf(states), Spurious(moves));
    RunsKeepInv(moves, states, n);
    RunsKeepCount(moves, states, n);
    if !CanMove(states[n]) {
      if !states[n].main.Ended? {
        NoDeadlock(states[n]);
      }
      EndedDelivers(states[n]);
    }
  }

  lemma FuelIsNatural(s: State)
    requires ProtocolOk(s)
    ensures Fuel(s) >= 0
  {
    RemainingAndAwake(s);
    assert (|s.workers| + 3) * Remaining(s) >= 0;
  }

  lemma {:induction false} RunsKeepCount(moves: seq<Move>, states: seq<State>, n: nat)
    requires IsRun(moves, states) && n <= |moves|
    ensures states[n].count == states[0].count
  {
    if n > 0 {
      var m := n - 1;
      RunsKeepCount(moves, states, m);
      WorkersRemain(states[m], moves[m]);
    }
  }
}
