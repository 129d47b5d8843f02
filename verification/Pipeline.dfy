/** The thread pipeline as a transition system.  A step is one critical section:
    from acquiring a queue's mutex to releasing it, by unlocking or by going to
    sleep on a condition variable.  All pthread calls succeed, and so do allocations
    except where `PipelineProgress` says otherwise. */
module Pipeline {
  import opened Machine
  import opened BoundedFifo

  datatype Task = Task(id: U64, input: U32)

  datatype Outcome = Outcome(id: U64, input: U32, output: U64, worker: nat)

  /** Each thread by the blocking call it is in; asleep means waiting on the
      call's condition variable without having been woken. */
  datatype Producer = ProducerNotStarted | Producing(next: nat, asleep: bool) | ProducerDone

  datatype Worker = WorkerNotStarted | Popping(asleep: bool) | Pushing(outcome: Outcome, asleep: bool) | WorkerDone

  datatype Output = OutputNotStarted | Receiving(asleep: bool) | OutputDone

  /** `Starting(0)` starts the output thread, then come the workers, then the
      producer; `Joining(0)` joins the producer, then the workers. */
  datatype Main = Starting(thread: nat) | Joining(thread: nat) | ClosingResults | JoiningOutput | Ended

  datatype State = State(
    count: U64, tasks: Fifo<Task>, results: Fifo<Outcome>,
    producer: Producer, workers: seq<Worker>, output: Output, main: Main, received: seq<Outcome>)

  function Initial(count: U64, workers: nat): State {
    State(count, Fifo([], false), Fifo([], false), ProducerNotStarted,
          seq(workers, _ => WorkerNotStarted), OutputNotStarted, Starting(0), [])
  }

  // ----- the threads' work ------------------------------------------------------------------------

  /** `task_id` is 64 bits wide, `input_value` only 32. */
  function TaskAt(index: nat): Task
    requires index < U64_MAX
  {
    Task(index + 1, (index % 0x1_0000_0000 + 1) % 0x1_0000_0000)
  }

  function Process(t: Task, worker: nat): Outcome {
    Squares(t.input);
    Outcome(t.id, t.input, t.input as int * t.input, worker)
  }

  lemma Squares(x: U32)
    ensures 0 <= x as int * x <= U64_MAX
  {
    assert x as int * x <= U32_MAX * U32_MAX by {
      Monotonic(x, U32_MAX);
    }
  }

  lemma Monotonic(x: nat, y: nat)
    requires x <= y
    ensures x * x <= y * y
  {
  }

  // ----- condition variables ------------------------------------------------------------------------

  predicate SleepsOnTasks(w: Worker) {
    w.Popping? && w.asleep
  }

  predicate SleepsOnResults(w: Worker) {
    w.Pushing? && w.asleep
  }

  function Woken(w: Worker): Worker {
    match w
    case Popping(_) => Popping(false)
    case Pushing(outcome, _) => Pushing(outcome, false)
    case _ => w
  }

  /** A signal on the task queue wakes worker `i` if it sleeps there. */
  function SignalPopper(ws: seq<Worker>, i: nat): seq<Worker> {
    if i < |ws| && SleepsOnTasks(ws[i]) then ws[i := Woken(ws[i])] else ws
  }

  function SignalPusher(ws: seq<Worker>, i: nat): seq<Worker> {
    if i < |ws| && SleepsOnResults(ws[i]) then ws[i := Woken(ws[i])] else ws
  }

  /** A signal must wake somebody if anybody sleeps there. */
  predicate MayWakePopper(ws: seq<Worker>, i: nat) {
    (exists j :: 0 <= j < |ws| && SleepsOnTasks(ws[j])) ==> i < |ws| && SleepsOnTasks(ws[i])
  }

  predicate MayWakePusher(ws: seq<Worker>, i: nat) {
    (exists j :: 0 <= j < |ws| && SleepsOnResults(ws[j])) ==> i < |ws| && SleepsOnResults(ws[i])
  }

  /** Broadcasts wake everyone asleep on one queue; the others sleep on. */
  function WakePoppers(ws: seq<Worker>): (r: seq<Worker>)
    ensures |r| == |ws|
  {
    seq(|ws|, i requires 0 <= i < |ws| => if ws[i].Popping? then Popping(false) else ws[i])
  }

  function WakePushers(ws: seq<Worker>): (r: seq<Worker>)
    ensures |r| == |ws|
  {
    seq(|ws|, i requires 0 <= i < |ws| => if ws[i].Pushing? then Pushing(ws[i].outcome, false) else ws[i])
  }

  function WakeProducer(p: Producer): Producer {
    if p.Producing? then Producing(p.next, false) else p
  }

  function WakeOutput(o: Output): Output {
    if o.Receiving? then Receiving(false) else o
  }

  // ----- steps -----------------------------------------------------------------------------------------

  /** Who moves; `woken` is the thread its signal wakes, if it sends one that
      finds a sleeper. */
  datatype Move =
    | ProducerMove(woken: nat) | WorkerMove(worker: nat) | OutputMove(woken: nat) | MainMove
    | SpuriousProducer | SpuriousWorker(worker: nat) | SpuriousOutput

  predicate IsSpurious(move: Move) {
    move.SpuriousProducer? || move.SpuriousWorker? || move.SpuriousOutput?
  }

  predicate Enabled(s: State, move: Move) {
    match move
    case ProducerMove(woken) => s.producer.Producing? && !s.producer.asleep && MayWakePopper(s.workers, woken)
    case WorkerMove(i) =>
      i < |s.workers| && (s.workers[i].Popping? || s.workers[i].Pushing?) && !s.workers[i].asleep
    case OutputMove(woken) => s.output.Receiving? && !s.output.asleep && MayWakePusher(s.workers, woken)
    case MainMove =>
      (match s.main
       case Starting(_) => true
       case Joining(k) => if k == 0 then s.producer.ProducerDone? else k <= |s.workers| && s.workers[k - 1].WorkerDone?
       case ClosingResults => true
       case JoiningOutput => s.output.OutputDone?
       case Ended => false)
    case SpuriousProducer => s.producer.Producing? && s.producer.asleep
    case SpuriousWorker(i) =>
      i < |s.workers| && (s.workers[i].Popping? || s.workers[i].Pushing?) && s.workers[i].asleep
    case SpuriousOutput => s.output.Receiving? && s.output.asleep
  }

  /** Push the next task, or go to sleep on a full queue; after the last task, close. */
  function MoveProducer(s: State, woken: nat): State
    requires s.producer.Producing?
  {
    var next := s.producer.next;
    if next >= s.count then
      s.(tasks := s.tasks.(closed := true), workers := WakePoppers(s.workers), producer := ProducerDone)
    else if s.tasks.Full() && !s.tasks.closed then s.(producer := Producing(next, true))
    else if s.tasks.closed then
      s.(workers := WakePoppers(s.workers), producer := ProducerDone)
    else
      s.(tasks := s.tasks.Push(TaskAt(next)), producer := Producing(next + 1, false),
         workers := SignalPopper(s.workers, woken))
  }

  function MoveWorker(s: State, i: nat): State
    requires i < |s.workers|
  {
    match s.workers[i]
    case Popping(_) =>
      if s.tasks.items == [] && !s.tasks.closed then s.(workers := s.workers[i := Popping(true)])
      else if s.tasks.items == [] then s.(workers := s.workers[i := WorkerDone])
      else s.(tasks := s.tasks.Pop(), producer := WakeProducer(s.producer),
              workers := s.workers[i := Pushing(Process(s.tasks.items[0], i), false)])
    case Pushing(outcome, _) =>
      if s.results.Full() && !s.results.closed then s.(workers := s.workers[i := Pushing(outcome, true)])
      else if s.results.closed then s.(workers := s.workers[i := WorkerDone])
      else s.(results := s.results.Push(outcome), output := WakeOutput(s.output),
              workers := s.workers[i := Popping(false)])
    case _ => s
  }

  function MoveOutput(s: State, woken: nat): State {
    if s.results.items == [] && !s.results.closed then s.(output := Receiving(true))
    else if s.results.items == [] then s.(output := OutputDone)
    else s.(results := s.results.Pop(), received := s.received + [s.results.items[0]],
            workers := SignalPusher(s.workers, woken))
  }

  function MoveMain(s: State): State {
    match s.main
    case Starting(k) =>
      if k == 0 then s.(output := Receiving(false), main := Starting(1))
      else if k <= |s.workers| then s.(workers := s.workers[k - 1 := Popping(false)], main := Starting(k + 1))
      else s.(producer := Producing(0, false), main := Joining(0))
    case Joining(k) => s.(main := if k < |s.workers| then Joining(k + 1) else ClosingResults)
    case ClosingResults =>
      s.(results := s.results.(closed := true), workers := WakePushers(s.workers), output := WakeOutput(s.output),
         main := JoiningOutput)
    case JoiningOutput => s.(main := Ended)
    case Ended => s
  }

  function Apply(s: State, move: Move): State
    requires Enabled(s, move)
  {
    match move
    case ProducerMove(woken) => MoveProducer(s, woken)
    case WorkerMove(i) => MoveWorker(s, i)
    case OutputMove(woken) => MoveOutput(s, woken)
    case MainMove => MoveMain(s)
    case SpuriousProducer => s.(producer := WakeProducer(s.producer))
    case SpuriousWorker(i) => s.(workers := s.workers[i := Woken(s.workers[i])])
    case SpuriousOutput => s.(output := WakeOutput(s.output))
  }

  // ----- counting workers ----------------------------------------------------------------------------

  datatype Mode = NOT_STARTED | POPPING | POPPING_ASLEEP | PUSHING | PUSHING_ASLEEP | DONE

  function ModeOf(w: Worker): Mode {
    match w
    case WorkerNotStarted => NOT_STARTED
    case Popping(asleep) => if asleep then POPPING_ASLEEP else POPPING
    case Pushing(_, asleep) => if asleep then PUSHING_ASLEEP else PUSHING
    case WorkerDone => DONE
  }

  function Count(ws: seq<Worker>, m: Mode): nat {
    if ws == [] then 0 else Count(ws[..|ws| - 1], m) + if ModeOf(ws[|ws| - 1]) == m then 1 else 0
  }

  lemma {:induction false} CountUpdate(ws: seq<Worker>, i: nat, w: Worker, m: Mode)
    requires i < |ws|
    ensures Count(ws[i := w], m)
         == Count(ws, m) - (if ModeOf(ws[i]) == m then 1 else 0) + if ModeOf(w) == m then 1 else 0
  {
    var n := |ws| - 1;
    if i == n {
      assert ws[i := w][..n] == ws[..n];
    } else {
      assert ws[i := w][..n] == ws[..n][i := w];
      CountUpdate(ws[..n], i, w, m);
    }
  }

  lemma {:induction false} CountPositive(ws: seq<Worker>, m: Mode)
    ensures Count(ws, m) > 0 <==> exists i :: 0 <= i < |ws| && ModeOf(ws[i]) == m
  {
    if ws != [] {
      var n := |ws| - 1;
      CountPositive(ws[..n], m);
      if i :| 0 <= i < n && ModeOf(ws[i]) == m {
        assert ws[..n][i] == ws[i];
      }
    }
  }

  // ----- what every reachable state satisfies ---------------------------------------------------------

  function StartedWorkers(s: State): int {
    match s.main
    case Starting(k) => k - 1
    case _ => |s.workers|
  }

  function JoinedWorkers(s: State): int {
    match s.main
    case Starting(_) => 0
    case Joining(k) => k - 1
    case _ => |s.workers|
  }

  /** Which threads exist. */
  ghost predicate ThreadsOk(s: State) {
    && |s.workers| > 0
    && (s.main.Starting? ==> s.main.thread <= |s.workers| + 1) && (s.main.Joining? ==> s.main.thread <= |s.workers|)
    && (forall i :: 0 <= i < |s.workers| ==> (s.workers[i].WorkerNotStarted? <==> i >= StartedWorkers(s)))
    && (s.output.OutputNotStarted? <==> s.main == Starting(0))
    && (s.producer.ProducerNotStarted? <==> s.main.Starting?)
    && (s.producer.Producing? ==> s.producer.next <= s.count)
  }

  /** The shutdown order. */
  ghost predicate ShutdownOk(s: State) {
    && (s.tasks.closed <==> s.producer.ProducerDone?)
    && (s.results.closed <==> s.main.JoiningOutput? || s.main.Ended?)
    && (s.main.Starting? || s.main == Joining(0) || s.producer.ProducerDone?)
    && (forall i :: 0 <= i < |s.workers| && i < JoinedWorkers(s) ==> s.workers[i].WorkerDone?)
    && (s.output.OutputDone? ==> s.results.closed && s.results.items == [])
    && (s.main.Ended? ==> s.output.OutputDone?)
  }

  /** Workers end only when there is nothing left to do. */
  ghost predicate DrainedOk(s: State) {
    forall i :: 0 <= i < |s.workers| && s.workers[i].WorkerDone? ==> s.tasks.closed && s.tasks.items == []
  }

  /** No wake-up is lost: whoever sleeps is either right to, or enough threads
      that have been woken will still look at the queue. */
  ghost predicate WakeupsOk(s: State) {
    && |s.tasks.items| <= CAPACITY && |s.results.items| <= CAPACITY
    && (s.producer.Producing? && s.producer.asleep ==> s.tasks.Full() && !s.tasks.closed)
    && (s.output.Receiving? && s.output.asleep ==> s.results.items == [] && !s.results.closed)
    && (Count(s.workers, POPPING_ASLEEP) > 0 ==> !s.tasks.closed && |s.tasks.items| <= Count(s.workers, POPPING))
    && (Count(s.workers, PUSHING_ASLEEP) > 0 ==>
          !s.results.closed && CAPACITY - |s.results.items| <= Count(s.workers, PUSHING))
  }

  /** What holds even if threads end early for want of memory. */
  ghost predicate ProtocolOk(s: State) {
    ThreadsOk(s) && ShutdownOk(s) && WakeupsOk(s)
  }

  lemma CountsAfter(ws: seq<Worker>, i: nat, w: Worker)
    requires i < |ws|
    ensures forall m :: Count(ws[i := w], m)
                     == Count(ws, m) - (if ModeOf(ws[i]) == m then 1 else 0) + if ModeOf(w) == m then 1 else 0
  {
    forall m
      ensures Count(ws[i := w], m)
         == Count(ws, m) - (if ModeOf(ws[i]) == m then 1 else 0) + if ModeOf(w) == m then 1 else 0
    {
      CountUpdate(ws, i, w, m);
    }
  }

  lemma ProducerMoveWakes(s: State, woken: nat)
    requires ProtocolOk(s) && Enabled(s, ProducerMove(woken))
    ensures var s' := MoveProducer(s, woken); ProtocolOk(s')
  {
    var s' := MoveProducer(s, woken);
    CountPositive(s.workers, POPPING_ASLEEP);
    CountPositive(s'.workers, POPPING_ASLEEP);
    if s.producer.next >= s.count {
      WakingPoppers(s.workers);
    } else if !s.tasks.Full() && woken < |s.workers| {
      CountsAfter(s.workers, woken, Popping(false));
    }
  }

  /** After a broadcast nobody sleeps on the task queue, and nothing else changed. */
  lemma {:induction false} WakingPoppers(ws: seq<Worker>)
    ensures var ws' := WakePoppers(ws);
            && Count(ws', POPPING_ASLEEP) == 0
            && Count(ws', PUSHING) == Count(ws, PUSHING) && Count(ws', PUSHING_ASLEEP) == Count(ws, PUSHING_ASLEEP)
            && Count(ws', DONE) == Count(ws, DONE)
  {
    if ws != [] {
      var n := |ws| - 1;
      assert WakePoppers(ws)[..n] == WakePoppers(ws[..n]);
      WakingPoppers(ws[..n]);
    }
  }

  lemma {:induction false} WakingPushers(ws: seq<Worker>)
    ensures var ws' := WakePushers(ws);
            && Count(ws', PUSHING_ASLEEP) == 0 && Count(ws', PUSHING) == Count(ws, PUSHING) + Count(ws, PUSHING_ASLEEP)
            && Count(ws', POPPING) == Count(ws, POPPING) && Count(ws', POPPING_ASLEEP) == Count(ws, POPPING_ASLEEP)
            && Count(ws', DONE) == Count(ws, DONE)
  {
    if ws != [] {
      var n := |ws| - 1;
      assert WakePushers(ws)[..n] == WakePushers(ws[..n]);
      WakingPushers(ws[..n]);
    }
  }

  lemma WorkerMoveWakes(s: State, i: nat)
    requires ProtocolOk(s) && Enabled(s, WorkerMove(i))
    ensures ProtocolOk(MoveWorker(s, i))
  {
    if s.workers[i].Popping? {
      PoppingWakes(s, i);
    } else {
      PushingWakes(s, i);
    }
  }

  lemma PoppingWakes(s: State, i: nat)
    requires ProtocolOk(s) && Enabled(s, WorkerMove(i)) && s.workers[i].Popping?
    ensures ProtocolOk(MoveWorker(s, i))
  {
    if s.tasks.items != [] {
      TakingWakes(s, i, MoveWorker(s, i).workers[i]);
    } else {
      CountsAfter(s.workers, i, MoveWorker(s, i).workers[i]);
    }
  }

  lemma TakingWakes(s: State, i: nat, w: Worker)
    requires ProtocolOk(s) && i < |s.workers| && s.workers[i] == Popping(false) && s.tasks.items != []
    requires w.Pushing? && !w.asleep
    ensures ProtocolOk(s.(tasks := s.tasks.Pop(), producer := WakeProducer(s.producer), workers := s.workers[i := w]))
  {
    CountsAfter(s.workers, i, w);
  }

  lemma PushingWakes(s: State, i: nat)
    requires ProtocolOk(s) && Enabled(s, WorkerMove(i)) && s.workers[i].Pushing?
    ensures ProtocolOk(MoveWorker(s, i))
  {
    if s.results.Full() {
      CountsAfter(s.workers, i, MoveWorker(s, i).workers[i]);
    } else {
      GivingWakes(s, i);
    }
  }

  lemma GivingWakes(s: State, i: nat)
    requires ProtocolOk(s) && i < |s.workers| && s.workers[i].Pushing? && !s.workers[i].asleep && !s.results.Full()
    ensures ProtocolOk(MoveWorker(s, i))
  {
    CountsAfter(s.workers, i, Popping(false));
  }

  lemma OutputMoveWakes(s: State, woken: nat)
    requires ProtocolOk(s) && Enabled(s, OutputMove(woken))
    ensures var s' := MoveOutput(s, woken); ProtocolOk(s')
  {
    if s.results.items != [] {
      ReceivingWakes(s, woken);
    }
  }

  lemma ReceivingWakes(s: State, woken: nat)
    requires ProtocolOk(s) && Enabled(s, OutputMove(woken)) && s.results.items != []
    ensures ProtocolOk(s.(results := s.results.Pop(), received := s.received + [s.results.items[0]],
                          workers := SignalPusher(s.workers, woken)))
  {
    CountPositive(s.workers, PUSHING_ASLEEP);
    if woken < |s.workers| {
      CountsAfter(s.workers, woken, Woken(s.workers[woken]));
    }
  }

  lemma MainMoveWakes(s: State)
    requires ProtocolOk(s) && Enabled(s, MainMove)
    ensures var s' := MoveMain(s); ProtocolOk(s')
  {
    match s.main
    case Starting(k) =>
      if 0 < k <= |s.workers| {
        StartingWakes(s, k);
      }
    case ClosingResults => ClosingWakes(s);
    case _ =>
  }

  lemma StartingWakes(s: State, k: nat)
    requires ProtocolOk(s) && s.main == Starting(k) && 0 < k <= |s.workers|
    ensures ProtocolOk(s.(workers := s.workers[k - 1 := Popping(false)], main := Starting(k + 1)))
  {
    CountsAfter(s.workers, k - 1, Popping(false));
  }

  lemma ClosingWakes(s: State)
    requires ProtocolOk(s) && s.main.ClosingResults?
    ensures ProtocolOk(MoveMain(s))
  {
    WakingPushers(s.workers);
  }

  lemma SpuriousMoveWakes(s: State, move: Move)
    requires ProtocolOk(s) && Enabled(s, move) && IsSpurious(move)
    ensures var s' := Apply(s, move); ProtocolOk(s')
  {
    if move.SpuriousWorker? {
      CountsAfter(s.workers, move.worker, Woken(s.workers[move.worker]));
    }
  }

  // ----- exactly-once delivery -----------------------------------------------------------------------

  function TaskIds(ts: seq<Task>): (ids: seq<nat>)
    ensures |ids| == |ts|
  {
    seq(|ts|, i requires 0 <= i < |ts| => ts[i].id)
  }

  function OutcomeIds(os: seq<Outcome>): (ids: seq<nat>)
    ensures |ids| == |os|
  {
    seq(|os|, i requires 0 <= i < |os| => os[i].id)
  }

  /** How often `x` occurs among the ids. */
  function Copies(ids: seq<nat>, x: nat): nat {
    if ids == [] then 0 else Copies(ids[..|ids| - 1], x) + if ids[|ids| - 1] == x then 1 else 0
  }

  lemma CopiesPush(ids: seq<nat>, id: nat, x: nat)
    ensures Copies(ids + [id], x) == Copies(ids, x) + if id == x then 1 else 0
  {
    assert (ids + [id])[..|ids|] == ids;
  }

  lemma {:induction false} CopiesPop(ids: seq<nat>, x: nat)
    requires ids != []
    ensures Copies(ids, x) == Copies(ids[1..], x) + if ids[0] == x then 1 else 0
  {
    var n := |ids| - 1;
    if n > 0 {
      assert ids[1..][..n - 1] == ids[..n][1..];
      CopiesPop(ids[..n], x);
    }
  }

  function HeldBy(w: Worker, x: nat): nat {
    if w.Pushing? && w.outcome.id == x then 1 else 0
  }

  /** How many workers are working on task `x`. */
  function Held(ws: seq<Worker>, x: nat): nat {
    if ws == [] then 0 else Held(ws[..|ws| - 1], x) + HeldBy(ws[|ws| - 1], x)
  }

  lemma {:induction false} HeldUpdate(ws: seq<Worker>, i: nat, w: Worker, x: nat)
    requires i < |ws|
    ensures Held(ws[i := w], x) + HeldBy(ws[i], x) == Held(ws, x) + HeldBy(w, x)
  {
    var n := |ws| - 1;
    if i == n {
      assert ws[i := w][..n] == ws[..n];
    } else {
      assert ws[i := w][..n] == ws[..n][i := w];
      HeldUpdate(ws[..n], i, w, x);
    }
  }

  lemma {:induction false} HeldIgnoresSleep(ws: seq<Worker>, ws': seq<Worker>, x: nat)
    requires |ws'| == |ws| && forall i :: 0 <= i < |ws| ==> HeldBy(ws'[i], x) == HeldBy(ws[i], x)
    ensures Held(ws', x) == Held(ws, x)
  {
    if ws != [] {
      HeldIgnoresSleep(ws[..|ws| - 1], ws'[..|ws| - 1], x);
    }
  }

  /** How many tasks the producer has handed over. */
  function Created(s: State): nat {
    match s.producer
    case ProducerNotStarted => 0
    case Producing(next, _) => next
    case ProducerDone => s.count
  }

  /** How often task `x` is anywhere in the pipeline. */
  function Anywhere(s: State, x: nat): nat {
    Copies(TaskIds(s.tasks.items), x) + Held(s.workers, x) + Copies(OutcomeIds(s.results.items), x)
    + Copies(OutcomeIds(s.received), x)
  }

  /** Every task handed over is in exactly one place, and there are no others. */
  ghost predicate PlacesOk(s: State) {
    && Created(s) <= s.count
    && forall x: nat :: Anywhere(s, x) == if 1 <= x <= Created(s) then 1 else 0
  }

  lemma ProducerMovePlaces(s: State, woken: nat)
    requires ThreadsOk(s) && ShutdownOk(s) && PlacesOk(s) && Enabled(s, ProducerMove(woken))
    ensures PlacesOk(MoveProducer(s, woken))
  {
    var s' := MoveProducer(s, woken);
    forall x: nat
      ensures Anywhere(s', x) == if 1 <= x <= Created(s') then 1 else 0
    {
      HeldIgnoresSleep(s.workers, s'.workers, x);
      assert Anywhere(s, x) == if 1 <= x <= Created(s) then 1 else 0;
      if s.producer.next < s.count && !s.tasks.Full() {
        var t := TaskAt(s.producer.next);
        assert TaskIds(s.tasks.items + [t]) == TaskIds(s.tasks.items) + [t.id];
        CopiesPush(TaskIds(s.tasks.items), t.id, x);
      }
    }
  }

  lemma WorkerPopPlaces(s: State, i: nat, x: nat)
    requires Enabled(s, WorkerMove(i)) && s.workers[i].Popping? && s.tasks.items != []
    ensures Anywhere(MoveWorker(s, i), x) == Anywhere(s, x)
  {
    HeldUpdate(s.workers, i, MoveWorker(s, i).workers[i], x);
    assert TaskIds(s.tasks.items[1..]) == TaskIds(s.tasks.items)[1..];
    CopiesPop(TaskIds(s.tasks.items), x);
  }

  lemma WorkerPushPlaces(s: State, i: nat, x: nat)
    requires Enabled(s, WorkerMove(i)) && s.workers[i].Pushing? && !s.results.closed && !s.results.Full()
    ensures Anywhere(MoveWorker(s, i), x) == Anywhere(s, x)
  {
    var o := s.workers[i].outcome;
    HeldUpdate(s.workers, i, MoveWorker(s, i).workers[i], x);
    assert OutcomeIds(s.results.items + [o]) == OutcomeIds(s.results.items) + [o.id];
    CopiesPush(OutcomeIds(s.results.items), o.id, x);
  }

  lemma WorkerMovePlaces(s: State, i: nat)
    requires ThreadsOk(s) && ShutdownOk(s) && PlacesOk(s) && Enabled(s, WorkerMove(i))
    ensures PlacesOk(MoveWorker(s, i))
  {
    var s' := MoveWorker(s, i);
    assert s.workers[i].Pushing? ==> !s.results.closed;
    forall x: nat
      ensures Anywhere(s', x) == Anywhere(s, x)
    {
      if s.workers[i].Popping? && s.tasks.items != [] {
        WorkerPopPlaces(s, i, x);
      } else if s.workers[i].Pushing? && !s.results.Full() {
        WorkerPushPlaces(s, i, x);
      } else {
        HeldIgnoresSleep(s.workers, s'.workers, x);
      }
    }
  }

  lemma OutputMovePlaces(s: State, woken: nat)
    requires PlacesOk(s) && Enabled(s, OutputMove(woken))
    ensures PlacesOk(MoveOutput(s, woken))
  {
    var s' := MoveOutput(s, woken);
    forall x: nat
      ensures Anywhere(s', x) == Anywhere(s, x)
    {
      HeldIgnoresSleep(s.workers, s'.workers, x);
      if s.results.items != [] {
        var o := s.results.items[0];
        assert OutcomeIds(s.results.items[1..]) == OutcomeIds(s.results.items)[1..];
        CopiesPop(OutcomeIds(s.results.items), x);
        assert OutcomeIds(s.received + [o]) == OutcomeIds(s.received) + [o.id];
        CopiesPush(OutcomeIds(s.received), o.id, x);
      }
    }
  }

  lemma OtherMovePlaces(s: State, move: Move)
    requires ThreadsOk(s) && PlacesOk(s) && Enabled(s, move) && (move.MainMove? || IsSpurious(move))
    ensures PlacesOk(Apply(s, move))
  {
    var s' := Apply(s, move);
    forall x: nat
      ensures Anywhere(s', x) == Anywhere(s, x)
    {
      HeldIgnoresSleep(s.workers, s'.workers, x);
    }
  }

  // ----- what is delivered ---------------------------------------------------------------------------------

  predicate TaskOk(t: Task) {
    t.id > 0 && t == TaskAt(t.id - 1)
  }

  /** The square of what the task carried. */
  predicate OutcomeOk(o: Outcome) {
    o.id > 0 && o.input == TaskAt(o.id - 1).input && o.output == o.input as int * o.input
  }

  ghost predicate ValuesOk(s: State) {
    && (forall i :: 0 <= i < |s.tasks.items| ==> TaskOk(s.tasks.items[i]))
    && (forall i :: 0 <= i < |s.workers| && s.workers[i].Pushing? ==> OutcomeOk(s.workers[i].outcome))
    && (forall i :: 0 <= i < |s.results.items| ==> OutcomeOk(s.results.items[i]))
    && (forall i :: 0 <= i < |s.received| ==> OutcomeOk(s.received[i]))
  }

  lemma MoveKeepsDrained(s: State, move: Move)
    requires ThreadsOk(s) && ShutdownOk(s) && DrainedOk(s) && Enabled(s, move)
    ensures DrainedOk(Apply(s, move))
  {
  }

  lemma MoveKeepsValues(s: State, move: Move)
    requires ThreadsOk(s) && ValuesOk(s) && Enabled(s, move)
    ensures ValuesOk(Apply(s, move))
  {
    match move
    case ProducerMove(woken) => ProducerMoveValues(s, woken);
    case WorkerMove(i) => WorkerMoveValues(s, i);
    case OutputMove(woken) => OutputMoveValues(s, woken);
    case _ =>
  }

  lemma ProducerMoveValues(s: State, woken: nat)
    requires ValuesOk(s) && Enabled(s, ProducerMove(woken))
    ensures ValuesOk(MoveProducer(s, woken))
  {
  }

  lemma WorkerMoveValues(s: State, i: nat)
    requires ValuesOk(s) && Enabled(s, WorkerMove(i))
    ensures ValuesOk(MoveWorker(s, i))
  {
  }

  lemma OutputMoveValues(s: State, woken: nat)
    requires ValuesOk(s) && Enabled(s, OutputMove(woken))
    ensures ValuesOk(MoveOutput(s, woken))
  {
  }

  // ----- all runs -----------------------------------------------------------------------------------------------

  ghost predicate Inv(s: State) {
    ProtocolOk(s) && DrainedOk(s) && PlacesOk(s) && ValuesOk(s)
  }

  lemma InitialIsOk(count: U64, workers: nat)
    requires workers > 0
    ensures Inv(Initial(count, workers))
  {
    var s := Initial(count, workers);
    CountPositive(s.workers, POPPING_ASLEEP);
    CountPositive(s.workers, PUSHING_ASLEEP);
    forall x: nat
      ensures Anywhere(s, x) == 0
    {
      NobodyHolds(s.workers, x);
    }
  }

  lemma {:induction false} NobodyHolds(ws: seq<Worker>, x: nat)
    requires forall i :: 0 <= i < |ws| ==> !ws[i].Pushing?
    ensures Held(ws, x) == 0
  {
    if ws != [] {
      NobodyHolds(ws[..|ws| - 1], x);
    }
  }

  lemma MoveKeepsInv(s: State, move: Move)
    requires Inv(s) && Enabled(s, move)
    ensures Inv(Apply(s, move))
  {
    MoveKeepsValues(s, move);
    MoveKeepsDrained(s, move);
    MoveKeepsProtocol(s, move);
    match move
    case ProducerMove(woken) => ProducerMovePlaces(s, woken);
    case WorkerMove(i) => WorkerMovePlaces(s, i);
    case OutputMove(woken) => OutputMovePlaces(s, woken);
    case _ => OtherMovePlaces(s, move);
  }

  lemma MoveKeepsProtocol(s: State, move: Move)
    requires ProtocolOk(s) && Enabled(s, move)
    ensures ProtocolOk(Apply(s, move))
  {
    match move
    case ProducerMove(woken) => ProducerMoveWakes(s, woken);
    case WorkerMove(i) => WorkerMoveWakes(s, i);
    case OutputMove(woken) => OutputMoveWakes(s, woken);
    case MainMove => MainMoveWakes(s);
    case _ => SpuriousMoveWakes(s, move);
  }

  /** A run of the pipeline with any interleaving and any spurious wake-ups. */
  ghost predicate IsRun(moves: seq<Move>, states: seq<State>) {
    && |states| == |moves| + 1
    && forall n {:trigger moves[n]} :: 0 <= n < |moves| ==>
         Enabled(states[n], moves[n]) && states[n + 1] == Apply(states[n], moves[n])
  }

  lemma {:induction false} RunsKeepInv(moves: seq<Move>, states: seq<State>, n: nat)
    requires IsRun(moves, states) && Inv(states[0]) && n < |states|
    ensures Inv(states[n])
  {
    if n > 0 {
      var m := n - 1;
      RunsKeepInv(moves, states, m);
      MoveKeepsInv(states[m], moves[m]);
    }
  }

  /** No push ever meets a closed queue. */
  lemma PushesMeetOpenQueues(s: State)
    requires Inv(s)
    ensures s.producer.Producing? ==> !s.tasks.closed
    ensures forall i :: 0 <= i < |s.workers| && s.workers[i].Pushing? ==> !s.results.closed
  {
  }

  lemma {:induction false} ReceivedIsCopied(os: seq<Outcome>, i: nat)
    requires i < |os|
    ensures Copies(OutcomeIds(os), os[i].id) > 0
  {
    var n := |os| - 1;
    assert OutcomeIds(os)[..n] == OutcomeIds(os[..n]);
    if i < n {
      ReceivedIsCopied(os[..n], i);
    }
  }

  lemma ReceivedInRange(os: seq<Outcome>, count: nat)
    requires forall x: nat :: Copies(OutcomeIds(os), x) == if 1 <= x <= count then 1 else 0
    requires forall i :: 0 <= i < |os| ==> OutcomeOk(os[i])
    ensures forall i :: 0 <= i < |os| ==>
              && 1 <= os[i].id <= count && os[i].output == os[i].input as int * os[i].input
              && (os[i].input == os[i].id <==> os[i].id <= 4_294_967_295)
  {
    forall i | 0 <= i < |os|
      ensures 1 <= os[i].id <= count && (os[i].input == os[i].id <==> os[i].id <= 4_294_967_295)
    {
      OutputIsIdSquared(os[i]);
      ReceivedIsCopied(os, i);
    }
  }

  /** When `main` ends, both queues are closed and empty, so its clean-up finds
      nothing to free and destroys them, and each id 1..count was delivered
      exactly once with the square of its input. */
  lemma EndedDelivers(s: State)
    requires Inv(s) && s.main.Ended?
    ensures s.tasks == Fifo([], true) && s.results == Fifo([], true)
    ensures forall x: nat :: Copies(OutcomeIds(s.received), x) == if 1 <= x <= s.count then 1 else 0
    ensures forall i :: 0 <= i < |s.received| ==> OutcomeOk(s.received[i])
    ensures forall i :: 0 <= i < |s.received| ==>
              var o := s.received[i];
              && 1 <= o.id <= s.count && o.output == o.input as int * o.input
              && (o.input == o.id <==> o.id <= 4_294_967_295)
  {
    assert s.workers[0].WorkerDone?;
    forall x: nat
      ensures Copies(OutcomeIds(s.received), x) == if 1 <= x <= s.count then 1 else 0
    {
      NobodyHolds(s.workers, x);
      assert Anywhere(s, x) == if 1 <= x <= s.count then 1 else 0;
    }
    ReceivedInRange(s.received, s.count);
  }

  /** The output is the square of the id as long as the id fits the 32-bit input,
      and for no other id; so it is for the program's limit of a million tasks. */
  lemma OutputIsIdSquared(o: Outcome)
    requires OutcomeOk(o)
    ensures o.output == o.id as int * o.id <==> o.id <= U32_MAX
    ensures o.input == o.id <==> o.id <= U32_MAX
  {
    if o.id > U32_MAX {
      LargerSquare(o.input, o.id);
    }
  }

  lemma LargerSquare(x: nat, y: nat)
    requires x < y
    ensures x * x < y * y
  {
    assert y * y == (x + (y - x)) * y == x * y + (y - x) * y;
    assert x * y == x * x + x * (y - x);
  }
}
