/** The bounded blocking queue without its ring: what `push`, `pop` and `close` do to
    the list of items, and in which order items leave.  A `Wait` is one return from
    `pthread_cond_wait`: its result, and the critical sections that other threads
    completed on the queue meanwhile. */
module BoundedFifo {
  import opened Machine

  const CAPACITY := 4

  datatype Fifo<T> = Fifo(items: seq<T>, closed: bool) {
    predicate Full() {
      |items| == CAPACITY
    }

    function Push(x: T): Fifo<T> {
      this.(items := items + [x])
    }

    function Pop(): Fifo<T>
      requires items != []
    {
      this.(items := items[1..])
    }
  }

  /** A critical section of another thread that took effect. */
  datatype Op<T> = Insert(item: T) | Remove | Close

  datatype Wait<T> = Wait(error: Errno, others: seq<Op<T>>)

  predicate Legal<T>(q: Fifo<T>, op: Op<T>) {
    match op
    case Insert(_) => !q.closed && |q.items| < CAPACITY
    case Remove => q.items != []
    case Close => true
  }

  function Effect<T>(q: Fifo<T>, op: Op<T>): Fifo<T>
    requires Legal(q, op)
  {
    match op
    case Insert(x) => q.Push(x)
    case Remove => q.Pop()
    case Close => q.(closed := true)
  }

  predicate AllLegal<T>(q: Fifo<T>, ops: seq<Op<T>>)
    decreases |ops|
  {
    ops == [] || (Legal(q, ops[0]) && AllLegal(Effect(q, ops[0]), ops[1..]))
  }

  function After<T>(q: Fifo<T>, ops: seq<Op<T>>): Fifo<T>
    requires AllLegal(q, ops)
    decreases |ops|
  {
    if ops == [] then q else After(Effect(q, ops[0]), ops[1..])
  }

  predicate WaitsLegal<T>(q: Fifo<T>, waits: seq<Wait<T>>)
    decreases |waits|
  {
    waits == [] || (AllLegal(q, waits[0].others) && WaitsLegal(After(q, waits[0].others), waits[1..]))
  }

  /** How a blocking call ends: it returns, or its thread is still asleep when the script ends. */
  datatype Call = Returned(code: Errno) | Asleep

  /** The waits a push goes through on `q`, and what it finds then: the abstract
      queue it acts on and the error that ended its waiting. */
  function PushPoint<T>(q: Fifo<T>, waits: seq<Wait<T>>): (Fifo<T>, Call)
    requires WaitsLegal(q, waits)
    decreases |waits|
  {
    if |q.items| < CAPACITY || q.closed then (q, Returned(OK))
    else if waits == [] then (q, Asleep)
    else
      var q' := After(q, waits[0].others);
      if waits[0].error != OK then (q', Returned(waits[0].error)) else PushPoint(q', waits[1..])
  }

  function PopPoint<T>(q: Fifo<T>, waits: seq<Wait<T>>): (Fifo<T>, Call)
    requires WaitsLegal(q, waits)
    decreases |waits|
  {
    if q.items != [] || q.closed then (q, Returned(OK))
    else if waits == [] then (q, Asleep)
    else
      var q' := After(q, waits[0].others);
      if waits[0].error != OK then (q', Returned(waits[0].error)) else PopPoint(q', waits[1..])
  }

  /** A whole push of `x`: the queue it leaves and how it ends.  A failing signal
      takes the item out again. */
  function PushResult<T>(q: Fifo<T>, x: T, waits: seq<Wait<T>>, signal: Errno): (Fifo<T>, Call)
    requires WaitsLegal(q, waits)
  {
    var (q', reached) := PushPoint(q, waits);
    if reached != Returned(OK) then (q', reached)
    else if q'.closed then (q', Returned(ECANCELED))
    else (if signal == OK then q'.Push(x) else q', Returned(signal))
  }

  /** A whole pop: the queue it leaves, how it ends, and what it returns. */
  function PopResult<T>(q: Fifo<T>, waits: seq<Wait<T>>, signal: Errno): (Fifo<T>, Call, Option<T>)
    requires WaitsLegal(q, waits)
  {
    var (q', reached) := PopPoint(q, waits);
    if reached != Returned(OK) then (q', reached, None)
    else if q'.items == [] then (q', Returned(ECANCELED), None)
    else if signal == OK then (q'.Pop(), Returned(OK), Some(q'.items[0]))
    else (q', Returned(signal), None)
  }

  // ----- what a call comes to --------------------------------------------------------------------------

  /** The queue after the first `n` waits. */
  function AfterWaits<T>(q: Fifo<T>, waits: seq<Wait<T>>, n: nat): Fifo<T>
    requires WaitsLegal(q, waits) && n <= |waits|
    decreases |waits|
  {
    if n == 0 then q else AfterWaits(After(q, waits[0].others), waits[1..], n - 1)
  }

  /** The caller went through `n` waits, none of them failing, with the queue full
      and open before each. */
  ghost predicate WaitedToPush<T>(q: Fifo<T>, waits: seq<Wait<T>>, n: nat) {
    && WaitsLegal(q, waits) && n <= |waits|
    && forall m | 0 <= m < n :: |AfterWaits(q, waits, m).items| == 4 && !AfterWaits(q, waits, m).closed
                                && waits[m].error == OK
  }

  /** ... with the queue empty and open before each. */
  ghost predicate WaitedToPop<T>(q: Fifo<T>, waits: seq<Wait<T>>, n: nat) {
    && WaitsLegal(q, waits) && n <= |waits|
    && forall m | 0 <= m < n :: AfterWaits(q, waits, m).items == [] && !AfterWaits(q, waits, m).closed
                                && waits[m].error == OK
  }

  /** The push found `found` when its waiting ended after `n` waits, and left `after`. */
  ghost predicate PushEnds<T>(found: Fifo<T>, x: T, waits: seq<Wait<T>>, n: nat, next: Fifo<T>, signal: Errno,
                              after: Fifo<T>, call: Call) {
    if found.closed then after == found && call == Returned(ECANCELED)
    else if |found.items| < 4 then
      call == Returned(signal) && after == if signal == OK then Fifo(found.items + [x], false) else found
    else if n < |waits| then waits[n].error != OK && call == Returned(waits[n].error) && after == next
    else after == found && call == Asleep
  }

  ghost predicate PopEnds<T>(found: Fifo<T>, waits: seq<Wait<T>>, n: nat, next: Fifo<T>, signal: Errno,
                             after: Fifo<T>, call: Call, item: Option<T>) {
    if found.items != [] then
      && call == Returned(signal) && item == (if signal == OK then Some(found.items[0]) else None)
      && after == if signal == OK then Fifo(found.items[1..], found.closed) else found
    else if found.closed then after == found && call == Returned(ECANCELED) && item == None
    else if n < |waits| then
      waits[n].error != OK && call == Returned(waits[n].error) && item == None && after == next
    else after == found && call == Asleep && item == None
  }

  /** The queue after the wait that follows `n` waits, if there is one. */
  function Next<T>(q: Fifo<T>, waits: seq<Wait<T>>, n: nat): Fifo<T>
    requires WaitsLegal(q, waits) && n <= |waits|
  {
    if n < |waits| then AfterWaits(q, waits, n + 1) else q
  }

  lemma WaitsShift<T>(q: Fifo<T>, waits: seq<Wait<T>>, n: nat)
    requires WaitsLegal(q, waits) && n < |waits|
    ensures WaitsLegal(After(q, waits[0].others), waits[1..])
    ensures AfterWaits(q, waits, n + 1) == AfterWaits(After(q, waits[0].others), waits[1..], n)
  {
  }

  lemma OneMorePushWait<T>(q: Fifo<T>, waits: seq<Wait<T>>, q': Fifo<T>, n: nat)
    requires WaitsLegal(q, waits) && waits != [] && q' == After(q, waits[0].others) && WaitedToPush(q', waits[1..], n)
    requires |q.items| == 4 && !q.closed && waits[0].error == OK
    ensures WaitedToPush(q, waits, n + 1)
  {
    forall m | 0 <= m < n + 1
      ensures |AfterWaits(q, waits, m).items| == 4 && !AfterWaits(q, waits, m).closed && waits[m].error == OK
    {
      if m > 0 {
        WaitsShift(q, waits, m - 1);
      }
    }
  }

  lemma OneMorePopWait<T>(q: Fifo<T>, waits: seq<Wait<T>>, q': Fifo<T>, n: nat)
    requires WaitsLegal(q, waits) && waits != [] && q' == After(q, waits[0].others) && WaitedToPop(q', waits[1..], n)
    requires q.items == [] && !q.closed && waits[0].error == OK
    ensures WaitedToPop(q, waits, n + 1)
  {
    forall m | 0 <= m < n + 1
      ensures AfterWaits(q, waits, m).items == [] && !AfterWaits(q, waits, m).closed && waits[m].error == OK
    {
      if m > 0 {
        WaitsShift(q, waits, m - 1);
      }
    }
  }

  lemma NextShifts<T>(q: Fifo<T>, waits: seq<Wait<T>>, n: nat)
    requires WaitsLegal(q, waits) && n < |waits|
    ensures n + 1 < |waits| ==> Next(q, waits, n + 1) == Next(After(q, waits[0].others), waits[1..], n)
  {
    if n + 1 < |waits| {
      WaitsShift(q, waits, n + 1);
    }
  }

  lemma NextIsAfter<T>(q: Fifo<T>, waits: seq<Wait<T>>)
    requires WaitsLegal(q, waits) && waits != []
    ensures Next(q, waits, 0) == After(q, waits[0].others)
  {
    WaitsShift(q, waits, 0);
  }

  lemma PushStops<T>(q: Fifo<T>, x: T, waits: seq<Wait<T>>, signal: Errno)
    requires WaitsLegal(q, waits) && |q.items| <= 4
    requires |q.items| < 4 || q.closed || waits == [] || waits[0].error != OK
    ensures var (q', call) := PushResult(q, x, waits, signal);
            PushEnds(q, x, waits, 0, Next(q, waits, 0), signal, q', call)
  {
    if waits != [] {
      NextIsAfter(q, waits);
    }
  }

  lemma PopStops<T>(q: Fifo<T>, waits: seq<Wait<T>>, signal: Errno)
    requires WaitsLegal(q, waits)
    requires q.items != [] || q.closed || waits == [] || waits[0].error != OK
    ensures var (q', call, item) := PopResult(q, waits, signal);
            PopEnds(q, waits, 0, Next(q, waits, 0), signal, q', call, item)
  {
    if waits != [] {
      NextIsAfter(q, waits);
    }
  }

  /** A push waits while the queue is full and open.  It then finds the queue closed
      and is cancelled, or appends its item unless the signal fails; a failing wait
      ends it with that error; or it is still asleep. */
  lemma {:induction false} PushMeaning<T>(q: Fifo<T>, x: T, waits: seq<Wait<T>>, signal: Errno) returns (n: nat)
    requires WaitsLegal(q, waits) && |q.items| <= 4
    ensures WaitedToPush(q, waits, n)
    ensures var (q', call) := PushResult(q, x, waits, signal);
            PushEnds(AfterWaits(q, waits, n), x, waits, n, Next(q, waits, n), signal, q', call)
    decreases |waits|
  {
    if |q.items| == 4 && !q.closed && waits != [] && waits[0].error == OK {
      var q' := After(q, waits[0].others);
      FirstInFirstOut(q, waits[0].others);
      var k := PushMeaning(q', x, waits[1..], signal);
      OneMorePushWait(q, waits, q', k);
      WaitsShift(q, waits, k);
      NextShifts(q, waits, k);
      n := k + 1;
    } else {
      PushStops(q, x, waits, signal);
      n := 0;
    }
  }

  /** A pop is the dual: it waits while the queue is empty and open. */
  lemma {:induction false} PopMeaning<T>(q: Fifo<T>, waits: seq<Wait<T>>, signal: Errno) returns (n: nat)
    requires WaitsLegal(q, waits)
    ensures WaitedToPop(q, waits, n)
    ensures var (q', call, item) := PopResult(q, waits, signal);
            PopEnds(AfterWaits(q, waits, n), waits, n, Next(q, waits, n), signal, q', call, item)
    decreases |waits|
  {
    if q.items == [] && !q.closed && waits != [] && waits[0].error == OK {
      var q' := After(q, waits[0].others);
      var k := PopMeaning(q', waits[1..], signal);
      OneMorePopWait(q, waits, q', k);
      WaitsShift(q, waits, k);
      NextShifts(q, waits, k);
      n := k + 1;
    } else {
      PopStops(q, waits, signal);
      n := 0;
    }
  }

  // ----- order -----------------------------------------------------------------------------------------

  function Inserted<T>(ops: seq<Op<T>>): seq<T> {
    if ops == [] then [] else (if ops[0].Insert? then [ops[0].item] else []) + Inserted(ops[1..])
  }

  function Removed<T>(q: Fifo<T>, ops: seq<Op<T>>): seq<T>
    requires AllLegal(q, ops)
    decreases |ops|
  {
    if ops == [] then []
    else (if ops[0].Remove? then [q.items[0]] else []) + Removed(Effect(q, ops[0]), ops[1..])
  }

  /** Whatever the interleaving, items leave in the order they were inserted,
      none lost and none twice, and the queue never holds more than it may. */
  lemma {:induction false} FirstInFirstOut<T>(q: Fifo<T>, ops: seq<Op<T>>)
    requires AllLegal(q, ops) && |q.items| <= 4
    ensures Removed(q, ops) + After(q, ops).items == q.items + Inserted(ops)
    ensures |After(q, ops).items| <= 4
    decreases |ops|
  {
    if ops != [] {
      var q' := Effect(q, ops[0]);
      var rest := ops[1..];
      FirstInFirstOut(q', rest);
      var first := if ops[0].Remove? then [q.items[0]] else [];
      var second := if ops[0].Insert? then [ops[0].item] else [];
      assert first + q'.items == q.items + second;
      InOrder(first, Removed(q', rest), After(q', rest).items, q'.items, Inserted(rest), q.items, second);
    }
  }

  lemma InOrder<T>(first: seq<T>, removed: seq<T>, left: seq<T>, items': seq<T>, inserted: seq<T>, items: seq<T>,
                   second: seq<T>)
    requires removed + left == items' + inserted && first + items' == items + second
    ensures (first + removed) + left == items + (second + inserted)
  {
    assert (first + removed) + left == first + (removed + left);
    assert first + (items' + inserted) == (first + items') + inserted;
    assert (items + second) + inserted == items + (second + inserted);
  }

  lemma {:induction false} ScriptsChain<T>(q: Fifo<T>, ops: seq<Op<T>>, more: seq<Op<T>>)
    requires AllLegal(q, ops) && AllLegal(After(q, ops), more)
    ensures AllLegal(q, ops + more) && After(q, ops + more) == After(After(q, ops), more)
    decreases |ops|
  {
    if ops == [] {
      assert ops + more == more;
    } else {
      assert (ops + more)[1..] == ops[1..] + more;
      ScriptsChain(Effect(q, ops[0]), ops[1..], more);
    }
  }

  lemma {:induction false} InsertedChain<T>(ops: seq<Op<T>>, more: seq<Op<T>>)
    ensures Inserted(ops + more) == Inserted(ops) + Inserted(more)
  {
    if ops == [] {
      assert ops + more == more;
    } else {
      assert (ops + more)[1..] == ops[1..] + more;
      InsertedChain(ops[1..], more);
      Regroup(if ops[0].Insert? then [ops[0].item] else [], Inserted(ops[1..]), Inserted(more));
    }
  }

  lemma Regroup<T>(xs: seq<T>, ys: seq<T>, zs: seq<T>)
    ensures xs + (ys + zs) == xs + ys + zs
  {
  }

  // ----- scripts in pieces ----------------------------------------------------------------------------

  function Flat<T>(pieces: seq<seq<Op<T>>>, n: nat): seq<Op<T>>
    requires n <= |pieces|
  {
    if n == 0 then [] else Flat(pieces, n - 1) + pieces[n - 1]
  }

  /** Each queue follows from the one before by a piece of the script. */
  ghost predicate Follows<T>(qs: seq<Fifo<T>>, pieces: seq<seq<Op<T>>>) {
    |qs| == |pieces| + 1 && forall n | 0 <= n < |pieces| :: FollowsAt(qs, pieces, n)
  }

  ghost predicate FollowsAt<T>(qs: seq<Fifo<T>>, pieces: seq<seq<Op<T>>>, n: nat) {
    n < |pieces| < |qs| && AllLegal(qs[n], pieces[n]) && qs[n + 1] == After(qs[n], pieces[n])
  }

  /** Each list adds to the one before what a piece of the script inserts. */
  ghost predicate Feeds<T>(xs: seq<seq<T>>, pieces: seq<seq<Op<T>>>) {
    |xs| == |pieces| + 1 && forall n | 0 <= n < |pieces| :: FeedsAt(xs, pieces, n)
  }

  ghost predicate FeedsAt<T>(xs: seq<seq<T>>, pieces: seq<seq<Op<T>>>, n: nat) {
    n < |pieces| < |xs| && xs[n + 1] == xs[n] + Inserted(pieces[n])
  }

  lemma {:induction false} FlatIsScript<T>(qs: seq<Fifo<T>>, pieces: seq<seq<Op<T>>>, n: nat)
    requires Follows(qs, pieces) && n <= |pieces|
    ensures AllLegal(qs[0], Flat(pieces, n)) && After(qs[0], Flat(pieces, n)) == qs[n]
  {
    if n > 0 {
      var m := n - 1;
      FlatIsScript(qs, pieces, m);
      assert FollowsAt(qs, pieces, m);
      ScriptsChain(qs[0], Flat(pieces, m), pieces[m]);
    }
  }

  lemma {:induction false} FlatInserts<T>(xs: seq<seq<T>>, pieces: seq<seq<Op<T>>>, n: nat)
    requires Feeds(xs, pieces) && |xs[0]| == 0 && n <= |pieces|
    ensures Inserted(Flat(pieces, n)) == xs[n]
  {
    if n > 0 {
      var m := n - 1;
      FlatInserts(xs, pieces, m);
      assert FeedsAt(xs, pieces, m);
      InsertedChain(Flat(pieces, m), pieces[m]);
    }
  }

  /** What left and what is still there are what came, in the same order. */
  lemma FirstInFirstOutInPieces<T>(qs: seq<Fifo<T>>, xs: seq<seq<T>>, pieces: seq<seq<Op<T>>>, n: nat)
    requires Follows(qs, pieces) && Feeds(xs, pieces) && n <= |pieces|
    requires |qs[0].items| == 0 && |xs[0]| == 0
    ensures AllLegal(qs[0], Flat(pieces, n))
    ensures Removed(qs[0], Flat(pieces, n)) + qs[n].items == xs[n]
  {
    FlatIsScript(qs, pieces, n);
    FlatInserts(xs, pieces, n);
    FirstInFirstOut(qs[0], Flat(pieces, n));
    NothingFirst(qs[0].items, xs[n]);
  }

  lemma NothingFirst<T>(none: seq<T>, xs: seq<T>)
    requires |none| == 0
    ensures none + xs == xs
  {
  }
}
