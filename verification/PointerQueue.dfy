/** The bounded blocking queue as a ring buffer in place.  Locking and unlocking
    succeed; signalling, broadcasting and destroying may fail. */
module PointerQueue {
  import opened Machine
  import opened BoundedFifo

  /** The slot `i` places after `head`. */
  function SlotAt(head: nat, i: nat): (slot: nat)
    requires head < CAPACITY && i <= CAPACITY
    ensures slot == if head + i < CAPACITY then head + i else head + i - CAPACITY
  {
    (head + i) % CAPACITY
  }

  /** The live window starts at `head`; every other slot is NULL. */
  ghost predicate Ring<T>(s: seq<Option<T>>, head: nat, count: nat) {
    && |s| == CAPACITY && head < CAPACITY && count <= CAPACITY
    && forall i :: 0 <= i < CAPACITY ==> (s[SlotAt(head, i)].Some? <==> i < count)
  }

  ghost function Window<T>(s: seq<Option<T>>, head: nat, count: nat): (xs: seq<T>)
    requires Ring(s, head, count)
    ensures |xs| == count
  {
    seq(count, i requires 0 <= i < count => s[SlotAt(head, i)].value)
  }

  lemma WindowInsert<T>(s: seq<Option<T>>, head: nat, count: nat, x: T)
    requires Ring(s, head, count) && count < CAPACITY
    ensures var s' := s[SlotAt(head, count) := Some(x)];
            Ring(s', head, count + 1) && Window(s', head, count + 1) == Window(s, head, count) + [x]
  {
  }

  lemma WindowRemove<T>(s: seq<Option<T>>, head: nat, count: nat)
    requires Ring(s, head, count) && count > 0
    ensures s[head] == Some(Window(s, head, count)[0])
    ensures var s' := s[head := None];
            Ring(s', SlotAt(head, 1), count - 1)
              && Window(s', SlotAt(head, 1), count - 1) == Window(s, head, count)[1..]
  {
    assert SlotAt(head, 0) == head;
    var s' := s[head := None];
    forall i | 0 <= i < CAPACITY
      ensures s'[SlotAt(SlotAt(head, 1), i)].Some? <==> i < count - 1
    {
      if i < CAPACITY - 1 {
        assert SlotAt(SlotAt(head, 1), i) == SlotAt(head, i + 1);
      } else {
        assert SlotAt(SlotAt(head, 1), i) == head;
      }
    }
    assert forall i :: 0 <= i < count - 1 ==> SlotAt(SlotAt(head, 1), i) == SlotAt(head, i + 1);
  }

  /** The error that is reported when `x` came first. */
  function FirstOf(x: Errno, y: Errno): Errno {
    if x != OK then x else y
  }

  class PointerQueue<T(==)> {
    const items: array<Option<T>>
    var head: nat
    var tail: nat
    var count: nat
    var closed: bool

    ghost predicate Valid()
      reads this, items
    {
      Ring(items[..], head, count) && tail == SlotAt(head, count)
    }

    ghost function View(): Fifo<T>
      requires Valid()
      reads this, items
    {
      Fifo(Window(items[..], head, count), closed)
    }

    constructor ()
      ensures Valid() && View() == Fifo([], false) && fresh(items)
    {
      items := new Option<T>[CAPACITY](_ => None);
      head, tail, count, closed := 0, 0, 0, false;
    }

    /** The tail end of `push`, with the queue not full: a failing signal takes
        the item out again. */
    method InsertItem(item: T, signal: Errno) returns (code: Errno)
      requires Valid() && count < CAPACITY
      modifies this`tail, this`count, items
      ensures Valid() && code == signal && count == old(count) + if signal == OK then 1 else 0
      ensures View() == if signal == OK then old(View()).Push(item) else old(View())
    {
      var insertionIndex := tail;
      ghost var before := items[..];
      WindowInsert(before, head, count, item);
      items[insertionIndex] := Some(item);
      assert items[..] == before[insertionIndex := Some(item)];
      tail := (tail + 1) % CAPACITY;
      count := count + 1;
      code := signal;
      if code != OK {
        items[insertionIndex] := None;
        assert items[..] == before;
        tail := insertionIndex;
        count := count - 1;
      }
    }

    /** The tail end of `pop`, with the queue not empty. */
    method RemoveItem(signal: Errno) returns (code: Errno, item: Option<T>)
      requires Valid() && count > 0
      modifies this`head, this`count, items
      ensures Valid() && code == signal && count == old(count) - if signal == OK then 1 else 0
      ensures item == if signal == OK then Some(old(View()).items[0]) else None
      ensures View() == if signal == OK then old(View()).Pop() else old(View())
    {
      var removalIndex := head;
      ghost var before := items[..];
      WindowRemove(before, head, count);
      item := items[removalIndex];
      items[removalIndex] := None;
      assert items[..] == before[removalIndex := None];
      head := (head + 1) % CAPACITY;
      count := count - 1;
      code := signal;
      if code != OK {
        head := removalIndex;
        items[removalIndex] := item;
        assert items[..] == before;
        count := count + 1;
        item := None;
      }
    }

    /** Idempotent; the queue is closed even if a broadcast fails. */
    method CloseQueue(notEmpty: Errno, notFull: Errno) returns (code: Errno)
      requires Valid()
      modifies this`closed
      ensures Valid() && View() == old(View()).(closed := true)
      ensures code == if notEmpty != OK then notEmpty else notFull
    {
      closed := true;
      code := OK;
      if notEmpty != OK {
        code := notEmpty;
      }
      if code == OK && notFull != OK {
        code := notFull;
      }
    }

    /** The other threads' critical sections during a wait. */
    method RunOthers(ops: seq<Op<T>>)
      requires Valid() && AllLegal(View(), ops)
      modifies this, items
      ensures Valid() && View() == After(old(View()), ops)
    {
      var i := 0;
      while i < |ops|
        invariant 0 <= i <= |ops| && Valid()
        invariant AllLegal(View(), ops[i..]) && After(View(), ops[i..]) == After(old(View()), ops)
      {
        var code, item;
        match ops[i] {
          case Insert(x) => code := InsertItem(x, OK);
          case Remove => code, item := RemoveItem(OK);
          case Close => code := CloseQueue(OK, OK);
        }
        assert ops[i..][1..] == ops[i + 1..];
        i := i + 1;
      }
    }

    method Push(item: T, waits: seq<Wait<T>>, signal: Errno) returns (call: Call)
      requires Valid() && WaitsLegal(View(), waits)
      modifies this, items
      ensures Valid() && (View(), call) == PushResult(old(View()), item, waits, signal)
    {
      var k := 0;
      while count == CAPACITY && !closed
        invariant 0 <= k <= |waits| && Valid() && WaitsLegal(View(), waits[k..])
        invariant PushPoint(View(), waits[k..]) == PushPoint(old(View()), waits)
        decreases |waits| - k
      {
        if k == |waits| {
          return Asleep;
        }
        RunOthers(waits[k].others);
        if waits[k].error != OK {
          return Returned(waits[k].error);
        }
        assert waits[k..][1..] == waits[k + 1..];
        k := k + 1;
      }
      if closed {
        return Returned(ECANCELED);
      }
      var code := InsertItem(item, signal);
      return Returned(code);
    }

    method Pop(waits: seq<Wait<T>>, signal: Errno) returns (call: Call, item: Option<T>)
      requires Valid() && WaitsLegal(View(), waits)
      modifies this, items
      ensures Valid() && (View(), call, item) == PopResult(old(View()), waits, signal)
    {
      item := None;
      var k := 0;
      while count == 0 && !closed
        invariant 0 <= k <= |waits| && Valid() && WaitsLegal(View(), waits[k..])
        invariant PopPoint(View(), waits[k..]) == PopPoint(old(View()), waits)
        decreases |waits| - k
      {
        if k == |waits| {
          return Asleep, None;
        }
        RunOthers(waits[k].others);
        if waits[k].error != OK {
          return Returned(waits[k].error), None;
        }
        assert waits[k..][1..] == waits[k + 1..];
        k := k + 1;
      }
      if count == 0 {
        return Returned(ECANCELED), None;
      }
      var code;
      code, item := RemoveItem(signal);
      return Returned(code), item;
    }

    /** A queue that is open or holds items must not be destroyed. */
    method Destroy(notFull: Errno, notEmpty: Errno, mutex: Errno) returns (code: Errno)
      requires Valid()
      ensures code == if View() != Fifo([], true) then EBUSY
                      else if notFull != OK then notFull else if notEmpty != OK then notEmpty else mutex
    {
      if !(closed && count == 0) {
        return EBUSY;
      }
      if notFull != OK {
        return notFull;
      }
      if notEmpty != OK {
        return notEmpty;
      }
      return mutex;
    }

    /** `clean_up_queue`: close, drain, destroy, and report the first error.  Draining
        ends early at the first signal that fails, which leaves its item in the queue. */
    method CleanUp(empty: Errno, full: Errno, signals: seq<Errno>, destroyed: Errno)
      returns (code: Errno, freed: seq<T>)
      requires Valid()
      modifies this, items
      ensures Valid() && |freed| <= |old(View()).items|
      ensures freed == old(View()).items[..|freed|] && View() == Fifo(old(View()).items[|freed|..], true)
      ensures forall i :: 0 <= i < |freed| ==> SignalAt(signals, i) == OK
      ensures |freed| < |old(View()).items| ==> SignalAt(signals, |freed|) != OK
      ensures var all, signal := old(View()).items, SignalAt(signals, |freed|);
              code == if empty != OK then empty else if full != OK then full
                      else if |freed| == |all| then destroyed else if signal == ECANCELED then EBUSY else signal
    {
      var firstError := CloseQueue(empty, full);
      var drained;
      drained, freed := Drain(signals);
      firstError := FirstOf(firstError, drained);
      code := Destroy(destroyed, OK, OK);
      code := FirstOf(firstError, code);
    }

    /** Pops until the closed queue is empty or a pop fails. */
    method Drain(signals: seq<Errno>) returns (code: Errno, freed: seq<T>)
      requires Valid() && closed
      modifies this, items
      ensures Valid() && |freed| <= |old(View()).items|
      ensures freed == old(View()).items[..|freed|] && View() == Fifo(old(View()).items[|freed|..], true)
      ensures forall i :: 0 <= i < |freed| ==> SignalAt(signals, i) == OK
      ensures |freed| < |old(View()).items| ==> SignalAt(signals, |freed|) != OK
      ensures code == if |freed| == |old(View()).items| || SignalAt(signals, |freed|) == ECANCELED then OK
                      else SignalAt(signals, |freed|)
    {
      ghost var all := View().items;
      code, freed := OK, [];
      var noWaits: seq<Wait<T>> := [];
      while true
        invariant Valid() && closed && code == OK && |freed| <= |all|
        invariant freed == all[..|freed|] && View().items == all[|freed|..]
        invariant forall i :: 0 <= i < |freed| ==> SignalAt(signals, i) == OK
        decreases count
      {
        var call, item := Pop(noWaits, SignalAt(signals, |freed|));
        if call == Returned(ECANCELED) {
          return;
        }
        if call != Returned(OK) {
          return call.code, freed;
        }
        OneMoreFreed(all, freed, item.value);
        freed := freed + [item.value];
      }
    }
  }

  lemma OneMoreFreed<T>(all: seq<T>, freed: seq<T>, item: T)
    requires |freed| < |all| && freed == all[..|freed|] && item == all[|freed|]
    ensures freed + [item] == all[..|freed| + 1] && all[|freed|..][1..] == all[|freed| + 1..]
  {
  }

  /** The result of the `i`-th signal; signals beyond the list succeed. */
  function SignalAt(signals: seq<Errno>, i: nat): Errno {
    if i < |signals| then signals[i] else OK
  }

  datatype Resource = MUTEX | NOT_EMPTY | NOT_FULL

  /** `pointer_queue_init`: the mutex and both condition variables, or nothing. */
  method Create<T(==)>(mutex: Errno, notEmpty: Errno, notFull: Errno)
    returns (code: Errno, queue: PointerQueue?<T>, held: set<Resource>)
    ensures code == if mutex != OK then mutex else if notEmpty != OK then notEmpty else notFull
    ensures code == OK ==>
            queue != null && fresh(queue) && fresh(queue.items) && queue.Valid() && queue.View() == Fifo([], false)
    ensures held == if code == OK then {MUTEX, NOT_EMPTY, NOT_FULL} else {}
  {
    queue, held := null, {};
    if mutex != OK {
      return mutex, queue, held;
    }
    held := held + {MUTEX};
    if notEmpty != OK {
      held := held - {MUTEX};
      return notEmpty, queue, held;
    }
    held := held + {NOT_EMPTY};
    if notFull != OK {
      held := held - {NOT_EMPTY};
      held := held - {MUTEX};
      return notFull, queue, held;
    }
    held := held + {NOT_FULL};
    queue := new PointerQueue();
    return OK, queue, held;
  }
}
