/** When the packet loop scans for idle flows: an event-time high-water mark. */
module Expiration {
  import opened Machine
  import opened Timestamps

  /** The schedule's meaning in microseconds, before and after the first packet. */
  datatype Clock = Unset | Running(latest: int, lastScan: int)

  /** The clock after a packet at `now`, and the cutoff if a scan is due. */
  function Tick(c: Clock, now: int, idle: nat, interval: nat): (Clock, Option<int>) {
    match c
    case Unset => (Running(now, now), None)
    case Running(latest, lastScan) =>
      var high := if now > latest then now else latest;
      if high - lastScan >= interval then (Running(high, high), Some(high - idle))
      else (Running(high, lastScan), None)
  }

  class Schedule {
    var latest: Timestamp
    var lastScan: Timestamp
    const idleTimeout: I64
    const scanInterval: I64
    var hasObservation: bool

    predicate Valid()
      reads this
    {
      && idleTimeout > 0 && scanInterval > 0
      && (hasObservation ==>
            && ValidTime(latest) && ValidTime(lastScan)
            && Compare(lastScan, latest) <= 0)
    }

    ghost function View(): Clock
      reads this
    {
      if hasObservation then Running(Micros(latest), Micros(lastScan)) else Unset
    }

    ghost function Idle(): nat
      requires idleTimeout > 0
    {
      idleTimeout * MICROS_PER_SECOND
    }

    ghost function Interval(): nat
      requires scanInterval > 0
    {
      scanInterval * MICROS_PER_SECOND
    }

    constructor (idle: I64, interval: I64)
      requires idle > 0 && interval > 0
      ensures Valid() && View() == Unset && idleTimeout == idle && scanInterval == interval
    {
      latest, lastScan := Timestamp(0, 0), Timestamp(0, 0);
      idleTimeout, scanInterval := idle, interval;
      hasObservation := false;
    }

    /** `current` is at least `interval` seconds after `earlier`; a sum beyond
        int64 cannot have been reached. */
    static predicate IntervalElapsed(current: Timestamp, earlier: Timestamp, interval: I64)
      requires ValidTime(current) && ValidTime(earlier) && interval > 0
      ensures IntervalElapsed(current, earlier, interval) <==>
              Micros(current) >= Micros(earlier) + interval * MICROS_PER_SECOND
    {
      if earlier.seconds > I64_MAX - interval then false
      else Compare(current, Timestamp(earlier.seconds + interval, earlier.microseconds)) >= 0
    }

    /** Observes one packet time, in any order.  ERANGE means that a scan is due
        but its cutoff lies below every representable time. */
    method Observe(t: Timestamp) returns (code: Errno, due: bool, cutoff: Timestamp)
      requires Valid()
      modifies this
      ensures Valid()
      ensures !ValidTime(t) ==> code == EINVAL
      ensures ValidTime(t) ==>
                var (next, scan) := Tick(old(View()), Micros(t), Idle(), Interval());
                && code == (if scan.Some? && scan.value < Micros(Timestamp(I64_MIN, 0)) then ERANGE else OK)
                && (code == OK ==> View() == next && due == scan.Some? && ValidTime(cutoff)
                                   && (due ==> Micros(cutoff) == scan.value))
      ensures code != OK ==> View() == old(View())
    {
      due, cutoff := false, Timestamp(0, 0);
      if !ValidTime(t) {
        return EINVAL, due, cutoff;
      }
      if !hasObservation {
        latest, lastScan, hasObservation := t, t, true;
      } else {
        var newLatest := latest;
        if Compare(t, newLatest) > 0 {
          newLatest := t;
        }
        if IntervalElapsed(newLatest, lastScan, scanInterval) {
          if newLatest.seconds < I64_MIN + idleTimeout {
            return ERANGE, due, cutoff;
          }
          cutoff := Timestamp(newLatest.seconds - idleTimeout, newLatest.microseconds);
          lastScan := newLatest;
          due := true;
        }
        latest := newLatest;
      }
      return OK, due, cutoff;
    }
  }

  // ----- any sequence of packet times ---------------------------------------------------------

  function ClockAfter(ts: seq<int>, idle: nat, interval: nat): Clock {
    if ts == [] then Unset
    else Tick(ClockAfter(ts[..|ts| - 1], idle, interval), ts[|ts| - 1], idle, interval).0
  }

  /** The cutoffs of all scans so far, in order. */
  function Cutoffs(ts: seq<int>, idle: nat, interval: nat): seq<int> {
    if ts == [] then []
    else
      var n := |ts| - 1;
      var scan := Tick(ClockAfter(ts[..n], idle, interval), ts[n], idle, interval).1;
      Cutoffs(ts[..n], idle, interval) + if scan.Some? then [scan.value] else []
  }

  ghost predicate IsMaximum(ts: seq<int>, m: int) {
    m in ts && forall t :: t in ts ==> t <= m
  }

  /** However the packet times jump, the high-water mark is their maximum, it is
      always less than one interval past the last scan, and the cutoffs climb by
      at least one interval from scan to scan. */
  lemma {:induction false} ScheduleOverAnyTimes(ts: seq<int>, idle: nat, interval: nat)
    requires ts != [] && interval > 0
    ensures var c, cs := ClockAfter(ts, idle, interval), Cutoffs(ts, idle, interval);
            && c.Running? && IsMaximum(ts, c.latest) && c.lastScan in ts
            && c.lastScan <= c.latest < c.lastScan + interval
            && (forall x, y :: 0 <= x < y < |cs| ==> cs[x] + interval <= cs[y])
            && (cs != [] ==> cs[|cs| - 1] == c.lastScan - idle)
  {
    var n := |ts| - 1;
    assert ts == ts[..n] + [ts[n]];
    if n > 0 {
      ScheduleOverAnyTimes(ts[..n], idle, interval);
    }
  }
}
