/** What the counters of a completed run count, packet by packet. */
module Counters {
  import opened Machine
  import opened PacketInfo
  import opened FlowKey
  import opened FlowRecord
  import opened OpenAddressing
  import opened Expiration
  import opened Engine
  import opened RuntimeMetrics
  import opened CaptureLedger
  import opened CaptureRun

  /** The packets whose parse ends with this status; a frame that is not IPv4 is
      still NOT_STARTED after Ethernet. */
  ghost function WithStatus(ps: seq<Packet>, status: ParseStatus): set<nat> {
    set i | 0 <= i < |ps| && InfoOf(ps[i]).status == status
  }

  function CapturedBytes(ps: seq<Packet>): nat {
    if ps == [] then 0 else CapturedBytes(ps[..|ps| - 1]) + |ps[|ps| - 1].data|
  }

  function WireBytes(ps: seq<Packet>): nat {
    if ps == [] then 0 else WireBytes(ps[..|ps| - 1]) + ps[|ps| - 1].wire
  }

  lemma {:induction false} TallyMeaning(ps: seq<Packet>)
    ensures TallyOfPackets(ps) == Tally(|ps|, CapturedBytes(ps), WireBytes(ps))
  {
    if ps != [] {
      TallyMeaning(ps[..|ps| - 1]);
    }
  }

  /** What class `c` says about a packet's final status and whether the table turned it away. */
  predicate Means(c: PacketClass, status: ParseStatus, rejected: bool) {
    match c
    case CLASS_TRUNCATED => status == TRUNCATED
    case CLASS_MALFORMED => status == MALFORMED
    case CLASS_UNSUPPORTED => status == UNSUPPORTED || status == NOT_STARTED
    case CLASS_FLOW_REJECTED => status == COMPLETE && rejected
    case CLASS_COMPLETE => status == COMPLETE && !rejected
  }

  lemma ClassMeaning(p: Packet, rejected: bool, c: PacketClass)
    ensures ClassOfPacket(p, rejected) == c <==> Means(c, InfoOf(p).status, rejected)
  {
  }

  /** Packet `i` is of class `c`. */
  ghost predicate IsOf(ps: seq<Packet>, rejected: set<nat>, c: PacketClass, i: nat) {
    i < |ps| && ClassOfPacket(ps[i], i in rejected) == c
  }

  predicate ClassAt(classes: seq<PacketClass>, c: PacketClass, i: nat) {
    i < |classes| && classes[i] == c
  }

  /** The packets of class `c`. */
  ghost function OfClass(ps: seq<Packet>, rejected: set<nat>, c: PacketClass): set<nat> {
    set i | 0 <= i < |ps| && IsOf(ps, rejected, c, i)
  }

  lemma {:induction false} CountIsSize(classes: seq<PacketClass>, c: PacketClass, all: set<nat>)
    requires forall i: nat :: i in all <==> ClassAt(classes, c, i)
    ensures CountOf(classes, c) == |all|
  {
    if classes == [] {
      assert forall i: nat :: !ClassAt(classes, c, i);
      assert all == {};
    } else {
      var n := |classes| - 1;
      forall i: nat
        ensures ClassAt(classes[..n], c, i) <==> i < n && ClassAt(classes, c, i)
      {
      }
      assert n in all <==> ClassAt(classes, c, n);
      CountIsSize(classes[..n], c, all - {n});
    }
  }

  lemma ClassesCount(ps: seq<Packet>, rejected: set<nat>, classes: seq<PacketClass>, c: PacketClass)
    requires ClassesMatch(ps, rejected, classes) && |classes| == |ps|
    ensures CountOf(classes, c) == |OfClass(ps, rejected, c)|
  {
    forall i: nat
      ensures ClassAt(classes, c, i) <==> IsOf(ps, rejected, c, i)
    {
    }
    CountIsSize(classes, c, OfClass(ps, rejected, c));
  }

  /** So the classes are sets of packets with given statuses. */
  lemma ClassIsStatus(ps: seq<Packet>, rejected: set<nat>, c: PacketClass, all: set<nat>)
    requires forall i: nat :: i in all <==> i < |ps| && Means(c, InfoOf(ps[i]).status, i in rejected)
    ensures OfClass(ps, rejected, c) == all
  {
    forall i: nat
      ensures IsOf(ps, rejected, c, i) <==> i in all
    {
      if i < |ps| {
        ClassMeaning(ps[i], i in rejected, c);
      }
    }
  }

  lemma ClassesAreStatuses(ps: seq<Packet>, rejected: set<nat>)
    requires rejected <= WithStatus(ps, COMPLETE)
    ensures OfClass(ps, rejected, CLASS_TRUNCATED) == WithStatus(ps, TRUNCATED)
    ensures OfClass(ps, rejected, CLASS_MALFORMED) == WithStatus(ps, MALFORMED)
    ensures OfClass(ps, rejected, CLASS_UNSUPPORTED) == WithStatus(ps, UNSUPPORTED) + WithStatus(ps, NOT_STARTED)
    ensures OfClass(ps, rejected, CLASS_FLOW_REJECTED) == rejected
    ensures OfClass(ps, rejected, CLASS_COMPLETE) == WithStatus(ps, COMPLETE) - rejected
  {
    ClassIsStatus(ps, rejected, CLASS_TRUNCATED, WithStatus(ps, TRUNCATED));
    ClassIsStatus(ps, rejected, CLASS_MALFORMED, WithStatus(ps, MALFORMED));
    ClassIsStatus(ps, rejected, CLASS_UNSUPPORTED, WithStatus(ps, UNSUPPORTED) + WithStatus(ps, NOT_STARTED));
    ClassIsStatus(ps, rejected, CLASS_FLOW_REJECTED, rejected);
    ClassIsStatus(ps, rejected, CLASS_COMPLETE, WithStatus(ps, COMPLETE) - rejected);
  }

  lemma RejectedAreComplete(cfg: Config, ps: seq<Packet>, s: State, n: nat)
    requires Sound(cfg, EventsOf(ps), s, n)
    ensures s.rejected <= WithStatus(ps, COMPLETE)
  {
  }

  /** The result counters of a completed run, by the packets' own statuses. */
  lemma CountersMeaning(cfg: Config, ps: seq<Packet>, log: Log, records: seq<FlowRecord>, ls: seq<Lifetime>, t: Totals)
    requires cfg.capacity > 0 && Accounted(cfg, ps, log, records, ls, t)
    ensures t.packets == |ps| && t.captured == CapturedBytes(ps) && t.wire == WireBytes(ps)
    ensures t.truncated == |WithStatus(ps, TRUNCATED)| && t.malformed == |WithStatus(ps, MALFORMED)|
    ensures t.unsupported == |WithStatus(ps, UNSUPPORTED) + WithStatus(ps, NOT_STARTED)|
    ensures t.flowRejected == |log.states[|ps|].rejected|
    ensures t.complete == |WithStatus(ps, COMPLETE) - log.states[|ps|].rejected|
    ensures log.states[|ps|].rejected <= WithStatus(ps, COMPLETE)
  {
    var rejected := log.states[|ps|].rejected;
    RunIsSound(cfg, EventsOf(ps), log.victims, log.states, |ps|);
    RejectedAreComplete(cfg, ps, log.states[|ps|], |ps|);
    TallyMeaning(ps);
    ClassesAreStatuses(ps, rejected);
    CountedBy(ps, rejected, log.classes, t);
  }

  lemma CountedBy(ps: seq<Packet>, rejected: set<nat>, classes: seq<PacketClass>, t: Totals)
    requires ClassesMatch(ps, rejected, classes) && |classes| == |ps| && TotalsOk(ps, classes, t)
    ensures t.truncated == |OfClass(ps, rejected, CLASS_TRUNCATED)|
    ensures t.malformed == |OfClass(ps, rejected, CLASS_MALFORMED)|
    ensures t.unsupported == |OfClass(ps, rejected, CLASS_UNSUPPORTED)|
    ensures t.flowRejected == |OfClass(ps, rejected, CLASS_FLOW_REJECTED)|
    ensures t.complete == |OfClass(ps, rejected, CLASS_COMPLETE)|
  {
    ClassesCount(ps, rejected, classes, CLASS_TRUNCATED);
    ClassesCount(ps, rejected, classes, CLASS_MALFORMED);
    ClassesCount(ps, rejected, classes, CLASS_UNSUPPORTED);
    ClassesCount(ps, rejected, classes, CLASS_FLOW_REJECTED);
    ClassesCount(ps, rejected, classes, CLASS_COMPLETE);
    assert t.Of(CLASS_TRUNCATED) == t.truncated && t.Of(CLASS_MALFORMED) == t.malformed;
    assert t.Of(CLASS_UNSUPPORTED) == t.unsupported && t.Of(CLASS_FLOW_REJECTED) == t.flowRejected;
    assert t.Of(CLASS_COMPLETE) == t.complete;
  }

  /** Under the eviction policy nothing is ever rejected. */
  lemma {:induction false} NeverRejected(cfg: Config, es: seq<Event>, victims: seq<FlowKey>, states: seq<State>, n: nat)
    requires cfg.evictWhenFull && IsRun(cfg, es, victims, states) && n < |states|
    ensures states[n].rejected == {}
  {
    if n > 0 {
      NeverRejected(cfg, es, victims, states, n - 1);
      RunSteps(cfg, es, victims, states, n - 1);
    }
  }

  // ----- where a run stops -----------------------------------------------------------------------------

  /** Nothing stops a run with an idle timeout of `idle` seconds over these packets:
      the three totals fit 64 bits, all times are proper, and every scan's cutoff can
      be represented. */
  predicate RunsThrough(ps: seq<Packet>, idle: int) {
    && TotalsInRange(ps)
    && (forall i :: 0 <= i < |ps| ==> 0 <= ps[i].time.microseconds <= 999_999)
    && CutoffsInRange(ps, idle)
  }

  predicate TotalsInRange(ps: seq<Packet>) {
    && |ps| <= 18_446_744_073_709_551_615
    && CapturedBytes(ps) <= 18_446_744_073_709_551_615
    && WireBytes(ps) <= 18_446_744_073_709_551_615
  }

  predicate CutoffsInRange(ps: seq<Packet>, idle: int) {
    idle > 0 ==>
      forall c :: c in Cutoffs(MicrosOf(ps), idle * 1_000_000, 5_000_000) ==> c >= -9_223_372_036_854_775_808_000_000
  }

  /** Packet `n` is the first that cannot be processed, and this is the error. */
  predicate BreaksAt(ps: seq<Packet>, idle: int, n: nat, code: Errno) {
    && n < |ps| && RunsThrough(ps[..n], idle)
    && if !TotalsInRange(ps[..n + 1]) then code == EOVERFLOW
       else if !(0 <= ps[n].time.microseconds <= 999_999) then code == EINVAL
       else code == ERANGE && !CutoffsInRange(ps[..n + 1], idle)
  }

  /** The configuration for an idle timeout of `idle` seconds. */
  predicate IdlesFor(cfg: Config, idle: int) {
    && (cfg.expires <==> idle > 0)
    && (idle > 0 ==> cfg.idle == idle * 1_000_000 && cfg.interval == 5_000_000)
  }

  lemma CompletesMeaning(cfg: Config, idle: int, ps: seq<Packet>)
    requires IdlesFor(cfg, idle)
    ensures Completes(cfg, ps) <==> RunsThrough(ps, idle)
    ensures TalliesFit(ps) <==> TotalsInRange(ps)
    ensures CutoffsFit(cfg, ps) <==> CutoffsInRange(ps, idle)
  {
    TallyMeaning(ps);
  }

  lemma StopsMeaning(cfg: Config, idle: int, ps: seq<Packet>, n: nat, code: Errno)
    requires IdlesFor(cfg, idle) && StopsAt(cfg, ps, n, code)
    ensures BreaksAt(ps, idle, n, code)
  {
    CompletesMeaning(cfg, idle, ps[..n]);
    CompletesMeaning(cfg, idle, ps[..n + 1]);
  }
}
