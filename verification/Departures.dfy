/** How each record that a run exports left the table: by a scan, or displaced
    by a packet of a new flow. */
module Departures {
  import opened Machine
  import opened Timestamps
  import opened FlowKey
  import opened FlowRecord
  import opened FlowTable
  import opened OpenAddressing
  import opened Expiration
  import opened Engine
  import opened CaptureLedger

  /** The packet before which a scan, or for which an eviction, took a record out. */
  datatype Exit = ExpiredBefore(packet: nat) | DisplacedBy(packet: nat)

  /** The state after the scan that precedes packet `n`. */
  ghost function ScannedState(cfg: Config, es: seq<Event>, s: State, n: nat): State
    requires n < |es|
  {
    Expire(cfg, es, s, Micros(es[n].time))
  }

  /** Packet `n` finds a full table without its flow, under the eviction policy. */
  predicate Displaces(cfg: Config, es: seq<Event>, s: State, n: nat) {
    Arrives(es, n) && KeyAt(es, n) !in s.live && |s.live| >= cfg.capacity && cfg.evictWhenFull
  }

  /** How many flows the scan before packet `n` takes out. */
  ghost function Expirations(cfg: Config, es: seq<Event>, s: State, n: nat): nat
    requires n < |es|
  {
    |s.live.Keys - ScannedState(cfg, es, s, n).live.Keys|
  }

  function Repeated(count: nat, exit: Exit): (exits: seq<Exit>)
    ensures |exits| == count
  {
    seq(count, _ => exit)
  }

  function DisplacedIf(displaces: bool, n: nat): seq<Exit> {
    if displaces then [DisplacedBy(n)] else []
  }

  /** The departures at packet `n`. */
  ghost function ExitsAt(cfg: Config, es: seq<Event>, s: State, n: nat): seq<Exit>
    requires n < |es|
  {
    Repeated(Expirations(cfg, es, s, n), ExpiredBefore(n))
    + DisplacedIf(Displaces(cfg, es, ScannedState(cfg, es, s, n), n), n)
  }

  /** All departures up to packet `n`, in order. */
  ghost function ExitsOf(cfg: Config, es: seq<Event>, states: seq<State>, n: nat): seq<Exit>
    requires n <= |es| && n <= |states|
  {
    if n == 0 then [] else ExitsOf(cfg, es, states, n - 1) + ExitsAt(cfg, es, states[n - 1], n - 1)
  }

  function CountExpired(exits: seq<Exit>): nat {
    if exits == [] then 0
    else CountExpired(exits[..|exits| - 1]) + if exits[|exits| - 1].ExpiredBefore? then 1 else 0
  }

  /** Lifetime `l` left the table as `exit` says, and no other way. */
  ghost predicate ExitOk(cfg: Config, es: seq<Event>, victims: seq<FlowKey>, states: seq<State>, l: Lifetime,
                         exit: Exit) {
    && exit.packet < |victims| < |states| && |victims| <= |es|
    && var n := exit.packet;
    var s, scanned, after := states[n], ScannedState(cfg, es, states[n], n), states[n + 1];
    match exit
    case ExpiredBefore(_) => cfg.expires && IsLive(s, l) && !IsLive(scanned, l)
    case DisplacedBy(_) =>
      && Displaces(cfg, es, scanned, n) && victims[n] in scanned.live && scanned.live[victims[n]] == l
      && !IsLive(after, l)
  }

  ghost predicate AllExitsOk(cfg: Config, es: seq<Event>, victims: seq<FlowKey>, states: seq<State>,
                             closed: seq<Lifetime>, exits: seq<Exit>) {
    && |exits| == |closed|
    && forall x :: 0 <= x < |closed| ==> ExitOk(cfg, es, victims, states, closed[x], exits[x])
  }

  // ----- counting ---------------------------------------------------------------------------------

  lemma {:induction false} CountExpiredAppends(exits: seq<Exit>, more: seq<Exit>)
    ensures CountExpired(exits + more) == CountExpired(exits) + CountExpired(more)
  {
    if more == [] {
      assert exits + more == exits;
    } else {
      var k := |more| - 1;
      assert (exits + more)[..|exits| + k] == exits + more[..k];
      CountExpiredAppends(exits, more[..k]);
    }
  }

  lemma {:induction false} CountRepeated(count: nat, n: nat)
    ensures CountExpired(Repeated(count, ExpiredBefore(n))) == count
  {
    if count > 0 {
      assert Repeated(count, ExpiredBefore(n))[..count - 1] == Repeated(count - 1, ExpiredBefore(n));
      CountRepeated(count - 1, n);
    }
  }

  lemma CountDisplaced(displaces: bool, n: nat)
    ensures CountExpired(DisplacedIf(displaces, n)) == 0
  {
  }

  lemma CountExitsAt(cfg: Config, es: seq<Event>, s: State, n: nat)
    requires n < |es|
    ensures CountExpired(ExitsAt(cfg, es, s, n)) == Expirations(cfg, es, s, n)
    ensures |ExitsAt(cfg, es, s, n)|
            == Expirations(cfg, es, s, n) + if Displaces(cfg, es, ScannedState(cfg, es, s, n), n) then 1 else 0
  {
    CountExpiredAppends(Repeated(Expirations(cfg, es, s, n), ExpiredBefore(n)),
                        DisplacedIf(Displaces(cfg, es, ScannedState(cfg, es, s, n), n), n));
    CountRepeated(Expirations(cfg, es, s, n), n);
    CountDisplaced(Displaces(cfg, es, ScannedState(cfg, es, s, n), n), n);
  }

  lemma {:induction false} ExitsOfPrefix(cfg: Config, es: seq<Event>, states: seq<State>, more: seq<State>, n: nat)
    requires n <= |es| && n <= |states|
    ensures ExitsOf(cfg, es, states + more, n) == ExitsOf(cfg, es, states, n)
  {
    if n > 0 {
      ExitsOfPrefix(cfg, es, states, more, n - 1);
    }
  }

  // ----- one step ---------------------------------------------------------------------------------

  lemma DueScanIsLeaving(cfg: Config, es: seq<Event>, s: State, n: nat, now: int, m: map<FlowKey, FlowRecord>,
                         cutoff: Timestamp, out: seq<FlowRecord>)
    requires Sound(cfg, es, s, n) && Mirrors(es, s, m) && cfg.expires
    requires Tick(s.clock, now, cfg.idle, cfg.interval).1 == Some(Micros(cutoff))
             && IsRemoval(m, Survivors(m, cutoff), out)
    ensures Left(s, Expire(cfg, es, s, now), out)
  {
    ExpireMirrors(cfg, es, s, n, now, m, cutoff);
    SurvivorsStay(es, s, Expire(cfg, es, s, now), m, Survivors(m, cutoff), out);
  }

  lemma NobodyLeaves(s: State, s': State, out: seq<FlowRecord>)
    requires |out| == 0 && s'.lifetimes == s.lifetimes && s'.live == s.live
    ensures Left(s, s', out)
  {
    assert s.live - KeySet(out) == s.live;
  }

  /** Exactly the flows that a scan lists have left. */
  lemma ScanIsLeaving(cfg: Config, es: seq<Event>, s: State, n: nat, now: int, clock': Clock,
                      m: map<FlowKey, FlowRecord>, total: Tally, t: Trace)
    requires n < |es| && now == Micros(es[n].time) && Sound(cfg, es, s, n) && Mirrors(es, s, m)
    requires ScanOk(cfg, s.clock, now, clock', m, total, t)
    ensures Left(s, ScannedState(cfg, es, s, n), t.expired)
    ensures t.expired != [] ==> cfg.expires
  {
    if cfg.expires && Tick(s.clock, now, cfg.idle, cfg.interval).1.Some? {
      DueScanIsLeaving(cfg, es, s, n, now, m, t.cutoff, t.expired);
    } else {
      NobodyLeaves(s, ScannedState(cfg, es, s, n), t.expired);
    }
  }

  /** The scan takes out as many flows as it lists, and they are those no longer live. */
  lemma ScanDepartures(cfg: Config, es: seq<Event>, s: State, n: nat, out: seq<FlowRecord>)
    requires n < |es| && Sound(cfg, es, s, n) && Left(s, ScannedState(cfg, es, s, n), out)
    ensures |out| == Expirations(cfg, es, s, n) == |ClosedByScan(s, out)|
    ensures forall x :: 0 <= x < |out| ==>
              IsLive(s, ClosedByScan(s, out)[x]) && !IsLive(ScannedState(cfg, es, s, n), ClosedByScan(s, out)[x])
  {
    LeaversAreNotLive(cfg, es, s, ScannedState(cfg, es, s, n), n, out);
    LeaversCount(s, ScannedState(cfg, es, s, n), out);
  }

  lemma LeaversCount(s: State, s': State, out: seq<FlowRecord>)
    requires Left(s, s', out)
    ensures |s.live.Keys - s'.live.Keys| == |out|
  {
    KeysCount(out);
    assert forall x :: 0 <= x < |out| ==> out[x].key in s.live.Keys;
    assert s.live.Keys - s'.live.Keys == KeySet(out);
  }

  /** A packet displaces a record exactly when it has to. */
  lemma AdmitDepartures(cfg: Config, es: seq<Event>, p: Packet, s: State, n: nat, t: Trace,
                        m': map<FlowKey, FlowRecord>, total': Tally)
    requires n < |es| && es[n] == EventOf(p) && Mirrors(es, s, t.scanned) && AdmitOk(cfg, p, t, m', total')
    requires Arrives(es, n) <==> EventOf(p).arrival.Some?
    ensures t.evicted.Some? <==> Displaces(cfg, es, s, n)
    ensures t.evicted.Some? ==> VictimOf(t.evicted) in s.live && ClosedBy(s, t.evicted) == [s.live[VictimOf(t.evicted)]]
  {
    SameSize(es, s, t.scanned);
  }

  /** What left in earlier steps is not affected by another step. */
  lemma ExitsStay(cfg: Config, es: seq<Event>, victims: seq<FlowKey>, states: seq<State>, victim: FlowKey, s': State,
                  closed: seq<Lifetime>, exits: seq<Exit>)
    requires AllExitsOk(cfg, es, victims, states, closed, exits) && |victims| < |es| && |states| == |victims| + 1
    ensures AllExitsOk(cfg, es, victims + [victim], states + [s'], closed, exits)
  {
    forall x | 0 <= x < |closed|
      ensures ExitOk(cfg, es, victims + [victim], states + [s'], closed[x], exits[x])
    {
      assert ExitOk(cfg, es, victims, states, closed[x], exits[x]);
    }
  }

  lemma ExitsChain(cfg: Config, es: seq<Event>, victims: seq<FlowKey>, states: seq<State>,
                   closed: seq<Lifetime>, exits: seq<Exit>, closed': seq<Lifetime>, exits': seq<Exit>)
    requires AllExitsOk(cfg, es, victims, states, closed, exits)
             && AllExitsOk(cfg, es, victims, states, closed', exits')
    ensures AllExitsOk(cfg, es, victims, states, closed + closed', exits + exits')
  {
  }

  // ----- over a run ----------------------------------------------------------------------------------

  /** Every exported lifetime has its departure. */
  ghost predicate DeparturesOk(cfg: Config, es: seq<Event>, log: Log) {
    && |log.victims| <= |es| && |log.states| == |log.victims| + 1
    && AllExitsOk(cfg, es, log.victims, log.states, log.closed, ExitsOf(cfg, es, log.states, |log.victims|))
  }

  lemma OpeningDepartures(cfg: Config, es: seq<Event>)
    ensures DeparturesOk(cfg, es, OPENING)
  {
  }

  lemma ScanExitsOk(cfg: Config, es: seq<Event>, victims: seq<FlowKey>, states: seq<State>, n: nat,
                    byScan: seq<Lifetime>)
    requires n < |victims| < |states| && |victims| <= |es| && (byScan != [] ==> cfg.expires)
    requires forall x :: 0 <= x < |byScan| ==>
               IsLive(states[n], byScan[x]) && !IsLive(ScannedState(cfg, es, states[n], n), byScan[x])
    ensures AllExitsOk(cfg, es, victims, states, byScan, Repeated(|byScan|, ExpiredBefore(n)))
  {
  }

  lemma PacketExitOk(cfg: Config, es: seq<Event>, victims: seq<FlowKey>, states: seq<State>, n: nat,
                     byPacket: seq<Lifetime>)
    requires n < |victims| < |states| && |victims| <= |es|
    requires var scanned := ScannedState(cfg, es, states[n], n);
             byPacket == if Displaces(cfg, es, scanned, n) && victims[n] in scanned.live
                         then [scanned.live[victims[n]]] else []
    requires Displaces(cfg, es, ScannedState(cfg, es, states[n], n), n) ==> byPacket != []
    requires byPacket != [] ==> !IsLive(states[n + 1], byPacket[0])
    ensures AllExitsOk(cfg, es, victims, states, byPacket,
                       DisplacedIf(Displaces(cfg, es, ScannedState(cfg, es, states[n], n), n), n))
  {
  }

  /** How much leaves in one step. */
  lemma StepDepartures(cfg: Config, es: seq<Event>, p: Packet, s: State, n: nat, clock': Clock,
                       m: map<FlowKey, FlowRecord>, total: Tally, t: Trace, m': map<FlowKey, FlowRecord>, total': Tally)
    requires n < |es| && es[n] == EventOf(p) && (Arrives(es, n) <==> EventOf(p).arrival.Some?)
    requires Micros(p.time) == Micros(es[n].time) && Sound(cfg, es, s, n) && Mirrors(es, s, m)
    requires ScanOk(cfg, s.clock, Micros(p.time), clock', m, total, t) && AdmitOk(cfg, p, t, m', total')
    requires Mirrors(es, ScannedState(cfg, es, s, n), t.scanned)
    ensures |t.expired| == Expirations(cfg, es, s, n)
    ensures t.evicted.Some? <==> Displaces(cfg, es, ScannedState(cfg, es, s, n), n)
  {
    ScanIsLeaving(cfg, es, s, n, Micros(p.time), clock', m, total, t);
    ScanDepartures(cfg, es, s, n, t.expired);
    AdmitDepartures(cfg, es, p, ScannedState(cfg, es, s, n), n, t, m', total');
  }

  /** And how: the departures of one step, against the run that it extends. */
  lemma StepExitsOk(cfg: Config, es: seq<Event>, p: Packet, victims: seq<FlowKey>, states: seq<State>, n: nat,
                    clock': Clock, m: map<FlowKey, FlowRecord>, total: Tally, t: Trace, m': map<FlowKey, FlowRecord>,
                    total': Tally)
    requires n < |victims| < |states| && |victims| <= |es| && victims[n] == VictimOf(t.evicted)
    requires es[n] == EventOf(p) && (Arrives(es, n) <==> EventOf(p).arrival.Some?)
    requires Micros(p.time) == Micros(es[n].time) && Sound(cfg, es, states[n], n) && Mirrors(es, states[n], m)
    requires ScanOk(cfg, states[n].clock, Micros(p.time), clock', m, total, t) && AdmitOk(cfg, p, t, m', total')
    requires Mirrors(es, ScannedState(cfg, es, states[n], n), t.scanned)
    requires NoneLive(states[n + 1], ClosedBy(ScannedState(cfg, es, states[n], n), t.evicted))
    ensures AllExitsOk(cfg, es, victims, states,
                       ClosedByScan(states[n], t.expired) + ClosedBy(ScannedState(cfg, es, states[n], n), t.evicted),
                       ExitsAt(cfg, es, states[n], n))
  {
    var s, scanned := states[n], ScannedState(cfg, es, states[n], n);
    var byScan, byPacket := ClosedByScan(s, t.expired), ClosedBy(scanned, t.evicted);
    ScanIsLeaving(cfg, es, s, n, Micros(p.time), clock', m, total, t);
    ScanDepartures(cfg, es, s, n, t.expired);
    AdmitDepartures(cfg, es, p, scanned, n, t, m', total');
    ScanExitsOk(cfg, es, victims, states, n, byScan);
    PacketExitOk(cfg, es, victims, states, n, byPacket);
    ExitsChain(cfg, es, victims, states, byScan, Repeated(|byScan|, ExpiredBefore(n)),
               byPacket, DisplacedIf(Displaces(cfg, es, scanned, n), n));
  }

  /** Departures are accounted for step by step. */
  lemma {:induction false} DeparturesContinue(cfg: Config, es: seq<Event>, log: Log, next: Log, n: nat, victim: FlowKey,
                                              s': State, closed: seq<Lifetime>)
    requires DeparturesOk(cfg, es, log) && n == |log.victims| < |es|
    requires next.victims == log.victims + [victim] && next.states == log.states + [s']
             && next.closed == log.closed + closed
    requires AllExitsOk(cfg, es, next.victims, next.states, closed, ExitsAt(cfg, es, log.states[n], n))
    ensures DeparturesOk(cfg, es, next)
    ensures ExitsOf(cfg, es, next.states, n + 1) == ExitsOf(cfg, es, log.states, n) + ExitsAt(cfg, es, log.states[n], n)
  {
    var exits := ExitsOf(cfg, es, log.states, n);
    ExitsOneMore(cfg, es, log.states, s', n);
    ExitsStay(cfg, es, log.victims, log.states, victim, s', log.closed, exits);
    ExitsChain(cfg, es, next.victims, next.states, log.closed, exits, closed, ExitsAt(cfg, es, log.states[n], n));
  }

  lemma ExitsOneMore(cfg: Config, es: seq<Event>, states: seq<State>, s': State, n: nat)
    requires n < |es| && |states| == n + 1
    ensures ExitsOf(cfg, es, states + [s'], n + 1) == ExitsOf(cfg, es, states, n) + ExitsAt(cfg, es, states[n], n)
  {
    ExitsOfPrefix(cfg, es, states, [s'], n);
    assert (states + [s'])[n] == states[n];
  }

  /** Under the reject policy nothing is displaced, and without expiration nothing expires. */
  lemma {:induction false} OnlyPolicyExits(cfg: Config, es: seq<Event>, states: seq<State>, n: nat)
    requires n <= |es| && n <= |states|
    ensures !cfg.evictWhenFull ==>
              CountExpired(ExitsOf(cfg, es, states, n)) == |ExitsOf(cfg, es, states, n)|
    ensures !cfg.expires ==> CountExpired(ExitsOf(cfg, es, states, n)) == 0
  {
    if n > 0 {
      OnlyPolicyExits(cfg, es, states, n - 1);
      CountExitsAt(cfg, es, states[n - 1], n - 1);
      CountExpiredAppends(ExitsOf(cfg, es, states, n - 1), ExitsAt(cfg, es, states[n - 1], n - 1));
      assert !cfg.expires ==> states[n - 1].live.Keys - ScannedState(cfg, es, states[n - 1], n - 1).live.Keys == {};
    }
  }
}
