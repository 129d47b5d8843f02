/** One bidirectional flow as the running summary of its packets. */
module FlowRecord {
  import opened Machine
  import opened Timestamps
  import opened PacketInfo
  import opened FlowKey
  import opened TcpFlowState

  datatype DirectionStats = DirectionStats(packets: nat, captured: nat, wire: nat) {
    /** Each C counter is a uint64_t. */
    predicate InRange() {
      packets <= U64_MAX && captured <= U64_MAX && wire <= U64_MAX
    }

    function Plus(capturedLength: nat, wireLength: nat): DirectionStats {
      DirectionStats(packets + 1, captured + capturedLength, wire + wireLength)
    }
  }

  const NO_STATS := DirectionStats(0, 0, 0)

  datatype FlowRecord = FlowRecord(
    key: FlowKey, tcpState: TcpState, aToB: DirectionStats, bToA: DirectionStats,
    firstSeen: Timestamp, lastSeen: Timestamp, initialized: bool)

  const NO_KEY := FlowKey(Endpoint(0, 0), Endpoint(0, 0), 0)

  /** What a cleared slot holds. */
  const NO_RECORD := FlowRecord(
    NO_KEY, NO_STATE, NO_STATS, NO_STATS, Timestamp(0, 0), Timestamp(0, 0), false)

  /** What every record stored in a table satisfies. */
  predicate RecordOk(r: FlowRecord) {
    && r.initialized
    && ValidTime(r.firstSeen) && ValidTime(r.lastSeen)
    && Micros(r.firstSeen) <= Micros(r.lastSeen)
    && r.key.protocol in {PROTOCOL_TCP, PROTOCOL_UDP, PROTOCOL_ICMP}
    && (r.tcpState.initialized <==> r.key.protocol == PROTOCOL_TCP)
    && r.aToB.InRange() && r.bToA.InRange()
    && r.aToB.packets + r.bToA.packets > 0
  }

  // ----- what a packet means for its flow -------------------------------------------------

  datatype ArrivalData = ArrivalData(
    key: FlowKey, direction: Direction, flags: Option<U16>, captured: U32, wire: U32, time: Time)

  predicate ProperArrival(a: ArrivalData) {
    && a.direction != UNKNOWN
    && a.key.protocol in {PROTOCOL_TCP, PROTOCOL_UDP, PROTOCOL_ICMP}
    && (a.flags.Some? <==> a.key.protocol == PROTOCOL_TCP)
  }

  /** All that a flow record ever learns from one completely parsed packet. */
  type Arrival = a: ArrivalData | ProperArrival(a)
    witness ArrivalData(NO_KEY.(protocol := PROTOCOL_UDP), A_TO_B, None, 0, 0, Timestamp(0, 0))

  /** A packet that belongs to some flow. */
  predicate Keyable(p: PacketInfo) {
    FromPacket(p).Keyed? && ValidTime(p.time)
  }

  function ArrivalOf(p: PacketInfo): Arrival
    requires Keyable(p)
  {
    var keyed := FromPacket(p);
    ArrivalData(keyed.key, keyed.direction,
                if p.tcp.Some? then Some(p.tcp.value.flags) else None,
                p.capturedLength, p.wireLength, p.time)
  }

  function SegmentOf(a: Arrival): Segment {
    Segment(a.direction, if a.flags.Some? then EventFromFlags(a.flags.value) else OTHER)
  }

  // ----- what one call does -----------------------------------------------------------------

  /** The record of a flow before any packet is counted. */
  function Empty(a: Arrival): FlowRecord {
    FlowRecord(a.key, if a.flags.Some? then INITIAL_STATE else NO_STATE, NO_STATS, NO_STATS, a.time, a.time, true)
  }

  /** The record with one more packet of its own flow. */
  function Absorb(r: FlowRecord, a: Arrival): FlowRecord {
    r.(tcpState := if a.flags.Some? then Advance(r.tcpState, SegmentOf(a)) else r.tcpState,
       aToB := if a.direction == A_TO_B then r.aToB.Plus(a.captured, a.wire) else r.aToB,
       bToA := if a.direction == B_TO_A then r.bToA.Plus(a.captured, a.wire) else r.bToA,
       firstSeen := if Micros(a.time) < Micros(r.firstSeen) then a.time else r.firstSeen,
       lastSeen := if Micros(r.lastSeen) < Micros(a.time) then a.time else r.lastSeen)
  }

  /** One packet more fits if none of the three counters passes 2^64 - 1. */
  lemma CountersFit(stats: DirectionStats, captured: nat, wire: nat)
    ensures stats.Plus(captured, wire).InRange()
       <==> && stats.packets + 1 <= 18_446_744_073_709_551_615
            && stats.captured + captured <= 18_446_744_073_709_551_615
            && stats.wire + wire <= 18_446_744_073_709_551_615
    ensures stats.Plus(captured, wire).packets == stats.packets + 1
    ensures stats.Plus(captured, wire).captured == stats.captured + captured
    ensures stats.Plus(captured, wire).wire == stats.wire + wire
  {
  }

  method AddPacket(stats: DirectionStats, p: PacketInfo) returns (code: Errno, next: DirectionStats)
    requires stats.InRange()
    ensures code == if stats.Plus(p.capturedLength, p.wireLength).InRange() then OK else EOVERFLOW
    ensures next == if code == OK then stats.Plus(p.capturedLength, p.wireLength) else stats
  {
    next := stats;
    if stats.packets == U64_MAX || p.capturedLength > U64_MAX - stats.captured
       || p.wireLength > U64_MAX - stats.wire {
      return EOVERFLOW, next;
    }
    next := next.(packets := next.packets + 1);
    next := next.(captured := next.captured + p.capturedLength);
    next := next.(wire := next.wire + p.wireLength);
    return OK, next;
  }

  /** The first packet of a flow never fails once it has a key. */
  method InitRecord(p: PacketInfo) returns (code: Errno, r: FlowRecord)
    requires ValidTime(p.time)
    ensures code == if FromPacket(p).Keyed? then OK else FromPacket(p).error
    ensures code == OK ==> r == Summary([ArrivalOf(p)]) && RecordOk(r)
  {
    r := NO_RECORD;
    var keyed := FromPacket(p);
    if keyed.NoKey? {
      return keyed.error, r;
    }
    var created := FlowRecord(keyed.key, NO_STATE, NO_STATS, NO_STATS, p.time, p.time, true);
    if p.tcp.Some? {
      created := created.(tcpState := INITIAL_STATE);
      var tcpCode, state := Observe(created.tcpState, keyed.direction, p.tcp.value.flags);
      if tcpCode != OK {
        return tcpCode, r;
      }
      created := created.(tcpState := state);
    }
    var statsCode, stats := AddPacket(NO_STATS, p);
    if statsCode != OK {
      return statsCode, r;
    }
    if keyed.direction == A_TO_B {
      created := created.(aToB := stats);
    } else {
      created := created.(bToA := stats);
    }
    SummaryOfOne(ArrivalOf(p));
    return OK, created;
  }

  method UpdateRecord(r: FlowRecord, p: PacketInfo) returns (code: Errno, next: FlowRecord)
    requires ValidTime(p.time)
    requires r.initialized ==> ValidTime(r.firstSeen) && ValidTime(r.lastSeen) && r.aToB.InRange() && r.bToA.InRange()
    ensures code != OK ==> next == r
    ensures code == OK ==> Keyable(p) && FromPacket(p).key == r.key && r.initialized && next == Absorb(r, ArrivalOf(p))
    ensures r.initialized && FromPacket(p).NoKey? ==> code == FromPacket(p).error
    ensures r.initialized && FromPacket(p).Keyed? && FromPacket(p).key != r.key ==> code == ENOENT
    ensures RecordOk(r) && FromPacket(p).Keyed? && FromPacket(p).key == r.key ==>
            var grown := Absorb(r, ArrivalOf(p));
            code == (if grown.aToB.InRange() && grown.bToA.InRange() then OK else EOVERFLOW)
    ensures RecordOk(r) && code == OK ==> RecordOk(next)
  {
    next := r;
    if !r.initialized {
      return EINVAL, r;
    }
    var keyed := FromPacket(p);
    if keyed.NoKey? {
      return keyed.error, r;
    }
    if keyed.key != r.key {
      return ENOENT, r;
    }
    var updated := r;
    if p.tcp.Some? {
      if !updated.tcpState.initialized {
        return EINVAL, r;
      }
      var tcpCode, state := Observe(updated.tcpState, keyed.direction, p.tcp.value.flags);
      if tcpCode != OK {
        return tcpCode, r;
      }
      updated := updated.(tcpState := state);
    } else if updated.tcpState.initialized {
      return EINVAL, r;
    }
    var statsCode, stats := AddPacket(if keyed.direction == A_TO_B then updated.aToB else updated.bToA, p);
    if statsCode != OK {
      return statsCode, r;
    }
    if keyed.direction == A_TO_B {
      updated := updated.(aToB := stats);
    } else {
      updated := updated.(bToA := stats);
    }
    if Compare(p.time, updated.firstSeen) < 0 {
      updated := updated.(firstSeen := p.time);
    }
    if Compare(p.time, updated.lastSeen) > 0 {
      updated := updated.(lastSeen := p.time);
    }
    return OK, updated;
  }

  // ----- what a list of packets amounts to ----------------------------------------------------

  /** Non-empty, and every packet has the same key. */
  ghost predicate SameFlow(ps: seq<Arrival>) {
    ps != [] && forall i :: 0 <= i < |ps| ==> ps[i].key == ps[0].key
  }

  /** Packets, captured bytes and wire bytes sent in direction `d`. */
  ghost function StatsOf(ps: seq<Arrival>, d: Direction): DirectionStats {
    if ps == [] then NO_STATS
    else
      var rest, a := StatsOf(ps[..|ps| - 1], d), ps[|ps| - 1];
      if a.direction == d then rest.Plus(a.captured, a.wire) else rest
  }

  ghost function SegmentsOf(ps: seq<Arrival>): (es: seq<Segment>)
    ensures |es| == |ps| && Directed(es)
  {
    seq(|ps|, i requires 0 <= i < |ps| => SegmentOf(ps[i]))
  }

  ghost function TimesOf(ps: seq<Arrival>): (ts: seq<Time>)
    ensures |ts| == |ps|
  {
    seq(|ps|, i requires 0 <= i < |ps| => ps[i].time)
  }

  /** The record a flow's packets should leave behind: its key, the observer run
      over its segments, per-direction totals, and the time range. */
  ghost function Summary(ps: seq<Arrival>): (r: FlowRecord)
    requires SameFlow(ps)
    ensures r.initialized && r.key == ps[0].key
    ensures ValidTime(r.firstSeen) && ValidTime(r.lastSeen)
  {
    FlowRecord(
      ps[0].key,
      if ps[0].key.protocol == PROTOCOL_TCP then Run(SegmentsOf(ps)) else NO_STATE,
      StatsOf(ps, A_TO_B), StatsOf(ps, B_TO_A),
      Earliest(TimesOf(ps)), Latest(TimesOf(ps)), true)
  }

  lemma SummaryOfOne(a: Arrival)
    ensures SameFlow([a]) && Summary([a]) == Absorb(Empty(a), a)
  {
    assert [a][..0] == [];
    assert StatsOf([a][..0], A_TO_B) == StatsOf([a][..0], B_TO_A) == NO_STATS;
    assert TimesOf([a]) == [a.time];
    if a.flags.Some? {
      assert SegmentsOf([a]) == [SegmentOf(a)];
      assert Run([SegmentOf(a)][..0]) == INITIAL_STATE;
    }
  }

  lemma StatsExtend(ps: seq<Arrival>, a: Arrival, d: Direction)
    ensures StatsOf(ps + [a], d) == if a.direction == d then StatsOf(ps, d).Plus(a.captured, a.wire) else StatsOf(ps, d)
  {
    assert (ps + [a])[..|ps|] == ps;
  }

  lemma TimesExtend(ps: seq<Arrival>, a: Arrival)
    requires ps != []
    ensures var first, last := Earliest(TimesOf(ps)), Latest(TimesOf(ps));
            && Earliest(TimesOf(ps + [a])) == (if Micros(a.time) < Micros(first) then a.time else first)
            && Latest(TimesOf(ps + [a])) == (if Micros(last) < Micros(a.time) then a.time else last)
  {
    assert TimesOf(ps + [a]) == TimesOf(ps) + [a.time];
    ExtremesExtend(TimesOf(ps), a.time);
  }

  lemma SegmentsExtend(ps: seq<Arrival>, a: Arrival)
    ensures Run(SegmentsOf(ps + [a])) == Advance(Run(SegmentsOf(ps)), SegmentOf(a))
  {
    assert SegmentsOf(ps + [a])[..|ps|] == SegmentsOf(ps);
  }

  /** Absorbing packets one by one computes the summary of all of them. */
  lemma SummaryExtends(ps: seq<Arrival>, a: Arrival)
    requires SameFlow(ps) && a.key == ps[0].key
    ensures SameFlow(ps + [a]) && Summary(ps + [a]) == Absorb(Summary(ps), a)
  {
    assert (ps + [a])[0] == ps[0];
    StatsExtend(ps, a, A_TO_B);
    StatsExtend(ps, a, B_TO_A);
    TimesExtend(ps, a);
    SegmentsExtend(ps, a);
  }

  // ----- field by field ----------------------------------------------------------------------

  /** The packets sent in direction `d`. */
  ghost function SentIn(ps: seq<Arrival>, d: Direction): set<nat> {
    set i | 0 <= i < |ps| && ps[i].direction == d
  }

  lemma {:induction false} StatsCount(ps: seq<Arrival>, d: Direction)
    ensures StatsOf(ps, d).packets == |SentIn(ps, d)|
  {
    if ps != [] {
      var n := |ps| - 1;
      StatsCount(ps[..n], d);
      assert SentIn(ps, d) == SentIn(ps[..n], d) + if ps[n].direction == d then {n} else {};
    }
  }

  /** One more packet: its bytes go to the counters of its own direction only. */
  lemma SummaryCounts(ps: seq<Arrival>, a: Arrival)
    requires SameFlow(ps) && a.key == ps[0].key
    ensures SameFlow(ps + [a])
    ensures var r, r' := Summary(ps), Summary(ps + [a]);
            if a.direction == A_TO_B then
              && r'.aToB.packets == r.aToB.packets + 1 && r'.aToB.captured == r.aToB.captured + a.captured
              && r'.aToB.wire == r.aToB.wire + a.wire && r'.bToA == r.bToA
            else
              && r'.bToA.packets == r.bToA.packets + 1 && r'.bToA.captured == r.bToA.captured + a.captured
              && r'.bToA.wire == r.bToA.wire + a.wire && r'.aToB == r.aToB
  {
    SummaryExtends(ps, a);
  }

  /** The record of a flow says how many packets each side sent, when the first and
      the last of them were captured, and what the observer made of them. */
  lemma SummaryMeaning(ps: seq<Arrival>)
    requires SameFlow(ps)
    ensures var r := Summary(ps);
            && r.key == ps[0].key && r.initialized
            && r.aToB.packets == |SentIn(ps, A_TO_B)| && r.bToA.packets == |SentIn(ps, B_TO_A)|
            && (forall i :: 0 <= i < |ps| ==> Micros(r.firstSeen) <= Micros(ps[i].time) <= Micros(r.lastSeen))
            && (exists i :: 0 <= i < |ps| && ps[i].time == r.firstSeen)
            && (exists i :: 0 <= i < |ps| && ps[i].time == r.lastSeen)
            && r.tcpState == if r.key.protocol == 6 then Run(SegmentsOf(ps)) else NO_STATE
    ensures |ps| == 1 ==>
              var r, a := Summary(ps), ps[0];
              && r.aToB == (if a.direction == A_TO_B then DirectionStats(1, a.captured, a.wire) else NO_STATS)
              && r.bToA == (if a.direction == B_TO_A then DirectionStats(1, a.captured, a.wire) else NO_STATS)
  {
    var r, ts := Summary(ps), TimesOf(ps);
    StatsCount(ps, A_TO_B);
    StatsCount(ps, B_TO_A);
    forall i | 0 <= i < |ps|
      ensures Micros(r.firstSeen) <= Micros(ps[i].time) <= Micros(r.lastSeen)
    {
      assert ts[i] in ts;
    }
    var i :| 0 <= i < |ts| && ts[i] == r.firstSeen;
    var j :| 0 <= j < |ts| && ts[j] == r.lastSeen;
    assert ps[i].time == r.firstSeen && ps[j].time == r.lastSeen;
    if |ps| == 1 {
      assert ps == [ps[0]];
      SummaryOfOne(ps[0]);
    }
  }

  // ----- order does not matter ----------------------------------------------------------------

  lemma WithoutAndLast(ps: seq<Arrival>, m: nat)
    requires m < |ps| - 1
    ensures var n, rest := |ps| - 1, ps[..m] + ps[m + 1..];
            |rest| == n && rest[..n - 1] == ps[..n][..m] + ps[..n][m + 1..] && rest[n - 1] == ps[n]
  {
  }

  lemma {:induction false} StatsWithout(ps: seq<Arrival>, m: nat, d: Direction)
    requires m < |ps|
    ensures var rest := StatsOf(ps[..m] + ps[m + 1..], d);
            StatsOf(ps, d) == if ps[m].direction == d then rest.Plus(ps[m].captured, ps[m].wire) else rest
  {
    var n := |ps| - 1;
    if m == n {
      assert ps[..m] + ps[m + 1..] == ps[..n];
    } else {
      StatsWithout(ps[..n], m, d);
      WithoutAndLast(ps, m);
    }
  }

  lemma TakeOut<T>(xs: seq<T>, j: nat)
    requires j < |xs|
    ensures multiset(xs) == multiset(xs[..j] + xs[j + 1..]) + multiset{xs[j]}
    ensures multiset(xs[..j] + xs[j + 1..]) == multiset(xs) - multiset{xs[j]}
  {
    assert xs == xs[..j] + [xs[j]] + xs[j + 1..];
  }

  /** Taking the last of one list out of the other leaves permutations. */
  lemma TakeOutLast(ps: seq<Arrival>, qs: seq<Arrival>) returns (m: nat)
    requires multiset(ps) == multiset(qs) && ps != []
    ensures m < |qs| && qs[m] == ps[|ps| - 1]
    ensures multiset(ps[..|ps| - 1]) == multiset(qs[..m] + qs[m + 1..])
  {
    var n := |ps| - 1;
    assert ps[n] in multiset(qs);
    m :| 0 <= m < |qs| && qs[m] == ps[n];
    assert ps[..n] + ps[n + 1..] == ps[..n];
    TakeOut(ps, n);
    TakeOut(qs, m);
  }

  lemma {:induction false} StatsIgnoreOrder(ps: seq<Arrival>, qs: seq<Arrival>, d: Direction)
    requires multiset(ps) == multiset(qs)
    ensures StatsOf(ps, d) == StatsOf(qs, d)
  {
    assert |ps| == |multiset(ps)| == |multiset(qs)| == |qs|;
    if ps != [] {
      var m := TakeOutLast(ps, qs);
      StatsIgnoreOrder(ps[..|ps| - 1], qs[..m] + qs[m + 1..], d);
      StatsWithout(qs, m, d);
    }
  }

  lemma SameTimes(ps: seq<Arrival>, qs: seq<Arrival>)
    requires multiset(ps) == multiset(qs)
    ensures forall t :: t in TimesOf(ps) ==> t in TimesOf(qs)
  {
    forall t | t in TimesOf(ps)
      ensures t in TimesOf(qs)
    {
      var i :| 0 <= i < |ps| && ps[i].time == t;
      assert ps[i] in multiset(qs);
      var j :| 0 <= j < |qs| && qs[j] == ps[i];
      assert TimesOf(qs)[j] == t;
    }
  }

  /** Reordering a flow's packets changes nothing in its record except what the
      TCP observer makes of the order. */
  lemma SummaryIgnoresOrder(ps: seq<Arrival>, qs: seq<Arrival>)
    requires SameFlow(ps) && multiset(ps) == multiset(qs)
    ensures SameFlow(qs) && Summary(qs) == Summary(ps).(tcpState := Summary(qs).tcpState)
  {
    assert ps[0] in multiset(qs);
    forall j | 0 <= j < |qs|
      ensures qs[j].key == ps[0].key
    {
      assert qs[j] in multiset(ps);
    }
    StatsIgnoreOrder(ps, qs, A_TO_B);
    StatsIgnoreOrder(ps, qs, B_TO_A);
    SameTimes(ps, qs);
    SameTimes(qs, ps);
    ExtremesOfSameTimes(TimesOf(ps), TimesOf(qs));
  }

  // ----- swapping the endpoints -----------------------------------------------------------------

  /** The packet with source and destination exchanged. */
  function MirrorPacket(p: PacketInfo): PacketInfo {
    p.(ipv4 := match p.ipv4
               case None => None
               case Some(ip) => Some(ip.(source := ip.destination, destination := ip.source)),
       tcp := match p.tcp
              case None => None
              case Some(h) => Some(h.(sourcePort := h.destinationPort, destinationPort := h.sourcePort)),
       udp := match p.udp
              case None => None
              case Some(h) => Some(h.(sourcePort := h.destinationPort, destinationPort := h.sourcePort)))
  }

  /** A flow between an endpoint and itself knows only one direction. */
  predicate HasTwoEnds(k: FlowKey) {
    k.endpointA != k.endpointB
  }

  function MirrorArrival(a: Arrival): Arrival {
    a.(direction := if HasTwoEnds(a.key) then a.direction.Opposite() else a.direction)
  }

  function MirrorArrivals(ps: seq<Arrival>): (qs: seq<Arrival>)
    ensures |qs| == |ps|
  {
    seq(|ps|, i requires 0 <= i < |ps| => MirrorArrival(ps[i]))
  }

  /** The record of the reversed packets: the two directions' counters are exchanged,
      the TCP observer has seen the other side's segments, and nothing else differs. */
  function MirroredRecord(r: FlowRecord): FlowRecord {
    if !HasTwoEnds(r.key) then r
    else r.(aToB := r.bToA, bToA := r.aToB,
            tcpState := if r.key.protocol == PROTOCOL_TCP then MirroredState(r.tcpState) else r.tcpState)
  }

  /** Exchanging source and destination keeps the flow and reverses the packet in it. */
  lemma MirrorPacketReverses(p: PacketInfo)
    requires Keyable(p)
    ensures Keyable(MirrorPacket(p)) && FromPacket(MirrorPacket(p)).key == FromPacket(p).key
    ensures ArrivalOf(MirrorPacket(p)) == MirrorArrival(ArrivalOf(p))
    ensures HasTwoEnds(FromPacket(p).key) <==> Source(p) != Destination(p)
  {
  }

  lemma {:induction false} MirrorSwapsStats(ps: seq<Arrival>, d: Direction)
    requires d != UNKNOWN && forall i :: 0 <= i < |ps| ==> HasTwoEnds(ps[i].key)
    ensures StatsOf(MirrorArrivals(ps), d) == StatsOf(ps, d.Opposite())
  {
    if ps != [] {
      var n := |ps| - 1;
      assert MirrorArrivals(ps)[..n] == MirrorArrivals(ps[..n]);
      MirrorSwapsStats(ps[..n], d);
    }
  }

  /** Reversing every packet of a flow mirrors its record. */
  lemma SummaryMirrors(ps: seq<Arrival>)
    requires SameFlow(ps)
    ensures SameFlow(MirrorArrivals(ps)) && Summary(MirrorArrivals(ps)) == MirroredRecord(Summary(ps))
  {
    var qs := MirrorArrivals(ps);
    if HasTwoEnds(ps[0].key) {
      MirrorSwapsStats(ps, A_TO_B);
      MirrorSwapsStats(ps, B_TO_A);
      assert TimesOf(qs) == TimesOf(ps);
      assert SegmentsOf(qs) == Mirrored(SegmentsOf(ps));
      MirrorSymmetry(SegmentsOf(ps));
    } else {
      assert qs == ps;
    }
  }
}
