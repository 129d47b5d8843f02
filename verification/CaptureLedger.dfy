/** The books a capture run has to keep: every lifetime ends up in exactly one
    record, exported or still in the table, and nothing is lost on the way. */
module CaptureLedger {
  import opened Machine
  import opened Timestamps
  import opened PacketInfo
  import opened FlowKey
  import opened FlowRecord
  import opened OpenAddressing
  import opened FlowTable
  import opened FrameFormat
  import opened FrameTheorems
  import opened Expiration
  import opened Engine
  import opened RuntimeMetrics

  // ----- the input ------------------------------------------------------------------------------

  datatype PacketData = PacketData(time: Timestamp, wire: U32, data: seq<U8>)

  /** One packet as libpcap delivers it; the captured length is a uint32_t. */
  type Packet = p: PacketData | |p.data| <= U32_MAX witness PacketData(Timestamp(0, 0), 0, [])

  function InfoOf(p: Packet): PacketInfo {
    Parse(p.data, Blank(p.time, |p.data|, p.wire))
  }

  function EventOf(p: Packet): Event {
    if !ValidTime(p.time) then Event(Timestamp(0, 0), None)
    else Event(p.time, if InfoOf(p).status == COMPLETE && Keyable(InfoOf(p)) then Some(ArrivalOf(InfoOf(p))) else None)
  }

  function EventsOf(ps: seq<Packet>): (es: seq<Event>)
    ensures |es| == |ps| && forall i :: 0 <= i < |ps| ==> es[i] == EventOf(ps[i])
  {
    seq(|ps|, i requires 0 <= i < |ps| => EventOf(ps[i]))
  }

  /** A packet reaches the flow table exactly if it parses completely. */
  lemma CompletePacketsArrive(p: Packet)
    requires ValidTime(p.time)
    ensures var info := InfoOf(p);
            && (info.status == COMPLETE <==> EventOf(p).arrival.Some?)
            && (info.status == COMPLETE ==>
                  && Keyable(info) && EventOf(p).arrival == Some(ArrivalOf(info))
                  && EventOf(p).arrival.value.time == p.time
                  && EventOf(p).arrival.value.captured == |p.data| && EventOf(p).arrival.value.wire == p.wire)
  {
    ParseIsTotal(p.data, p.time, p.wire);
  }

  // ----- records of growing lifetimes -----------------------------------------------------------------

  lemma RecordGrows(es: seq<Event>, l: Lifetime, k: FlowKey, n: nat)
    requires IsLifetime(es, l, k, n) && ArrivesFor(es, n, k)
    ensures RecordOf(es, l + [n]) == Absorb(RecordOf(es, l), ArrivalAt(es, n))
  {
    var a := ArrivalAt(es, n);
    assert Arrivals(es, l + [n]) == Arrivals(es, l) + [a];
    SummaryExtends(Arrivals(es, l), a);
  }

  lemma RecordStarts(es: seq<Event>, n: nat)
    requires Arrives(es, n)
    ensures RecordOf(es, [n]) == Summary([ArrivalAt(es, n)])
  {
    assert Arrivals(es, [n]) == [ArrivalAt(es, n)];
  }

  // ----- the table shows the live lifetimes ---------------------------------------------------------------

  ghost predicate Mirrors(es: seq<Event>, s: State, m: map<FlowKey, FlowRecord>) {
    m.Keys == s.live.Keys && forall k :: k in s.live ==> m[k] == RecordOf(es, s.live[k])
  }

  lemma ExpireMirrors(cfg: Config, es: seq<Event>, s: State, n: nat, now: int, m: map<FlowKey, FlowRecord>,
                      cutoff: Timestamp)
    requires Sound(cfg, es, s, n) && Mirrors(es, s, m) && cfg.expires
    requires Tick(s.clock, now, cfg.idle, cfg.interval).1 == Some(Micros(cutoff))
    ensures Mirrors(es, Expire(cfg, es, s, now), Survivors(m, cutoff))
  {
    forall k | k in s.live
      ensures LastSeen(es, s.live[k]) == Micros(m[k].lastSeen)
    {
      LastSeenOfRecord(es, s.live[k], k, n);
    }
  }

  /** The victim that an admission with outcome `evicted` chose. */
  function VictimOf(evicted: Option<FlowRecord>): FlowKey {
    if evicted.Some? then evicted.value.key else NO_KEY
  }

  lemma OldestIsVictim(cfg: Config, es: seq<Event>, s: State, n: nat, m: map<FlowKey, FlowRecord>, r: FlowRecord)
    requires Sound(cfg, es, s, n) && Mirrors(es, s, m) && IsOldestEntry(m, r)
    ensures IsVictim(es, s, r.key)
  {
    forall k | k in s.live
      ensures LastSeen(es, s.live[k]) == Micros(m[k].lastSeen)
    {
      LastSeenOfRecord(es, s.live[k], k, n);
    }
  }

  lemma SameSize(es: seq<Event>, s: State, m: map<FlowKey, FlowRecord>)
    requires Mirrors(es, s, m)
    ensures |m| == |s.live|
  {
    assert |m| == |m.Keys| && |s.live| == |s.live.Keys|;
  }

  lemma HitMirrors(cfg: Config, es: seq<Event>, s: State, n: nat, m: map<FlowKey, FlowRecord>, k: FlowKey,
                   victim: FlowKey, grown: FlowRecord)
    requires Mirrors(es, s, m) && k in s.live && grown == RecordOf(es, s.live[k] + [n])
    ensures Mirrors(es, Admit(cfg, s, n, k, victim), m[k := grown])
  {
  }

  lemma StartMirrors(es: seq<Event>, s: State, s': State, n: nat, m: map<FlowKey, FlowRecord>, k: FlowKey,
                     first: FlowRecord)
    requires Mirrors(es, s, m) && k !in s.live && s'.live == s.live[k := [n]] && first == RecordOf(es, [n])
    ensures Mirrors(es, s', m[k := first])
  {
  }

  lemma EvictionMirrors(cfg: Config, es: seq<Event>, s: State, n: nat, m: map<FlowKey, FlowRecord>, k: FlowKey,
                        r: FlowRecord, first: FlowRecord)
    requires Sound(cfg, es, s, n) && Mirrors(es, s, m) && k !in s.live && first == RecordOf(es, [n])
    requires |s.live| >= cfg.capacity && cfg.evictWhenFull && IsOldestEntry(m, r)
    ensures VictimOk(cfg, es, s, k, r.key) && Mirrors(es, Admit(cfg, s, n, k, r.key), (m - {r.key})[k := first])
  {
    OldestIsVictim(cfg, es, s, n, m, r);
    StartMirrors(es, s.(live := s.live - {r.key}), Admit(cfg, s, n, k, r.key), n, m - {r.key}, k, first);
  }

  /** What the table does with a keyed packet is what the engine prescribes. */
  lemma AdmitMirrors(cfg: Config, es: seq<Event>, s: State, n: nat, m: map<FlowKey, FlowRecord>,
                     code: Errno, created: bool, evicted: Option<FlowRecord>, m': map<FlowKey, FlowRecord>)
    requires Sound(cfg, es, s, n) && Mirrors(es, s, m) && Arrives(es, n)
    requires Processed(m, cfg.capacity, cfg.evictWhenFull, ArrivalAt(es, n), code, created, evicted, m')
    requires code != EOVERFLOW
    ensures var k, victim := KeyAt(es, n), VictimOf(evicted);
            VictimOk(cfg, es, s, k, victim) && Mirrors(es, Admit(cfg, s, n, k, victim), m')
    ensures code == OK || (code == ENOSPC && !cfg.evictWhenFull)
  {
    var k, victim := KeyAt(es, n), VictimOf(evicted);
    SameSize(es, s, m);
    if k in s.live {
      RecordGrows(es, s.live[k], k, n);
      HitMirrors(cfg, es, s, n, m, k, victim, m'[k]);
    } else if |s.live| < cfg.capacity {
      RecordStarts(es, n);
      StartMirrors(es, s, Admit(cfg, s, n, k, victim), n, m, k, m'[k]);
    } else if cfg.evictWhenFull {
      RecordStarts(es, n);
      EvictionMirrors(cfg, es, s, n, m, k, evicted.value, m'[k]);
    }
  }

  // ----- exported records ----------------------------------------------------------------------------------

  ghost predicate IsLive(s: State, l: Lifetime) {
    exists k :: k in s.live && s.live[k] == l
  }

  ghost predicate AllRecorded(es: seq<Event>, s: State, closed: seq<Lifetime>, exported: seq<FlowRecord>) {
    && |closed| == |exported|
    && forall x :: 0 <= x < |closed| ==> closed[x] in s.lifetimes && exported[x] == RecordOf(es, closed[x])
  }

  predicate AllDiffer(ls: seq<Lifetime>) {
    forall x, y | 0 <= x < y < |ls| :: ls[x] != ls[y]
  }

  ghost predicate NoneLive(s: State, ls: seq<Lifetime>) {
    forall x | 0 <= x < |ls| :: !IsLive(s, ls[x])
  }

  ghost predicate AllPlaced(s: State, closed: seq<Lifetime>) {
    forall l :: l in s.lifetimes ==> l in closed || IsLive(s, l)
  }

  /** The lifetimes that are over, one for each exported record. */
  ghost predicate Settled(es: seq<Event>, s: State, closed: seq<Lifetime>, exported: seq<FlowRecord>) {
    AllRecorded(es, s, closed, exported) && AllDiffer(closed) && NoneLive(s, closed) && AllPlaced(s, closed)
  }

  /** The lifetimes of records taken from the table. */
  ghost function LivesOf(s: State, out: seq<FlowRecord>): (ls: seq<Lifetime>)
    requires forall x :: 0 <= x < |out| ==> out[x].key in s.live
    ensures |ls| == |out|
  {
    seq(|out|, x requires 0 <= x < |out| => s.live[out[x].key])
  }

  lemma LiveKeysDiffer(cfg: Config, es: seq<Event>, s: State, n: nat, k: FlowKey, k': FlowKey)
    requires Sound(cfg, es, s, n) && k in s.live && k' in s.live && s.live[k] == s.live[k']
    ensures k == k'
  {
    assert ArrivesFor(es, s.live[k][0], k) && ArrivesFor(es, s.live[k'][0], k');
  }

  /** `s'` is `s` after the flows of the records `out` have left. */
  ghost predicate Left(s: State, s': State, out: seq<FlowRecord>) {
    && KeysDiffer(out) && (forall x :: 0 <= x < |out| ==> out[x].key in s.live)
    && s'.lifetimes == s.lifetimes && s'.live == s.live - KeySet(out)
  }

  lemma LeaversAreNotLive(cfg: Config, es: seq<Event>, s: State, s': State, n: nat, out: seq<FlowRecord>)
    requires Sound(cfg, es, s, n) && Left(s, s', out)
    ensures AllDiffer(LivesOf(s, out)) && NoneLive(s', LivesOf(s, out))
    ensures forall x :: 0 <= x < |out| ==> IsLive(s, LivesOf(s, out)[x])
  {
    var more := LivesOf(s, out);
    forall x | 0 <= x < |out|
      ensures !IsLive(s', more[x])
    {
      assert out[x].key in KeySet(out);
      if k :| k in s'.live && s'.live[k] == more[x] {
        LiveKeysDiffer(cfg, es, s, n, k, out[x].key);
      }
    }
    forall x, y | 0 <= x < y < |out|
      ensures more[x] != more[y]
    {
      if more[x] == more[y] {
        LiveKeysDiffer(cfg, es, s, n, out[x].key, out[y].key);
      }
    }
  }

  lemma LeaversArePlaced(s: State, s': State, closed: seq<Lifetime>, out: seq<FlowRecord>)
    requires Left(s, s', out) && AllPlaced(s, closed)
    ensures AllPlaced(s', closed + LivesOf(s, out))
  {
    var more := LivesOf(s, out);
    forall l | l in s.lifetimes && l !in closed
      ensures l in more || IsLive(s', l)
    {
      var k :| k in s.live && s.live[k] == l;
      if k in KeySet(out) {
        var x :| 0 <= x < |out| && out[x].key == k;
        assert more[x] == l;
      } else {
        assert k in s'.live;
      }
    }
  }

  lemma StillNotLive(s: State, s': State, closed: seq<Lifetime>, out: seq<FlowRecord>)
    requires Left(s, s', out) && NoneLive(s, closed)
    ensures NoneLive(s', closed)
  {
  }

  lemma ChainDiffers(s: State, closed: seq<Lifetime>, more: seq<Lifetime>)
    requires AllDiffer(closed) && AllDiffer(more) && NoneLive(s, closed)
    requires forall x :: 0 <= x < |more| ==> IsLive(s, more[x])
    ensures AllDiffer(closed + more)
  {
  }

  lemma LeaversAreRecorded(cfg: Config, es: seq<Event>, s: State, s': State, n: nat,
                           m: map<FlowKey, FlowRecord>, m': map<FlowKey, FlowRecord>, out: seq<FlowRecord>)
    requires Sound(cfg, es, s, n) && Mirrors(es, s, m) && IsRemoval(m, m', out) && Left(s, s', out)
    ensures AllRecorded(es, s', LivesOf(s, out), out)
  {
    forall x | 0 <= x < |out|
      ensures LivesOf(s, out)[x] in s.lifetimes && out[x] == RecordOf(es, LivesOf(s, out)[x])
    {
      assert out[x].key in s.live;
    }
  }

  lemma ChainIsRecorded(es: seq<Event>, s: State, closed: seq<Lifetime>, exported: seq<FlowRecord>,
                        more: seq<Lifetime>, out: seq<FlowRecord>)
    requires AllRecorded(es, s, closed, exported) && AllRecorded(es, s, more, out)
    requires NoneLive(s, closed) && NoneLive(s, more)
    ensures AllRecorded(es, s, closed + more, exported + out) && NoneLive(s, closed + more)
  {
    var all, records := closed + more, exported + out;
    forall x | 0 <= x < |all|
      ensures all[x] in s.lifetimes && records[x] == RecordOf(es, all[x]) && !IsLive(s, all[x])
    {
      if x < |closed| {
        assert all[x] == closed[x] && records[x] == exported[x];
      } else {
        assert all[x] == more[x - |closed|] && records[x] == out[x - |exported|];
      }
    }
  }

  lemma RecordedIgnoresLive(es: seq<Event>, s: State, s': State, closed: seq<Lifetime>, exported: seq<FlowRecord>)
    requires AllRecorded(es, s, closed, exported) && s'.lifetimes == s.lifetimes
    ensures AllRecorded(es, s', closed, exported)
  {
  }

  /** Records that leave the table settle their lifetimes. */
  lemma RemovalSettles(cfg: Config, es: seq<Event>, s: State, s': State, n: nat, closed: seq<Lifetime>,
                       exported: seq<FlowRecord>, m: map<FlowKey, FlowRecord>, m': map<FlowKey, FlowRecord>,
                       out: seq<FlowRecord>)
    requires Sound(cfg, es, s, n) && Mirrors(es, s, m) && Settled(es, s, closed, exported)
    requires IsRemoval(m, m', out) && Left(s, s', out)
    ensures Settled(es, s', closed + LivesOf(s, out), exported + out)
  {
    LeaversAreNotLive(cfg, es, s, s', n, out);
    LeaversArePlaced(s, s', closed, out);
    StillNotLive(s, s', closed, out);
    ChainDiffers(s, closed, LivesOf(s, out));
    LeaversAreRecorded(cfg, es, s, s', n, m, m', out);
    RecordedIgnoresLive(es, s, s', closed, exported);
    ChainIsRecorded(es, s', closed, exported, LivesOf(s, out), out);
  }

  lemma ClosedAreOld(cfg: Config, es: seq<Event>, s: State, n: nat, closed: seq<Lifetime>, exported: seq<FlowRecord>,
                     x: nat)
    requires Sound(cfg, es, s, n) && Settled(es, s, closed, exported) && x < |closed|
    ensures n !in closed[x]
  {
    assert Whole(es, closed[x], n);
  }

  lemma ExtensionSettles(cfg: Config, es: seq<Event>, s: State, s': State, n: nat, k: FlowKey,
                         closed: seq<Lifetime>, exported: seq<FlowRecord>)
    requires Sound(cfg, es, s, n) && Settled(es, s, closed, exported) && k in s.live
    requires s' == s.(live := s.live[k := s.live[k] + [n]], lifetimes := Extend(s.lifetimes, s.live[k], n))
    ensures Settled(es, s', closed, exported)
  {
    var l, l' := s.live[k], s.live[k] + [n];
    assert n in l' by {
      assert l'[|l|] == n;
    }
    forall x | 0 <= x < |closed|
      ensures closed[x] in s'.lifetimes && !IsLive(s', closed[x])
    {
      ClosedAreOld(cfg, es, s, n, closed, exported, x);
      assert !IsLive(s, closed[x]);
    }
    ExtensionIsPlaced(s, s', n, k, closed);
  }

  lemma ExtensionIsPlaced(s: State, s': State, n: nat, k: FlowKey, closed: seq<Lifetime>)
    requires AllPlaced(s, closed) && k in s.live
    requires s'.live == s.live[k := s.live[k] + [n]] && s'.lifetimes == Extend(s.lifetimes, s.live[k], n)
    ensures AllPlaced(s', closed)
  {
    forall l | l in s'.lifetimes && l !in closed
      ensures IsLive(s', l)
    {
      if l == s.live[k] + [n] {
        assert s'.live[k] == l;
      } else {
        var k1 :| k1 in s.live && s.live[k1] == l;
        assert s'.live[k1] == l;
      }
    }
  }

  lemma StartSettles(cfg: Config, es: seq<Event>, s: State, s': State, n: nat, k: FlowKey,
                     closed: seq<Lifetime>, exported: seq<FlowRecord>)
    requires Sound(cfg, es, s, n) && Settled(es, s, closed, exported) && k !in s.live
    requires s' == s.(live := s.live[k := [n]], lifetimes := s.lifetimes + {[n]})
    ensures Settled(es, s', closed, exported)
  {
    forall x | 0 <= x < |closed|
      ensures closed[x] in s'.lifetimes && !IsLive(s', closed[x])
    {
      ClosedAreOld(cfg, es, s, n, closed, exported, x);
      assert n in [n] && !IsLive(s, closed[x]);
    }
    forall l1 | l1 in s'.lifetimes && l1 !in closed
      ensures IsLive(s', l1)
    {
      if l1 == [n] {
        assert s'.live[k] == l1;
      } else {
        var k1 :| k1 in s.live && s.live[k1] == l1;
        assert s'.live[k1] == l1;
      }
    }
  }

  /** The exports an admission makes. */
  function ExportOf(evicted: Option<FlowRecord>): seq<FlowRecord> {
    if evicted.Some? then [evicted.value] else []
  }

  ghost function ClosedBy(s: State, evicted: Option<FlowRecord>): seq<Lifetime> {
    if evicted.Some? && evicted.value.key in s.live then [s.live[evicted.value.key]] else []
  }

  lemma OneLeaves(s: State, m: map<FlowKey, FlowRecord>, r: FlowRecord, out: seq<FlowRecord>)
    requires out == [r] && r.key in s.live && r.key in m && m[r.key] == r
    ensures Left(s, s.(live := s.live - {r.key}), out) && IsRemoval(m, m - {r.key}, out)
    ensures LivesOf(s, out) == [s.live[r.key]]
  {
    assert KeySet(out) == {r.key} by {
      assert out[0] == r;
    }
  }

  lemma EvictionSettles(cfg: Config, es: seq<Event>, s: State, n: nat, closed: seq<Lifetime>, exported: seq<FlowRecord>,
                        m: map<FlowKey, FlowRecord>, r: FlowRecord)
    requires Sound(cfg, es, s, n) && Mirrors(es, s, m) && Settled(es, s, closed, exported)
    requires r.key in m && m[r.key] == r
    ensures Settled(es, s.(live := s.live - {r.key}), closed + [s.live[r.key]], exported + [r])
  {
    OneLeaves(s, m, r, [r]);
    RemovalSettles(cfg, es, s, s.(live := s.live - {r.key}), n, closed, exported, m, m - {r.key}, [r]);
  }

  lemma WithoutOneIsSound(cfg: Config, es: seq<Event>, s: State, n: nat, k: FlowKey)
    requires Sound(cfg, es, s, n)
    ensures Sound(cfg, es, s.(live := s.live - {k}), n)
  {
    SubsetSize((s.live - {k}).Keys, s.live.Keys);
  }

  /** The displaced record closes its lifetime before the new one starts. */
  lemma DisplacementSettles(cfg: Config, es: seq<Event>, s: State, n: nat, closed: seq<Lifetime>,
                            exported: seq<FlowRecord>, m: map<FlowKey, FlowRecord>, r: FlowRecord)
    requires Sound(cfg, es, s, n) && Mirrors(es, s, m) && Settled(es, s, closed, exported) && Arrives(es, n)
    requires KeyAt(es, n) !in s.live && |s.live| >= cfg.capacity && cfg.evictWhenFull && r.key in m && m[r.key] == r
    ensures Settled(es, Admit(cfg, s, n, KeyAt(es, n), r.key), closed + [s.live[r.key]], exported + [r])
  {
    var without := s.(live := s.live - {r.key});
    EvictionSettles(cfg, es, s, n, closed, exported, m, r);
    WithoutOneIsSound(cfg, es, s, n, r.key);
    StartSettles(cfg, es, without, Admit(cfg, s, n, KeyAt(es, n), r.key), n, KeyAt(es, n),
                 closed + [s.live[r.key]], exported + [r]);
  }

  lemma NothingExported(s: State, closed: seq<Lifetime>, exported: seq<FlowRecord>, evicted: Option<FlowRecord>)
    requires evicted.None?
    ensures closed + ClosedBy(s, evicted) == closed && exported + ExportOf(evicted) == exported
  {
  }

  /** An admission exports at most the record it displaces. */
  lemma AdmitSettles(cfg: Config, es: seq<Event>, s: State, n: nat, closed: seq<Lifetime>, exported: seq<FlowRecord>,
                     m: map<FlowKey, FlowRecord>, code: Errno, created: bool, evicted: Option<FlowRecord>,
                     m': map<FlowKey, FlowRecord>)
    requires Sound(cfg, es, s, n) && Mirrors(es, s, m) && Settled(es, s, closed, exported) && Arrives(es, n)
    requires Processed(m, cfg.capacity, cfg.evictWhenFull, ArrivalAt(es, n), code, created, evicted, m')
    requires code != EOVERFLOW
    ensures Settled(es, Admit(cfg, s, n, KeyAt(es, n), VictimOf(evicted)),
                    closed + ClosedBy(s, evicted), exported + ExportOf(evicted))
  {
    SameSize(es, s, m);
    if evicted.Some? {
      DisplacementSettles(cfg, es, s, n, closed, exported, m, evicted.value);
    } else {
      NothingExported(s, closed, exported, evicted);
      PlacementSettles(cfg, es, s, n, VictimOf(evicted), closed, exported);
    }
  }

  /** An admission that displaces nothing. */
  lemma PlacementSettles(cfg: Config, es: seq<Event>, s: State, n: nat, victim: FlowKey,
                         closed: seq<Lifetime>, exported: seq<FlowRecord>)
    requires Sound(cfg, es, s, n) && Settled(es, s, closed, exported) && Arrives(es, n)
    requires KeyAt(es, n) in s.live || |s.live| < cfg.capacity || !cfg.evictWhenFull
    ensures Settled(es, Admit(cfg, s, n, KeyAt(es, n), victim), closed, exported)
  {
    var k, s' := KeyAt(es, n), Admit(cfg, s, n, KeyAt(es, n), victim);
    if k in s.live {
      ExtensionSettles(cfg, es, s, s', n, k, closed, exported);
    } else if |s.live| < cfg.capacity {
      StartSettles(cfg, es, s, s', n, k, closed, exported);
    } else {
      RejectionSettles(es, s, s', closed, exported);
    }
  }

  lemma RejectionSettles(es: seq<Event>, s: State, s': State, closed: seq<Lifetime>, exported: seq<FlowRecord>)
    requires Settled(es, s, closed, exported) && s'.live == s.live && s'.lifetimes == s.lifetimes
    ensures Settled(es, s', closed, exported)
  {
    assert forall l :: IsLive(s', l) <==> IsLive(s, l);
  }

  // ----- counting ----------------------------------------------------------------------------------

  /** Packets, captured bytes and wire bytes of a capture. */
  function TallyOfPackets(ps: seq<Packet>): Tally {
    if ps == [] then NOTHING
    else
      var p := ps[|ps| - 1];
      TallyOfPackets(ps[..|ps| - 1]).Plus(Tally(1, |p.data|, p.wire))
  }

  /** What a packet of class `c` contributes to the flow records. */
  function TallyOfClass(p: Packet, c: PacketClass): Tally {
    if c == CLASS_COMPLETE then Tally(1, |p.data|, p.wire) else NOTHING
  }

  /** The same over the packets that were counted into some flow. */
  function AcceptedTally(ps: seq<Packet>, classes: seq<PacketClass>): Tally
    requires |classes| == |ps|
  {
    if ps == [] then NOTHING
    else
      var n := |ps| - 1;
      AcceptedTally(ps[..n], classes[..n]).Plus(TallyOfClass(ps[n], classes[n]))
  }

  function CountOf(classes: seq<PacketClass>, c: PacketClass): nat {
    if classes == [] then 0
    else CountOf(classes[..|classes| - 1], c) + if classes[|classes| - 1] == c then 1 else 0
  }

  predicate Within(x: Tally, y: Tally) {
    x.packets <= y.packets && x.captured <= y.captured && x.wire <= y.wire
  }

  lemma {:induction false} AcceptedWithinAll(ps: seq<Packet>, classes: seq<PacketClass>)
    requires |classes| == |ps|
    ensures Within(AcceptedTally(ps, classes), TallyOfPackets(ps)) && TallyOfPackets(ps).packets == |ps|
  {
    if ps != [] {
      AcceptedWithinAll(ps[..|ps| - 1], classes[..|ps| - 1]);
    }
  }

  /** Each packet is in exactly one of the five classes. */
  lemma {:induction false} ClassesPartition(classes: seq<PacketClass>)
    ensures CountOf(classes, CLASS_COMPLETE) + CountOf(classes, CLASS_TRUNCATED) + CountOf(classes, CLASS_MALFORMED)
            + CountOf(classes, CLASS_UNSUPPORTED) + CountOf(classes, CLASS_FLOW_REJECTED) == |classes|
  {
    if classes != [] {
      ClassesPartition(classes[..|classes| - 1]);
    }
  }

  lemma {:induction false} SlotWithinTotal(s: seq<Slot>, i: nat)
    requires i < |s| && s[i].state == OCCUPIED
    ensures Within(TallyOf(s[i].record), TallyOfSlots(s))
  {
    if i < |s| - 1 {
      SlotWithinTotal(s[..|s| - 1], i);
    }
  }

  /** No stored record counts more than the whole table. */
  lemma {:induction false} EntryWithinTotal(s: seq<Slot>, k: FlowKey)
    requires DistinctKeys(s) && k in Contents(s)
    ensures Within(TallyOf(Contents(s)[k]), TallyOfSlots(s))
  {
    ContentsRepresent(s);
    var i :| Holds(s, i, k);
    SlotWithinTotal(s, i);
  }

  lemma {:induction false} EntriesWithinTotal(s: seq<Slot>)
    requires DistinctKeys(s)
    ensures forall k :: k in Contents(s) ==> Within(TallyOf(Contents(s)[k]), TallyOfSlots(s))
  {
    forall k | k in Contents(s)
      ensures Within(TallyOf(Contents(s)[k]), TallyOfSlots(s))
    {
      EntryWithinTotal(s, k);
    }
  }

  lemma {:induction false} EntriesAreOk(s: seq<Slot>)
    requires DistinctKeys(s) && RecordsOk(s)
    ensures forall k :: k in Contents(s) ==> RecordOk(Contents(s)[k])
  {
    ContentsRepresent(s);
    forall k | k in Contents(s)
      ensures RecordOk(Contents(s)[k])
    {
      var i :| Holds(s, i, k);
    }
  }

  // ----- which captures run to the end ---------------------------------------------------------------------

  /** The class of a packet, given whether the table turned it away. */
  function ClassOfPacket(p: Packet, rejected: bool): PacketClass {
    match ClassOf(InfoOf(p))
    case TRUNCATED => CLASS_TRUNCATED
    case MALFORMED => CLASS_MALFORMED
    case UNSUPPORTED => CLASS_UNSUPPORTED
    case _ => if rejected then CLASS_FLOW_REJECTED else CLASS_COMPLETE
  }

  ghost predicate ClassesMatch(ps: seq<Packet>, rejected: set<nat>, classes: seq<PacketClass>) {
    && |classes| <= |ps|
    && forall i :: 0 <= i < |classes| ==> classes[i] == ClassOfPacket(ps[i], i in rejected)
  }

  function MicrosOf(ps: seq<Packet>): (ts: seq<int>)
    ensures |ts| == |ps|
  {
    seq(|ps|, i requires 0 <= i < |ps| => Micros(ps[i].time))
  }

  predicate TalliesFit(ps: seq<Packet>) {
    Within(TallyOfPackets(ps), Tally(U64_MAX, U64_MAX, U64_MAX))
  }

  predicate CutoffsFit(cfg: Config, ps: seq<Packet>) {
    cfg.expires ==> forall c :: c in Cutoffs(MicrosOf(ps), cfg.idle, cfg.interval) ==> c >= I64_MIN * MICROS_PER_SECOND
  }

  predicate AllTimesValid(ps: seq<Packet>) {
    forall i :: 0 <= i < |ps| ==> ValidTime(ps[i].time)
  }

  /** Nothing in the capture makes the run stop early: the times are valid, the
      grand totals fit 64 bits, and no scan cutoff falls below the epoch of int64. */
  predicate Completes(cfg: Config, ps: seq<Packet>) {
    TalliesFit(ps) && AllTimesValid(ps) && CutoffsFit(cfg, ps)
  }

  lemma {:induction false} CutoffsGrow(ts: seq<int>, idle: nat, interval: nat)
    requires ts != []
    ensures forall c :: c in Cutoffs(ts[..|ts| - 1], idle, interval) ==> c in Cutoffs(ts, idle, interval)
  {
  }

  lemma CompletesBefore(cfg: Config, ps: seq<Packet>)
    requires ps != [] && Completes(cfg, ps)
    ensures Completes(cfg, ps[..|ps| - 1])
  {
    var m := |ps| - 1;
    var ts, us := MicrosOf(ps), MicrosOf(ps[..m]);
    assert ts[..|ts| - 1] == us;
    assert forall i :: 0 <= i < m ==> ps[..m][i] == ps[i];
    if cfg.expires {
      CutoffsGrow(ts, cfg.idle, cfg.interval);
      forall c | c in Cutoffs(us, cfg.idle, cfg.interval)
        ensures c >= I64_MIN * MICROS_PER_SECOND
      {
        assert c in Cutoffs(ts, cfg.idle, cfg.interval);
      }
    }
  }

  lemma {:induction false} CompletesEarlier(cfg: Config, ps: seq<Packet>, n: nat)
    requires n <= |ps| && Completes(cfg, ps)
    ensures Completes(cfg, ps[..n])
    decreases |ps|
  {
    if n == |ps| {
      assert ps[..n] == ps;
    } else {
      var m := |ps| - 1;
      CompletesBefore(cfg, ps);
      assert ps[..m][..n] == ps[..n];
      CompletesEarlier(cfg, ps[..m], n);
    }
  }

  // ----- the books of a run ----------------------------------------------------------------------------

  ghost predicate Books(cfg: Config, es: seq<Event>, s: State, n: nat, m: map<FlowKey, FlowRecord>,
                        closed: seq<Lifetime>, exported: seq<FlowRecord>) {
    Sound(cfg, es, s, n) && Mirrors(es, s, m) && Settled(es, s, closed, exported)
  }

  /** Exported and resident records together count the accepted packets. */
  predicate Balanced(ps: seq<Packet>, classes: seq<PacketClass>, exported: seq<FlowRecord>, resident: Tally) {
    && |classes| == |ps|
    && AddUp(TallyOfAll(exported), resident, AcceptedTally(ps, classes))
    && AllOk(exported)
  }

  predicate AddUp(x: Tally, y: Tally, sum: Tally) {
    x.packets + y.packets == sum.packets && x.captured + y.captured == sum.captured && x.wire + y.wire == sum.wire
  }

  predicate AllOk(rs: seq<FlowRecord>) {
    forall x :: 0 <= x < |rs| ==> RecordOk(rs[x])
  }

  lemma AllOkAppends(rs: seq<FlowRecord>, more: seq<FlowRecord>)
    requires AllOk(rs) && AllOk(more)
    ensures AllOk(rs + more)
  {
  }

  lemma TallyHandedOver(exported: Tally, out: Tally, resident: Tally, resident': Tally, added: Tally, sum: Tally)
    requires resident'.Plus(out) == resident.Plus(added) && AddUp(exported, resident, sum)
    ensures AddUp(exported.Plus(out), resident', sum.Plus(added))
  {
  }

  /** The counters of the run are right after `ps`. */
  predicate TotalsOk(ps: seq<Packet>, classes: seq<PacketClass>, t: Totals) {
    && Tally(t.packets, t.captured, t.wire) == TallyOfPackets(ps)
    && forall c: PacketClass :: t.Of(c) == CountOf(classes, c)
  }

  lemma EmptyBooks(cfg: Config, es: seq<Event>)
    ensures Books(cfg, es, INITIAL, 0, map[], [], [])
  {
    InitialIsSound(cfg, es);
  }

  lemma EmptyBalance(ps: seq<Packet>, classes: seq<PacketClass>, exported: seq<FlowRecord>)
    requires ps == [] && classes == [] && exported == []
    ensures Balanced(ps, classes, exported, NOTHING)
  {
  }

  lemma EmptyTotals(ps: seq<Packet>, classes: seq<PacketClass>, t: Totals)
    requires ps == [] && classes == [] && t == NO_TOTALS
    ensures TotalsOk(ps, classes, t)
  {
  }

  lemma EmptyCompletes(cfg: Config)
    ensures Completes(cfg, [])
  {
    assert MicrosOf([]) == [];
  }

  lemma SurvivorsStay(es: seq<Event>, s: State, s': State, m: map<FlowKey, FlowRecord>, m': map<FlowKey, FlowRecord>,
                      out: seq<FlowRecord>)
    requires Mirrors(es, s, m) && m'.Keys == s'.live.Keys && IsRemoval(m, m', out)
    requires s'.lifetimes == s.lifetimes && forall k :: k in s'.live ==> k in s.live && s'.live[k] == s.live[k]
    ensures Left(s, s', out)
  {
    assert s'.live == s.live - KeySet(out);
  }

  lemma ScanKeepsBooks(cfg: Config, es: seq<Event>, s: State, n: nat, now: int, m: map<FlowKey, FlowRecord>,
                       closed: seq<Lifetime>, exported: seq<FlowRecord>, cutoff: Timestamp, out: seq<FlowRecord>)
    requires Books(cfg, es, s, n, m, closed, exported) && cfg.expires
    requires Tick(s.clock, now, cfg.idle, cfg.interval).1 == Some(Micros(cutoff))
    requires IsRemoval(m, Survivors(m, cutoff), out)
    ensures (forall x :: 0 <= x < |out| ==> out[x].key in s.live)
    ensures Books(cfg, es, Expire(cfg, es, s, now), n, Survivors(m, cutoff), closed + LivesOf(s, out), exported + out)
  {
    var s', m' := Expire(cfg, es, s, now), Survivors(m, cutoff);
    ExpireKeepsSound(cfg, es, s, n, now);
    ExpireMirrors(cfg, es, s, n, now, m, cutoff);
    SurvivorsStay(es, s, s', m, m', out);
    RemovalSettles(cfg, es, s, s', n, closed, exported, m, m', out);
  }

  lemma {:induction false} ExportBalances(ps: seq<Packet>, classes: seq<PacketClass>, exported: seq<FlowRecord>,
                                          resident: Tally, out: seq<FlowRecord>, resident': Tally)
    requires Balanced(ps, classes, exported, resident) && resident'.Plus(TallyOfAll(out)) == resident && AllOk(out)
    ensures Balanced(ps, classes, exported + out, resident')
  {
    TallyOfAllAppends(exported, out);
    AllOkAppends(exported, out);
    PlusNothing(resident);
    PlusNothing(AcceptedTally(ps, classes));
    TallyHandedOver(TallyOfAll(exported), TallyOfAll(out), resident, resident', NOTHING, AcceptedTally(ps, classes));
  }

  lemma TallyOfPrefix(ps: seq<Packet>, n: nat)
    requires n < |ps|
    ensures TallyOfPackets(ps[..n + 1]) == TallyOfPackets(ps[..n]).Plus(Tally(1, |ps[n].data|, ps[n].wire))
  {
    assert ps[..n + 1][..n] == ps[..n];
  }

  lemma {:induction false} AcceptedOfPrefix(ps: seq<Packet>, n: nat, classes: seq<PacketClass>, c: PacketClass)
    requires n < |ps| && |classes| == n
    ensures AcceptedTally(ps[..n + 1], classes + [c])
         == AcceptedTally(ps[..n], classes).Plus(TallyOfClass(ps[n], c))
    ensures forall d :: CountOf(classes + [c], d) == CountOf(classes, d) + if d == c then 1 else 0
  {
    assert ps[..n + 1][..n] == ps[..n];
    assert (classes + [c])[..n] == classes;
  }

  lemma TallyOfExport(evicted: Option<FlowRecord>)
    ensures TallyOfAll(ExportOf(evicted)) == TallyOfEvicted(evicted)
  {
    if evicted.Some? {
      TallyOfOne(evicted.value);
    }
  }

  /** One packet more, with the record it displaced exported. */
  lemma AdmitBalances(ps: seq<Packet>, n: nat, classes: seq<PacketClass>, c: PacketClass, exported: seq<FlowRecord>,
                      resident: Tally, evicted: Option<FlowRecord>, resident': Tally)
    requires n < |ps| && Balanced(ps[..n], classes, exported, resident)
    requires resident'.Plus(TallyOfEvicted(evicted)) == resident.Plus(TallyOfClass(ps[n], c))
    requires evicted.Some? ==> RecordOk(evicted.value)
    ensures Balanced(ps[..n + 1], classes + [c], exported + ExportOf(evicted), resident')
  {
    AcceptedOfPrefix(ps, n, classes, c);
    TallyOfAllAppends(exported, ExportOf(evicted));
    TallyOfExport(evicted);
    AllOkAppends(exported, ExportOf(evicted));
    TallyHandedOver(TallyOfAll(exported), TallyOfEvicted(evicted), resident, resident', TallyOfClass(ps[n], c),
                    AcceptedTally(ps[..n], classes));
  }

  // ----- runs grow by steps ------------------------------------------------------------------------------

  lemma RunExtends(cfg: Config, es: seq<Event>, victims: seq<FlowKey>, states: seq<State>, s': State, victim: FlowKey)
    requires IsRun(cfg, es, victims, states) && |states| <= |es|
    requires IsStep(cfg, es, states[|victims|], s', |victims|, victim)
    ensures IsRun(cfg, es, victims + [victim], states + [s'])
  {
    var victims', states' := victims + [victim], states + [s'];
    forall n: nat | n < |victims'|
      ensures StepAt(cfg, es, victims', states', n)
    {
      if n < |victims| {
        RunSteps(cfg, es, victims, states, n);
      }
    }
  }

  lemma ClassesExtend(ps: seq<Packet>, rejected: set<nat>, rejected': set<nat>, classes: seq<PacketClass>,
                      c: PacketClass)
    requires ClassesMatch(ps, rejected, classes) && |classes| < |ps|
    requires rejected' == rejected || rejected' == rejected + {|classes|}
    requires c == ClassOfPacket(ps[|classes|], |classes| in rejected')
    ensures ClassesMatch(ps, rejected', classes + [c])
  {
  }

  lemma {:induction false} KeysCount(rs: seq<FlowRecord>)
    requires KeysDiffer(rs)
    ensures |KeySet(rs)| == |rs|
  {
    if rs != [] {
      var n := |rs| - 1;
      KeysCount(rs[..n]);
      assert KeySet(rs) == KeySet(rs[..n]) + {rs[n].key};
      assert rs[n].key !in KeySet(rs[..n]);
    }
  }

  lemma RemovalSize(m: map<FlowKey, FlowRecord>, m': map<FlowKey, FlowRecord>, out: seq<FlowRecord>)
    requires IsRemoval(m, m', out)
    ensures |m'| + |out| == |m|
  {
    KeysCount(out);
    assert forall x :: 0 <= x < |out| ==> out[x].key in m.Keys;
    SizeWithout(m.Keys, KeySet(out), m'.Keys);
    assert |m'| == |m'.Keys| && |m| == |m.Keys|;
  }

  lemma SizeWithout<T>(all: set<T>, out: set<T>, left: set<T>)
    requires out <= all && left == all - out
    ensures |left| + |out| == |all|
  {
    assert all == left + out;
  }

  lemma RemovedAreOk(m: map<FlowKey, FlowRecord>, m': map<FlowKey, FlowRecord>, out: seq<FlowRecord>)
    requires IsRemoval(m, m', out) && forall k :: k in m ==> RecordOk(m[k])
    ensures AllOk(out)
  {
  }

  /** Each packet adds at most one record to what is resident or exported. */
  lemma ProcessedSize(m: map<FlowKey, FlowRecord>, capacity: nat, evictWhenFull: bool, a: Arrival,
                      code: Errno, created: bool, evicted: Option<FlowRecord>, m': map<FlowKey, FlowRecord>)
    requires Processed(m, capacity, evictWhenFull, a, code, created, evicted, m')
    ensures |m'| + |ExportOf(evicted)| <= |m| + 1
  {
    if evicted.Some? {
      var k := evicted.value.key;
      assert m.Keys == (m - {k}).Keys + {k};
      assert m'.Keys == (m - {k}).Keys + {a.key};
    } else {
      assert m'.Keys <= m.Keys + {a.key};
      SubsetSize(m'.Keys, m.Keys + {a.key});
    }
    assert |m'| == |m'.Keys| && |m| == |m.Keys|;
  }

  predicate Fits(x: Tally, y: Tally, t: Totals) {
    x.packets + y.packets <= t.packets && x.captured + y.captured <= t.captured && x.wire + y.wire <= t.wire
  }

  /** A record cannot overflow before the grand totals do. */
  lemma ProcessedFits(p: Packet, m: map<FlowKey, FlowRecord>, total: Tally, capacity: nat, evictWhenFull: bool,
                      code: Errno, created: bool, evicted: Option<FlowRecord>, m': map<FlowKey, FlowRecord>, t: Totals)
    requires ValidTime(p.time) && EventOf(p).arrival.Some?
    requires Processed(m, capacity, evictWhenFull, EventOf(p).arrival.value, code, created, evicted, m')
    requires forall k :: k in m ==> RecordOk(m[k]) && Within(TallyOf(m[k]), total)
    requires Fits(total, Tally(1, |p.data|, p.wire), t)
    ensures code == OK || (code == ENOSPC && !evictWhenFull)
    ensures evicted.Some? ==> RecordOk(evicted.value)
  {
    var a := EventOf(p).arrival.value;
    CompletePacketsArrive(p);
    if a.key in m {
      TallyAbsorbed(m[a.key], a);
    }
  }

  // ----- the log of a run ----------------------------------------------------------------------------------

  /** The engine states a run went through with their eviction choices, the
      lifetimes of the records exported so far, and the packets' classes. */
  datatype Log = Log(victims: seq<FlowKey>, states: seq<State>, closed: seq<Lifetime>, classes: seq<PacketClass>)

  const OPENING := Log([], [INITIAL], [], [])

  /** The log, the exports and the table agree in state `s`, which follows the first `n` packets. */
  ghost predicate LogOk(cfg: Config, ps: seq<Packet>, n: nat, s: State, log: Log, exported: seq<FlowRecord>,
                        view: map<FlowKey, FlowRecord>, resident: Tally)
  {
    && n <= |ps| && IsRun(cfg, EventsOf(ps), log.victims, log.states) && |log.states| == n + 1
    && Books(cfg, EventsOf(ps), s, n, view, log.closed, exported)
    && Balanced(ps[..n], log.classes, exported, resident)
    && ClassesMatch(ps, s.rejected, log.classes)
  }

  lemma OpeningRun(cfg: Config, es: seq<Event>)
    ensures IsRun(cfg, es, [], [INITIAL])
  {
  }

  lemma OpeningBalance(ps: seq<Packet>)
    ensures Balanced(ps[..0], [], [], NOTHING)
  {
    EmptyBalance(ps[..0], [], []);
  }

  lemma OpeningClasses(ps: seq<Packet>)
    ensures ClassesMatch(ps, {}, [])
  {
  }

  lemma OpeningIsOk(cfg: Config, ps: seq<Packet>)
    ensures LogOk(cfg, ps, 0, INITIAL, OPENING, [], map[], NOTHING)
  {
    EmptyBooks(cfg, EventsOf(ps));
    OpeningRun(cfg, EventsOf(ps));
    OpeningBalance(ps);
    OpeningClasses(ps);
  }

  // ----- one step of the loop, as the books see it ---------------------------------------------------------

  /** What one pass of the packet loop did: the records its scan took out and
      the table they left behind, then what the table made of the packet. */
  datatype Trace = Trace(
    cutoff: Timestamp, expired: seq<FlowRecord>, scanned: map<FlowKey, FlowRecord>, resident: Tally,
    tableCode: Errno, created: bool, evicted: Option<FlowRecord>, result: PacketClass)

  /** Before anything has happened to the packet. */
  function NothingTaken(m: map<FlowKey, FlowRecord>, total: Tally): Trace {
    Trace(Timestamp(0, 0), [], m, total, OK, false, None, CLASS_COMPLETE)
  }

  ghost predicate ScanOk(cfg: Config, clock: Clock, now: int, clock': Clock, m: map<FlowKey, FlowRecord>, total: Tally,
                         t: Trace) {
    Scanned(cfg, clock, now, clock', m, total, t.cutoff, t.expired, t.scanned, t.resident)
  }

  /** The scan before a packet took `out` from the table `m` and left `m'`. */
  ghost predicate Scanned(cfg: Config, clock: Clock, now: int, clock': Clock, m: map<FlowKey, FlowRecord>, total: Tally,
                          cutoff: Timestamp, out: seq<FlowRecord>, m': map<FlowKey, FlowRecord>, total': Tally) {
    if !cfg.expires then out == [] && m' == m && total' == total
    else
      var (next, scan) := Tick(clock, now, cfg.idle, cfg.interval);
      && clock' == next
      && if scan.None? then out == [] && m' == m && total' == total
         else
           && scan.value == Micros(cutoff) && m' == Survivors(m, cutoff)
           && IsRemoval(m, m', out) && AllOk(out) && total'.Plus(TallyOfAll(out)) == total
  }

  ghost predicate AdmitOk(cfg: Config, p: Packet, t: Trace, m': map<FlowKey, FlowRecord>, total': Tally) {
    && ValidTime(p.time)
    && total'.Plus(TallyOfEvicted(t.evicted)) == t.resident.Plus(TallyOfClass(p, t.result))
    && (t.evicted.Some? ==> RecordOk(t.evicted.value))
    && (t.tableCode == OK || t.tableCode == ENOSPC)
    && t.result == ClassOfPacket(p, t.tableCode == ENOSPC)
    && if EventOf(p).arrival.Some? then
         Processed(t.scanned, cfg.capacity, cfg.evictWhenFull, EventOf(p).arrival.value, t.tableCode, t.created,
                   t.evicted, m')
       else
         m' == t.scanned && t.evicted.None? && t.tableCode == OK
  }

  lemma AdmitFits(cfg: Config, p: Packet, t: Trace, m': map<FlowKey, FlowRecord>, total': Tally, totals: Totals)
    requires AdmitOk(cfg, p, t, m', total') && Fits(t.resident, Tally(1, |p.data|, p.wire), totals)
    ensures Fits(total', NOTHING, totals)
  {
  }

  /** The lifetimes that a scan closes. */
  ghost function ClosedByScan(s: State, out: seq<FlowRecord>): seq<Lifetime> {
    if forall x :: 0 <= x < |out| ==> out[x].key in s.live then LivesOf(s, out) else []
  }

  lemma ScanKeepsBalance(cfg: Config, ps: seq<Packet>, classes: seq<PacketClass>, exported: seq<FlowRecord>,
                         clock: Clock, now: int, clock': Clock, m: map<FlowKey, FlowRecord>, total: Tally, t: Trace)
    requires Balanced(ps, classes, exported, total) && ScanOk(cfg, clock, now, clock', m, total, t)
    ensures Balanced(ps, classes, exported + t.expired, t.resident)
  {
    if t.expired == [] && t.resident == total {
      assert exported + t.expired == exported;
    } else {
      ExportBalances(ps, classes, exported, total, t.expired, t.resident);
    }
  }

  lemma ScanStepKeepsBooks(cfg: Config, es: seq<Event>, s: State, n: nat, now: int, clock': Clock,
                           m: map<FlowKey, FlowRecord>, total: Tally, closed: seq<Lifetime>, exported: seq<FlowRecord>,
                           t: Trace)
    requires Books(cfg, es, s, n, m, closed, exported)
    requires ScanOk(cfg, s.clock, now, clock', m, total, t)
    ensures Books(cfg, es, Expire(cfg, es, s, now), n, t.scanned, closed + ClosedByScan(s, t.expired),
                  exported + t.expired)
  {
    if cfg.expires && Tick(s.clock, now, cfg.idle, cfg.interval).1.Some? {
      ScanKeepsBooks(cfg, es, s, n, now, m, closed, exported, t.cutoff, t.expired);
    } else {
      assert closed + ClosedByScan(s, t.expired) == closed && exported + t.expired == exported;
      ExpireKeepsSound(cfg, es, s, n, now);
    }
  }

  lemma AdmitKeepsBooks(cfg: Config, es: seq<Event>, p: Packet, s: State, n: nat, closed: seq<Lifetime>,
                        exported: seq<FlowRecord>, t: Trace, m': map<FlowKey, FlowRecord>, total': Tally)
    requires Books(cfg, es, s, n, t.scanned, closed, exported) && cfg.capacity > 0
    requires n < |es| && es[n] == EventOf(p) && Arrives(es, n) && AdmitOk(cfg, p, t, m', total')
    ensures VictimOk(cfg, es, s, KeyAt(es, n), VictimOf(t.evicted))
    ensures Books(cfg, es, Admit(cfg, s, n, KeyAt(es, n), VictimOf(t.evicted)), n + 1, m',
                  closed + ClosedBy(s, t.evicted), exported + ExportOf(t.evicted))
  {
    AdmitMirrors(cfg, es, s, n, t.scanned, t.tableCode, t.created, t.evicted, m');
    AdmitSettles(cfg, es, s, n, closed, exported, t.scanned, t.tableCode, t.created, t.evicted, m');
    AdmitKeepsSound(cfg, es, s, n, VictimOf(t.evicted));
  }

  /** A packet is recorded as rejected exactly if it is classed so. */
  lemma RejectionIsRecorded(cfg: Config, es: seq<Event>, s: State, n: nat, t: Trace, m': map<FlowKey, FlowRecord>)
    requires Mirrors(es, s, t.scanned) && Arrives(es, n)
    requires Processed(t.scanned, cfg.capacity, cfg.evictWhenFull, ArrivalAt(es, n), t.tableCode, t.created, t.evicted,
                       m')
    requires t.tableCode == OK || t.tableCode == ENOSPC
    ensures var rejected' := Admit(cfg, s, n, KeyAt(es, n), VictimOf(t.evicted)).rejected;
            rejected' == if t.tableCode == ENOSPC then s.rejected + {n} else s.rejected
  {
    SameSize(es, s, t.scanned);
  }

  lemma SkipKeepsBooks(cfg: Config, es: seq<Event>, s: State, n: nat, m: map<FlowKey, FlowRecord>,
                       closed: seq<Lifetime>, exported: seq<FlowRecord>)
    requires Books(cfg, es, s, n, m, closed, exported) && !Arrives(es, n)
    ensures Books(cfg, es, s, n + 1, m, closed, exported)
  {
    SkipKeepsPartition(es, s.lifetimes, s.rejected, n);
  }

  /** The exports one pass of the loop makes. */
  function Exports(t: Trace): seq<FlowRecord> {
    t.expired + ExportOf(t.evicted)
  }

  ghost function NextState(cfg: Config, es: seq<Event>, log: Log, t: Trace): State
    requires |log.states| == |log.victims| + 1 && |log.victims| < |es|
  {
    Step(cfg, es, log.states[|log.victims|], |log.victims|, VictimOf(t.evicted))
  }

  ghost function NextLog(cfg: Config, es: seq<Event>, log: Log, t: Trace): Log
    requires |log.states| == |log.victims| + 1 && |log.victims| < |es|
  {
    var n := |log.victims|;
    var s := log.states[n];
    var scanned := Expire(cfg, es, s, Micros(es[n].time));
    Log(log.victims + [VictimOf(t.evicted)],
        log.states + [NextState(cfg, es, log, t)],
        log.closed + ClosedByScan(s, t.expired) + ClosedBy(scanned, t.evicted),
        log.classes + [t.result])
  }

  lemma StepKeepsBooks(cfg: Config, ps: seq<Packet>, n: nat, s: State, closed: seq<Lifetime>, exported: seq<FlowRecord>,
                       t: Trace, m': map<FlowKey, FlowRecord>, total': Tally)
    requires Books(cfg, EventsOf(ps), s, n, t.scanned, closed, exported) && cfg.capacity > 0
    requires n < |ps| && AdmitOk(cfg, ps[n], t, m', total')
    ensures var es := EventsOf(ps);
            var s' := if Arrives(es, n) then Admit(cfg, s, n, KeyAt(es, n), VictimOf(t.evicted)) else s;
            && (Arrives(es, n) ==> VictimOk(cfg, es, s, KeyAt(es, n), VictimOf(t.evicted)))
            && Books(cfg, es, s', n + 1, m', closed + ClosedBy(s, t.evicted), exported + ExportOf(t.evicted))
  {
    var es := EventsOf(ps);
    CompletePacketsArrive(ps[n]);
    if Arrives(es, n) {
      AdmitKeepsBooks(cfg, es, ps[n], s, n, closed, exported, t, m', total');
    } else {
      assert closed + ClosedBy(s, t.evicted) == closed && exported + ExportOf(t.evicted) == exported;
      SkipKeepsBooks(cfg, es, s, n, t.scanned, closed, exported);
    }
  }

  lemma StepKeepsClasses(cfg: Config, ps: seq<Packet>, n: nat, s: State, classes: seq<PacketClass>, t: Trace,
                         m': map<FlowKey, FlowRecord>, total': Tally)
    requires Mirrors(EventsOf(ps), s, t.scanned) && n !in s.rejected
    requires n < |ps| && AdmitOk(cfg, ps[n], t, m', total')
    requires ClassesMatch(ps, s.rejected, classes) && |classes| == n
    requires EventOf(ps[n]).arrival.Some? ==> Arrives(EventsOf(ps), n)
    requires EventOf(ps[n]).arrival.None? ==> ClassOfPacket(ps[n], true) == ClassOfPacket(ps[n], false)
    ensures var es := EventsOf(ps);
            var s' := if Arrives(es, n) then Admit(cfg, s, n, KeyAt(es, n), VictimOf(t.evicted)) else s;
            ClassesMatch(ps, s'.rejected, classes + [t.result])
  {
    var es := EventsOf(ps);
    if Arrives(es, n) {
      RejectionIsRecorded(cfg, es, s, n, t, m');
      var s' := Admit(cfg, s, n, KeyAt(es, n), VictimOf(t.evicted));
      ClassesExtend(ps, s.rejected, s'.rejected, classes, t.result);
    } else {
      ClassesExtend(ps, s.rejected, s.rejected, classes, t.result);
    }
  }

  /** Only the class of a completely parsed packet depends on the table. */
  lemma ClassOfOthers(p: Packet)
    requires ValidTime(p.time)
    ensures EventOf(p).arrival.Some? ==> EventOf(p).arrival.value.time == EventOf(p).time
    ensures EventOf(p).arrival.None? ==> ClassOfPacket(p, true) == ClassOfPacket(p, false)
  {
    CompletePacketsArrive(p);
    ParseIsTotal(p.data, p.time, p.wire);
  }

  lemma ExportsInOrder(exported: seq<FlowRecord>, t: Trace)
    ensures exported + Exports(t) == exported + t.expired + ExportOf(t.evicted)
  {
  }

  lemma NextKeepsBooks(cfg: Config, ps: seq<Packet>, n: nat, log: Log, exported: seq<FlowRecord>, clock': Clock,
                       m: map<FlowKey, FlowRecord>, total: Tally, t: Trace, m': map<FlowKey, FlowRecord>, total': Tally)
    requires n == |log.victims| < |ps| && cfg.capacity > 0 && |log.states| == n + 1
    requires Books(cfg, EventsOf(ps), log.states[n], n, m, log.closed, exported)
    requires ScanOk(cfg, log.states[n].clock, Micros(ps[n].time), clock', m, total, t)
             && AdmitOk(cfg, ps[n], t, m', total')
    ensures var es := EventsOf(ps);
            && IsStep(cfg, es, log.states[n], NextState(cfg, es, log, t), n, VictimOf(t.evicted))
            && Books(cfg, es, NextState(cfg, es, log, t), n + 1, m', NextLog(cfg, es, log, t).closed,
                     exported + Exports(t))
  {
    var es, s, now := EventsOf(ps), log.states[n], Micros(ps[n].time);
    assert Micros(es[n].time) == now;
    var closed1, exported1 := log.closed + ClosedByScan(s, t.expired), exported + t.expired;
    ScanStepKeepsBooks(cfg, es, s, n, now, clock', m, total, log.closed, exported, t);
    StepKeepsBooks(cfg, ps, n, Expire(cfg, es, s, now), closed1, exported1, t, m', total');
    ExportsInOrder(exported, t);
  }

  lemma NextKeepsClasses(cfg: Config, ps: seq<Packet>, n: nat, log: Log, exported: seq<FlowRecord>, clock': Clock,
                         m: map<FlowKey, FlowRecord>, total: Tally, t: Trace, m': map<FlowKey, FlowRecord>,
                         total': Tally)
    requires n == |log.victims| == |log.classes| < |ps| && |log.states| == n + 1
    requires Books(cfg, EventsOf(ps), log.states[n], n, m, log.closed, exported)
    requires ClassesMatch(ps, log.states[n].rejected, log.classes)
    requires ScanOk(cfg, log.states[n].clock, Micros(ps[n].time), clock', m, total, t)
             && AdmitOk(cfg, ps[n], t, m', total')
    ensures ClassesMatch(ps, NextState(cfg, EventsOf(ps), log, t).rejected, log.classes + [t.result])
  {
    var es, s, now := EventsOf(ps), log.states[n], Micros(ps[n].time);
    ScanStepKeepsBooks(cfg, es, s, n, now, clock', m, total, log.closed, exported, t);
    ClassOfOthers(ps[n]);
    StepKeepsClasses(cfg, ps, n, Expire(cfg, es, s, now), log.classes, t, m', total');
  }

  lemma NextKeepsBalance(cfg: Config, ps: seq<Packet>, n: nat, classes: seq<PacketClass>, exported: seq<FlowRecord>,
                         clock: Clock, clock': Clock, m: map<FlowKey, FlowRecord>, total: Tally,
                         t: Trace, m': map<FlowKey, FlowRecord>, total': Tally)
    requires n < |ps| && Balanced(ps[..n], classes, exported, total)
    requires ScanOk(cfg, clock, Micros(ps[n].time), clock', m, total, t) && AdmitOk(cfg, ps[n], t, m', total')
    ensures Balanced(ps[..n + 1], classes + [t.result], exported + Exports(t), total')
  {
    ScanKeepsBalance(cfg, ps[..n], classes, exported, clock, Micros(ps[n].time), clock', m, total, t);
    AdmitBalances(ps, n, classes, t.result, exported + t.expired, t.resident, t.evicted, total');
    ExportsInOrder(exported, t);
  }

  /** One pass of the packet loop takes right books to right books. */
  lemma StepKeepsLog(cfg: Config, ps: seq<Packet>, n: nat, log: Log, exported: seq<FlowRecord>, clock': Clock,
                     m: map<FlowKey, FlowRecord>, total: Tally, t: Trace, m': map<FlowKey, FlowRecord>, total': Tally)
    requires n < |ps| && cfg.capacity > 0 && |log.states| == n + 1
    requires LogOk(cfg, ps, n, log.states[n], log, exported, m, total)
    requires ScanOk(cfg, log.states[n].clock, Micros(ps[n].time), clock', m, total, t)
             && AdmitOk(cfg, ps[n], t, m', total')
    ensures |log.victims| == n
    ensures var es := EventsOf(ps);
            LogOk(cfg, ps, n + 1, NextState(cfg, es, log, t), NextLog(cfg, es, log, t), exported + Exports(t), m',
                  total')
  {
    var es := EventsOf(ps);
    NextKeepsBooks(cfg, ps, n, log, exported, clock', m, total, t, m', total');
    NextKeepsClasses(cfg, ps, n, log, exported, clock', m, total, t, m', total');
    NextKeepsBalance(cfg, ps, n, log.classes, exported, log.states[n].clock, clock', m, total, t, m', total');
    RunExtends(cfg, es, log.victims, log.states, NextState(cfg, es, log, t), VictimOf(t.evicted));
  }
}
