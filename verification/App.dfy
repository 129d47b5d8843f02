/** The packet loop: parse, scan for idle flows, aggregate, export. */
module App {
  import opened Machine
  import opened Timestamps
  import opened PacketInfo
  import opened FlowRecord
  import opened OpenAddressing
  import opened FlowTable
  import opened FrameFormat
  import opened FrameTheorems
  import opened Parsers
  import opened Expiration
  import opened Engine
  import opened RuntimeMetrics
  import opened CaptureLedger
  import opened CaptureRun
  import opened Counters
  import opened FlowFeatures
  import opened FeatureRun

  const FLOW_TABLE_CAPACITY := 256
  const SCAN_INTERVAL_SECONDS := 5

  // ----- one packet -------------------------------------------------------------------------------

  /** The chain from IPv4 upwards, on a frame whose Ethernet header says IPv4. */
  method ParseNetwork(frame: seq<U8>, result: PacketResult) returns (code: Errno)
    requires EthernetOf(frame).Parsed? && result.info.ethernet == Some(EthernetOf(frame).header)
    requires Ipv4Ready(frame, result.info) && NoUpperYet(result.info)
    modifies result
    ensures result.info == WithNetwork(old(result.info), NetworkOf(frame))
    ensures code == match NetworkOf(frame)
                    case NotIpv4 => ENOTSUP
                    case NoIpv4(_, c, _) => c
                    case Carried(_, upper) => if upper.NoUpper? then upper.code else OK
  {
    assert frame[ETHERNET_HEADER_LENGTH..ETHERNET_HEADER_LENGTH + (|frame| - ETHERNET_HEADER_LENGTH)]
        == frame[ETHERNET_HEADER_LENGTH..];
    code := Ipv4Parse(frame, result);
    if code != OK {
      return;
    }
    code := DispatchPayload(frame, result);
  }

  predicate NoUpperYet(info: PacketInfo) {
    info.tcp.None? && info.udp.None? && info.icmp.None?
  }

  /** Runs the parser chain; the chain never reports EINVAL for a packet with a valid time. */
  method ParsePacket(p: Packet) returns (code: Errno, info: PacketInfo)
    ensures !ValidTime(p.time) ==> code == EINVAL
    ensures ValidTime(p.time) ==> info == InfoOf(p)
    ensures ValidTime(p.time) ==> code == if info.status == NOT_STARTED then ENOTSUP else CodeOf(info.status)
  {
    var result := new PacketResult();
    code := result.Init(p.time.seconds, p.time.microseconds, |p.data|, p.wire);
    info := result.info;
    if code != OK {
      return;
    }
    code := EthernetParse(p.data, result);
    info := result.info;
    if code != OK {
      return;
    }
    NetworkIsTotal(p.data);
    if info.ethernet.value.etherType != ETHERNET_TYPE_IPV4 {
      return ENOTSUP, info;
    }
    code := ParseNetwork(p.data, result);
    info := result.info;
  }

  /** Parses a packet; what is not complete is classified at once. */
  method ParseAndClassify(p: Packet) returns (code: Errno, complete: bool, result: PacketClass, info: PacketInfo)
    ensures code == if ValidTime(p.time) then OK else EINVAL
    ensures ValidTime(p.time) ==>
              && (complete <==> EventOf(p).arrival.Some?)
              && (if complete then info == InfoOf(p) else result == ClassOfPacket(p, false) != CLASS_COMPLETE)
  {
    complete, result := false, CLASS_COMPLETE;
    code, info := ParsePacket(p);
    if code == ENODATA {
      code, result := OK, CLASS_TRUNCATED;
    } else if code == EBADMSG {
      code, result := OK, CLASS_MALFORMED;
    } else if code == ENOTSUP {
      code, result := OK, CLASS_UNSUPPORTED;
    } else {
      complete := code == OK;
    }
    if ValidTime(p.time) {
      CompletePacketsArrive(p);
    }
  }

  /** Parses a packet and, if it is complete, counts it into the table.  A full
      table under the reject policy is a result, not an error. */
  method ProcessPacket(p: Packet, evictWhenFull: bool, table: FlowTable)
    returns (code: Errno, result: PacketClass, evicted: Option<FlowRecord>,
             ghost tableCode: Errno, ghost created: bool)
    requires table.Valid()
    modifies table, table.slots
    ensures table.Valid()
    ensures !ValidTime(p.time) ==> code == EINVAL
    ensures ValidTime(p.time) && EventOf(p).arrival.None? ==>
              && code == OK && result == ClassOfPacket(p, false) != CLASS_COMPLETE && evicted.None? && tableCode == OK
              && table.View() == old(table.View()) && table.Total() == old(table.Total())
    ensures ValidTime(p.time) && EventOf(p).arrival.Some? ==>
              var a := EventOf(p).arrival.value;
              && Processed(old(table.View()), table.slots.Length, evictWhenFull, a, tableCode, created, evicted,
                           table.View())
              && table.Total().Plus(TallyOfEvicted(evicted)) ==
                 old(table.Total()).Plus(if tableCode == OK then Tally(1, a.captured, a.wire) else NOTHING)
              && code == (if tableCode == ENOSPC && !evictWhenFull then OK else tableCode)
              && (code == OK ==> result == ClassOfPacket(p, tableCode == ENOSPC))
    ensures ValidTime(p.time) && code == OK ==>
              var status := InfoOf(p).status;
              && (result == CLASS_TRUNCATED <==> status == TRUNCATED)
              && (result == CLASS_MALFORMED <==> status == MALFORMED)
              && (result == CLASS_UNSUPPORTED <==> status == UNSUPPORTED || status == NOT_STARTED)
              && (result == CLASS_FLOW_REJECTED <==> status == COMPLETE && !evictWhenFull && tableCode == ENOSPC)
              && (result == CLASS_COMPLETE ==> status == COMPLETE)
  {
    evicted, tableCode, created := None, OK, false;
    var complete, info;
    code, complete, result, info := ParseAndClassify(p);
    ClassMeaning(p, false, result);
    if code != OK || !complete {
      return;
    }
    CompletePacketsArrive(p);
    var slot;
    ghost var inspected;
    code, slot, created, evicted, inspected := table.ProcessPacket(info, evictWhenFull);
    tableCode := code;
    result := CLASS_COMPLETE;
    if code == ENOSPC && !evictWhenFull {
      code, result := OK, CLASS_FLOW_REJECTED;
    }
  }

  // ----- the run ----------------------------------------------------------------------------------------

  function ConfigOf(idle: I64, evictWhenFull: bool): Config {
    Config(FLOW_TABLE_CAPACITY, idle > 0, if idle > 0 then idle * MICROS_PER_SECOND else 0,
           SCAN_INTERVAL_SECONDS * MICROS_PER_SECOND, evictWhenFull)
  }

  /** The local state of the packet loop. */
  class Analysis {
    const cfg: Config
    const table: FlowTable
    const schedule: Schedule
    const metrics: Metrics
    const expired: array<FlowRecord>
    /** Whether a feature CSV is attached. */
    const withFeatures: bool
    /** The records written out so far, in order, and their rows in the feature CSV. */
    var exported: seq<FlowRecord>
    var features: seq<Features>

    /** The objects fit together. */
    ghost predicate Wired()
      reads this, table, table.slots, schedule
    {
      && table.Valid() && schedule.Valid()
      && table.slots.Length == cfg.capacity == expired.Length == FLOW_TABLE_CAPACITY
      && (cfg.expires ==> schedule.Idle() == cfg.idle && schedule.Interval() == cfg.interval)
      && (withFeatures ==> Described(features, exported))
    }

    /** The grand totals cover what is exported and resident, with room for `slack`. */
    ghost predicate Covered(slack: Tally)
      reads this, table, table.slots, metrics
    {
      var t := metrics.totals;
      && t.expired + t.evicted == |exported|
      && |exported| + |table.View()| + slack.packets <= t.packets
      && Fits(table.Total(), slack, t)
      && t.ClassesWithin(t.packets - slack.packets)
    }

    ghost predicate Valid()
      reads this, table, table.slots, schedule, metrics
    {
      Wired() && Covered(NOTHING)
    }

    constructor (idle: I64, evictWhenFull: bool, hash: Hash, withFeatures: bool)
      ensures Wired() && fresh(table) && fresh(table.slots) && fresh(schedule) && fresh(metrics) && fresh(expired)
      ensures cfg == ConfigOf(idle, evictWhenFull) && this.withFeatures == withFeatures
      ensures exported == [] && table.View() == map[] && table.Total() == NOTHING
      ensures schedule.View() == Unset && metrics.totals == NO_TOTALS
    {
      cfg := ConfigOf(idle, evictWhenFull);
      var storage := new Slot[FLOW_TABLE_CAPACITY](_ => CLEARED);
      table := new FlowTable(storage, hash);
      schedule := new Schedule(if idle > 0 then idle else 1, SCAN_INTERVAL_SECONDS);
      metrics := new Metrics();
      expired := new FlowRecord[FLOW_TABLE_CAPACITY](_ => NO_RECORD);
      this.withFeatures := withFeatures;
      exported, features := [], [];
    }

    lemma NothingIsCovered()
      requires Wired() && |exported| == 0 && table.View() == map[] && table.Total() == NOTHING
               && metrics.totals == NO_TOTALS
      ensures Valid()
    {
    }

    /** Adds the rows of `rs` to the feature CSV, if one is attached. */
    method WriteFeatures(rs: seq<FlowRecord>, ghost written: seq<FlowRecord>) returns (code: Errno)
      requires AllOk(rs) && (withFeatures ==> Described(features, written))
      modifies this`features
      ensures code == ExportCode(withFeatures, rs)
      ensures code == OK && withFeatures ==> Described(features, written + rs)
    {
      code := OK;
      if withFeatures {
        var rows;
        code, rows := WriteRows(rs);
        if code == OK {
          features := features + rows;
        }
      }
    }

    /** Writes out records that left the table. */
    method WriteRecords(rs: seq<FlowRecord>) returns (code: Errno)
      requires AllOk(rs) && (withFeatures ==> Described(features, exported))
      modifies this
      ensures code == ExportCode(withFeatures, rs)
      ensures exported == old(exported) + rs
      ensures code == OK && withFeatures ==> Described(features, exported)
    {
      ghost var written := exported;
      exported := exported + rs;
      code := WriteFeatures(rs, written);
    }

    /** Moves the idle flows out of the table; the buffer is as large as the table. */
    method TakeExpired(cutoff: Timestamp) returns (code: Errno, count: nat)
      requires Wired() && ValidTime(cutoff)
      modifies table, table.slots, expired
      ensures code == OK && Wired() && count <= expired.Length
      ensures table.View() == Survivors(old(table.View()), cutoff)
      ensures IsRemoval(old(table.View()), table.View(), expired[..count]) && AllOk(expired[..count])
      ensures table.Total().Plus(TallyOfAll(expired[..count])) == old(table.Total())
    {
      ghost var s := table.slots[..];
      BufferSuffices(s, cutoff);
      EntriesAreOk(s);
      code, count := table.ExpireBefore(cutoff, expired);
      if code == OK {
        RemovedAreOk(Contents(s), table.View(), expired[..count]);
      }
    }

    /** Moves the idle flows out of the table and exports them. */
    method ExportExpired(cutoff: Timestamp, ghost slack: Tally) returns (code: Errno, ghost out: seq<FlowRecord>)
      requires Wired() && Covered(slack) && ValidTime(cutoff)
      modifies this, table, table.slots, metrics, expired
      ensures code == ExportCode(withFeatures, out)
      ensures table.View() == Survivors(old(table.View()), cutoff)
      ensures IsRemoval(old(table.View()), table.View(), out) && AllOk(out)
      ensures table.Total().Plus(TallyOfAll(out)) == old(table.Total())
      ensures code == OK ==>
                && Wired() && Covered(slack) && exported == old(exported) + out
                && metrics.totals == old(metrics.totals).(expired := old(metrics.totals).expired + |out|)
    {
      ghost var m := table.View();
      var count;
      code, count := TakeExpired(cutoff);
      out := expired[..count];
      if code != OK {
        return;
      }
      RemovalSize(m, table.View(), out);
      code := WriteExpired(expired[..count]);
    }

    /** Writes out a batch of expired records and counts them. */
    method WriteExpired(out: seq<FlowRecord>) returns (code: Errno)
      requires AllOk(out) && (withFeatures ==> Described(features, exported))
      requires metrics.totals.expired + |out| <= U64_MAX
      modifies this, metrics
      ensures code == ExportCode(withFeatures, out)
      ensures code == OK ==>
                && exported == old(exported) + out && (withFeatures ==> Described(features, exported))
                && metrics.totals == old(metrics.totals).(expired := old(metrics.totals).expired + |out|)
    {
      code := WriteRecords(out);
      if code == OK {
        code := metrics.AddExpiredFlows(|out|);
      }
    }

    /** Observes the packet time and, when a scan is due, runs it before the
        packet can revive an idle flow. */
    method Scan(p: Packet, ghost slack: Tally) returns (code: Errno, ghost t: Trace)
      requires Wired() && Covered(slack)
      modifies this, table, table.slots, schedule, metrics, expired
      ensures ScanResult(cfg, withFeatures, p, code, old(schedule.View()), schedule.View(), old(table.View()),
                         old(table.Total()), t)
      ensures code == OK ==>
                && Wired() && Covered(slack) && t.scanned == table.View() && t.resident == table.Total()
                && exported == old(exported) + t.expired
                && metrics.totals == old(metrics.totals).(expired := old(metrics.totals).expired + |t.expired|)
    {
      ghost var clock, m, total := schedule.View(), table.View(), table.Total();
      code := OK;
      t := NothingTaken(m, total);
      var due, cutoff := false, Timestamp(0, 0);
      if cfg.expires {
        code, due, cutoff := schedule.Observe(p.time);
        if code != OK {
          return;
        }
      }
      if due {
        ghost var out;
        code, out := ExportExpired(cutoff, slack);
        t := t.(cutoff := cutoff, expired := out, scanned := table.View(), resident := table.Total());
        DueScan(cfg, withFeatures, p, code, clock, schedule.View(), m, total, t);
      } else {
        NoScan(cfg, withFeatures, p, clock, schedule.View(), m, total, t);
      }
    }

    /** Parses the packet and counts it into the table. */
    method Aggregate(p: Packet, ghost t: Trace)
      returns (code: Errno, result: PacketClass, evicted: Option<FlowRecord>, ghost t': Trace)
      requires Wired() && Fits(table.Total(), Tally(1, |p.data|, p.wire), metrics.totals)
      requires t.scanned == table.View() && t.resident == table.Total()
      modifies table, table.slots
      ensures code == if ValidTime(p.time) then OK else EINVAL
      ensures code == OK ==>
                && Wired()
                && t' == t.(tableCode := t'.tableCode, created := t'.created, evicted := evicted, result := result)
                && AdmitOk(cfg, p, t', table.View(), table.Total())
                && |table.View()| + |ExportOf(evicted)| <= |old(table.View())| + 1
    {
      ghost var tableCode, created;
      ghost var m, total := table.View(), table.Total();
      EntriesAreOk(table.slots[..]);
      EntriesWithinTotal(table.slots[..]);
      code, result, evicted, tableCode, created := ProcessPacket(p, cfg.evictWhenFull, table);
      t' := t.(tableCode := tableCode, created := created, evicted := evicted, result := result);
      if ValidTime(p.time) && EventOf(p).arrival.Some? {
        CompletePacketsArrive(p);
        ProcessedFits(p, m, total, cfg.capacity, cfg.evictWhenFull, tableCode, created, evicted, table.View(),
                      metrics.totals);
        ProcessedSize(m, cfg.capacity, cfg.evictWhenFull, EventOf(p).arrival.value, tableCode, created, evicted,
                      table.View());
      }
    }

    /** Counts the packet, exports the record it displaced, and records its result. */
    method Admit(p: Packet, ghost t: Trace) returns (code: Errno, ghost t': Trace)
      requires Wired() && Covered(Tally(1, |p.data|, p.wire))
      requires t.scanned == table.View() && t.resident == table.Total()
      modifies this, table, table.slots, metrics
      ensures schedule.View() == old(schedule.View())
      ensures AdmitResult(cfg, withFeatures, p, code, t, t', table.View(), table.Total())
      ensures code == OK ==>
                && Valid() && t'.expired == t.expired && exported == old(exported) + ExportOf(t'.evicted)
                && TotalsCount(old(metrics.totals), metrics.totals, t'.result, 0, |ExportOf(t'.evicted)|)
    {
      var result, evicted;
      code, result, evicted, t' := Aggregate(p, t);
      if code != OK {
        return;
      }
      AdmitFits(cfg, p, t', table.View(), table.Total(), metrics.totals);
      code := Publish(evicted, result);
    }

    /** Exports what the packet displaced and counts its result. */
    method Publish(evicted: Option<FlowRecord>, result: PacketClass) returns (code: Errno)
      requires Wired() && metrics.totals.expired + metrics.totals.evicted == |exported| && AllOk(ExportOf(evicted))
      requires |exported| + |table.View()| + |ExportOf(evicted)| <= metrics.totals.packets
      requires Fits(table.Total(), NOTHING, metrics.totals) && metrics.totals.ClassesWithin(metrics.totals.packets - 1)
      modifies this, metrics
      ensures code == ExportCode(withFeatures, ExportOf(evicted))
      ensures code == OK ==>
                && Valid() && exported == old(exported) + ExportOf(evicted)
                && TotalsCount(old(metrics.totals), metrics.totals, result, 0, |ExportOf(evicted)|)
    {
      code := ExportEvicted(evicted);
      if code != OK {
        return;
      }
      ghost var written := metrics.totals;
      code := CountResult(result);
      CountsOfEviction(old(metrics.totals), written, metrics.totals, result, |ExportOf(evicted)|);
    }

    method CountResult(result: PacketClass) returns (code: Errno)
      requires Wired() && metrics.totals.expired + metrics.totals.evicted == |exported|
      requires |exported| + |table.View()| <= metrics.totals.packets
      requires Fits(table.Total(), NOTHING, metrics.totals) && metrics.totals.ClassesWithin(metrics.totals.packets - 1)
      modifies metrics
      ensures code == OK && Valid() && TotalsCount(old(metrics.totals), metrics.totals, result, 0, 0)
    {
      ghost var before := metrics.totals;
      code := metrics.AddPacketResult(result);
      before.OneMore(metrics.totals, result, before.packets);
    }

    /** Writes out the record that the packet displaced, if any. */
    method ExportEvicted(evicted: Option<FlowRecord>) returns (code: Errno)
      requires AllOk(ExportOf(evicted)) && (withFeatures ==> Described(features, exported))
      requires metrics.totals.evicted + |ExportOf(evicted)| <= U64_MAX
      modifies this, metrics
      ensures code == ExportCode(withFeatures, ExportOf(evicted))
      ensures code == OK ==>
                && exported == old(exported) + ExportOf(evicted) && (withFeatures ==> Described(features, exported))
                && metrics.totals == old(metrics.totals).(evicted := old(metrics.totals).evicted + |ExportOf(evicted)|)
    {
      code := OK;
      if evicted.Some? {
        code := WriteRecords([evicted.value]);
        if code == OK {
          code := metrics.AddEvictedFlows(1);
        }
      }
    }

    /** Adds the packet to the grand totals, before anything else happens to it. */
    method CountPacket(p: Packet) returns (code: Errno)
      requires Valid()
      modifies metrics
      ensures var t := old(metrics.totals);
              && code == (if t.packets + 1 <= U64_MAX && t.captured + |p.data| <= U64_MAX && t.wire + p.wire <= U64_MAX
                          then OK else EOVERFLOW)
              && (code == OK ==>
                    && Wired() && Covered(Tally(1, |p.data|, p.wire))
                    && metrics.totals
                       == t.(packets := t.packets + 1, captured := t.captured + |p.data|, wire := t.wire + p.wire))
    {
      code := metrics.AddPacket(|p.data|, p.wire);
    }

    /** The scan that may precede the packet, and then the packet itself. */
    method ScanAndAdmit(p: Packet) returns (code: Errno, ghost t: Trace)
      requires Wired() && Covered(Tally(1, |p.data|, p.wire))
      modifies this, table, table.slots, schedule, metrics, expired
      ensures var base := if ValidTime(p.time) then ScanCode(cfg, old(schedule.View()), p) else EINVAL;
              PassResult(cfg, withFeatures, p, base, code, old(schedule.View()), schedule.View(), old(table.View()),
                         old(table.Total()), t, table.View(), table.Total())
      ensures code == OK ==>
                && Valid() && exported == old(exported) + Exports(t)
                && TotalsCount(old(metrics.totals), metrics.totals, t.result, |t.expired|, |ExportOf(t.evicted)|)
    {
      code, t := Scan(p, Tally(1, |p.data|, p.wire));
      if code != OK {
        ScanOnly(cfg, withFeatures, p, code, old(schedule.View()), schedule.View(), old(table.View()),
                 old(table.Total()), t, table.View(), table.Total());
        return;
      }
      ghost var scan, scanned := t, metrics.totals;
      code, t := Admit(p, t);
      ScanThenAdmit(cfg, withFeatures, p, code, old(schedule.View()), schedule.View(), old(table.View()),
                    old(table.Total()), scan, t, table.View(), table.Total());
      if code == OK {
        CountsOfBoth(old(metrics.totals), scanned, metrics.totals, t.result, |t.expired|, |ExportOf(t.evicted)|);
        ExportsInOrder(old(exported), t);
      }
    }

    /** One pass of the packet loop. */
    method Step(p: Packet) returns (code: Errno, ghost t: Trace)
      requires Valid()
      modifies this, table, table.slots, schedule, metrics, expired
      ensures PassResult(cfg, withFeatures, p, StepCode(cfg, old(metrics.totals), old(schedule.View()), p), code,
                         old(schedule.View()), schedule.View(), old(table.View()), old(table.Total()),
                         t, table.View(), table.Total())
      ensures code == OK ==>
                && Valid() && exported == old(exported) + Exports(t)
                && TotalsStep(old(metrics.totals), metrics.totals, p, t)
    {
      t := NothingTaken(table.View(), table.Total());
      code := CountPacket(p);
      if code == OK {
        ghost var counted := metrics.totals;
        code, t := ScanAndAdmit(p);
        if code == OK {
          CountsOfPass(old(metrics.totals), counted, metrics.totals, p, t);
        }
      }
    }
  }

  lemma BufferSuffices(s: seq<Slot>, cutoff: Timestamp)
    requires DistinctKeys(s)
    ensures |Contents(s)| - |Survivors(Contents(s), cutoff)| <= |s|
  {
    CountEntries(s);
  }

  /** Writes out what is still resident, by logical index. */
  method Sweep(table: FlowTable) returns (residents: seq<FlowRecord>)
    requires table.Valid()
    ensures residents == Residents(table.slots[..])
  {
    residents := [];
    var i := 0;
    while i < table.count
      invariant 0 <= i <= table.count
      invariant residents == Residents(table.slots[..])[..i]
    {
      var code, record := table.Get(i);
      if code != OK {
        break;
      }
      residents := residents + [record];
      i := i + 1;
    }
  }

  /** The loop state before the first packet. */
  method Open(idle: I64, evictWhenFull: bool, hash: Hash, withFeatures: bool, ghost ps: seq<Packet>)
    returns (a: Analysis, ghost log: Log)
    ensures fresh(a) && fresh(a.table) && fresh(a.table.slots) && fresh(a.schedule) && fresh(a.metrics)
            && fresh(a.expired)
    ensures a.Valid() && a.cfg == ConfigOf(idle, evictWhenFull) && a.withFeatures == withFeatures && |log.states| == 1
    ensures LogOk(a.cfg, ps, 0, log.states[0], log, a.exported, a.table.View(), a.table.Total())
    ensures CountsOk(a.cfg, ps, 0, log.states[0], log.classes, a.metrics.totals, a.schedule.View())
    ensures ExportsCounted(a.cfg, EventsOf(ps), log, a.metrics.totals)
  {
    a := new Analysis(idle, evictWhenFull, hash, withFeatures);
    a.NothingIsCovered();
    log := OPENING;
    OpeningIsOk(a.cfg, ps);
    OpeningCounts(a.cfg, ps, [], a.metrics.totals, a.schedule.View());
    OpeningExports(a.cfg, EventsOf(ps), a.metrics.totals);
  }

  /** The packet loop.  If it meets a record without features it stops; `log` is
      then some run over the whole capture that goes on from there. */
  method AnalyzePackets(a: Analysis, ps: seq<Packet>, ghost opening: Log) returns (code: Errno, ghost log: Log)
    requires a.Valid() && |opening.states| == 1
    requires LogOk(a.cfg, ps, 0, opening.states[0], opening, a.exported, a.table.View(), a.table.Total())
    requires CountsOk(a.cfg, ps, 0, opening.states[0], opening.classes, a.metrics.totals, a.schedule.View())
    requires ExportsCounted(a.cfg, EventsOf(ps), opening, a.metrics.totals)
    modifies a, a.table, a.table.slots, a.schedule, a.metrics, a.expired
    ensures code == OK ==>
              && Completes(a.cfg, ps) && a.Valid() && |log.states| == |ps| + 1
              && LogOk(a.cfg, ps, |ps|, log.states[|ps|], log, a.exported, a.table.View(), a.table.Total())
              && TotalsOk(ps, log.classes, a.metrics.totals)
              && ExportsCounted(a.cfg, EventsOf(ps), log, a.metrics.totals)
    ensures code != OK && Completes(a.cfg, ps) ==>
              a.withFeatures && FullRun(a.cfg, ps, log) && !AllFit(EventsOf(ps), log.states[|ps|].lifetimes)
    ensures code != OK && !a.withFeatures ==> exists n: nat :: StopsAt(a.cfg, ps, n, code)
  {
    log := opening;
    code := OK;
    var n := 0;
    while n < |ps|
      invariant 0 <= n <= |ps| && |log.states| == n + 1 && a.Valid() && code == OK
      invariant LogOk(a.cfg, ps, n, log.states[n], log, a.exported, a.table.View(), a.table.Total())
      invariant CountsOk(a.cfg, ps, n, log.states[n], log.classes, a.metrics.totals, a.schedule.View())
      invariant ExportsCounted(a.cfg, EventsOf(ps), log, a.metrics.totals)
    {
      ghost var exported, clock, view, total, totals :=
        a.exported, a.schedule.View(), a.table.View(), a.table.Total(), a.metrics.totals;
      ghost var t;
      code, t := a.Step(ps[n]);
      log := AfterPass(a.cfg, a.withFeatures, ps, n, log, exported, clock, a.schedule.View(), view, total, t,
                       a.table.View(), a.table.Total(), totals, a.metrics.totals, code);
      if code != OK {
        return;
      }
      n := n + 1;
    }
    assert ps[..n] == ps;
  }

  /** What the caller's own arguments say about the counters of a completed run. */
  lemma ArgumentsDecide(ps: seq<Packet>, idle: I64, evictWhenFull: bool, log: Log, exported: seq<FlowRecord>,
                        residents: seq<FlowRecord>, lifetimes: seq<Lifetime>, totals: Totals)
    requires Accounted(ConfigOf(idle, evictWhenFull), ps, log, exported + residents, lifetimes, totals)
    requires Departed(ConfigOf(idle, evictWhenFull), ps, log, exported, totals)
    requires ResidentsAreLive(log.states[|ps|], log.closed, residents, lifetimes)
    ensures !evictWhenFull ==> totals.evicted == 0
    ensures evictWhenFull ==> totals.flowRejected == 0
    ensures idle <= 0 ==> totals.expired == 0
    ensures totals.expired + totals.evicted == |exported| && |residents| <= 256
  {
    var cfg := ConfigOf(idle, evictWhenFull);
    PolicyCounts(cfg, ps, log, exported, totals);
    CountersMeaning(cfg, ps, log, exported + residents, lifetimes, totals);
    RunIsSound(cfg, EventsOf(ps), log.victims, log.states, |ps|);
    KeysCount(residents);
    if evictWhenFull {
      NeverRejected(cfg, EventsOf(ps), log.victims, log.states, |ps|);
    }
  }

  /** A whole run over a packet list.  Without a feature CSV it stops early exactly
      if the capture does not fit the counters, carries an invalid time, or asks
      for a scan cutoff that cannot be represented; with one it also stops if some
      lifetime's record has no features.  Otherwise its exports and the final sweep
      account for every lifetime, every departure and every counted byte. */
  method RunCaptureAnalysis(ps: seq<Packet>, idle: I64, evictWhenFull: bool, hash: Hash, withFeatures: bool)
    returns (code: Errno, exported: seq<FlowRecord>, residents: seq<FlowRecord>, features: seq<Features>,
             totals: Totals, ghost log: Log, ghost lifetimes: seq<Lifetime>)
    ensures code == OK ==> Completes(ConfigOf(idle, evictWhenFull), ps)
    ensures Completes(ConfigOf(idle, evictWhenFull), ps) ==>
              && FullRun(ConfigOf(idle, evictWhenFull), ps, log)
              && (code == OK <==> (withFeatures ==> AllFit(EventsOf(ps), log.states[|ps|].lifetimes)))
    ensures code == OK ==>
              && Accounted(ConfigOf(idle, evictWhenFull), ps, log, exported + residents, lifetimes, totals)
              && Departed(ConfigOf(idle, evictWhenFull), ps, log, exported, totals)
              && ResidentsAreLive(log.states[|ps|], log.closed, residents, lifetimes)
              && (withFeatures ==> Described(features, exported + residents))
    ensures code == OK ==>
              && totals.packets == |ps| && totals.captured == CapturedBytes(ps) && totals.wire == WireBytes(ps)
              && totals.truncated == |WithStatus(ps, TRUNCATED)| && totals.malformed == |WithStatus(ps, MALFORMED)|
              && totals.unsupported == |WithStatus(ps, UNSUPPORTED) + WithStatus(ps, NOT_STARTED)|
              && totals.flowRejected == |log.states[|ps|].rejected|
              && totals.complete == |WithStatus(ps, COMPLETE) - log.states[|ps|].rejected|
    ensures code == OK ==>
              && (!evictWhenFull ==> totals.evicted == 0) && (evictWhenFull ==> totals.flowRejected == 0)
              && (idle <= 0 ==> totals.expired == 0)
              && totals.expired + totals.evicted == |exported| && |residents| <= 256
    ensures (code == OK ==> RunsThrough(ps, idle)) && (RunsThrough(ps, idle) && !withFeatures ==> code == OK)
    ensures code != OK && !withFeatures ==> exists n: nat :: BreaksAt(ps, idle, n, code)
  {
    var a;
    a, log := Open(idle, evictWhenFull, hash, withFeatures, ps);
    code, log := AnalyzePackets(a, ps, log);
    CompletesMeaning(a.cfg, idle, ps);
    if code != OK && !withFeatures {
      ghost var n: nat :| StopsAt(a.cfg, ps, n, code);
      StopsMeaning(a.cfg, idle, ps, n, code);
    }
    exported, residents, features, totals := a.exported, [], [], a.metrics.totals;
    lifetimes := [];
    if code == OK {
      residents := Sweep(a.table);
      lifetimes := Closing(a.cfg, ps, log, exported, a.table.slots[..], totals);
      ClosingDepartures(a.cfg, ps, log, exported, a.table.View(), a.table.Total(), totals);
      LastRowsFit(withFeatures, EventsOf(ps), log.states[|ps|].lifetimes, lifetimes, exported, residents, a.features);
      CountersMeaning(a.cfg, ps, log, exported + residents, lifetimes, totals);
      ArgumentsDecide(ps, idle, evictWhenFull, log, exported, residents, lifetimes, totals);
      code := a.WriteFeatures(residents, exported);
      features := a.features;
    }
  }
}
