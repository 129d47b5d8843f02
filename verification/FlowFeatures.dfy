/** The integer features of a flow record.  The ratios are floating point and
    are not part of this model. */
module FlowFeatures {
  import opened Machine
  import opened Timestamps
  import opened PacketInfo
  import opened FlowKey
  import opened TcpFlowState
  import opened FlowRecord
  import opened OpenAddressing
  import opened Engine
  import opened RuntimeMetrics
  import opened CaptureLedger
  import opened CaptureRun

  datatype Features = Features(
    protocol: U8, duration: U64, packets: U64, captured: U64, wire: U64,
    tcpPhase: Phase, tcpStateApplicable: bool, handshakeCompleted: bool)

  predicate DirectionStatsValid(s: DirectionStats) {
    && !(s.packets == 0 && (s.captured != 0 || s.wire != 0))
    && s.captured <= s.wire
  }

  method AddUint64(left: U64, right: U64) returns (code: Errno, sum: U64)
    ensures code == if left + right > U64_MAX then EOVERFLOW else OK
    ensures code == OK ==> sum == left + right
  {
    if right > U64_MAX - left {
      return EOVERFLOW, 0;
    }
    return OK, left + right;
  }

  /** The exact difference in microseconds, without ever leaving 64 bits on the way. */
  method CalculateDuration(first: Timestamp, last: Timestamp) returns (code: Errno, duration: U64)
    ensures code == if !ValidTime(first) || !ValidTime(last) || Micros(first) > Micros(last) then EINVAL
                    else if Micros(last) - Micros(first) > U64_MAX then EOVERFLOW
                    else OK
    ensures code == OK ==> duration == Micros(last) - Micros(first)
  {
    duration := 0;
    if !ValidTime(first) || !ValidTime(last) {
      return EINVAL, duration;
    }
    if Compare(first, last) > 0 {
      return EINVAL, duration;
    }
    var seconds: U64 := last.seconds as int - first.seconds;
    var micros: U64 := 0;
    if last.microseconds < first.microseconds {
      if seconds == 0 {
        return EINVAL, duration;
      }
      seconds := seconds - 1;
      micros := MICROS_PER_SECOND - first.microseconds as int + last.microseconds;
    } else {
      micros := last.microseconds as int - first.microseconds;
    }
    Limit(seconds, micros);
    if seconds > (U64_MAX - micros) / MICROS_PER_SECOND {
      return EOVERFLOW, duration;
    }
    duration := seconds as int * MICROS_PER_SECOND + micros;
    return OK, duration;
  }

  lemma Limit(seconds: nat, micros: nat)
    requires micros <= U64_MAX
    ensures seconds > (U64_MAX - micros) / MICROS_PER_SECOND <==> seconds * MICROS_PER_SECOND + micros > U64_MAX
  {
  }

  /** A record whose bookkeeping the feature extraction accepts. */
  predicate Accepted(r: FlowRecord) {
    && r.initialized && r.key.protocol in {PROTOCOL_TCP, PROTOCOL_UDP, PROTOCOL_ICMP}
    && (r.tcpState.initialized <==> r.key.protocol == PROTOCOL_TCP)
    && DirectionStatsValid(r.aToB) && DirectionStatsValid(r.bToA)
    && r.aToB.packets + r.bToA.packets > 0
    && ValidTime(r.firstSeen) && ValidTime(r.lastSeen) && Micros(r.firstSeen) <= Micros(r.lastSeen)
  }

  /** The features that an accepted record has, if they fit 64 bits. */
  predicate Overflows(r: FlowRecord) {
    || !Within(TallyOf(r), Tally(U64_MAX, U64_MAX, U64_MAX))
    || Micros(r.lastSeen) - Micros(r.firstSeen) > U64_MAX
  }

  /** What extraction answers for `r`: the structural checks come first, then the
      sums, then the times. */
  function FeatureCode(r: FlowRecord): Errno {
    if !r.initialized then EINVAL
    else if r.key.protocol !in {PROTOCOL_TCP, PROTOCOL_UDP, PROTOCOL_ICMP} then ENOTSUP
    else if !(r.tcpState.initialized <==> r.key.protocol == PROTOCOL_TCP) then EINVAL
    else if !DirectionStatsValid(r.aToB) || !DirectionStatsValid(r.bToA) || TallyOf(r).packets == 0 then EINVAL
    else if !Within(TallyOf(r), Tally(U64_MAX, U64_MAX, U64_MAX)) then EOVERFLOW
    else if !ValidTime(r.firstSeen) || !ValidTime(r.lastSeen) || Micros(r.firstSeen) > Micros(r.lastSeen) then EINVAL
    else if Micros(r.lastSeen) - Micros(r.firstSeen) > U64_MAX then EOVERFLOW
    else OK
  }

  predicate HasFeatures(r: FlowRecord) {
    Accepted(r) && !Overflows(r)
  }

  /** `f` are the features of `r`. */
  predicate Describes(f: Features, r: FlowRecord) {
    && Tally(f.packets, f.captured, f.wire) == TallyOf(r) && f.protocol == r.key.protocol
    && f.duration == Micros(r.lastSeen) - Micros(r.firstSeen)
    && f.tcpStateApplicable == (r.key.protocol == PROTOCOL_TCP)
    && f.tcpPhase == (if f.tcpStateApplicable then r.tcpState.phase else UNOBSERVED)
    && f.handshakeCompleted == (f.tcpStateApplicable && r.tcpState.handshakeCompleted)
  }

  method FromRecord(r: FlowRecord) returns (code: Errno, f: Features)
    requires r.aToB.InRange() && r.bToA.InRange()
    ensures code == FeatureCode(r)
    ensures code == OK <==> HasFeatures(r)
    ensures Accepted(r) && Overflows(r) ==> code == EOVERFLOW
    ensures code == OK ==> Describes(f, r)
    ensures !r.initialized ==> code == EINVAL
    ensures code == ENOTSUP <==> r.initialized && r.key.protocol !in {1, 6, 17}
    ensures code == OK || code == ENOTSUP || code == EINVAL || code == EOVERFLOW
    ensures code == OK ==>
              && f.protocol == r.key.protocol && f.packets == r.aToB.packets + r.bToA.packets > 0
              && f.captured == r.aToB.captured + r.bToA.captured && f.wire == r.aToB.wire + r.bToA.wire
              && f.duration == Micros(r.lastSeen) - Micros(r.firstSeen)
              && (if r.key.protocol == 6 then
                    f.tcpStateApplicable && f.tcpPhase == r.tcpState.phase
                    && f.handshakeCompleted == r.tcpState.handshakeCompleted
                  else !f.tcpStateApplicable && f.tcpPhase == UNOBSERVED && !f.handshakeCompleted)
    ensures RecordOk(r) ==>
              (code == EINVAL <==> r.aToB.captured > r.aToB.wire || r.bToA.captured > r.bToA.wire
                                   || (r.aToB.packets == 0 && r.aToB.wire > 0)
                                   || (r.bToA.packets == 0 && r.bToA.wire > 0))
  {
    f := Features(0, 0, 0, 0, 0, UNOBSERVED, false, false);
    if !r.initialized {
      return EINVAL, f;
    }
    if r.key.protocol == PROTOCOL_TCP {
      if !r.tcpState.initialized {
        return EINVAL, f;
      }
    } else if r.key.protocol == PROTOCOL_UDP || r.key.protocol == PROTOCOL_ICMP {
      if r.tcpState.initialized {
        return EINVAL, f;
      }
    } else {
      return ENOTSUP, f;
    }
    if !DirectionStatsValid(r.aToB) || !DirectionStatsValid(r.bToA) {
      return EINVAL, f;
    }
    var packets, captured, wire, duration;
    code, packets := AddUint64(r.aToB.packets, r.bToA.packets);
    if code != OK {
      return;
    }
    if packets == 0 {
      return EINVAL, f;
    }
    code, captured := AddUint64(r.aToB.captured, r.bToA.captured);
    if code != OK {
      return;
    }
    code, wire := AddUint64(r.aToB.wire, r.bToA.wire);
    if code != OK {
      return;
    }
    code, duration := CalculateDuration(r.firstSeen, r.lastSeen);
    if code != OK {
      return;
    }
    f := Features(r.key.protocol, duration, packets, captured, wire, UNOBSERVED, false, false);
    if r.key.protocol == PROTOCOL_TCP {
      f := f.(tcpPhase := r.tcpState.phase, tcpStateApplicable := true,
              handshakeCompleted := r.tcpState.handshakeCompleted);
    }
  }

  // ----- writing features ---------------------------------------------------------------------------

  /** What the CSV writer checks before it writes a row; features of a record always pass. */
  predicate Writable(f: Features) {
    && f.protocol in {PROTOCOL_TCP, PROTOCOL_UDP, PROTOCOL_ICMP}
    && f.tcpStateApplicable == (f.protocol == PROTOCOL_TCP)
    && (!f.tcpStateApplicable ==> f.tcpPhase == UNOBSERVED && !f.handshakeCompleted)
    && f.packets > 0 && f.captured <= f.wire
  }

  /** The first error among the records, in order. */
  function FirstCode(rs: seq<FlowRecord>): Errno {
    if rs == [] then OK
    else
      var before := FirstCode(rs[..|rs| - 1]);
      if before != OK then before else FeatureCode(rs[|rs| - 1])
  }

  /** One row for each record. */
  predicate Described(fs: seq<Features>, rs: seq<FlowRecord>) {
    |fs| == |rs| && forall x :: 0 <= x < |rs| ==> HasFeatures(rs[x]) && Describes(fs[x], rs[x])
  }

  lemma FeatureCodeMeaning(r: FlowRecord)
    ensures FeatureCode(r) == OK <==> HasFeatures(r)
  {
  }

  lemma {:induction false} FirstCodeMeaning(rs: seq<FlowRecord>)
    ensures FirstCode(rs) == OK <==> forall x :: 0 <= x < |rs| ==> HasFeatures(rs[x])
  {
    if rs != [] {
      FirstCodeMeaning(rs[..|rs| - 1]);
      FeatureCodeMeaning(rs[|rs| - 1]);
    }
  }

  lemma {:induction false} FirstCodeAppends(rs: seq<FlowRecord>, more: seq<FlowRecord>)
    ensures FirstCode(rs + more) == if FirstCode(rs) != OK then FirstCode(rs) else FirstCode(more)
  {
    if more == [] {
      assert rs + more == rs;
    } else {
      var k := |more| - 1;
      assert (rs + more)[..|rs| + k] == rs + more[..k];
      FirstCodeAppends(rs, more[..k]);
    }
  }

  lemma FirstCodeUpTo(rs: seq<FlowRecord>, i: nat)
    requires i < |rs| && FirstCode(rs[..i]) == OK
    ensures FirstCode(rs[..i + 1]) == FeatureCode(rs[i])
    ensures FeatureCode(rs[i]) != OK ==> FirstCode(rs) == FeatureCode(rs[i])
  {
    assert rs[..i + 1][..i] == rs[..i];
    assert rs == rs[..i + 1] + rs[i + 1..];
    FirstCodeAppends(rs[..i + 1], rs[i + 1..]);
  }

  /** One row, once the writer has checked it. */
  method WriteRow(r: FlowRecord) returns (code: Errno, f: Features)
    requires r.aToB.InRange() && r.bToA.InRange()
    ensures code == FeatureCode(r)
    ensures code == OK ==> HasFeatures(r) && Describes(f, r)
  {
    code, f := FromRecord(r);
    if code == OK && !Writable(f) {
      code := EINVAL;
    }
  }

  /** The rows for `rs`, or the first error. */
  method WriteRows(rs: seq<FlowRecord>) returns (code: Errno, fs: seq<Features>)
    requires AllOk(rs)
    ensures code == FirstCode(rs)
    ensures code == OK ==> Described(fs, rs)
  {
    code, fs := OK, [];
    var i := 0;
    while i < |rs|
      invariant 0 <= i <= |rs| && code == OK == FirstCode(rs[..i]) && Described(fs, rs[..i])
    {
      var f;
      code, f := WriteRow(rs[i]);
      FirstCodeUpTo(rs, i);
      if code != OK {
        return;
      }
      fs := fs + [f];
      i := i + 1;
    }
    assert rs[..i] == rs;
  }

  // ----- the records of a run -------------------------------------------------------------------------

  ghost predicate CapturedWithinWire(qs: seq<Arrival>) {
    forall i :: 0 <= i < |qs| ==> qs[i].captured <= qs[i].wire
  }

  lemma {:induction false} StatsAreValid(qs: seq<Arrival>, d: Direction)
    requires CapturedWithinWire(qs)
    ensures DirectionStatsValid(StatsOf(qs, d))
  {
    if qs != [] {
      StatsAreValid(qs[..|qs| - 1], d);
    }
  }

  /** If no packet was captured longer than it was on the wire, no record that a
      completed run wrote or kept is rejected; only a time span beyond 2^64 - 1
      microseconds keeps its features from being computed. */
  lemma RunRecordsHaveFeatures(cfg: Config, ps: seq<Packet>, log: Log, records: seq<FlowRecord>,
                               lifetimes: seq<Lifetime>, totals: Totals, x: nat)
    requires Accounted(cfg, ps, log, records, lifetimes, totals) && Completes(cfg, ps) && x < |records|
    requires cfg.capacity > 0 && forall i :: 0 <= i < |ps| ==> |ps[i].data| <= ps[i].wire
    ensures Accepted(records[x])
    ensures Overflows(records[x]) <==> Micros(records[x].lastSeen) - Micros(records[x].firstSeen) > U64_MAX
  {
    RunRecordIsSummary(cfg, ps, log, records, lifetimes, totals, x);
    LifetimeRecordFits(ps, lifetimes[x], records[x]);
    RunRecordFits(cfg, ps, log, records, lifetimes, totals, x);
  }

  lemma RunRecordIsSummary(cfg: Config, ps: seq<Packet>, log: Log, records: seq<FlowRecord>, lifetimes: seq<Lifetime>,
                           totals: Totals, x: nat)
    requires Accounted(cfg, ps, log, records, lifetimes, totals) && x < |records| && cfg.capacity > 0
    ensures x < |lifetimes| && Whole(EventsOf(ps), lifetimes[x], |ps|)
            && records[x] == RecordOf(EventsOf(ps), lifetimes[x])
  {
    LedgerEntry(EventsOf(ps), log.states[|ps|].lifetimes, lifetimes, records, x);
    LifetimeIsWhole(cfg, EventsOf(ps), log.victims, log.states, |ps|, lifetimes[x]);
  }

  lemma RunRecordFits(cfg: Config, ps: seq<Packet>, log: Log, records: seq<FlowRecord>, lifetimes: seq<Lifetime>,
                      totals: Totals, x: nat)
    requires Accounted(cfg, ps, log, records, lifetimes, totals) && Completes(cfg, ps) && x < |records|
    ensures RecordOk(records[x]) && Within(TallyOf(records[x]), Tally(U64_MAX, U64_MAX, U64_MAX))
  {
    AcceptedWithinAll(ps, log.classes);
    RecordWithinAll(records, x);
  }

  lemma LifetimeRecordFits(ps: seq<Packet>, l: Lifetime, r: FlowRecord)
    requires forall i :: 0 <= i < |ps| ==> |ps[i].data| <= ps[i].wire
    requires Whole(EventsOf(ps), l, |ps|) && r == RecordOf(EventsOf(ps), l)
    ensures DirectionStatsValid(r.aToB) && DirectionStatsValid(r.bToA)
  {
    var qs := Arrivals(EventsOf(ps), l);
    LifetimeFits(ps, l);
    StatsAreValid(qs, A_TO_B);
    StatsAreValid(qs, B_TO_A);
  }

  lemma LifetimeFits(ps: seq<Packet>, l: Lifetime)
    requires forall i :: 0 <= i < |ps| ==> |ps[i].data| <= ps[i].wire
    requires AllArrive(EventsOf(ps), l)
    ensures CapturedWithinWire(Arrivals(EventsOf(ps), l))
  {
    var es := EventsOf(ps);
    forall i | 0 <= i < |l|
      ensures ArrivalAt(es, l[i]).captured <= ArrivalAt(es, l[i]).wire
    {
      assert Arrives(es, l[i]);
      CompletePacketsArrive(ps[l[i]]);
    }
  }

  lemma {:induction false} RecordWithinAll(rs: seq<FlowRecord>, x: nat)
    requires x < |rs|
    ensures Within(TallyOf(rs[x]), TallyOfAll(rs))
  {
    if x < |rs| - 1 {
      RecordWithinAll(rs[..|rs| - 1], x);
    }
  }
}
