/** Reversing a whole capture: the analysis counts the same and exports and keeps
    the mirrored records. */
module MirroredCaptures {
  import opened Machine
  import opened Timestamps
  import opened PacketInfo
  import opened FrameFormat
  import opened FlowKey
  import opened FlowRecord
  import opened OpenAddressing
  import opened Engine
  import opened RuntimeMetrics
  import opened CaptureLedger
  import opened Departures
  import opened CaptureRun
  import opened FlowFeatures
  import opened FeatureRun
  import opened Determinism
  import opened App
  import opened MirroredFrames
  import opened Mirroring

  // ----- the packets ----------------------------------------------------------------------------

  function MirrorCaptured(p: Packet): Packet {
    p.(data := MirrorFrame(p.data))
  }

  /** The capture with source and destination exchanged in every complete packet. */
  function MirrorCapture(ps: seq<Packet>): (qs: seq<Packet>)
    ensures |qs| == |ps| && forall i :: 0 <= i < |ps| ==> qs[i] == MirrorCaptured(ps[i])
  {
    seq(|ps|, i requires 0 <= i < |ps| => MirrorCaptured(ps[i]))
  }

  lemma PacketMirrors(p: Packet)
    ensures EventOf(MirrorCaptured(p)) == MirrorEvent(EventOf(p))
    ensures ClassOf(InfoOf(MirrorCaptured(p))) == ClassOf(InfoOf(p))
  {
    var info := InfoOf(p);
    FrameMirrors(p.data, p.time, |p.data|, p.wire);
    if info.status == COMPLETE && ValidTime(p.time) {
      CompletePacketsArrive(p);
      MirrorPacketReverses(info);
    }
  }

  lemma EventsMirror(ps: seq<Packet>)
    ensures EventsOf(MirrorCapture(ps)) == MirrorEvents(EventsOf(ps))
  {
    forall i | 0 <= i < |ps|
      ensures EventOf(MirrorCapture(ps)[i]) == MirrorEvent(EventsOf(ps)[i])
    {
      PacketMirrors(ps[i]);
    }
  }

  lemma ClassesMirror(ps: seq<Packet>, rejected: set<nat>, classes: seq<PacketClass>)
    requires ClassesMatch(ps, rejected, classes)
    ensures ClassesMatch(MirrorCapture(ps), rejected, classes)
  {
    forall i | 0 <= i < |classes|
      ensures classes[i] == ClassOfPacket(MirrorCapture(ps)[i], i in rejected)
    {
      PacketMirrors(ps[i]);
    }
  }

  lemma {:induction false} TalliesMirror(ps: seq<Packet>)
    ensures TallyOfPackets(MirrorCapture(ps)) == TallyOfPackets(ps)
  {
    if ps != [] {
      var n := |ps| - 1;
      assert MirrorCapture(ps)[..n] == MirrorCapture(ps[..n]);
      TalliesMirror(ps[..n]);
    }
  }

  lemma {:induction false} AcceptedMirrors(ps: seq<Packet>, classes: seq<PacketClass>)
    requires |classes| == |ps|
    ensures AcceptedTally(MirrorCapture(ps), classes) == AcceptedTally(ps, classes)
  {
    if ps != [] {
      var n := |ps| - 1;
      assert MirrorCapture(ps)[..n] == MirrorCapture(ps[..n]);
      AcceptedMirrors(ps[..n], classes[..n]);
    }
  }

  lemma CompletesMirrors(cfg: Config, ps: seq<Packet>)
    ensures Completes(cfg, MirrorCapture(ps)) <==> Completes(cfg, ps)
  {
    TalliesMirror(ps);
    assert MicrosOf(MirrorCapture(ps)) == MicrosOf(ps);
    assert forall i :: 0 <= i < |ps| ==> ps[i].time == MirrorCapture(ps)[i].time;
  }

  // ----- the records ----------------------------------------------------------------------------

  function MirroredRecords(rs: seq<FlowRecord>): (qs: seq<FlowRecord>)
    ensures |qs| == |rs|
  {
    seq(|rs|, x requires 0 <= x < |rs| => MirroredRecord(rs[x]))
  }

  lemma {:induction false} RecordTalliesMirror(rs: seq<FlowRecord>)
    ensures TallyOfAll(MirroredRecords(rs)) == TallyOfAll(rs)
  {
    if rs != [] {
      var n := |rs| - 1;
      assert MirroredRecords(rs)[..n] == MirroredRecords(rs[..n]);
      RecordTalliesMirror(rs[..n]);
    }
  }

  lemma AllOkMirrors(rs: seq<FlowRecord>)
    requires AllOk(rs)
    ensures AllOk(MirroredRecords(rs))
  {
  }

  lemma MirroredAppend(rs: seq<FlowRecord>, more: seq<FlowRecord>)
    ensures MirroredRecords(rs + more) == MirroredRecords(rs) + MirroredRecords(more)
  {
  }

  lemma LedgerMirrors(es: seq<Event>, all: set<Lifetime>, ls: seq<Lifetime>, rs: seq<FlowRecord>)
    requires Ledger(es, all, ls, rs)
    ensures Ledger(MirrorEvents(es), all, ls, MirroredRecords(rs))
  {
    forall x | 0 <= x < |ls|
      ensures MirroredRecords(rs)[x] == RecordOf(MirrorEvents(es), ls[x])
    {
      RecordMirrors(es, ls[x]);
    }
  }

  lemma SettledMirrors(es: seq<Event>, s: State, closed: seq<Lifetime>, exported: seq<FlowRecord>)
    requires Settled(es, s, closed, exported)
    ensures Settled(MirrorEvents(es), s, closed, MirroredRecords(exported))
  {
    forall x | 0 <= x < |closed|
      ensures closed[x] in s.lifetimes && MirroredRecords(exported)[x] == RecordOf(MirrorEvents(es), closed[x])
    {
      RecordMirrors(es, closed[x]);
    }
  }

  // ----- the departures ---------------------------------------------------------------------------

  lemma ScannedMirrors(cfg: Config, es: seq<Event>, s: State, n: nat)
    requires n < |es|
    ensures ScannedState(cfg, MirrorEvents(es), s, n) == ScannedState(cfg, es, s, n)
  {
    ScanIsSame(cfg, es, s, Micros(es[n].time));
  }

  lemma DisplacesMirrors(cfg: Config, es: seq<Event>, s: State, n: nat)
    ensures Displaces(cfg, MirrorEvents(es), s, n) <==> Displaces(cfg, es, s, n)
  {
    LooksAlike(es, n);
  }

  lemma {:induction false} ExitsMirror(cfg: Config, es: seq<Event>, states: seq<State>, n: nat)
    requires n <= |es| && n <= |states|
    ensures ExitsOf(cfg, MirrorEvents(es), states, n) == ExitsOf(cfg, es, states, n)
  {
    if n > 0 {
      var m := n - 1;
      ExitsMirror(cfg, es, states, m);
      ScannedMirrors(cfg, es, states[m], m);
      DisplacesMirrors(cfg, es, ScannedState(cfg, es, states[m], m), m);
    }
  }

  lemma ExitMirrors(cfg: Config, es: seq<Event>, victims: seq<FlowKey>, states: seq<State>, l: Lifetime, exit: Exit)
    requires ExitOk(cfg, es, victims, states, l, exit)
    ensures ExitOk(cfg, MirrorEvents(es), victims, states, l, exit)
  {
    var n := exit.packet;
    ScannedMirrors(cfg, es, states[n], n);
    DisplacesMirrors(cfg, es, ScannedState(cfg, es, states[n], n), n);
  }

  lemma ExportsMirror(cfg: Config, es: seq<Event>, log: Log, totals: Totals)
    requires ExportsCounted(cfg, es, log, totals)
    ensures ExportsCounted(cfg, MirrorEvents(es), log, totals)
  {
    var exits := ExitsOf(cfg, es, log.states, |log.victims|);
    ExitsMirror(cfg, es, log.states, |log.victims|);
    forall x | 0 <= x < |log.closed|
      ensures ExitOk(cfg, MirrorEvents(es), log.victims, log.states, log.closed[x], exits[x])
    {
      ExitMirrors(cfg, es, log.victims, log.states, log.closed[x], exits[x]);
    }
  }

  // ----- the whole run -----------------------------------------------------------------------------

  /** What the books of a completed run say about the capture, they say, with the
      records mirrored, about the reversed one. */
  lemma AccountedMirrors(cfg: Config, ps: seq<Packet>, log: Log, records: seq<FlowRecord>, ls: seq<Lifetime>,
                         totals: Totals)
    requires Accounted(cfg, ps, log, records, ls, totals)
    ensures Accounted(cfg, MirrorCapture(ps), log, MirroredRecords(records), ls, totals)
  {
    var es := EventsOf(ps);
    EventsMirror(ps);
    RunIsSame(cfg, es, log.victims, log.states);
    LedgerMirrors(es, log.states[|ps|].lifetimes, ls, records);
    AllOkMirrors(records);
    ClassesMirror(ps, log.states[|ps|].rejected, log.classes);
    RecordTalliesMirror(records);
    AcceptedMirrors(ps, log.classes);
    TalliesMirror(ps);
  }

  lemma DepartedMirrors(cfg: Config, ps: seq<Packet>, log: Log, exported: seq<FlowRecord>, totals: Totals)
    requires Departed(cfg, ps, log, exported, totals)
    ensures Departed(cfg, MirrorCapture(ps), log, MirroredRecords(exported), totals)
  {
    EventsMirror(ps);
    SettledMirrors(EventsOf(ps), log.states[|ps|], log.closed, exported);
    ExportsMirror(cfg, EventsOf(ps), log, totals);
  }

  lemma TieMirrors(cfg: Config, es: seq<Event>, s: State, n: nat)
    ensures Tie(cfg, MirrorEvents(es), s, n) <==> Tie(cfg, es, s, n)
  {
    if n < |es| {
      var scanned := ScannedState(cfg, es, s, n);
      ScannedMirrors(cfg, es, s, n);
      DisplacesMirrors(cfg, es, scanned, n);
      forall v
        ensures IsVictim(MirrorEvents(es), scanned, v) <==> IsVictim(es, scanned, v)
      {
        VictimIsSame(es, scanned, v);
      }
    }
  }

  lemma NoTiesMirror(cfg: Config, es: seq<Event>, states: seq<State>)
    ensures NoTies(cfg, MirrorEvents(es), states) <==> NoTies(cfg, es, states)
  {
    forall n: nat | n < |states| - 1
      ensures Tie(cfg, MirrorEvents(es), states[n], n) <==> Tie(cfg, es, states[n], n)
    {
      TieMirrors(cfg, es, states[n], n);
    }
  }

  lemma FullRunMirrors(cfg: Config, ps: seq<Packet>, log: Log)
    ensures FullRun(cfg, MirrorCapture(ps), log) <==> FullRun(cfg, ps, log)
  {
    EventsMirror(ps);
    RunIsSame(cfg, EventsOf(ps), log.victims, log.states);
  }

  lemma FeaturesMirror(r: FlowRecord)
    ensures HasFeatures(MirroredRecord(r)) <==> HasFeatures(r)
  {
  }

  lemma FitMirrors(ps: seq<Packet>, ls: set<Lifetime>)
    ensures AllFit(EventsOf(MirrorCapture(ps)), ls) <==> AllFit(EventsOf(ps), ls)
  {
    EventsMirror(ps);
    forall l
      ensures HasFeatures(RecordOf(MirrorEvents(EventsOf(ps)), l)) <==> HasFeatures(RecordOf(EventsOf(ps), l))
    {
      RecordMirrors(EventsOf(ps), l);
      FeaturesMirror(RecordOf(EventsOf(ps), l));
    }
  }

  /** A completed run over a capture without ties, and one over the reversed capture. */
  lemma ReversalMirrors(cfg: Config, ps: seq<Packet>, log: Log, exported: seq<FlowRecord>, residents: seq<FlowRecord>,
                        ls: seq<Lifetime>, totals: Totals, log': Log, exported': seq<FlowRecord>,
                        residents': seq<FlowRecord>, ls': seq<Lifetime>, totals': Totals)
    requires NoTies(cfg, EventsOf(ps), log.states)
    requires Accounted(cfg, ps, log, exported + residents, ls, totals) && Departed(cfg, ps, log, exported, totals)
    requires Accounted(cfg, MirrorCapture(ps), log', exported' + residents', ls', totals')
             && Departed(cfg, MirrorCapture(ps), log', exported', totals')
    ensures multiset(exported') == multiset(MirroredRecords(exported))
    ensures multiset(residents') == multiset(MirroredRecords(residents))
    ensures log'.states == log.states && log'.classes == log.classes && totals' == totals
  {
    AccountedMirrors(cfg, ps, log, exported + residents, ls, totals);
    MirroredAppend(exported, residents);
    DepartedMirrors(cfg, ps, log, exported, totals);
    EventsMirror(ps);
    NoTiesMirror(cfg, EventsOf(ps), log.states);
    HashIsUnobservable(cfg, MirrorCapture(ps), log, MirroredRecords(exported), MirroredRecords(residents), ls, totals,
                       log', exported', residents', ls', totals');
  }

  lemma CodesMirror(cfg: Config, ps: seq<Packet>, log: Log, log': Log)
    requires FullRun(cfg, ps, log) && FullRun(cfg, MirrorCapture(ps), log') && Determined(cfg, ps)
    ensures AllFit(EventsOf(MirrorCapture(ps)), log'.states[|ps|].lifetimes)
       <==> AllFit(EventsOf(ps), log.states[|ps|].lifetimes)
    ensures NoTies(cfg, EventsOf(ps), log.states)
  {
    RunsFitAlike(cfg, ps, log);
    FullRunMirrors(cfg, ps, log');
    SameStates(cfg, ps, log, log');
    FitMirrors(ps, log.states[|ps|].lifetimes);
  }

  /** Analyses a capture and the same capture reversed. */
  method RunReversed(ps: seq<Packet>, idle: I64, evictWhenFull: bool, hash: Hash, withFeatures: bool)
    returns (code: Errno, exported: seq<FlowRecord>, residents: seq<FlowRecord>, totals: Totals,
             code': Errno, exported': seq<FlowRecord>, residents': seq<FlowRecord>, totals': Totals)
    ensures Determined(ConfigOf(idle, evictWhenFull), ps) ==> (code' == OK <==> code == OK)
    ensures Determined(ConfigOf(idle, evictWhenFull), ps) && code == OK ==>
              && multiset(exported') == multiset(MirroredRecords(exported))
              && multiset(residents') == multiset(MirroredRecords(residents)) && totals' == totals
  {
    ghost var cfg := ConfigOf(idle, evictWhenFull);
    var features, features';
    ghost var log, ls, log', ls';
    code, exported, residents, features, totals, log, ls :=
      RunCaptureAnalysis(ps, idle, evictWhenFull, hash, withFeatures);
    code', exported', residents', features', totals', log', ls' :=
      RunCaptureAnalysis(MirrorCapture(ps), idle, evictWhenFull, hash, withFeatures);
    CompletesMirrors(cfg, ps);
    if Determined(cfg, ps) && Completes(cfg, ps) {
      CodesMirror(cfg, ps, log, log');
      if code == OK {
        ReversalMirrors(cfg, ps, log, exported, residents, ls, totals, log', exported', residents', ls', totals');
      }
    }
  }
}
