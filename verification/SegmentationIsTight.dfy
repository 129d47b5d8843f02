/** The gap between two packets alone does not decide segmentation: for every gap
    between the two bounds there is a capture that keeps the packets together, and
    one that separates them.  Both consist of parseable frames. */
module SegmentationIsTight {
  import opened Machine
  import opened Timestamps
  import opened FlowKey
  import opened Expiration
  import opened Engine
  import opened Segmentation
  import opened CaptureLedger
  import opened FeatureRun
  import opened SamplePackets

  predicate Representable(micros: int) {
    I64_MIN * MICROS_PER_SECOND <= micros < (I64_MAX + 1) * MICROS_PER_SECOND
  }

  function TimeAfter(micros: int): (t: Time)
    requires Representable(micros)
    ensures Micros(t) == micros
  {
    Timestamp(micros / MICROS_PER_SECOND, micros % MICROS_PER_SECOND)
  }

  /** The clock starts at `start`; the flow's packets come `x` and `x + gap` later;
      the clock is moved to `s` in between. */
  predicate Fits(cfg: Config, start: int, x: nat, s: nat, gap: nat) {
    && Scanning(cfg) && 0 < gap && x < cfg.interval && x <= s <= x + gap
    && Representable(start) && Representable(start + x + gap)
    && start + cfg.interval - cfg.idle >= I64_MIN * MICROS_PER_SECOND
  }

  function Capture(cfg: Config, start: int, x: nat, s: nat, gap: nat): (ps: seq<Packet>)
    requires Fits(cfg, start, x, s, gap)
    ensures |ps| == 4
  {
    [EmptyPacket(TimeAfter(start)), UdpPacket(TimeAfter(start + x), UDP_FRAME_LENGTH),
     EmptyPacket(TimeAfter(start + s)), UdpPacket(TimeAfter(start + x + gap), UDP_FRAME_LENGTH)]
  }

  /** The events of the capture: only the UDP frames arrive, both for the same flow. */
  lemma CaptureEvents(cfg: Config, start: int, x: nat, s: nat, gap: nat)
    requires Fits(cfg, start, x, s, gap)
    ensures var es := EventsOf(Capture(cfg, start, x, s, gap));
            && |es| == 4 && At(es, 0) == start && At(es, 1) == start + x && At(es, 2) == start + s
            && At(es, 3) == start + x + gap
            && ArrivesFor(es, 1, UDP_KEY) && ArrivesFor(es, 3, UDP_KEY) && !Arrives(es, 0) && !Arrives(es, 2)
  {
    EmptyPacketHasNoFlow(TimeAfter(start));
    UdpPacketArrives(TimeAfter(start + x), UDP_FRAME_LENGTH);
    EmptyPacketHasNoFlow(TimeAfter(start + s));
    UdpPacketArrives(TimeAfter(start + x + gap), UDP_FRAME_LENGTH);
  }

  // ----- the capture runs to its end ------------------------------------------------------------

  lemma {:induction false} CutoffsAreLate(ts: seq<int>, idle: nat, interval: nat, start: int)
    requires forall i :: 0 <= i < |ts| ==> ts[i] >= start
    ensures var c := ClockAfter(ts, idle, interval); c.Running? ==> c.lastScan >= start && c.latest >= start
    ensures forall c :: c in Cutoffs(ts, idle, interval) ==> c >= start + interval - idle
  {
    if ts != [] {
      CutoffsAreLate(ts[..|ts| - 1], idle, interval, start);
    }
  }

  lemma CaptureCompletes(cfg: Config, start: int, x: nat, s: nat, gap: nat)
    requires Fits(cfg, start, x, s, gap)
    ensures Completes(cfg, Capture(cfg, start, x, s, gap))
  {
    var ps := Capture(cfg, start, x, s, gap);
    SmallTallies(ps);
    CutoffsAreLate(MicrosOf(ps), cfg.idle, cfg.interval, start);
  }

  // ----- its flow is never rejected -----------------------------------------------------------------

  /** All packets that reach the table belong to flow `k`. */
  ghost predicate OneFlow(es: seq<Event>, k: FlowKey) {
    forall i :: Arrives(es, i) ==> ArrivesFor(es, i, k)
  }

  lemma OneFlowLives(cfg: Config, es: seq<Event>, s: State, n: nat, k: FlowKey)
    requires Sound(cfg, es, s, n) && OneFlow(es, k)
    ensures forall k1 :: k1 in s.live ==> k1 == k
    ensures k !in s.live ==> |s.live| == 0
  {
    forall k1 | k1 in s.live
      ensures k1 == k
    {
      assert ArrivesFor(es, s.live[k1][0], k1);
    }
    if k !in s.live {
      assert s.live == map[];
    }
  }

  lemma {:induction false} OneFlowIsAccepted(cfg: Config, es: seq<Event>, victims: seq<FlowKey>, states: seq<State>,
                                             k: FlowKey, n: nat)
    requires cfg.capacity > 0 && IsRun(cfg, es, victims, states) && OneFlow(es, k) && n < |states|
    ensures states[n].rejected == {}
  {
    if n > 0 {
      var m := n - 1;
      OneFlowIsAccepted(cfg, es, victims, states, k, m);
      RunIsSound(cfg, es, victims, states, m);
      RunSteps(cfg, es, victims, states, m);
      ExpireKeepsSound(cfg, es, states[m], m, At(es, m));
      OneFlowLives(cfg, es, Expire(cfg, es, states[m], At(es, m)), m, k);
    }
  }

  lemma TwoOfFour(cfg: Config, es: seq<Event>, victims: seq<FlowKey>, states: seq<State>, k: FlowKey)
    requires |es| == 4 && ArrivesFor(es, 1, k) && ArrivesFor(es, 3, k) && !Arrives(es, 0) && !Arrives(es, 2)
    requires cfg.capacity > 0 && IsRun(cfg, es, victims, states) && |states| == 5
    ensures Neighbours(es, states[4], 1, 3)
  {
    OneFlowIsAccepted(cfg, es, victims, states, k, 4);
  }

  lemma FourInOrder(es: seq<Event>)
    requires |es| == 4 && At(es, 0) <= At(es, 1) <= At(es, 2) <= At(es, 3)
    ensures Ordered(es)
  {
  }

  lemma FlowIsNeighbours(cfg: Config, start: int, x: nat, s: nat, gap: nat, log: Log)
    requires Fits(cfg, start, x, s, gap) && FullRun(cfg, Capture(cfg, start, x, s, gap), log)
    ensures Ordered(EventsOf(Capture(cfg, start, x, s, gap)))
    ensures Neighbours(EventsOf(Capture(cfg, start, x, s, gap)), log.states[4], 1, 3)
  {
    var es := EventsOf(Capture(cfg, start, x, s, gap));
    CaptureEvents(cfg, start, x, s, gap);
    FourInOrder(es);
    TwoOfFour(cfg, es, log.victims, log.states, UDP_KEY);
  }

  // ----- when it is cut ---------------------------------------------------------------------------

  /** The last scan, relative to the start. */
  function ScanAfter(cfg: Config, x: nat, s: nat, gap: nat): nat {
    var first := if s >= cfg.interval then s else 0;
    if x + gap - first >= cfg.interval then x + gap else first
  }

  lemma CaptureScans(cfg: Config, start: int, x: nat, s: nat, gap: nat)
    requires Fits(cfg, start, x, s, gap)
    ensures LastScan(cfg, EventsOf(Capture(cfg, start, x, s, gap)), 3) == start + ScanAfter(cfg, x, s, gap)
  {
    var es := EventsOf(Capture(cfg, start, x, s, gap));
    CaptureEvents(cfg, start, x, s, gap);
    ClockTicks(cfg, es, 0);
    ClockTicks(cfg, es, 1);
    ClockTicks(cfg, es, 2);
    ClockTicks(cfg, es, 3);
  }

  /** Over the capture the analysis always completes, and packets 1 and 3, a gap of
      `gap` apart, share a record in every run or in none. */
  ghost predicate Decides(cfg: Config, ps: seq<Packet>, gap: nat, together: bool) {
    && |ps| == 4 && Completes(cfg, ps) && Ordered(EventsOf(ps)) && At(EventsOf(ps), 3) - At(EventsOf(ps), 1) == gap
    && (exists log :: FullRun(cfg, ps, log))
    && forall log | FullRun(cfg, ps, log) :: DecidedIn(ps, log, together)
  }

  ghost predicate DecidedIn(ps: seq<Packet>, log: Log, together: bool) {
    && |ps| == 4 < |log.states| && Neighbours(EventsOf(ps), log.states[4], 1, 3)
    && (Together(log.states[4].lifetimes, 1, 3) <==> together)
  }

  lemma CaptureIsDecided(cfg: Config, start: int, x: nat, s: nat, gap: nat, log: Log)
    requires Fits(cfg, start, x, s, gap) && FullRun(cfg, Capture(cfg, start, x, s, gap), log)
    ensures DecidedIn(Capture(cfg, start, x, s, gap), log, ScanAfter(cfg, x, s, gap) < x + cfg.idle)
  {
    var es := EventsOf(Capture(cfg, start, x, s, gap));
    CaptureEvents(cfg, start, x, s, gap);
    CaptureScans(cfg, start, x, s, gap);
    FlowIsNeighbours(cfg, start, x, s, gap, log);
    LifetimeSegmentation(cfg, es, log.victims, log.states, 4, 1, 3);
  }

  /** The packets stay together exactly if the last scan came before the idle timeout. */
  lemma CaptureRuns(cfg: Config, start: int, x: nat, s: nat, gap: nat)
    requires Fits(cfg, start, x, s, gap)
    ensures Decides(cfg, Capture(cfg, start, x, s, gap), gap, ScanAfter(cfg, x, s, gap) < x + cfg.idle)
  {
    var ps := Capture(cfg, start, x, s, gap);
    CaptureCompletes(cfg, start, x, s, gap);
    CaptureEvents(cfg, start, x, s, gap);
    var log := SomeFullRun(cfg, ps);
    FlowIsNeighbours(cfg, start, x, s, gap, log);
    forall log | FullRun(cfg, ps, log)
      ensures DecidedIn(ps, log, ScanAfter(cfg, x, s, gap) < x + cfg.idle)
    {
      CaptureIsDecided(cfg, start, x, s, gap, log);
    }
  }

  /** Every gap from the idle timeout up to the upper bound can go either way,
      whatever timeout and interval the program is given. */
  lemma EitherWay(cfg: Config, gap: nat) returns (ps: seq<Packet>, ps': seq<Packet>)
    requires Scanning(cfg) && cfg.idle <= gap <= cfg.idle + cfg.interval - 2
    requires cfg.idle <= I64_MAX * MICROS_PER_SECOND && cfg.interval <= I64_MAX * MICROS_PER_SECOND
    ensures Decides(cfg, ps, gap, true) && Decides(cfg, ps', gap, false)
  {
    var x, s := 0, 0;
    if gap >= cfg.interval {
      if cfg.idle - 1 >= cfg.interval {
        s := cfg.idle - 1;
      } else {
        x, s := cfg.interval - cfg.idle + 1, cfg.interval;
      }
    }
    var start: int := 0 - cfg.interval as int;
    CaptureRuns(cfg, start, x, s, gap);
    ps := Capture(cfg, start, x, s, gap);
    var y := if gap < cfg.interval then cfg.interval - gap else 0;
    CaptureRuns(cfg, start, y, y, gap);
    ps' := Capture(cfg, start, y, y, gap);
  }
}
