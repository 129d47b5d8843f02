/** Which captures a run with a feature CSV completes: those in which every
    lifetime has features.  A run that meets a record without features stops,
    and that record's lifetime would have been left unchanged by all later packets. */
module FeatureRun {
  import opened Machine
  import opened Timestamps
  import opened PacketInfo
  import opened FlowKey
  import opened FlowRecord
  import opened OpenAddressing
  import opened FlowTable
  import opened Expiration
  import opened Engine
  import opened RuntimeMetrics
  import opened CaptureLedger
  import opened CaptureRun
  import opened FlowFeatures

  /** `log` is a run over the whole capture. */
  ghost predicate FullRun(cfg: Config, ps: seq<Packet>, log: Log) {
    IsRun(cfg, EventsOf(ps), log.victims, log.states) && |log.states| == |ps| + 1
  }

  ghost predicate AllFit(es: seq<Event>, ls: set<Lifetime>) {
    forall l :: l in ls ==> HasFeatures(RecordOf(es, l))
  }

  /** The error of writing `rs`, which only a run with a feature CSV can meet. */
  function ExportCode(withFeatures: bool, rs: seq<FlowRecord>): Errno {
    if withFeatures then FirstCode(rs) else OK
  }

  // ----- one pass of the loop -----------------------------------------------------------------------

  /** A pass over a packet with a valid time: if the records that its scan took
      out can be written, the packet itself is counted. */
  ghost predicate PassOk(cfg: Config, withFeatures: bool, p: Packet, clock: Clock, clock': Clock,
                         m: map<FlowKey, FlowRecord>, total: Tally, t: Trace, m': map<FlowKey, FlowRecord>,
                         total': Tally) {
    && ValidTime(p.time) && ScanOk(cfg, clock, Micros(p.time), clock', m, total, t)
    && (ExportCode(withFeatures, t.expired) == OK ==> AdmitOk(cfg, p, t, m', total'))
  }

  /** What a pass of the loop returned, given what could stop it. */
  ghost predicate PassResult(cfg: Config, withFeatures: bool, p: Packet, base: Errno, code: Errno, clock: Clock,
                             clock': Clock, m: map<FlowKey, FlowRecord>, total: Tally, t: Trace,
                             m': map<FlowKey, FlowRecord>, total': Tally) {
    if base != OK then code == base
    else
      && code == ExportCode(withFeatures, Exports(t))
      && PassOk(cfg, withFeatures, p, clock, clock', m, total, t, m', total')
  }

  lemma ExportCodeOf(withFeatures: bool, t: Trace)
    ensures ExportCode(withFeatures, Exports(t))
         == if ExportCode(withFeatures, t.expired) != OK then ExportCode(withFeatures, t.expired)
            else ExportCode(withFeatures, ExportOf(t.evicted))
  {
    FirstCodeAppends(t.expired, ExportOf(t.evicted));
  }

  /** What the scan returned, and what it then left for the packet. */
  ghost predicate ScanResult(cfg: Config, withFeatures: bool, p: Packet, code: Errno, clock: Clock, clock': Clock,
                             m: map<FlowKey, FlowRecord>, total: Tally, t: Trace) {
    if ScanCode(cfg, clock, p) != OK then code == ScanCode(cfg, clock, p)
    else
      && code == ExportCode(withFeatures, t.expired) && t.evicted.None?
      && ScanOk(cfg, clock, Micros(p.time), clock', m, total, t)
  }

  /** No scan was due. */
  lemma NoScan(cfg: Config, withFeatures: bool, p: Packet, clock: Clock, clock': Clock, m: map<FlowKey, FlowRecord>,
               total: Tally, t: Trace)
    requires ScanCode(cfg, clock, p) == OK && t == NothingTaken(m, total)
    requires cfg.expires ==> Tick(clock, Micros(p.time), cfg.idle, cfg.interval) == (clock', None)
    ensures ScanResult(cfg, withFeatures, p, OK, clock, clock', m, total, t)
  {
  }

  /** A scan took out the records `out`. */
  lemma DueScan(cfg: Config, withFeatures: bool, p: Packet, code: Errno, clock: Clock, clock': Clock,
                m: map<FlowKey, FlowRecord>, total: Tally, t: Trace)
    requires cfg.expires && ScanCode(cfg, clock, p) == OK && code == ExportCode(withFeatures, t.expired)
             && t.evicted.None?
    requires Tick(clock, Micros(p.time), cfg.idle, cfg.interval) == (clock', Some(Micros(t.cutoff)))
    requires t.scanned == Survivors(m, t.cutoff) && IsRemoval(m, t.scanned, t.expired) && AllOk(t.expired)
    requires t.resident.Plus(TallyOfAll(t.expired)) == total
    ensures ScanResult(cfg, withFeatures, p, code, clock, clock', m, total, t)
  {
  }

  /** What the packet's own admission returned after the scan `t`. */
  ghost predicate AdmitResult(cfg: Config, withFeatures: bool, p: Packet, code: Errno, t: Trace, t': Trace,
                              m': map<FlowKey, FlowRecord>, total': Tally) {
    if !ValidTime(p.time) then code == EINVAL
    else
      && code == ExportCode(withFeatures, ExportOf(t'.evicted))
      && t' == t.(tableCode := t'.tableCode, created := t'.created, evicted := t'.evicted, result := t'.result)
      && AdmitOk(cfg, p, t', m', total')
  }

  lemma ScanOnly(cfg: Config, withFeatures: bool, p: Packet, code: Errno, clock: Clock, clock': Clock,
                 m: map<FlowKey, FlowRecord>, total: Tally, t: Trace, m': map<FlowKey, FlowRecord>, total': Tally)
    requires ScanResult(cfg, withFeatures, p, code, clock, clock', m, total, t) && code != OK
    ensures PassResult(cfg, withFeatures, p, if ValidTime(p.time) then ScanCode(cfg, clock, p) else EINVAL, code,
                       clock, clock', m, total, t, m', total')
  {
    ExportCodeOf(withFeatures, t);
  }

  lemma ScanThenAdmit(cfg: Config, withFeatures: bool, p: Packet, code: Errno, clock: Clock, clock': Clock,
                      m: map<FlowKey, FlowRecord>, total: Tally, t: Trace, t': Trace, m': map<FlowKey, FlowRecord>,
                      total': Tally)
    requires ScanResult(cfg, withFeatures, p, OK, clock, clock', m, total, t)
    requires AdmitResult(cfg, withFeatures, p, code, t, t', m', total')
    ensures PassResult(cfg, withFeatures, p, if ValidTime(p.time) then ScanCode(cfg, clock, p) else EINVAL, code,
                       clock, clock', m, total, t', m', total')
  {
    ExportCodeOf(withFeatures, t');
  }

  lemma CountsOfEviction(before: Totals, exported: Totals, after: Totals, c: PacketClass, evicted: nat)
    requires before.evicted + evicted <= U64_MAX && exported == before.(evicted := before.evicted + evicted)
    requires TotalsCount(exported, after, c, 0, 0)
    ensures TotalsCount(before, after, c, 0, evicted)
  {
    assert forall d :: exported.Of(d) == before.Of(d);
  }

  /** The counters once the packet itself has been counted. */
  lemma CountsOfPass(before: Totals, counted: Totals, after: Totals, p: Packet, t: Trace)
    requires counted.packets == before.packets + 1
    requires counted.captured == before.captured + |p.data| && counted.wire == before.wire + p.wire
    requires counted == before.(packets := counted.packets, captured := counted.captured, wire := counted.wire)
    requires TotalsCount(counted, after, t.result, |t.expired|, |ExportOf(t.evicted)|)
    ensures TotalsStep(before, after, p, t)
  {
    assert forall d :: counted.Of(d) == before.Of(d);
  }

  /** The export counters after both. */
  lemma CountsOfBoth(before: Totals, scanned: Totals, after: Totals, c: PacketClass, expired: nat, evicted: nat)
    requires before.expired + expired <= U64_MAX && scanned == before.(expired := before.expired + expired)
    requires TotalsCount(scanned, after, c, 0, evicted)
    ensures TotalsCount(before, after, c, expired, evicted)
  {
    assert forall d :: scanned.Of(d) == before.Of(d);
  }

  // ----- a run can always go on ---------------------------------------------------------------------

  lemma OldestExists(es: seq<Event>, live: map<FlowKey, Lifetime>) returns (oldest: FlowKey)
    requires live != map[]
    ensures oldest in live && forall k :: k in live ==> LastSeen(es, live[oldest]) <= LastSeen(es, live[k])
    decreases |live|
  {
    oldest :| oldest in live;
    var rest := live - {oldest};
    if rest != map[] {
      assert live.Keys == rest.Keys + {oldest};
      var other := OldestExists(es, rest);
      if LastSeen(es, live[other]) < LastSeen(es, live[oldest]) {
        oldest := other;
      }
    }
  }

  lemma SomeVictim(cfg: Config, es: seq<Event>, s: State, k: FlowKey) returns (victim: FlowKey)
    requires cfg.capacity > 0
    ensures VictimOk(cfg, es, s, k, victim)
  {
    victim := k;
    if |s.live| >= cfg.capacity {
      assert s.live != map[];
      victim := OldestExists(es, s.live);
    }
  }

  /** Every run extends to one over the whole capture. */
  lemma RunGoesOn(cfg: Config, es: seq<Event>, victims: seq<FlowKey>, states: seq<State>)
    returns (victims': seq<FlowKey>, states': seq<State>)
    requires cfg.capacity > 0 && IsRun(cfg, es, victims, states)
    ensures IsRun(cfg, es, victims', states') && |states'| == |es| + 1
    ensures victims <= victims' && states <= states'
    decreases |es| - |victims|
  {
    var n := |victims|;
    if n == |es| {
      victims', states' := victims, states;
    } else {
      var scanned := Expire(cfg, es, states[n], Micros(es[n].time));
      var victim := SomeVictim(cfg, es, scanned, KeyAt(es, n));
      var next := Step(cfg, es, states[n], n, victim);
      RunExtends(cfg, es, victims, states, next, victim);
      victims', states' := RunGoesOn(cfg, es, victims + [victim], states + [next]);
    }
  }

  /** Every capture has a run. */
  lemma SomeFullRun(cfg: Config, ps: seq<Packet>) returns (log: Log)
    requires cfg.capacity > 0
    ensures FullRun(cfg, ps, log)
  {
    OpeningRun(cfg, EventsOf(ps));
    var victims, states := RunGoesOn(cfg, EventsOf(ps), [], [INITIAL]);
    log := Log(victims, states, [], []);
  }

  // ----- what is over stays as it is -----------------------------------------------------------------

  ghost predicate IsOver(s: State, l: Lifetime) {
    l in s.lifetimes && !IsLive(s, l)
  }

  lemma AdmitKeepsOver(cfg: Config, es: seq<Event>, s: State, n: nat, k: FlowKey, victim: FlowKey, l: Lifetime)
    requires Sound(cfg, es, s, n) && IsOver(s, l)
    ensures IsOver(Admit(cfg, s, n, k, victim), l)
  {
    assert Whole(es, l, n);
    assert forall k1 :: k1 in s.live ==> s.live[k1] != l;
    var s' := Admit(cfg, s, n, k, victim);
    forall k1 | k1 in s'.live
      ensures s'.live[k1] != l
    {
      var l1 := s'.live[k1];
      assert l1[|l1| - 1] == n || (k1 in s.live && l1 == s.live[k1]);
    }
  }

  lemma ExpireKeepsOver(cfg: Config, es: seq<Event>, s: State, now: int, l: Lifetime)
    requires IsOver(s, l)
    ensures IsOver(Expire(cfg, es, s, now), l)
  {
    var s' := Expire(cfg, es, s, now);
    assert forall k :: k in s'.live ==> k in s.live && s'.live[k] == s.live[k];
  }

  lemma StepKeepsOver(cfg: Config, es: seq<Event>, s: State, n: nat, victim: FlowKey, l: Lifetime)
    requires n < |es| && Sound(cfg, es, s, n) && IsOver(Expire(cfg, es, s, Micros(es[n].time)), l)
    ensures IsOver(Step(cfg, es, s, n, victim), l)
  {
    var scanned := Expire(cfg, es, s, Micros(es[n].time));
    ExpireKeepsSound(cfg, es, s, n, Micros(es[n].time));
    if Arrives(es, n) {
      AdmitKeepsOver(cfg, es, scanned, n, KeyAt(es, n), victim, l);
    }
  }

  /** A lifetime that is over is never touched again. */
  lemma {:induction false} OverForGood(cfg: Config, es: seq<Event>, victims: seq<FlowKey>, states: seq<State>, m: nat,
                                       n: nat, l: Lifetime)
    requires cfg.capacity > 0 && IsRun(cfg, es, victims, states) && m <= n < |states| && IsOver(states[m], l)
    ensures IsOver(states[n], l)
  {
    if m < n {
      var o := n - 1;
      OverForGood(cfg, es, victims, states, m, o, l);
      RunIsSound(cfg, es, victims, states, o);
      RunSteps(cfg, es, victims, states, o);
      ExpireKeepsOver(cfg, es, states[o], Micros(es[o].time), l);
      StepKeepsOver(cfg, es, states[o], o, victims[o], l);
    }
  }

  // ----- a stop shows in every continuation ------------------------------------------------------------

  /** An unfit lifetime that is over spoils any way the capture may go on. */
  lemma UnfitForGood(cfg: Config, ps: seq<Packet>, log: Log, l: Lifetime) returns (full: Log)
    requires cfg.capacity > 0 && IsRun(cfg, EventsOf(ps), log.victims, log.states)
    requires IsOver(log.states[|log.victims|], l) && !HasFeatures(RecordOf(EventsOf(ps), l))
    ensures FullRun(cfg, ps, full) && log.victims <= full.victims
    ensures !AllFit(EventsOf(ps), full.states[|ps|].lifetimes)
  {
    var es, n := EventsOf(ps), |log.victims|;
    var victims, states := RunGoesOn(cfg, es, log.victims, log.states);
    assert states[n] == log.states[n];
    OverForGood(cfg, es, victims, states, n, |ps|, l);
    full := log.(victims := victims, states := states);
  }

  lemma UnfitAmongClosed(es: seq<Event>, s: State, closed: seq<Lifetime>, exported: seq<FlowRecord>,
                         more: seq<FlowRecord>)
    returns (l: Lifetime)
    requires Settled(es, s, closed, exported + more) && FirstCode(more) != OK
    ensures IsOver(s, l) && !HasFeatures(RecordOf(es, l))
  {
    FirstCodeMeaning(more);
    var x :| 0 <= x < |more| && !HasFeatures(more[x]);
    l := closed[|exported| + x];
    assert (exported + more)[|exported| + x] == more[x];
  }

  /** The scan before packet `n` took out a record without features. */
  lemma UnfitExpired(cfg: Config, ps: seq<Packet>, n: nat, log: Log, exported: seq<FlowRecord>, clock': Clock,
                     m: map<FlowKey, FlowRecord>, total: Tally, t: Trace) returns (full: Log)
    requires cfg.capacity > 0 && n == |log.victims| < |ps| && ValidTime(ps[n].time)
    requires IsRun(cfg, EventsOf(ps), log.victims, log.states)
    requires Books(cfg, EventsOf(ps), log.states[n], n, m, log.closed, exported)
    requires ScanOk(cfg, log.states[n].clock, Micros(ps[n].time), clock', m, total, t) && FirstCode(t.expired) != OK
    ensures FullRun(cfg, ps, full) && log.victims <= full.victims
    ensures !AllFit(EventsOf(ps), full.states[|ps|].lifetimes)
  {
    var es, s, now := EventsOf(ps), log.states[n], Micros(ps[n].time);
    ScanStepKeepsBooks(cfg, es, s, n, now, clock', m, total, log.closed, exported, t);
    var closed := log.closed + ClosedByScan(s, t.expired);
    var l := UnfitAmongClosed(es, Expire(cfg, es, s, now), closed, exported, t.expired);
    full := UnfitBefore(cfg, ps, n, log, l);
  }

  /** The scan before packet `n` left an unfit lifetime behind. */
  lemma UnfitBefore(cfg: Config, ps: seq<Packet>, n: nat, log: Log, l: Lifetime) returns (full: Log)
    requires cfg.capacity > 0 && n == |log.victims| < |ps| && IsRun(cfg, EventsOf(ps), log.victims, log.states)
    requires IsOver(Expire(cfg, EventsOf(ps), log.states[n], Micros(EventsOf(ps)[n].time)), l)
    requires !HasFeatures(RecordOf(EventsOf(ps), l))
    ensures FullRun(cfg, ps, full) && log.victims <= full.victims
    ensures !AllFit(EventsOf(ps), full.states[|ps|].lifetimes)
  {
    var es, s := EventsOf(ps), log.states[n];
    var victim := SomeVictim(cfg, es, Expire(cfg, es, s, Micros(es[n].time)), KeyAt(es, n));
    var next := Step(cfg, es, s, n, victim);
    RunIsSound(cfg, es, log.victims, log.states, n);
    StepKeepsOver(cfg, es, s, n, victim, l);
    RunExtends(cfg, es, log.victims, log.states, next, victim);
    var victims, states := log.victims + [victim], log.states + [next];
    full := UnfitForGood(cfg, ps, log.(victims := victims, states := states), l);
    assert log.victims <= victims;
  }

  /** Packet `n` displaced a record without features. */
  lemma UnfitExports(cfg: Config, ps: seq<Packet>, n: nat, log: Log, exported: seq<FlowRecord>, more: seq<FlowRecord>,
                     view: map<FlowKey, FlowRecord>, resident: Tally) returns (full: Log)
    requires cfg.capacity > 0 && |log.states| == n + 1
    requires LogOk(cfg, ps, n, log.states[n], log, exported + more, view, resident) && FirstCode(more) != OK
    ensures FullRun(cfg, ps, full) && log.victims <= full.victims
    ensures !AllFit(EventsOf(ps), full.states[|ps|].lifetimes)
  {
    var l := UnfitAmongClosed(EventsOf(ps), log.states[n], log.closed, exported, more);
    full := UnfitForGood(cfg, ps, log, l);
  }

  /** If a pass cannot write its exports, the run over the whole capture has an unfit lifetime. */
  lemma StopsForGood(cfg: Config, ps: seq<Packet>, n: nat, log: Log, exported: seq<FlowRecord>, clock: Clock,
                     clock': Clock, m: map<FlowKey, FlowRecord>, total: Tally, t: Trace, m': map<FlowKey, FlowRecord>,
                     total': Tally)
    returns (full: Log)
    requires n < |ps| && cfg.capacity > 0 && |log.states| == n + 1 && (cfg.expires ==> clock == log.states[n].clock)
    requires LogOk(cfg, ps, n, log.states[n], log, exported, m, total)
    requires PassOk(cfg, true, ps[n], clock, clock', m, total, t, m', total') && FirstCode(Exports(t)) != OK
    ensures FullRun(cfg, ps, full) && log.victims <= full.victims
    ensures !AllFit(EventsOf(ps), full.states[|ps|].lifetimes)
  {
    assert ScanOk(cfg, log.states[n].clock, Micros(ps[n].time), clock', m, total, t);
    if FirstCode(t.expired) != OK {
      full := UnfitExpired(cfg, ps, n, log, exported, clock', m, total, t);
    } else {
      full := UnfitAfter(cfg, ps, n, log, exported, clock', m, total, t, m', total');
    }
  }

  lemma UnfitAfter(cfg: Config, ps: seq<Packet>, n: nat, log: Log, exported: seq<FlowRecord>, clock': Clock,
                   m: map<FlowKey, FlowRecord>, total: Tally, t: Trace, m': map<FlowKey, FlowRecord>, total': Tally)
    returns (full: Log)
    requires n < |ps| && cfg.capacity > 0 && |log.states| == n + 1
    requires LogOk(cfg, ps, n, log.states[n], log, exported, m, total)
    requires ScanOk(cfg, log.states[n].clock, Micros(ps[n].time), clock', m, total, t)
             && AdmitOk(cfg, ps[n], t, m', total')
    requires FirstCode(Exports(t)) != OK
    ensures FullRun(cfg, ps, full) && log.victims <= full.victims
    ensures !AllFit(EventsOf(ps), full.states[|ps|].lifetimes)
  {
    StepKeepsLog(cfg, ps, n, log, exported, clock', m, total, t, m', total');
    full := UnfitExports(cfg, ps, n + 1, NextLog(cfg, EventsOf(ps), log, t), exported, Exports(t), m', total');
  }

  /** Otherwise the books go on. */
  lemma PassContinues(cfg: Config, withFeatures: bool, ps: seq<Packet>, n: nat, log: Log, exported: seq<FlowRecord>,
                      clock: Clock, clock': Clock, m: map<FlowKey, FlowRecord>, total: Tally,
                      t: Trace, m': map<FlowKey, FlowRecord>, total': Tally, totals: Totals, totals': Totals)
    returns (next: Log)
    requires n < |ps| && cfg.capacity > 0 && |log.states| == n + 1
    requires LogOk(cfg, ps, n, log.states[n], log, exported, m, total)
    requires CountsOk(cfg, ps, n, log.states[n], log.classes, totals, clock) && Completes(cfg, ps[..n + 1])
    requires ExportsCounted(cfg, EventsOf(ps), log, totals)
    requires PassOk(cfg, withFeatures, ps[n], clock, clock', m, total, t, m', total')
    requires ExportCode(withFeatures, Exports(t)) == OK && TotalsStep(totals, totals', ps[n], t)
    ensures |next.states| == n + 2 && ExportsCounted(cfg, EventsOf(ps), next, totals')
    ensures LogOk(cfg, ps, n + 1, next.states[n + 1], next, exported + Exports(t), m', total')
    ensures CountsOk(cfg, ps, n + 1, next.states[n + 1], next.classes, totals', clock')
  {
    next := NextLog(cfg, EventsOf(ps), log, t);
    ExportCodeOf(withFeatures, t);
    StepContinues(cfg, ps, n, log, exported, clock, clock', m, total, t, m', total', totals, totals');
    ExportsContinue(cfg, ps, n, log, exported, clock', m, total, t, m', total', totals, totals');
  }

  /** After a pass the books go on, or the run has stopped for a reason that lasts. */
  lemma AfterPass(cfg: Config, withFeatures: bool, ps: seq<Packet>, n: nat, log: Log, exported: seq<FlowRecord>,
                  clock: Clock, clock': Clock, m: map<FlowKey, FlowRecord>, total: Tally,
                  t: Trace, m': map<FlowKey, FlowRecord>, total': Tally, totals: Totals, totals': Totals, code: Errno)
    returns (next: Log)
    requires n < |ps| && cfg.capacity > 0 && |log.states| == n + 1
    requires LogOk(cfg, ps, n, log.states[n], log, exported, m, total)
    requires CountsOk(cfg, ps, n, log.states[n], log.classes, totals, clock)
    requires ExportsCounted(cfg, EventsOf(ps), log, totals)
    requires PassResult(cfg, withFeatures, ps[n], StepCode(cfg, totals, clock, ps[n]), code, clock, clock', m, total, t,
                        m', total')
    requires code == OK ==> TotalsStep(totals, totals', ps[n], t)
    ensures code == OK ==>
              && |next.states| == n + 2 && ExportsCounted(cfg, EventsOf(ps), next, totals')
              && LogOk(cfg, ps, n + 1, next.states[n + 1], next, exported + Exports(t), m', total')
              && CountsOk(cfg, ps, n + 1, next.states[n + 1], next.classes, totals', clock')
    ensures code != OK && Completes(cfg, ps) ==>
              withFeatures && FullRun(cfg, ps, next) && !AllFit(EventsOf(ps), next.states[|ps|].lifetimes)
    ensures code != OK && !withFeatures ==> StopsAt(cfg, ps, n, code)
  {
    next := log;
    StepStops(cfg, ps, n, log.states[n], log.classes, totals, clock);
    if code == OK {
      next := PassContinues(cfg, withFeatures, ps, n, log, exported, clock, clock', m, total, t, m', total', totals,
                            totals');
    } else if StepCode(cfg, totals, clock, ps[n]) == OK {
      next := StopsForGood(cfg, ps, n, log, exported, clock, clock', m, total, t, m', total');
    } else {
      StepStopsAt(cfg, ps, n, log.states[n], log.classes, totals, clock);
    }
  }

  // ----- the end of the run ---------------------------------------------------------------------------

  /** If all exports have features, the residents decide. */
  lemma {:induction false} LedgerFits(es: seq<Event>, all: set<Lifetime>, ls: seq<Lifetime>, exported: seq<FlowRecord>,
                                      residents: seq<FlowRecord>)
    requires Ledger(es, all, ls, exported + residents) && FirstCode(exported) == OK
    ensures FirstCode(residents) == OK <==> AllFit(es, all)
  {
    var rs := exported + residents;
    FirstCodeAppends(exported, residents);
    FirstCodeMeaning(rs);
    if FirstCode(rs) == OK {
      forall l | l in all
        ensures HasFeatures(RecordOf(es, l))
      {
        var x :| 0 <= x < |ls| && ls[x] == l;
        assert rs[x] == RecordOf(es, l);
      }
    } else {
      var x :| 0 <= x < |rs| && !HasFeatures(rs[x]);
      assert ls[x] in all;
    }
  }

  lemma LastRowsFit(withFeatures: bool, es: seq<Event>, all: set<Lifetime>, ls: seq<Lifetime>,
                    exported: seq<FlowRecord>, residents: seq<FlowRecord>, rows: seq<Features>)
    requires Ledger(es, all, ls, exported + residents) && (withFeatures ==> Described(rows, exported))
    ensures ExportCode(withFeatures, residents) == OK <==> (withFeatures ==> AllFit(es, all))
  {
    if withFeatures {
      FirstCodeMeaning(exported);
      LedgerFits(es, all, ls, exported, residents);
    }
  }

  // ----- which lifetimes have features --------------------------------------------------------------

  /** What the packets of either direction add up to. */
  ghost function TallyOfBoth(qs: seq<Arrival>, d: Direction, d': Direction): Tally {
    var x, y := StatsOf(qs, d), StatsOf(qs, d');
    Tally(x.packets + y.packets, x.captured + y.captured, x.wire + y.wire)
  }

  /** Some of the first `n` packets, in order, all complete. */
  ghost predicate Selection(es: seq<Event>, l: Lifetime, n: nat) {
    && AllArrive(es, l) && (forall x, y | 0 <= x < y < |l| :: l[x] < l[y])
    && forall x :: 0 <= x < |l| ==> l[x] < n
  }

  lemma SelectionBefore(es: seq<Event>, l: Lifetime, n: nat)
    requires Selection(es, l, n + 1)
    ensures if l != [] && l[|l| - 1] == n then Selection(es, l[..|l| - 1], n) else Selection(es, l, n)
  {
  }

  /** The packets of a lifetime are some of the capture's. */
  lemma {:induction false} PartOfCapture(ps: seq<Packet>, l: Lifetime, n: nat, d: Direction, d': Direction)
    requires n <= |ps| && Selection(EventsOf(ps), l, n) && d == A_TO_B && d' == B_TO_A
    ensures TallyOfBoth(Arrivals(EventsOf(ps), l), d, d').packets == |l|
    ensures Within(TallyOfBoth(Arrivals(EventsOf(ps), l), d, d'), TallyOfPackets(ps[..n]))
  {
    if n == 0 {
      NothingSelected(EventsOf(ps), l, TallyOfPackets(ps[..0]), d, d');
    } else {
      var m := n - 1;
      SelectionBefore(EventsOf(ps), l, m);
      TallyOfPrefix(ps, m);
      if l != [] && l[|l| - 1] == m {
        PartOfCapture(ps, l[..|l| - 1], m, d, d');
        LastArrival(EventsOf(ps), l, d, d');
        CompletePacketsArrive(ps[m]);
      } else {
        PartOfCapture(ps, l, m, d, d');
      }
    }
  }

  lemma NothingSelected(es: seq<Event>, l: Lifetime, all: Tally, d: Direction, d': Direction)
    requires Selection(es, l, 0)
    ensures |l| == 0
    ensures TallyOfBoth(Arrivals(es, l), d, d').packets == 0 && Within(TallyOfBoth(Arrivals(es, l), d, d'), all)
  {
    if l != [] {
      SelectionIsBelow(es, l, 0);
    }
  }

  lemma SelectionIsBelow(es: seq<Event>, l: Lifetime, n: nat)
    requires Selection(es, l, n) && l != []
    ensures 0 < n
  {
    assert l[0] < n;
  }

  lemma LastArrival(es: seq<Event>, l: Lifetime, d: Direction, d': Direction)
    requires l != [] && AllArrive(es, l) && d == A_TO_B && d' == B_TO_A
    ensures var before, last := TallyOfBoth(Arrivals(es, l[..|l| - 1]), d, d'), ArrivalAt(es, l[|l| - 1]);
            TallyOfBoth(Arrivals(es, l), d, d') == before.Plus(Tally(1, last.captured, last.wire))
  {
    assert Arrivals(es, l)[..|l| - 1] == Arrivals(es, l[..|l| - 1]);
  }

  lemma {:induction false} NoPacketsNoBytes(qs: seq<Arrival>, d: Direction)
    ensures var s := StatsOf(qs, d); s.packets == 0 ==> s.captured == 0 && s.wire == 0
  {
    if qs != [] {
      NoPacketsNoBytes(qs[..|qs| - 1], d);
    }
  }

  /** In a capture that fits the counters, a lifetime lacks features exactly if one
      direction was captured longer than it was on the wire, or its packets lie
      more than 2^64 - 1 microseconds apart. */
  lemma FitMeaning(cfg: Config, ps: seq<Packet>, l: Lifetime)
    requires Completes(cfg, ps) && Whole(EventsOf(ps), l, |ps|)
    ensures var r := RecordOf(EventsOf(ps), l);
            HasFeatures(r) <==> && r.aToB.captured <= r.aToB.wire && r.bToA.captured <= r.bToA.wire
                                && Micros(r.lastSeen) - Micros(r.firstSeen) <= U64_MAX
  {
    var es := EventsOf(ps);
    var qs := Arrivals(es, l);
    assert ps[..|ps|] == ps;
    PartOfCapture(ps, l, |ps|, A_TO_B, B_TO_A);
    SummaryFits(qs);
  }

  lemma SummaryFits(qs: seq<Arrival>)
    requires SameFlow(qs) && Within(TallyOfBoth(qs, A_TO_B, B_TO_A), Tally(U64_MAX, U64_MAX, U64_MAX))
    requires TallyOfBoth(qs, A_TO_B, B_TO_A).packets > 0
    ensures var r := Summary(qs);
            HasFeatures(r) <==> && r.aToB.captured <= r.aToB.wire && r.bToA.captured <= r.bToA.wire
                                && Micros(r.lastSeen) - Micros(r.firstSeen) <= U64_MAX
  {
    NoPacketsNoBytes(qs, A_TO_B);
    NoPacketsNoBytes(qs, B_TO_A);
    SummaryIsSound(qs);
  }

  lemma SummaryIsSound(qs: seq<Arrival>)
    requires SameFlow(qs)
    ensures var r := Summary(qs);
            && r.initialized && r.key.protocol in {PROTOCOL_TCP, PROTOCOL_UDP, PROTOCOL_ICMP}
            && (r.tcpState.initialized <==> r.key.protocol == PROTOCOL_TCP)
            && ValidTime(r.firstSeen) && ValidTime(r.lastSeen) && Micros(r.firstSeen) <= Micros(r.lastSeen)
            && TallyOf(r) == TallyOfBoth(qs, A_TO_B, B_TO_A)
  {
    assert ProperArrival(qs[0]);
  }

  /** No packet is captured longer than it was on the wire, and no two lie too far apart. */
  ghost predicate PlainCapture(ps: seq<Packet>) {
    && (forall i :: 0 <= i < |ps| ==> |ps[i].data| <= ps[i].wire)
    && forall i, j | 0 <= i < |ps| && 0 <= j < |ps| :: Micros(ps[j].time) - Micros(ps[i].time) <= U64_MAX
  }

  lemma TimesFromCapture(ps: seq<Packet>, l: Lifetime, t: Time)
    requires AllTimesValid(ps) && AllArrive(EventsOf(ps), l) && t in TimesOf(Arrivals(EventsOf(ps), l))
    ensures exists i :: 0 <= i < |ps| && ps[i].time == t
  {
    var x :| 0 <= x < |l| && TimesOf(Arrivals(EventsOf(ps), l))[x] == t;
    assert Arrives(EventsOf(ps), l[x]);
    CompletePacketsArrive(ps[l[x]]);
  }

  /** So a plain capture always gets its feature CSV. */
  lemma PlainCapturesFit(cfg: Config, ps: seq<Packet>, log: Log)
    requires cfg.capacity > 0 && Completes(cfg, ps) && FullRun(cfg, ps, log) && PlainCapture(ps)
    ensures AllFit(EventsOf(ps), log.states[|ps|].lifetimes)
  {
    var es := EventsOf(ps);
    RunIsSound(cfg, es, log.victims, log.states, |ps|);
    forall l | l in log.states[|ps|].lifetimes
      ensures HasFeatures(RecordOf(es, l))
    {
      assert Whole(es, l, |ps|);
      PlainLifetimeFits(cfg, ps, l);
    }
  }

  lemma PlainLifetimeFits(cfg: Config, ps: seq<Packet>, l: Lifetime)
    requires Completes(cfg, ps) && PlainCapture(ps) && Whole(EventsOf(ps), l, |ps|)
    ensures HasFeatures(RecordOf(EventsOf(ps), l))
  {
    var r := RecordOf(EventsOf(ps), l);
    FitMeaning(cfg, ps, l);
    LifetimeRecordFits(ps, l, r);
    TimesFromCapture(ps, l, r.firstSeen);
    TimesFromCapture(ps, l, r.lastSeen);
  }

  /** But a lone complete packet whose captured length exceeds its wire length,
      which the parsers accept, spoils it. */
  lemma OverlongPacketNeverFits(cfg: Config, ps: seq<Packet>, log: Log)
    requires cfg.capacity > 0 && Completes(cfg, ps) && FullRun(cfg, ps, log)
    requires |ps| == 1 && InfoOf(ps[0]).status == COMPLETE && |ps[0].data| > ps[0].wire
    ensures !AllFit(EventsOf(ps), log.states[1].lifetimes)
  {
    var es := EventsOf(ps);
    CompletePacketsArrive(ps[0]);
    LoneLifetime(cfg, es, log.victims, log.states);
    LoneRecord(es, [0]);
    FitMeaning(cfg, ps, [0]);
  }

  lemma LoneLifetime(cfg: Config, es: seq<Event>, victims: seq<FlowKey>, states: seq<State>)
    requires cfg.capacity > 0 && Arrives(es, 0) && IsRun(cfg, es, victims, states) && |states| > 1
    ensures [0] in states[1].lifetimes && Whole(es, [0], 1)
  {
    StepOfRun(cfg, es, victims, states, 0, states[0], states[1], victims[0]);
    FirstStep(cfg, es, states[0], states[1], victims[0]);
    assert [0][0] == 0;
  }

  lemma FirstStep(cfg: Config, es: seq<Event>, s: State, s': State, victim: FlowKey)
    requires cfg.capacity > 0 && s == INITIAL && Arrives(es, 0) && IsStep(cfg, es, s, s', 0, victim)
    ensures [0] in s'.lifetimes
  {
    assert Expire(cfg, es, s, Micros(es[0].time)).live == map[];
  }

  lemma LoneRecord(es: seq<Event>, l: Lifetime)
    requires Arrives(es, 0) && l == [0]
    ensures var r, a := RecordOf(es, l), ArrivalAt(es, 0);
            a.captured > a.wire ==> r.aToB.captured > r.aToB.wire || r.bToA.captured > r.bToA.wire
  {
    var a := ArrivalAt(es, 0);
    RecordStarts(es, 0);
    SummaryOfOne(a);
  }
}
