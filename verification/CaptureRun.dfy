/** How the books of a capture run carry over a step of its loop, and what they
    say at the end. */
module CaptureRun {
  import opened Machine
  import opened Timestamps
  import opened FlowKey
  import opened FlowRecord
  import opened OpenAddressing
  import opened FlowTable
  import opened Expiration
  import opened Engine
  import opened Segmentation
  import opened RuntimeMetrics
  import opened CaptureLedger
  import opened Departures

  /** What may stop the loop at packet `p`: the grand totals, an invalid time, or
      a scan cutoff below every representable time - and nothing else. */
  function StepCode(cfg: Config, totals: Totals, clock: Clock, p: Packet): Errno {
    if totals.packets + 1 > U64_MAX || totals.captured + |p.data| > U64_MAX || totals.wire + p.wire > U64_MAX
    then EOVERFLOW
    else if !ValidTime(p.time) then EINVAL
    else ScanCode(cfg, clock, p)
  }

  function ScanCode(cfg: Config, clock: Clock, p: Packet): Errno {
    if !cfg.expires then OK
    else if !ValidTime(p.time) then EINVAL
    else
      var scan := Tick(clock, Micros(p.time), cfg.idle, cfg.interval).1;
      if scan.Some? && scan.value < I64_MIN * MICROS_PER_SECOND then ERANGE else OK
  }

  // ----- the counters, step by step -----------------------------------------------------------------------

  ghost predicate StepOk(cfg: Config, p: Packet, clock: Clock, clock': Clock, m: map<FlowKey, FlowRecord>, total: Tally,
                         t: Trace, m': map<FlowKey, FlowRecord>, total': Tally) {
    && (cfg.expires ==> ValidTime(p.time))
    && ScanOk(cfg, clock, Micros(p.time), clock', m, total, t)
    && AdmitOk(cfg, p, t, m', total')
  }

  /** One packet of class `c` was counted, and so many exports of either kind. */
  ghost predicate TotalsCount(before: Totals, after: Totals, c: PacketClass, expired: nat, evicted: nat) {
    && after.packets == before.packets && after.captured == before.captured && after.wire == before.wire
    && after.expired == before.expired + expired && after.evicted == before.evicted + evicted
    && forall d :: after.Of(d) == before.Of(d) + if d == c then 1 else 0
  }

  ghost predicate TotalsStep(before: Totals, after: Totals, p: Packet, t: Trace) {
    && after.packets == before.packets + 1
    && after.captured == before.captured + |p.data| && after.wire == before.wire + p.wire
    && after.expired == before.expired + |t.expired| && after.evicted == before.evicted + |ExportOf(t.evicted)|
    && forall d :: after.Of(d) == before.Of(d) + if d == t.result then 1 else 0
  }

  /** The counters, the clock and the completeness condition after `n` packets. */
  ghost predicate CountsOk(cfg: Config, ps: seq<Packet>, n: nat, s: State, classes: seq<PacketClass>, totals: Totals,
                           clock: Clock) {
    && n <= |ps| && TotalsOk(ps[..n], classes, totals) && Completes(cfg, ps[..n])
    && (cfg.expires ==> clock == s.clock == ClockAfter(MicrosOf(ps[..n]), cfg.idle, cfg.interval))
  }

  lemma OpeningCounts(cfg: Config, ps: seq<Packet>, classes: seq<PacketClass>, totals: Totals, clock: Clock)
    requires classes == [] && totals == NO_TOTALS && clock == Unset
    ensures CountsOk(cfg, ps, 0, INITIAL, classes, totals, clock)
  {
    assert ps[..0] == [];
    EmptyTotals(ps[..0], classes, totals);
    EmptyCompletes(cfg);
    assert MicrosOf(ps[..0]) == [];
  }

  lemma ClockStep(cfg: Config, ps: seq<Packet>, n: nat)
    requires n < |ps|
    ensures var before := ClockAfter(MicrosOf(ps[..n]), cfg.idle, cfg.interval);
            var (clock, scan) := Tick(before, Micros(ps[n].time), cfg.idle, cfg.interval);
            && ClockAfter(MicrosOf(ps[..n + 1]), cfg.idle, cfg.interval) == clock
            && (CutoffsFit(cfg, ps[..n]) ==>
                  (CutoffsFit(cfg, ps[..n + 1]) <==>
                   (cfg.expires && scan.Some? ==> scan.value >= I64_MIN * MICROS_PER_SECOND)))
  {
    var ts, us := MicrosOf(ps[..n + 1]), MicrosOf(ps[..n]);
    assert ts[..n] == us && ts[n] == Micros(ps[n].time);
    var scan := Tick(ClockAfter(us, cfg.idle, cfg.interval), ts[n], cfg.idle, cfg.interval).1;
    assert Cutoffs(ts, cfg.idle, cfg.interval)
        == Cutoffs(us, cfg.idle, cfg.interval) + (if scan.Some? then [scan.value] else []);
    CutoffsOneMore(Cutoffs(us, cfg.idle, cfg.interval), scan);
  }

  lemma CutoffsOneMore(cs: seq<int>, scan: Option<int>)
    ensures forall c :: c in cs + (if scan.Some? then [scan.value] else []) <==> c in cs || scan == Some(c)
  {
  }

  lemma TotalsStop(ps: seq<Packet>, n: nat, totals: Totals)
    requires n < |ps| && Tally(totals.packets, totals.captured, totals.wire) == TallyOfPackets(ps[..n])
    ensures TalliesFit(ps[..n + 1]) <==>
            && totals.packets + 1 <= U64_MAX && totals.captured + |ps[n].data| <= U64_MAX
            && totals.wire + ps[n].wire <= U64_MAX
  {
    TallyOfPrefix(ps, n);
  }

  lemma TimesStop(ps: seq<Packet>, n: nat)
    requires n < |ps|
    ensures AllTimesValid(ps[..n + 1]) <==> AllTimesValid(ps[..n]) && ValidTime(ps[n].time)
  {
    assert forall i :: 0 <= i < n ==> ps[..n + 1][i] == ps[..n][i];
    assert ps[..n + 1][n] == ps[n];
  }

  /** The loop goes on exactly if the capture so far is one that completes. */
  lemma StepStops(cfg: Config, ps: seq<Packet>, n: nat, s: State, classes: seq<PacketClass>, totals: Totals,
                  clock: Clock)
    requires n < |ps| && CountsOk(cfg, ps, n, s, classes, totals, clock)
    ensures StepCode(cfg, totals, clock, ps[n]) == OK <==> Completes(cfg, ps[..n + 1])
    ensures Completes(cfg, ps) ==> Completes(cfg, ps[..n + 1])
  {
    TotalsStop(ps, n, totals);
    TimesStop(ps, n);
    ClockStep(cfg, ps, n);
    if Completes(cfg, ps) {
      CompletesEarlier(cfg, ps, n + 1);
    }
  }

  /** The loop stops at packet `n`, the first it does not get past, with this error. */
  predicate StopsAt(cfg: Config, ps: seq<Packet>, n: nat, code: Errno) {
    && n < |ps| && Completes(cfg, ps[..n])
    && if !TalliesFit(ps[..n + 1]) then code == EOVERFLOW
       else if !ValidTime(ps[n].time) then code == EINVAL
       else code == ERANGE && !CutoffsFit(cfg, ps[..n + 1])
  }

  lemma StepStopsAt(cfg: Config, ps: seq<Packet>, n: nat, s: State, classes: seq<PacketClass>, totals: Totals,
                    clock: Clock)
    requires n < |ps| && CountsOk(cfg, ps, n, s, classes, totals, clock)
    requires StepCode(cfg, totals, clock, ps[n]) != OK
    ensures StopsAt(cfg, ps, n, StepCode(cfg, totals, clock, ps[n]))
  {
    TotalsStop(ps, n, totals);
    ClockStep(cfg, ps, n);
  }

  lemma CountsContinue(cfg: Config, ps: seq<Packet>, n: nat, s: State, s': State, classes: seq<PacketClass>,
                       c: PacketClass, t: Trace, totals: Totals, totals': Totals, clock: Clock, clock': Clock)
    requires n < |ps| && CountsOk(cfg, ps, n, s, classes, totals, clock) && Completes(cfg, ps[..n + 1])
    requires |classes| == n && TotalsStep(totals, totals', ps[n], t) && c == t.result
    requires cfg.expires ==> s'.clock == clock' == Tick(s.clock, Micros(ps[n].time), cfg.idle, cfg.interval).0
    ensures CountsOk(cfg, ps, n + 1, s', classes + [c], totals', clock')
  {
    TallyOfPrefix(ps, n);
    ClockStep(cfg, ps, n);
    AcceptedOfPrefix(ps, n, classes, c);
  }

  lemma NextClock(cfg: Config, ps: seq<Packet>, log: Log, t: Trace)
    requires |log.states| == |log.victims| + 1 && |log.victims| < |ps|
    requires cfg.expires ==> ValidTime(ps[|log.victims|].time)
    ensures var n := |log.victims|;
            cfg.expires ==> NextState(cfg, EventsOf(ps), log, t).clock
                            == Tick(log.states[n].clock, Micros(ps[n].time), cfg.idle, cfg.interval).0
  {
  }

  /** All that one pass of the loop has to carry over. */
  lemma StepContinues(cfg: Config, ps: seq<Packet>, n: nat, log: Log, exported: seq<FlowRecord>, clock: Clock,
                      clock': Clock, m: map<FlowKey, FlowRecord>, total: Tally, t: Trace, m': map<FlowKey, FlowRecord>,
                      total': Tally, totals: Totals, totals': Totals)
    requires n < |ps| && cfg.capacity > 0 && |log.states| == n + 1
    requires LogOk(cfg, ps, n, log.states[n], log, exported, m, total)
    requires CountsOk(cfg, ps, n, log.states[n], log.classes, totals, clock) && Completes(cfg, ps[..n + 1])
    requires StepOk(cfg, ps[n], clock, clock', m, total, t, m', total') && TotalsStep(totals, totals', ps[n], t)
    ensures |log.victims| == n
    ensures var log' := NextLog(cfg, EventsOf(ps), log, t);
            && |log'.states| == n + 2
            && LogOk(cfg, ps, n + 1, log'.states[n + 1], log', exported + Exports(t), m', total')
            && CountsOk(cfg, ps, n + 1, log'.states[n + 1], log'.classes, totals', clock')
  {
    var es, s := EventsOf(ps), log.states[n];
    assert ScanOk(cfg, s.clock, Micros(ps[n].time), clock', m, total, t);
    StepKeepsLog(cfg, ps, n, log, exported, clock', m, total, t, m', total');
    NextClock(cfg, ps, log, t);
    CountsContinue(cfg, ps, n, s, NextState(cfg, es, log, t), log.classes, t.result, t, totals, totals',
                    clock, clock');
  }

  // ----- the export counters --------------------------------------------------------------------

  /** Each export is counted once, by the way it left the table. */
  ghost predicate ExportsCounted(cfg: Config, es: seq<Event>, log: Log, totals: Totals) {
    && DeparturesOk(cfg, es, log)
    && var exits := ExitsOf(cfg, es, log.states, |log.victims|);
    totals.expired == CountExpired(exits) && totals.expired + totals.evicted == |exits|
  }

  lemma OpeningExports(cfg: Config, es: seq<Event>, totals: Totals)
    requires totals.expired == totals.evicted == 0
    ensures ExportsCounted(cfg, es, OPENING, totals)
  {
    OpeningDepartures(cfg, es);
  }

  /** The departures of one pass of the loop, against the log that it extends. */
  lemma {:induction false} NextDepartures(cfg: Config, ps: seq<Packet>, n: nat, log: Log, exported: seq<FlowRecord>,
                                          clock': Clock, m: map<FlowKey, FlowRecord>, total: Tally, t: Trace,
                                          m': map<FlowKey, FlowRecord>, total': Tally)
    requires n == |log.victims| < |ps| && |log.states| == n + 1 && DeparturesOk(cfg, EventsOf(ps), log)
    requires Books(cfg, EventsOf(ps), log.states[n], n, m, log.closed, exported)
    requires ScanOk(cfg, log.states[n].clock, Micros(ps[n].time), clock', m, total, t)
             && AdmitOk(cfg, ps[n], t, m', total')
    requires NoneLive(NextState(cfg, EventsOf(ps), log, t), NextLog(cfg, EventsOf(ps), log, t).closed)
    ensures var es, s := EventsOf(ps), log.states[n];
            && DeparturesOk(cfg, es, NextLog(cfg, es, log, t))
            && ExitsOf(cfg, es, NextLog(cfg, es, log, t).states, n + 1)
               == ExitsOf(cfg, es, log.states, n) + ExitsAt(cfg, es, s, n)
            && |t.expired| == Expirations(cfg, es, s, n)
            && (t.evicted.Some? <==> Displaces(cfg, es, ScannedState(cfg, es, s, n), n))
  {
    var es, s := EventsOf(ps), log.states[n];
    var next := NextLog(cfg, es, log, t);
    var byScan, byPacket := ClosedByScan(s, t.expired), ClosedBy(ScannedState(cfg, es, s, n), t.evicted);
    CompletePacketsArrive(ps[n]);
    ScanStepKeepsBooks(cfg, es, s, n, Micros(ps[n].time), clock', m, total, log.closed, exported, t);
    ClosedInOrder(log.closed, byScan, byPacket);
    NoneLiveAtEnd(next.states[n + 1], log.closed + byScan, byPacket);
    StepDepartures(cfg, es, ps[n], s, n, clock', m, total, t, m', total');
    StepExitsOk(cfg, es, ps[n], next.victims, next.states, n, clock', m, total, t, m', total');
    DeparturesContinue(cfg, es, log, next, n, VictimOf(t.evicted), NextState(cfg, es, log, t), byScan + byPacket);
  }

  lemma ClosedInOrder(closed: seq<Lifetime>, byScan: seq<Lifetime>, byPacket: seq<Lifetime>)
    ensures closed + byScan + byPacket == closed + (byScan + byPacket)
  {
  }

  lemma NoneLiveAtEnd(s: State, closed: seq<Lifetime>, more: seq<Lifetime>)
    requires NoneLive(s, closed + more)
    ensures NoneLive(s, more)
  {
    forall x | 0 <= x < |more|
      ensures !IsLive(s, more[x])
    {
      assert (closed + more)[|closed| + x] == more[x];
    }
  }

  lemma {:induction false} NextExports(cfg: Config, es: seq<Event>, p: Packet, n: nat, log: Log, next: Log, t: Trace,
                                       totals: Totals, totals': Totals)
    requires n < |es| && n < |log.states| && |log.victims| == n && |next.victims| == n + 1
    requires ExportsCounted(cfg, es, log, totals) && TotalsStep(totals, totals', p, t) && DeparturesOk(cfg, es, next)
    requires ExitsOf(cfg, es, next.states, n + 1)
          == ExitsOf(cfg, es, log.states, n) + ExitsAt(cfg, es, log.states[n], n)
    requires |t.expired| == Expirations(cfg, es, log.states[n], n)
    requires t.evicted.Some? <==> Displaces(cfg, es, ScannedState(cfg, es, log.states[n], n), n)
    ensures ExportsCounted(cfg, es, next, totals')
  {
    CountExitsAt(cfg, es, log.states[n], n);
    CountExpiredAppends(ExitsOf(cfg, es, log.states, n), ExitsAt(cfg, es, log.states[n], n));
  }

  /** And the export counters with it. */
  lemma ExportsContinue(cfg: Config, ps: seq<Packet>, n: nat, log: Log, exported: seq<FlowRecord>, clock': Clock,
                        m: map<FlowKey, FlowRecord>, total: Tally, t: Trace, m': map<FlowKey, FlowRecord>,
                        total': Tally, totals: Totals, totals': Totals)
    requires n == |log.victims| < |ps| && |log.states| == n + 1
    requires Books(cfg, EventsOf(ps), log.states[n], n, m, log.closed, exported)
    requires ScanOk(cfg, log.states[n].clock, Micros(ps[n].time), clock', m, total, t)
             && AdmitOk(cfg, ps[n], t, m', total')
    requires NoneLive(NextState(cfg, EventsOf(ps), log, t), NextLog(cfg, EventsOf(ps), log, t).closed)
    requires ExportsCounted(cfg, EventsOf(ps), log, totals) && TotalsStep(totals, totals', ps[n], t)
    ensures ExportsCounted(cfg, EventsOf(ps), NextLog(cfg, EventsOf(ps), log, t), totals')
  {
    NextDepartures(cfg, ps, n, log, exported, clock', m, total, t, m', total');
    NextExports(cfg, EventsOf(ps), ps[n], n, log, NextLog(cfg, EventsOf(ps), log, t), t, totals, totals');
  }

  // ----- the end of the run ------------------------------------------------------------------------------

  /** `rs` holds the record of every lifetime, each exactly once. */
  ghost predicate Ledger(es: seq<Event>, all: set<Lifetime>, ls: seq<Lifetime>, rs: seq<FlowRecord>) {
    && |ls| == |rs| && AllDiffer(ls) && (forall l :: l in all <==> l in ls)
    && forall x :: 0 <= x < |ls| ==> rs[x] == RecordOf(es, ls[x])
  }

  lemma LedgerEntry(es: seq<Event>, all: set<Lifetime>, ls: seq<Lifetime>, rs: seq<FlowRecord>, x: nat)
    requires Ledger(es, all, ls, rs) && x < |rs|
    ensures x < |ls| && ls[x] in all && rs[x] == RecordOf(es, ls[x])
  {
  }

  lemma LifetimeIsWhole(cfg: Config, es: seq<Event>, victims: seq<FlowKey>, states: seq<State>, n: nat, l: Lifetime)
    requires cfg.capacity > 0 && IsRun(cfg, es, victims, states) && n < |states| && l in states[n].lifetimes
    ensures Whole(es, l, n)
  {
    RunIsSound(cfg, es, victims, states, n);
  }

  /** `records` and `totals` account for the whole capture. */
  ghost predicate Accounted(cfg: Config, ps: seq<Packet>, log: Log, records: seq<FlowRecord>, lifetimes: seq<Lifetime>,
                            totals: Totals) {
    && |log.states| == |ps| + 1 && |log.classes| == |ps|
    && IsRun(cfg, EventsOf(ps), log.victims, log.states)
    && Ledger(EventsOf(ps), log.states[|ps|].lifetimes, lifetimes, records) && AllOk(records)
    && ClassesMatch(ps, log.states[|ps|].rejected, log.classes)
    && TallyOfAll(records) == AcceptedTally(ps, log.classes)
    && TotalsOk(ps, log.classes, totals)
  }

  /** The exported records are those of the lifetimes that are over at the end;
      each left as its departure says, and the two export counters count these. */
  ghost predicate Departed(cfg: Config, ps: seq<Packet>, log: Log, exported: seq<FlowRecord>, totals: Totals) {
    && |log.states| == |ps| + 1 && |log.victims| == |ps|
    && Settled(EventsOf(ps), log.states[|ps|], log.closed, exported)
    && ExportsCounted(cfg, EventsOf(ps), log, totals)
  }

  /** Each policy explains its own counter: nothing is evicted under the reject
      policy, and nothing expires without an idle timeout. */
  lemma PolicyCounts(cfg: Config, ps: seq<Packet>, log: Log, exported: seq<FlowRecord>, totals: Totals)
    requires Departed(cfg, ps, log, exported, totals)
    ensures totals.expired + totals.evicted == |exported|
    ensures !cfg.evictWhenFull ==> totals.evicted == 0
    ensures !cfg.expires ==> totals.expired == 0
  {
    OnlyPolicyExits(cfg, EventsOf(ps), log.states, |ps|);
  }

  /** The five result counters add up to the number of packets, and the flow
      records count exactly the complete ones. */
  lemma {:induction false} FiveClassesAddUp(ps: seq<Packet>, classes: seq<PacketClass>, t: Totals)
    requires |classes| == |ps| && TotalsOk(ps, classes, t)
    ensures t.complete + t.truncated + t.malformed + t.unsupported + t.flowRejected == t.packets == |ps|
    ensures AcceptedTally(ps, classes).packets == t.complete
  {
    ClassesPartition(classes);
    AcceptedWithinAll(ps, classes);
    AcceptedAreComplete(ps, classes);
    assert t.Of(CLASS_COMPLETE) == t.complete && t.Of(CLASS_TRUNCATED) == t.truncated
           && t.Of(CLASS_MALFORMED) == t.malformed;
    assert t.Of(CLASS_UNSUPPORTED) == t.unsupported && t.Of(CLASS_FLOW_REJECTED) == t.flowRejected;
  }

  lemma {:induction false} AcceptedAreComplete(ps: seq<Packet>, classes: seq<PacketClass>)
    requires |classes| == |ps|
    ensures AcceptedTally(ps, classes).packets == CountOf(classes, CLASS_COMPLETE)
  {
    if ps != [] {
      AcceptedAreComplete(ps[..|ps| - 1], classes[..|ps| - 1]);
    }
  }

  /** The records of a slot array, taken in slot order, are its map, each entry once. */
  lemma {:induction false} ResidentsAreEntries(s: seq<Slot>)
    requires DistinctKeys(s)
    ensures IsRemoval(Contents(s), map[], Residents(s))
  {
    if s == [] {
      assert KeySet(Residents(s)) == {};
    } else {
      var n := |s| - 1;
      ResidentsAreEntries(s[..n]);
      if s[n].state == OCCUPIED {
        LastKeyIsNew(s);
        AllLeave(Contents(s[..n]), Residents(s[..n]), s[n].record);
      }
    }
  }

  lemma AllLeave(m: map<FlowKey, FlowRecord>, out: seq<FlowRecord>, r: FlowRecord)
    requires IsRemoval(m, map[], out) && r.key !in m
    ensures IsRemoval(m[r.key := r], map[], out + [r])
  {
    assert KeySet(out + [r]) == KeySet(out) + {r.key} by {
      assert (out + [r])[|out|] == r;
      assert forall x :: 0 <= x < |out| ==> (out + [r])[x] == out[x];
    }
    forall k | k in m
      ensures k in KeySet(out)
    {
      assert k !in m - KeySet(out);
    }
  }

  lemma EverybodyLeaves(es: seq<Event>, s: State, m: map<FlowKey, FlowRecord>, rs: seq<FlowRecord>)
    requires Mirrors(es, s, m) && IsRemoval(m, map[], rs)
    ensures Left(s, s.(live := map[]), rs) && KeySet(rs) == s.live.Keys
  {
    forall k | k in m
      ensures k in KeySet(rs)
    {
      assert k !in m - KeySet(rs);
    }
    assert KeySet(rs) == m.Keys;
  }

  /** The final sweep settles every lifetime that is still open. */
  lemma {:induction false} SweepSettles(cfg: Config, es: seq<Event>, s: State, n: nat, slots: seq<Slot>,
                                        closed: seq<Lifetime>, exported: seq<FlowRecord>)
    requires DistinctKeys(slots) && Books(cfg, es, s, n, Contents(slots), closed, exported)
    ensures forall x :: 0 <= x < |Residents(slots)| ==> Residents(slots)[x].key in s.live
    ensures KeysDiffer(Residents(slots)) && KeySet(Residents(slots)) == s.live.Keys
    ensures Ledger(es, s.lifetimes, closed + LivesOf(s, Residents(slots)), exported + Residents(slots))
  {
    var m, rs := Contents(slots), Residents(slots);
    ResidentsAreEntries(slots);
    var s' := s.(live := map[]);
    EverybodyLeaves(es, s, m, rs);
    RemovalSettles(cfg, es, s, s', n, closed, exported, m, map[], rs);
    NothingLive(es, s', closed + LivesOf(s, rs), exported + rs);
  }

  lemma NothingLive(es: seq<Event>, s: State, ls: seq<Lifetime>, rs: seq<FlowRecord>)
    requires s.live == map[] && Settled(es, s, ls, rs)
    ensures Ledger(es, s.lifetimes, ls, rs)
  {
  }

  lemma SumIs(x: Tally, y: Tally, sum: Tally)
    requires AddUp(x, y, sum)
    ensures x.Plus(y) == sum
  {
  }

  lemma {:induction false} SweepTally(ps: seq<Packet>, classes: seq<PacketClass>, exported: seq<FlowRecord>,
                                      residents: seq<FlowRecord>, resident: Tally)
    requires Balanced(ps, classes, exported, resident) && resident == TallyOfAll(residents)
    ensures TallyOfAll(exported + residents) == AcceptedTally(ps, classes)
  {
    SumIs(TallyOfAll(exported), resident, AcceptedTally(ps, classes));
    TallyOfAllAppends(exported, residents);
  }

  lemma {:induction false} ResidentsAreOk(slots: seq<Slot>)
    requires RecordsOk(slots)
    ensures AllOk(Residents(slots))
  {
    if slots != [] {
      ResidentsAreOk(slots[..|slots| - 1]);
    }
  }

  lemma {:induction false} SweepBalances(ps: seq<Packet>, classes: seq<PacketClass>, exported: seq<FlowRecord>,
                                         slots: seq<Slot>)
    requires Balanced(ps, classes, exported, TallyOfSlots(slots)) && RecordsOk(slots)
    ensures TallyOfAll(exported + Residents(slots)) == AcceptedTally(ps, classes) && AllOk(exported + Residents(slots))
    ensures AllOk(Residents(slots))
  {
    TalliesAgree(slots);
    SweepTally(ps, classes, exported, Residents(slots), TallyOfSlots(slots));
    ResidentsAreOk(slots);
    AllOkAppends(exported, Residents(slots));
  }

  /** `residents` are the records still in the table, and `ls` the lifetimes of
      the `closed` ones and these. */
  ghost predicate ResidentsAreLive(s: State, closed: seq<Lifetime>, residents: seq<FlowRecord>, ls: seq<Lifetime>) {
    && KeysDiffer(residents) && KeySet(residents) == s.live.Keys
    && (forall x :: 0 <= x < |residents| ==> residents[x].key in s.live)
    && ls == closed + LivesOf(s, residents)
  }

  lemma Closing(cfg: Config, ps: seq<Packet>, log: Log, exported: seq<FlowRecord>, slots: seq<Slot>, totals: Totals)
    returns (lifetimes: seq<Lifetime>)
    requires |log.states| == |ps| + 1 && DistinctKeys(slots) && RecordsOk(slots)
    requires LogOk(cfg, ps, |ps|, log.states[|ps|], log, exported, Contents(slots), TallyOfSlots(slots))
    requires TotalsOk(ps, log.classes, totals)
    ensures Accounted(cfg, ps, log, exported + Residents(slots), lifetimes, totals)
    ensures ResidentsAreLive(log.states[|ps|], log.closed, Residents(slots), lifetimes)
    ensures AllOk(Residents(slots))
  {
    var s := log.states[|ps|];
    assert ps[..|ps|] == ps;
    SweepSettles(cfg, EventsOf(ps), s, |ps|, slots, log.closed, exported);
    SweepBalances(ps, log.classes, exported, slots);
    lifetimes := log.closed + LivesOf(s, Residents(slots));
  }

  lemma ClosingDepartures(cfg: Config, ps: seq<Packet>, log: Log, exported: seq<FlowRecord>,
                          view: map<FlowKey, FlowRecord>, resident: Tally, totals: Totals)
    requires |log.states| == |ps| + 1 && ExportsCounted(cfg, EventsOf(ps), log, totals)
    requires LogOk(cfg, ps, |ps|, log.states[|ps|], log, exported, view, resident)
    ensures Departed(cfg, ps, log, exported, totals)
  {
  }

  /** Packets `i` and `j` are counted in one of the run's records. */
  ghost predicate InOneRecord(lifetimes: seq<Lifetime>, i: nat, j: nat) {
    exists x :: 0 <= x < |lifetimes| && i in lifetimes[x] && j in lifetimes[x]
  }

  /** In the records of a completed run two neighbouring accepted packets of a flow
      are counted together if and only if neither a scan nor an eviction between
      them cut their flow.  With expiration on, under the reject policy and with
      packet times that never go back, that is if and only if the last scan up to
      the second one comes before the first one's idle timeout; so they are
      together below the idle timeout, and apart from timeout plus interval minus
      one microsecond on. */
  lemma RecordsAreSegments(cfg: Config, ps: seq<Packet>, log: Log, records: seq<FlowRecord>, lifetimes: seq<Lifetime>,
                           totals: Totals, i: nat, j: nat)
    requires Accounted(cfg, ps, log, records, lifetimes, totals)
    requires cfg.capacity > 0 && (cfg.expires ==> cfg.interval > 0)
    requires j < |ps| && Neighbours(EventsOf(ps), log.states[|ps|], i, j)
    ensures KeyAt(EventsOf(ps), i) in log.states[i + 1].live
    ensures InOneRecord(lifetimes, i, j)
       <==> && !CutByScan(cfg, EventsOf(ps), i, j, SeenAt(EventsOf(ps), log.states, i))
            && !CutByEviction(cfg, EventsOf(ps), log.victims, log.states, KeyAt(EventsOf(ps), i), i, j)
    ensures Scanning(cfg) && Ordered(EventsOf(ps)) ==>
              var es := EventsOf(ps);
              && (InOneRecord(lifetimes, i, j) <==> LastScan(cfg, es, j) < At(es, i) + cfg.idle)
              && (At(es, j) - At(es, i) < cfg.idle ==> InOneRecord(lifetimes, i, j))
              && (At(es, j) - At(es, i) > cfg.idle + cfg.interval - 2 ==> !InOneRecord(lifetimes, i, j))
  {
    RecordsAreLifetimes(log.states[|ps|].lifetimes, lifetimes, i, j);
    SegmentsExactly(cfg, EventsOf(ps), log.victims, log.states, |ps|, i, j);
    if Scanning(cfg) && Ordered(EventsOf(ps)) {
      LifetimeSegmentation(cfg, EventsOf(ps), log.victims, log.states, |ps|, i, j);
    }
  }

  lemma RecordsAreLifetimes(all: set<Lifetime>, lifetimes: seq<Lifetime>, i: nat, j: nat)
    requires forall l :: l in all <==> l in lifetimes
    ensures InOneRecord(lifetimes, i, j) <==> Together(all, i, j)
  {
    if l :| l in all && i in l && j in l {
      var x :| 0 <= x < |lifetimes| && lifetimes[x] == l;
    }
    if x :| 0 <= x < |lifetimes| && i in lifetimes[x] && j in lifetimes[x] {
      assert lifetimes[x] in all;
    }
  }
}
