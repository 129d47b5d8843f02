/** What a run depends on.  Only the choice among oldest flows last seen at the same
    moment is left to the table, and hence to the hash function; a capture has a
    single run exactly if no packet meets such a tie. */
module Determinism {
  import opened Machine
  import opened Timestamps
  import opened FlowKey
  import opened FlowRecord
  import opened OpenAddressing
  import opened Engine
  import opened RuntimeMetrics
  import opened CaptureLedger
  import opened Departures
  import opened CaptureRun
  import opened GroupBy
  import opened FeatureRun
  import opened App

  /** Packet `n` must displace a record, and two flows are legal victims. */
  ghost predicate Tie(cfg: Config, es: seq<Event>, s: State, n: nat) {
    && n < |es| && Displaces(cfg, es, ScannedState(cfg, es, s, n), n)
    && exists v, v' :: v != v' && IsVictim(es, ScannedState(cfg, es, s, n), v)
                       && IsVictim(es, ScannedState(cfg, es, s, n), v')
  }

  /** The table never had a choice. */
  ghost predicate NoTies(cfg: Config, es: seq<Event>, states: seq<State>) {
    forall n: nat | n < |states| - 1 :: !Tie(cfg, es, states[n], n)
  }

  // ----- one step ------------------------------------------------------------------------------

  /** Without a tie a step has only one outcome. */
  lemma StepIsDetermined(cfg: Config, es: seq<Event>, s: State, n: nat, s': State, victim: FlowKey, s'': State,
                         victim': FlowKey)
    requires n < |es| && !Tie(cfg, es, s, n)
    requires IsStep(cfg, es, s, s', n, victim) && IsStep(cfg, es, s, s'', n, victim')
    ensures s' == s''
  {
    if Displaces(cfg, es, ScannedState(cfg, es, s, n), n) {
      assert IsVictim(es, ScannedState(cfg, es, s, n), victim) && IsVictim(es, ScannedState(cfg, es, s, n), victim');
    }
  }

  /** At a tie the two choices are legal and lead to different states. */
  lemma TieChooses(cfg: Config, es: seq<Event>, s: State, n: nat, v: FlowKey, v': FlowKey)
    requires n < |es| && Displaces(cfg, es, ScannedState(cfg, es, s, n), n) && v != v'
    requires IsVictim(es, ScannedState(cfg, es, s, n), v) && IsVictim(es, ScannedState(cfg, es, s, n), v')
    ensures IsStep(cfg, es, s, Step(cfg, es, s, n, v), n, v) && IsStep(cfg, es, s, Step(cfg, es, s, n, v'), n, v')
    ensures Step(cfg, es, s, n, v) != Step(cfg, es, s, n, v')
  {
    assert v' in Step(cfg, es, s, n, v).live && v' !in Step(cfg, es, s, n, v').live;
  }

  // ----- whole runs ------------------------------------------------------------------------------

  lemma {:induction false} RunIsDetermined(cfg: Config, es: seq<Event>, victims: seq<FlowKey>, states: seq<State>,
                                           victims': seq<FlowKey>, states': seq<State>, n: nat)
    requires IsRun(cfg, es, victims, states) && IsRun(cfg, es, victims', states') && NoTies(cfg, es, states)
    requires n < |states| && n < |states'|
    ensures states[n] == states'[n]
  {
    if n > 0 {
      var m := n - 1;
      RunIsDetermined(cfg, es, victims, states, victims', states', m);
      RunSteps(cfg, es, victims, states, m);
      RunSteps(cfg, es, victims', states', m);
      StepIsDetermined(cfg, es, states[m], m, states[m + 1], victims[m], states'[m + 1], victims'[m]);
    }
  }

  lemma SameStates(cfg: Config, ps: seq<Packet>, log: Log, log': Log)
    requires FullRun(cfg, ps, log) && FullRun(cfg, ps, log') && NoTies(cfg, EventsOf(ps), log.states)
    ensures log.states == log'.states
  {
    forall n | 0 <= n <= |ps|
      ensures log.states[n] == log'.states[n]
    {
      RunIsDetermined(cfg, EventsOf(ps), log.victims, log.states, log'.victims, log'.states, n);
    }
  }

  lemma RunBegins(cfg: Config, es: seq<Event>, victims: seq<FlowKey>, states: seq<State>, n: nat)
    requires IsRun(cfg, es, victims, states) && n < |states|
    ensures IsRun(cfg, es, victims[..n], states[..n + 1])
  {
    var begun, begins := victims[..n], states[..n + 1];
    forall m: nat | m < n
      ensures StepAt(cfg, es, begun, begins, m)
    {
      RunSteps(cfg, es, victims, states, m);
    }
  }

  /** After a tie there is another run. */
  lemma TieForks(cfg: Config, ps: seq<Packet>, log: Log, n: nat) returns (log': Log)
    requires cfg.capacity > 0 && FullRun(cfg, ps, log) && n < |ps| && Tie(cfg, EventsOf(ps), log.states[n], n)
    ensures FullRun(cfg, ps, log') && log'.states[n + 1] != log.states[n + 1]
  {
    var es, s := EventsOf(ps), log.states[n];
    var v := OtherVictim(cfg, es, s, n, log.victims[n]);
    RunSteps(cfg, es, log.victims, log.states, n);
    TieChooses(cfg, es, s, n, log.victims[n], v);
    var next := Step(cfg, es, s, n, v);
    RunBegins(cfg, es, log.victims, log.states, n);
    RunExtends(cfg, es, log.victims[..n], log.states[..n + 1], next, v);
    var victims, states := RunGoesOn(cfg, es, log.victims[..n] + [v], log.states[..n + 1] + [next]);
    assert (log.states[..n + 1] + [next])[n + 1] == next;
    log' := Log(victims, states, [], []);
  }

  lemma OtherVictim(cfg: Config, es: seq<Event>, s: State, n: nat, victim: FlowKey) returns (v: FlowKey)
    requires Tie(cfg, es, s, n)
    ensures v != victim && IsVictim(es, ScannedState(cfg, es, s, n), v)
  {
    var v1, v2 :| v1 != v2 && IsVictim(es, ScannedState(cfg, es, s, n), v1)
                  && IsVictim(es, ScannedState(cfg, es, s, n), v2);
    v := if v1 != victim then v1 else v2;
  }

  /** A run is the capture's only one if and only if it meets no tie. */
  lemma OnlyRunIffNoTies(cfg: Config, ps: seq<Packet>, log: Log)
    requires cfg.capacity > 0 && FullRun(cfg, ps, log)
    ensures (forall log' | FullRun(cfg, ps, log') :: log'.states == log.states) <==>
            NoTies(cfg, EventsOf(ps), log.states)
  {
    if NoTies(cfg, EventsOf(ps), log.states) {
      forall log' | FullRun(cfg, ps, log')
        ensures log'.states == log.states
      {
        SameStates(cfg, ps, log, log');
      }
    } else {
      var n: nat :| n < |log.states| - 1 && Tie(cfg, EventsOf(ps), log.states[n], n);
      var log' := TieForks(cfg, ps, log, n);
      assert FullRun(cfg, ps, log') && log'.states != log.states;
    }
  }

  /** The capture leaves the table no choice. */
  ghost predicate Determined(cfg: Config, ps: seq<Packet>) {
    exists log :: FullRun(cfg, ps, log) && NoTies(cfg, EventsOf(ps), log.states)
  }

  // ----- captures without ties ------------------------------------------------------------------

  lemma RejectionLeavesNoChoice(cfg: Config, es: seq<Event>, states: seq<State>)
    requires !cfg.evictWhenFull
    ensures NoTies(cfg, es, states)
  {
  }

  lemma {:induction false} LastSeenIsAttained(es: seq<Event>, l: Lifetime, k: FlowKey, n: nat) returns (x: nat)
    requires IsLifetime(es, l, k, n)
    ensures x < |l| && LastSeen(es, l) == Micros(es[l[x]].time)
  {
    x := |l| - 1;
    if |l| > 1 && LastSeen(es, l) != TimeAt(es, l[x]) {
      x := LastSeenIsAttained(es, l[..|l| - 1], k, n);
    }
  }

  /** No two packets of different flows carry the same time. */
  ghost predicate DistinctTimes(es: seq<Event>) {
    forall i, j | Arrives(es, i) && Arrives(es, j) && Micros(es[i].time) == Micros(es[j].time) ::
      KeyAt(es, i) == KeyAt(es, j)
  }

  /** Legal victims were last seen at the same moment. */
  lemma OldestAreSimultaneous(cfg: Config, es: seq<Event>, s: State, n: nat, victim: FlowKey, victim': FlowKey)
    returns (i: nat, i': nat)
    requires Sound(cfg, es, s, n) && IsVictim(es, s, victim) && IsVictim(es, s, victim')
    ensures ArrivesFor(es, i, victim) && ArrivesFor(es, i', victim') && Micros(es[i].time) == Micros(es[i'].time)
  {
    var l, l' := s.live[victim], s.live[victim'];
    var x := LastSeenIsAttained(es, l, victim, n);
    var x' := LastSeenIsAttained(es, l', victim', n);
    i, i' := l[x], l'[x'];
  }

  lemma DistinctTimesLeaveNoChoice(cfg: Config, es: seq<Event>, victims: seq<FlowKey>, states: seq<State>)
    requires cfg.capacity > 0 && IsRun(cfg, es, victims, states) && DistinctTimes(es)
    ensures NoTies(cfg, es, states)
  {
    forall n: nat | n < |states| - 1
      ensures !Tie(cfg, es, states[n], n)
    {
      RunIsSound(cfg, es, victims, states, n);
      ExpireKeepsSound(cfg, es, states[n], n, Micros(es[n].time));
      forall v, v' | IsVictim(es, ScannedState(cfg, es, states[n], n), v)
                     && IsVictim(es, ScannedState(cfg, es, states[n], n), v')
        ensures v == v'
      {
        var i, i' := OldestAreSimultaneous(cfg, es, ScannedState(cfg, es, states[n], n), n, v, v');
        assert KeyAt(es, i) == v && KeyAt(es, i') == v';
      }
    }
  }

  /** Nor is there a choice while there is room for every flow. */
  lemma {:induction false} FewFlowsLeaveNoChoice(cfg: Config, es: seq<Event>, victims: seq<FlowKey>, states: seq<State>)
    requires cfg.capacity > 0 && IsRun(cfg, es, victims, states) && |Appearances(es, |es|)| <= cfg.capacity
    ensures NoTies(cfg, es, states)
  {
    forall n: nat | n < |states| - 1
      ensures !Tie(cfg, es, states[n], n)
    {
      RunIsSound(cfg, es, victims, states, n);
      ExpireKeepsSound(cfg, es, states[n], n, Micros(es[n].time));
      RoomForAll(cfg, es, ScannedState(cfg, es, states[n], n), n);
    }
  }

  lemma {:induction false} RoomForAll(cfg: Config, es: seq<Event>, s: State, n: nat)
    requires Sound(cfg, es, s, n) && |Appearances(es, |es|)| <= cfg.capacity && n < |es|
    ensures !Displaces(cfg, es, s, n)
  {
    var ks := Appearances(es, |es|);
    var k := KeyAt(es, n);
    AppearancesDiffer(es, |es|);
    forall k1 | k1 in s.live
      ensures k1 in ks
    {
      assert ArrivesFor(es, s.live[k1][0], k1);
      AppearedHavePackets(es, k1, |es|);
    }
    if Arrives(es, n) && k !in s.live {
      AppearedHavePackets(es, k, |es|);
      assert ArrivesFor(es, n, k);
      var all := set k1 | k1 in ks;
      SetSize(ks, all);
      assert s.live.Keys + {k} <= all;
      SubsetSize(s.live.Keys + {k}, all);
    }
  }

  // ----- the records -----------------------------------------------------------------------------

  /** Two enumerations of the same lifetimes carry the same records. */
  lemma {:induction false} SameLedger(es: seq<Event>, all: set<Lifetime>, ls: seq<Lifetime>, rs: seq<FlowRecord>,
                                      ls': seq<Lifetime>, rs': seq<FlowRecord>)
    requires Ledger(es, all, ls, rs) && Ledger(es, all, ls', rs')
    ensures multiset(rs) == multiset(rs')
    decreases |ls|
  {
    assert forall x :: 0 <= x < |ls'| ==> ls'[x] in all;
    if ls != [] {
      var n := |ls| - 1;
      assert ls[n] in all;
      var j :| 0 <= j < |ls'| && ls'[j] == ls[n];
      LedgerWithout(es, all, ls, rs, n);
      LedgerWithout(es, all, ls', rs', j);
      SameLedger(es, all - {ls[n]}, ls[..n] + ls[n + 1..], rs[..n] + rs[n + 1..],
                 ls'[..j] + ls'[j + 1..], rs'[..j] + rs'[j + 1..]);
      TakeOut(rs, n);
      TakeOut(rs', j);
    }
  }

  lemma LedgerWithout(es: seq<Event>, all: set<Lifetime>, ls: seq<Lifetime>, rs: seq<FlowRecord>, j: nat)
    requires Ledger(es, all, ls, rs) && j < |ls|
    ensures Ledger(es, all - {ls[j]}, ls[..j] + ls[j + 1..], rs[..j] + rs[j + 1..])
    ensures rs[j] == RecordOf(es, ls[j])
  {
    DifferWithout(ls, j);
    WithoutAt(ls, j);
    WithoutAt(rs, j);
  }

  lemma DifferWithout(ls: seq<Lifetime>, j: nat)
    requires AllDiffer(ls) && j < |ls|
    ensures var ls1 := ls[..j] + ls[j + 1..];
            AllDiffer(ls1) && forall l :: l in ls1 <==> l in ls && l != ls[j]
  {
    var ls1 := ls[..j] + ls[j + 1..];
    WithoutAt(ls, j);
    forall l | l in ls && l != ls[j]
      ensures l in ls1
    {
      var x :| 0 <= x < |ls| && ls[x] == l;
      assert ls1[if x < j then x else x - 1] == l;
    }
    forall l | l in ls1
      ensures l in ls && l != ls[j]
    {
      var x :| 0 <= x < |ls1| && ls1[x] == l;
      assert l == ls[if x < j then x else x + 1];
    }
  }

  lemma WithoutAt<T>(xs: seq<T>, j: nat)
    requires j < |xs|
    ensures var ys := xs[..j] + xs[j + 1..];
            |ys| == |xs| - 1 && forall x :: 0 <= x < |ys| ==> ys[x] == xs[if x < j then x else x + 1]
  {
  }

  /** The lifetimes that have left the table. */
  ghost function Over(s: State): set<Lifetime> {
    set l | l in s.lifetimes && !IsLive(s, l)
  }

  lemma OverIsLedger(es: seq<Event>, s: State, closed: seq<Lifetime>, exported: seq<FlowRecord>)
    requires Settled(es, s, closed, exported)
    ensures Ledger(es, Over(s), closed, exported)
  {
  }

  lemma SameExports(es: seq<Event>, s: State, closed: seq<Lifetime>, exported: seq<FlowRecord>,
                    closed': seq<Lifetime>, exported': seq<FlowRecord>)
    requires Settled(es, s, closed, exported) && Settled(es, s, closed', exported')
    ensures multiset(exported) == multiset(exported')
  {
    OverIsLedger(es, s, closed, exported);
    OverIsLedger(es, s, closed', exported');
    SameLedger(es, Over(s), closed, exported, closed', exported');
  }

  lemma Remainder<T>(xs: seq<T>, ys: seq<T>, xs': seq<T>, ys': seq<T>)
    requires multiset(xs) == multiset(xs') && multiset(xs + ys) == multiset(xs' + ys')
    ensures multiset(ys) == multiset(ys')
  {
    assert multiset(ys) == multiset(xs + ys) - multiset(xs);
    assert multiset(ys') == multiset(xs' + ys') - multiset(xs');
  }

  // ----- two runs ----------------------------------------------------------------------------------

  /** If one complete run meets no tie, then any other one, with any hash function,
      classifies every packet alike, exports and keeps the same records, and counts alike. */
  lemma HashIsUnobservable(cfg: Config, ps: seq<Packet>, log: Log, exported: seq<FlowRecord>,
                           residents: seq<FlowRecord>, ls: seq<Lifetime>, totals: Totals, log': Log,
                           exported': seq<FlowRecord>, residents': seq<FlowRecord>, ls': seq<Lifetime>, totals': Totals)
    requires NoTies(cfg, EventsOf(ps), log.states)
    requires Accounted(cfg, ps, log, exported + residents, ls, totals) && Departed(cfg, ps, log, exported, totals)
    requires Accounted(cfg, ps, log', exported' + residents', ls', totals')
             && Departed(cfg, ps, log', exported', totals')
    ensures multiset(exported) == multiset(exported') && multiset(residents) == multiset(residents')
    ensures log.states == log'.states && log.classes == log'.classes && totals == totals'
  {
    var s, es := log.states[|ps|], EventsOf(ps);
    SameStates(cfg, ps, log, log');
    SameExports(es, s, log.closed, exported, log'.closed, exported');
    SameLedger(es, s.lifetimes, ls, exported + residents, ls', exported' + residents');
    Remainder(exported, residents, exported', residents');
    SameClasses(ps, s.rejected, log.classes, log'.classes);
    SameTotals(ps, log.classes, totals, totals');
  }

  lemma SameClasses(ps: seq<Packet>, rejected: set<nat>, classes: seq<PacketClass>, classes': seq<PacketClass>)
    requires ClassesMatch(ps, rejected, classes) && ClassesMatch(ps, rejected, classes') && |classes| == |classes'|
    ensures classes == classes'
  {
  }

  lemma SameTotals(ps: seq<Packet>, classes: seq<PacketClass>, t: Totals, t': Totals)
    requires TotalsOk(ps, classes, t) && TotalsOk(ps, classes, t') && t.expired == t'.expired && t.evicted == t'.evicted
    ensures t == t'
  {
    assert t.Of(CLASS_COMPLETE) == t'.Of(CLASS_COMPLETE) && t.Of(CLASS_TRUNCATED) == t'.Of(CLASS_TRUNCATED);
    assert t.Of(CLASS_MALFORMED) == t'.Of(CLASS_MALFORMED) && t.Of(CLASS_UNSUPPORTED) == t'.Of(CLASS_UNSUPPORTED);
    assert t.Of(CLASS_FLOW_REJECTED) == t'.Of(CLASS_FLOW_REJECTED);
  }

  /** Some run over the whole capture leaves no lifetime without features. */
  ghost predicate SomeRunFits(cfg: Config, ps: seq<Packet>) {
    exists log :: FullRun(cfg, ps, log) && AllFit(EventsOf(ps), log.states[|ps|].lifetimes)
  }

  lemma RunsFitAlike(cfg: Config, ps: seq<Packet>, log: Log)
    requires FullRun(cfg, ps, log) && Determined(cfg, ps)
    ensures AllFit(EventsOf(ps), log.states[|ps|].lifetimes) <==> SomeRunFits(cfg, ps)
    ensures NoTies(cfg, EventsOf(ps), log.states)
  {
    var log' :| FullRun(cfg, ps, log') && NoTies(cfg, EventsOf(ps), log'.states);
    SameStates(cfg, ps, log', log);
    if SomeRunFits(cfg, ps) {
      var log'' :| FullRun(cfg, ps, log'') && AllFit(EventsOf(ps), log''.states[|ps|].lifetimes);
      SameStates(cfg, ps, log', log'');
    }
  }

  /** Runs a capture with two hash functions. */
  method RunTwice(ps: seq<Packet>, idle: I64, evictWhenFull: bool, hash: Hash, hash': Hash, withFeatures: bool)
    returns (code: Errno, exported: seq<FlowRecord>, residents: seq<FlowRecord>, totals: Totals,
             code': Errno, exported': seq<FlowRecord>, residents': seq<FlowRecord>, totals': Totals)
    ensures var cfg := ConfigOf(idle, evictWhenFull);
            Determined(cfg, ps) ==>
              && (code == OK <==> code' == OK)
              && (code == OK <==> Completes(cfg, ps) && (withFeatures ==> SomeRunFits(cfg, ps)))
    ensures Determined(ConfigOf(idle, evictWhenFull), ps) && code == OK ==>
              && multiset(exported) == multiset(exported') && multiset(residents) == multiset(residents')
              && totals == totals'
  {
    ghost var cfg := ConfigOf(idle, evictWhenFull);
    var features, features';
    ghost var log, ls, log', ls';
    code, exported, residents, features, totals, log, ls :=
      RunCaptureAnalysis(ps, idle, evictWhenFull, hash, withFeatures);
    code', exported', residents', features', totals', log', ls' :=
      RunCaptureAnalysis(ps, idle, evictWhenFull, hash', withFeatures);
    if Determined(cfg, ps) && Completes(cfg, ps) {
      RunsFitAlike(cfg, ps, log);
      RunsFitAlike(cfg, ps, log');
      if code == OK {
        HashIsUnobservable(cfg, ps, log, exported, residents, ls, totals, log', exported', residents', ls', totals');
      }
    }
  }
}
