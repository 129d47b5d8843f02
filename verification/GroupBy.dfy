/** Without expiration and eviction a run is a plain group-by. */
module GroupBy {
  import opened FlowKey
  import opened FlowRecord
  import opened Engine
  import opened CaptureLedger
  import opened OpenAddressing
  import opened FlowTable
  import opened RuntimeMetrics
  import opened CaptureRun
  import opened FlowFeatures
  import opened FeatureRun

  /** The reject policy with expiration off. */
  predicate Collecting(cfg: Config) {
    !cfg.expires && !cfg.evictWhenFull && cfg.capacity > 0
  }

  /** The flows of the first `n` packets in order of first appearance. */
  function Appearances(es: seq<Event>, n: nat): (ks: seq<FlowKey>) {
    if n == 0 then []
    else
      var before := Appearances(es, n - 1);
      if Arrives(es, n - 1) && KeyAt(es, n - 1) !in before then before + [KeyAt(es, n - 1)] else before
  }

  /** The positions of flow `k`'s packets among the first `n`. */
  function PacketsOf(es: seq<Event>, k: FlowKey, n: nat): Lifetime {
    if n == 0 then []
    else PacketsOf(es, k, n - 1) + if ArrivesFor(es, n - 1, k) then [n - 1] else []
  }

  /** The flows that found a place: the first `capacity` ones. */
  function Places(cfg: Config, es: seq<Event>, n: nat): seq<FlowKey> {
    var ks := Appearances(es, n);
    if |ks| <= cfg.capacity then ks else ks[..cfg.capacity]
  }

  /** One lifetime for each flow with a place, holding all its packets. */
  ghost predicate GroupedLive(cfg: Config, es: seq<Event>, live: map<FlowKey, Lifetime>, n: nat) {
    && (forall k :: k in live <==> k in Places(cfg, es, n))
    && forall k :: k in live ==> live[k] == PacketsOf(es, k, n)
  }

  /** Exactly the packets of the other flows are rejected. */
  ghost predicate GroupedOut(cfg: Config, es: seq<Event>, rejected: set<nat>, n: nat) {
    forall i :: i in rejected <==> i < n && Arrives(es, i) && KeyAt(es, i) !in Places(cfg, es, n)
  }

  ghost predicate AllLive(s: State) {
    forall l :: l in s.lifetimes ==> IsLive(s, l)
  }

  ghost predicate Grouped(cfg: Config, es: seq<Event>, s: State, n: nat) {
    GroupedLive(cfg, es, s.live, n) && GroupedOut(cfg, es, s.rejected, n) && AllLive(s)
  }

  predicate NoRepeats<T(==)>(ks: seq<T>) {
    forall x, y | 0 <= x < y < |ks| :: ks[x] != ks[y]
  }

  lemma {:induction false} AppearancesDiffer(es: seq<Event>, n: nat)
    ensures NoRepeats(Appearances(es, n))
  {
    if n > 0 {
      AppearancesDiffer(es, n - 1);
    }
  }

  /** A flow has appeared exactly if it has packets. */
  lemma {:induction false} AppearedHavePackets(es: seq<Event>, k: FlowKey, n: nat)
    ensures k in Appearances(es, n) <==> PacketsOf(es, k, n) != []
    ensures forall i: nat :: i < n && ArrivesFor(es, i, k) ==> k in Appearances(es, n)
  {
    if n > 0 {
      AppearedHavePackets(es, k, n - 1);
      OneMoreAppears(es, k, n - 1);
    }
  }

  lemma OneMoreAppears(es: seq<Event>, k: FlowKey, m: nat)
    ensures k in Appearances(es, m + 1) <==> k in Appearances(es, m) || ArrivesFor(es, m, k)
    ensures PacketsOf(es, k, m + 1) != [] <==> PacketsOf(es, k, m) != [] || ArrivesFor(es, m, k)
  {
    var before := Appearances(es, m);
    assert k in before + [KeyAt(es, m)] <==> k in before || k == KeyAt(es, m);
  }

  lemma SetSize<T>(xs: seq<T>, s: set<T>)
    requires NoRepeats(xs) && forall x :: x in s <==> x in xs
    ensures |s| == |xs|
  {
    if xs == [] {
      assert s == {};
    } else {
      var n := |xs| - 1;
      assert xs == xs[..n] + [xs[n]];
      SetSize(xs[..n], s - {xs[n]});
    }
  }

  lemma LiveSize(cfg: Config, es: seq<Event>, s: State, n: nat)
    requires GroupedLive(cfg, es, s.live, n)
    ensures |s.live| == |Places(cfg, es, n)|
  {
    AppearancesDiffer(es, n);
    SetSize(Places(cfg, es, n), s.live.Keys);
  }

  /** The places after one more packet. */
  lemma PlacesGrow(cfg: Config, es: seq<Event>, n: nat)
    ensures var before, after, k := Places(cfg, es, n), Places(cfg, es, n + 1), KeyAt(es, n);
            after == if Arrives(es, n) && k !in before && |before| < cfg.capacity then before + [k] else before
  {
  }

  /** Packet `n` of flow `k` joins its group. */
  lemma JoinGroup(cfg: Config, es: seq<Event>, live: map<FlowKey, Lifetime>, n: nat, k: FlowKey)
    requires Collecting(cfg) && GroupedLive(cfg, es, live, n) && ArrivesFor(es, n, k) && k in live
    ensures GroupedLive(cfg, es, live[k := live[k] + [n]], n + 1)
  {
    PlacesGrow(cfg, es, n);
  }

  /** Packet `n` starts a group while there are places left. */
  lemma {:induction false} StartGroup(cfg: Config, es: seq<Event>, s: State, n: nat, k: FlowKey)
    requires Collecting(cfg) && GroupedLive(cfg, es, s.live, n) && ArrivesFor(es, n, k)
    requires k !in s.live && |s.live| < cfg.capacity
    ensures GroupedLive(cfg, es, s.live[k := [n]], n + 1)
    ensures k !in Appearances(es, n)
  {
    LiveSize(cfg, es, s, n);
    PlacesGrow(cfg, es, n);
    AppearedHavePackets(es, k, n);
    var before := Places(cfg, es, n);
    assert forall k1 :: k1 in before + [k] <==> k1 in before || k1 == k;
  }

  /** A packet without a place leaves the groups alone. */
  lemma SkipGroup(cfg: Config, es: seq<Event>, s: State, n: nat)
    requires Collecting(cfg) && GroupedLive(cfg, es, s.live, n)
    requires Arrives(es, n) ==> KeyAt(es, n) !in s.live && |s.live| >= cfg.capacity
    ensures GroupedLive(cfg, es, s.live, n + 1) && Places(cfg, es, n + 1) == Places(cfg, es, n)
  {
    LiveSize(cfg, es, s, n);
    PlacesGrow(cfg, es, n);
  }

  /** A flow that takes a new place has no earlier packets. */
  lemma OutStart(cfg: Config, es: seq<Event>, s: State, n: nat)
    requires Collecting(cfg) && GroupedLive(cfg, es, s.live, n) && GroupedOut(cfg, es, s.rejected, n)
    requires Arrives(es, n) && KeyAt(es, n) !in s.live && |s.live| < cfg.capacity
    ensures GroupedOut(cfg, es, s.rejected, n + 1)
  {
    var k, before, after := KeyAt(es, n), Places(cfg, es, n), Places(cfg, es, n + 1);
    LiveSize(cfg, es, s, n);
    PlacesGrow(cfg, es, n);
    StartGroup(cfg, es, s, n, k);
    AppearedHavePackets(es, k, n);
    assert after == before + [k];
    forall i: nat | i < n && Arrives(es, i)
      ensures KeyAt(es, i) in before <==> KeyAt(es, i) in after
    {
      assert ArrivesFor(es, i, KeyAt(es, i));
    }
  }

  /** Flows with a place keep it, and their earlier packets stay accepted. */
  lemma OutStep(cfg: Config, es: seq<Event>, s: State, n: nat, rejected': set<nat>)
    requires Collecting(cfg) && GroupedLive(cfg, es, s.live, n) && GroupedOut(cfg, es, s.rejected, n)
    requires rejected' == if Arrives(es, n) && KeyAt(es, n) !in s.live && |s.live| >= cfg.capacity
                          then s.rejected + {n} else s.rejected
    ensures GroupedOut(cfg, es, rejected', n + 1)
  {
    if Arrives(es, n) && KeyAt(es, n) !in s.live && |s.live| < cfg.capacity {
      OutStart(cfg, es, s, n);
    } else {
      LiveSize(cfg, es, s, n);
      PlacesGrow(cfg, es, n);
    }
  }

  lemma AllLiveStep(cfg: Config, es: seq<Event>, s: State, n: nat, k: FlowKey)
    requires Sound(cfg, es, s, n) && AllLive(s)
    ensures k in s.live ==>
              AllLive(s.(live := s.live[k := s.live[k] + [n]], lifetimes := Extend(s.lifetimes, s.live[k], n)))
    ensures k !in s.live ==> AllLive(s.(live := s.live[k := [n]], lifetimes := s.lifetimes + {[n]}))
  {
    var s' := if k in s.live
              then s.(live := s.live[k := s.live[k] + [n]], lifetimes := Extend(s.lifetimes, s.live[k], n))
              else s.(live := s.live[k := [n]], lifetimes := s.lifetimes + {[n]});
    forall l | l in s'.lifetimes
      ensures IsLive(s', l)
    {
      if l in s.lifetimes && (k in s.live ==> l != s.live[k]) {
        var k1 :| k1 in s.live && s.live[k1] == l;
        assert s'.live[k1] == l;
      } else {
        assert s'.live[k] == l;
      }
    }
  }

  lemma GroupStep(cfg: Config, es: seq<Event>, s: State, s': State, n: nat, after: nat, victim: FlowKey)
    requires after == n + 1 && Collecting(cfg) && n < |es| && Sound(cfg, es, s, n) && Grouped(cfg, es, s, n)
    requires IsStep(cfg, es, s, s', n, victim)
    ensures Grouped(cfg, es, s', after)
  {
    var k := KeyAt(es, n);
    OutStep(cfg, es, s, n, s'.rejected);
    AllLiveStep(cfg, es, s, n, k);
    if Arrives(es, n) && k in s.live {
      JoinGroup(cfg, es, s.live, n, k);
    } else if Arrives(es, n) && |s.live| < cfg.capacity {
      StartGroup(cfg, es, s, n, k);
    } else {
      SkipGroup(cfg, es, s, n);
    }
  }

  lemma OpeningGroups(cfg: Config, es: seq<Event>, victims: seq<FlowKey>, states: seq<State>, n: nat)
    requires IsRun(cfg, es, victims, states) && n == 0
    ensures Grouped(cfg, es, states[n], n)
  {
  }

  lemma GroupStepAt(cfg: Config, es: seq<Event>, victims: seq<FlowKey>, states: seq<State>, m: nat, n: nat)
    requires Collecting(cfg) && StepAt(cfg, es, victims, states, m) && n == m + 1
    requires Sound(cfg, es, states[m], m) && Grouped(cfg, es, states[m], m)
    ensures Grouped(cfg, es, states[n], n)
  {
    GroupStep(cfg, es, states[m], states[n], m, n, victims[m]);
  }

  lemma GroupsGoOn(cfg: Config, es: seq<Event>, victims: seq<FlowKey>, states: seq<State>, m: nat, n: nat)
    requires Collecting(cfg) && IsRun(cfg, es, victims, states) && m < |states| - 1 && n == m + 1
    requires Grouped(cfg, es, states[m], m)
    ensures Grouped(cfg, es, states[n], n)
  {
    SoundStepAt(cfg, es, victims, states, m);
    GroupStepAt(cfg, es, victims, states, m, n);
  }

  /** The first `capacity` flows in order of appearance have one lifetime each,
      with all their packets; exactly the other flows' packets are rejected. */
  lemma {:induction false} RunIsGroupBy(cfg: Config, es: seq<Event>, victims: seq<FlowKey>, states: seq<State>, n: nat)
    requires Collecting(cfg) && IsRun(cfg, es, victims, states) && n < |states|
    ensures Grouped(cfg, es, states[n], n)
  {
    if n == 0 {
      OpeningGroups(cfg, es, victims, states, n);
    } else {
      RunIsGroupBy(cfg, es, victims, states, n - 1);
      GroupsGoOn(cfg, es, victims, states, n - 1, n);
    }
  }

  /** So the table after `n` packets holds, for each of the first `capacity` flows,
      the summary of all its packets. */
  lemma {:induction false} TableIsGroupBy(cfg: Config, ps: seq<Packet>, n: nat, log: Log, exported: seq<FlowRecord>,
                                          view: map<FlowKey, FlowRecord>, resident: Tally)
    requires Collecting(cfg) && n < |log.states| && LogOk(cfg, ps, n, log.states[n], log, exported, view, resident)
    ensures forall k :: k in view <==> k in Places(cfg, EventsOf(ps), n)
    ensures forall k :: k in view ==> view[k] == RecordOf(EventsOf(ps), PacketsOf(EventsOf(ps), k, n))
  {
    RunIsGroupBy(cfg, EventsOf(ps), log.victims, log.states, n);
  }

  // ----- what a completed run leaves ------------------------------------------------------------

  lemma ClosedIsOver(es: seq<Event>, s: State, closed: seq<Lifetime>, exported: seq<FlowRecord>, x: nat)
    requires Settled(es, s, closed, exported) && x < |closed|
    ensures closed[x] in s.lifetimes && !IsLive(s, closed[x])
  {
  }

  lemma NothingIsOver(es: seq<Event>, s: State, closed: seq<Lifetime>, exported: seq<FlowRecord>)
    requires AllLive(s) && Settled(es, s, closed, exported)
    ensures closed == [] && exported == []
  {
    if |closed| > 0 {
      ClosedIsOver(es, s, closed, exported, 0);
    }
  }

  /** A resident's record is that of its flow's lifetime. */
  lemma ResidentIsLive(es: seq<Event>, s: State, closed: seq<Lifetime>, exported: seq<FlowRecord>,
                       residents: seq<FlowRecord>, ls: seq<Lifetime>, x: nat)
    requires Ledger(es, s.lifetimes, ls, exported + residents) && ResidentsAreLive(s, closed, residents, ls)
    requires |closed| == |exported| && x < |residents|
    ensures residents[x].key in s.live && residents[x] == RecordOf(es, s.live[residents[x].key])
  {
    var y := |exported| + x;
    assert (exported + residents)[y] == residents[x] && ls[y] == LivesOf(s, residents)[x];
  }

  /** With expiration off and the reject policy, a completed run has exported
      nothing, and its residents are the summaries of the first `capacity` flows,
      each once, with all their packets. */
  lemma {:induction false} ResidentsAreGroupBy(cfg: Config, ps: seq<Packet>, log: Log, exported: seq<FlowRecord>,
                                               residents: seq<FlowRecord>, ls: seq<Lifetime>, totals: Totals)
    requires Collecting(cfg) && Accounted(cfg, ps, log, exported + residents, ls, totals)
    requires Departed(cfg, ps, log, exported, totals)
    requires ResidentsAreLive(log.states[|ps|], log.closed, residents, ls)
    ensures exported == [] && KeysDiffer(residents) && |residents| == |Places(cfg, EventsOf(ps), |ps|)|
    ensures forall k :: k in KeySet(residents) <==> k in Places(cfg, EventsOf(ps), |ps|)
    ensures forall x :: 0 <= x < |residents| ==>
              residents[x] == RecordOf(EventsOf(ps), PacketsOf(EventsOf(ps), residents[x].key, |ps|))
  {
    var es, s := EventsOf(ps), log.states[|ps|];
    RunIsGroupBy(cfg, es, log.victims, log.states, |ps|);
    NothingIsOver(es, s, log.closed, exported);
    LiveSize(cfg, es, s, |ps|);
    KeysCount(residents);
    forall x | 0 <= x < |residents|
      ensures residents[x] == RecordOf(es, PacketsOf(es, residents[x].key, |ps|))
    {
      ResidentIsLive(es, s, log.closed, exported, residents, ls, x);
    }
  }

  /** The packets of each flow with a place, taken together, have features. */
  ghost predicate GroupsHaveFeatures(cfg: Config, es: seq<Event>, n: nat) {
    forall k :: k in Places(cfg, es, n) ==> HasFeatures(RecordOf(es, PacketsOf(es, k, n)))
  }

  lemma {:induction false} GroupIsLifetime(cfg: Config, es: seq<Event>, s: State, n: nat, k: FlowKey)
    requires Sound(cfg, es, s, n) && Grouped(cfg, es, s, n) && k in Places(cfg, es, n)
    ensures PacketsOf(es, k, n) in s.lifetimes
  {
  }

  lemma LifetimeIsGroup(cfg: Config, es: seq<Event>, s: State, n: nat, l: Lifetime) returns (k: FlowKey)
    requires Grouped(cfg, es, s, n) && l in s.lifetimes
    ensures k in Places(cfg, es, n) && l == PacketsOf(es, k, n)
  {
    assert IsLive(s, l);
    k :| k in s.live && s.live[k] == l;
  }

  lemma GroupedFit(cfg: Config, es: seq<Event>, s: State, n: nat)
    requires Sound(cfg, es, s, n) && Grouped(cfg, es, s, n)
    ensures AllFit(es, s.lifetimes) <==> GroupsHaveFeatures(cfg, es, n)
  {
    forall k | k in Places(cfg, es, n)
      ensures PacketsOf(es, k, n) in s.lifetimes
    {
      GroupIsLifetime(cfg, es, s, n, k);
    }
    forall l | l in s.lifetimes
      ensures exists k :: k in Places(cfg, es, n) && l == PacketsOf(es, k, n)
    {
      var k := LifetimeIsGroup(cfg, es, s, n, l);
    }
  }

  /** Such a run completes its feature CSV if and only if the capture's own groups
      have features. */
  lemma GroupsFit(cfg: Config, ps: seq<Packet>, log: Log)
    requires Collecting(cfg) && FullRun(cfg, ps, log)
    ensures AllFit(EventsOf(ps), log.states[|ps|].lifetimes) <==> GroupsHaveFeatures(cfg, EventsOf(ps), |ps|)
  {
    RunIsGroupBy(cfg, EventsOf(ps), log.victims, log.states, |ps|);
    RunIsSound(cfg, EventsOf(ps), log.victims, log.states, |ps|);
    GroupedFit(cfg, EventsOf(ps), log.states[|ps|], |ps|);
  }
}
