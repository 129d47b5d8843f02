/** How the idle timeout and the scan interval cut a flow into lifetimes, on
    captures whose packet times never go back. */
module Segmentation {
  import opened Timestamps
  import opened FlowKey
  import opened Expiration
  import opened Engine

  ghost predicate Ordered(es: seq<Event>) {
    forall i, j | 0 <= i < j < |es| :: Micros(es[i].time) <= Micros(es[j].time)
  }

  function At(es: seq<Event>, i: nat): int
    requires i < |es|
  {
    Micros(es[i].time)
  }

  /** The reject policy with expiration on. */
  predicate Scanning(cfg: Config) {
    cfg.expires && !cfg.evictWhenFull && cfg.capacity > 0 && cfg.idle > 0 && cfg.interval > 0
  }

  lemma {:induction false} LastSeenIsLast(es: seq<Event>, l: Lifetime, k: FlowKey, n: nat)
    requires Ordered(es) && IsLifetime(es, l, k, n)
    ensures LastSeen(es, l) == At(es, l[|l| - 1])
  {
    if |l| > 1 {
      LastSeenIsLast(es, l[..|l| - 1], k, n);
    }
  }

  /** Packet `i` is the last accepted one of flow `k` among the first `n`. */
  ghost predicate Current(es: seq<Event>, rejected: set<nat>, n: nat, k: FlowKey, i: nat) {
    && i < n && ArrivesFor(es, i, k) && i !in rejected
    && forall j: nat | i < j < n && ArrivesFor(es, j, k) :: j in rejected
  }

  /** A flow is still in the table exactly while its last accepted packet is more
      than the idle timeout younger than the last scan. */
  ghost predicate Tracked(cfg: Config, es: seq<Event>, s: State, k: FlowKey, i: nat)
    requires i < |es|
  {
    s.clock.Running?
    && if k in s.live
       then s.live[k] != [] && s.live[k][|s.live[k]| - 1] == i && At(es, i) > s.clock.lastScan - cfg.idle
       else At(es, i) <= s.clock.lastScan - cfg.idle
  }

  ghost predicate ClockOk(cfg: Config, c: Clock, now: int) {
    c.Running? && c.latest == now && c.lastScan <= now < c.lastScan + cfg.interval
  }

  ghost predicate Tracking(cfg: Config, es: seq<Event>, s: State, n: nat)
    requires n <= |es|
  {
    && (if n == 0 then s.clock.Unset? else ClockOk(cfg, s.clock, At(es, n - 1)))
    && forall k, i | Current(es, s.rejected, n, k, i) :: Tracked(cfg, es, s, k, i)
  }

  /** The joint invariant of schedule, table and lifetimes. */
  ghost predicate Good(cfg: Config, es: seq<Event>, s: State, n: nat)
    requires n <= |es|
  {
    Sound(cfg, es, s, n) && Tracking(cfg, es, s, n)
  }

  lemma ExpireTracks(cfg: Config, es: seq<Event>, s: State, n: nat)
    requires Scanning(cfg) && Ordered(es) && n < |es| && Sound(cfg, es, s, n) && Tracking(cfg, es, s, n)
    ensures var s' := Expire(cfg, es, s, At(es, n));
            && ClockOk(cfg, s'.clock, At(es, n)) && s'.rejected == s.rejected
            && forall k, i | Current(es, s.rejected, n, k, i) :: Tracked(cfg, es, s', k, i)
  {
    var s' := Expire(cfg, es, s, At(es, n));
    forall k, i | Current(es, s.rejected, n, k, i)
      ensures Tracked(cfg, es, s', k, i)
    {
      assert Tracked(cfg, es, s, k, i);
      if k in s.live {
        LastSeenIsLast(es, s.live[k], k, n);
      }
    }
  }

  lemma AdmitTracks(cfg: Config, es: seq<Event>, s: State, n: nat, victim: FlowKey)
    requires Scanning(cfg) && n < |es| && Arrives(es, n) && ClockOk(cfg, s.clock, At(es, n))
    requires forall k, i | Current(es, s.rejected, n, k, i) :: Tracked(cfg, es, s, k, i)
    requires forall i :: i in s.rejected ==> i < n
    ensures Tracking(cfg, es, Admit(cfg, s, n, KeyAt(es, n), victim), n + 1)
  {
    var s' := Admit(cfg, s, n, KeyAt(es, n), victim);
    forall k, i: nat | Current(es, s'.rejected, n + 1, k, i)
      ensures Tracked(cfg, es, s', k, i)
    {
      if i < n {
        assert Current(es, s.rejected, n, k, i);
        if k == KeyAt(es, n) {
          assert n in s'.rejected;
        }
      }
    }
  }

  lemma SkipTracks(cfg: Config, es: seq<Event>, s: State, n: nat)
    requires n < |es| && !Arrives(es, n) && ClockOk(cfg, s.clock, At(es, n))
    requires forall k, i | Current(es, s.rejected, n, k, i) :: Tracked(cfg, es, s, k, i)
    ensures Tracking(cfg, es, s, n + 1)
  {
    forall k, i | Current(es, s.rejected, n + 1, k, i)
      ensures Tracked(cfg, es, s, k, i)
    {
      assert Current(es, s.rejected, n, k, i);
    }
  }

  lemma StepTracks(cfg: Config, es: seq<Event>, s: State, s': State, n: nat, after: nat, victim: FlowKey)
    requires after == n + 1 && Scanning(cfg) && Ordered(es) && n < |es| && Good(cfg, es, s, n)
    requires IsStep(cfg, es, s, s', n, victim)
    ensures Tracking(cfg, es, s', after)
  {
    ExpireTracks(cfg, es, s, n);
    if Arrives(es, n) {
      AdmitTracks(cfg, es, Expire(cfg, es, s, At(es, n)), n, victim);
    } else {
      SkipTracks(cfg, es, Expire(cfg, es, s, At(es, n)), n);
    }
  }

  lemma InitiallyGood(cfg: Config, es: seq<Event>, victims: seq<FlowKey>, states: seq<State>, n: nat)
    requires IsRun(cfg, es, victims, states) && n == 0
    ensures Good(cfg, es, states[n], n)
  {
  }

  lemma {:induction false} RunIsGood(cfg: Config, es: seq<Event>, victims: seq<FlowKey>, states: seq<State>, n: nat)
    requires Scanning(cfg) && Ordered(es) && IsRun(cfg, es, victims, states) && n < |states|
    ensures Good(cfg, es, states[n], n)
  {
    if n == 0 {
      InitiallyGood(cfg, es, victims, states, n);
    } else {
      var m := n - 1;
      var s, s', victim := states[m], states[n], victims[m];
      RunIsGood(cfg, es, victims, states, m);
      StepOfRun(cfg, es, victims, states, m, s, s', victim);
      StepTracks(cfg, es, s, s', m, n, victim);
      StepKeepsSound(cfg, es, s, s', m, victim);
    }
  }

  // ----- decisions are final ----------------------------------------------------------------

  lemma StepIsFinal(cfg: Config, es: seq<Event>, s: State, s': State, n: nat, victim: FlowKey, i: nat, j: nat)
    requires n < |es| && Sound(cfg, es, s, n) && IsStep(cfg, es, s, s', n, victim) && i < n && j < n
    ensures i in s'.rejected <==> i in s.rejected
    ensures Together(s'.lifetimes, i, j) <==> Together(s.lifetimes, i, j)
  {
    if Arrives(es, n) {
      var scanned := Expire(cfg, es, s, At(es, n));
      var k := KeyAt(es, n);
      if k in scanned.live {
        ExtendKeepsTogether(es, s.lifetimes, s.rejected, n, scanned.live[k], i, j);
      } else {
        StartKeepsTogether(es, s.lifetimes, s.rejected, n, i, j);
      }
    }
  }

  /** Later packets never change who was rejected or who is together with whom. */
  lemma {:induction false} DecisionsAreFinal(cfg: Config, es: seq<Event>, victims: seq<FlowKey>, states: seq<State>,
                                             m: nat, n: nat, i: nat, j: nat)
    requires cfg.capacity > 0 && IsRun(cfg, es, victims, states) && i < m && j < m && m <= n < |states|
    ensures i in states[n].rejected <==> i in states[m].rejected
    ensures Together(states[n].lifetimes, i, j) <==> Together(states[m].lifetimes, i, j)
  {
    if m < n {
      var o := n - 1;
      DecisionsAreFinal(cfg, es, victims, states, m, o, i, j);
      RunIsSound(cfg, es, victims, states, o);
      RunSteps(cfg, es, victims, states, o);
      StepIsFinal(cfg, es, states[o], states[o + 1], o, victims[o], i, j);
    }
  }

  /** Packets `i` and `j` are accepted, of one flow, and neighbours in it. */
  ghost predicate Neighbours(es: seq<Event>, s: State, i: nat, j: nat) {
    && i < j && Accepted(es, s, i) && Accepted(es, s, j) && KeyAt(es, i) == KeyAt(es, j)
    && forall m: nat | i < m < j && ArrivesFor(es, m, KeyAt(es, i)) :: m in s.rejected
  }

  ghost predicate Accepted(es: seq<Event>, s: State, i: int) {
    Arrives(es, i) && i !in s.rejected
  }

  /** Packet `j` joins packet `i` if the flow is still in the table. */
  lemma JoinsLifetime(cfg: Config, es: seq<Event>, s: State, s': State, n: nat, k: FlowKey, i: nat, victim: FlowKey)
    requires k in s.live && s.live[k] != [] && s.live[k][|s.live[k]| - 1] == i && s' == Admit(cfg, s, n, k, victim)
    ensures Together(s'.lifetimes, i, n)
  {
    var l := s.live[k];
    assert (l + [n])[|l|] == n && (l + [n])[|l| - 1] == i;
    assert l + [n] in s'.lifetimes;
  }

  /** Otherwise it starts a lifetime of its own. */
  lemma StartsLifetime(cfg: Config, es: seq<Event>, s: State, s': State, n: nat, k: FlowKey, i: nat, victim: FlowKey)
    requires k !in s.live && s' == Admit(cfg, s, n, k, victim) && n !in s'.rejected && i < n
    requires Partition(es, s'.lifetimes, s'.rejected, n + 1)
    ensures !Together(s'.lifetimes, i, n)
  {
    assert [n] in s'.lifetimes && n in [n];
  }

  /** What the final state says about `i` and `j` was settled when `j` arrived. */
  lemma WereNeighbours(cfg: Config, es: seq<Event>, victims: seq<FlowKey>, states: seq<State>, n: nat, i: nat, j: nat)
    requires cfg.capacity > 0 && IsRun(cfg, es, victims, states) && j < n < |states|
    requires Neighbours(es, states[n], i, j)
    ensures i !in states[i + 1].rejected && j !in states[j + 1].rejected
    ensures forall m: nat | i < m < j && ArrivesFor(es, m, KeyAt(es, i)) :: m in states[m + 1].rejected
    ensures Together(states[n].lifetimes, i, j) <==> Together(states[j + 1].lifetimes, i, j)
  {
    DecisionsAreFinal(cfg, es, victims, states, j + 1, n, i, j);
    forall m: nat | i <= m <= j
      ensures m in states[n].rejected <==> m in states[m + 1].rejected
    {
      DecisionsAreFinal(cfg, es, victims, states, m + 1, n, m, m);
    }
  }

  // ----- the clock is a function of the packet times ------------------------------------------

  function Times(es: seq<Event>): (ts: seq<int>)
    ensures |ts| == |es| && forall i :: 0 <= i < |es| ==> ts[i] == Micros(es[i].time)
  {
    seq(|es|, i requires 0 <= i < |es| => Micros(es[i].time))
  }

  /** The schedule after the first `n` packets. */
  function ClockAt(cfg: Config, es: seq<Event>, n: nat): Clock
    requires n <= |es|
  {
    ClockAfter(Times(es)[..n], cfg.idle, cfg.interval)
  }

  /** When the last scan up to packet `n` took place, or when the first packet came. */
  function LastScan(cfg: Config, es: seq<Event>, n: nat): int
    requires n < |es|
  {
    match ClockAt(cfg, es, n + 1)
    case Unset => 0
    case Running(_, lastScan) => lastScan
  }

  lemma ClockTicks(cfg: Config, es: seq<Event>, n: nat)
    requires n < |es|
    ensures ClockAt(cfg, es, n + 1) == Tick(ClockAt(cfg, es, n), At(es, n), cfg.idle, cfg.interval).0
    ensures ClockAt(cfg, es, n + 1).Running?
  {
    assert Times(es)[..n + 1][..n] == Times(es)[..n];
  }

  lemma {:induction false} ClockIsOfTimes(cfg: Config, es: seq<Event>, victims: seq<FlowKey>, states: seq<State>,
                                          n: nat)
    requires IsRun(cfg, es, victims, states) && n < |states| && cfg.expires
    ensures states[n].clock == ClockAt(cfg, es, n)
  {
    if n > 0 {
      var m := n - 1;
      ClockIsOfTimes(cfg, es, victims, states, m);
      RunSteps(cfg, es, victims, states, m);
      ClockTicks(cfg, es, m);
    }
  }

  // ----- how a flow leaves the table ----------------------------------------------------------

  /** The scan before a packet at `now` takes out what was last seen at `seen`. */
  predicate ScansOut(cfg: Config, c: Clock, now: int, seen: int) {
    cfg.expires && var scan := Tick(c, now, cfg.idle, cfg.interval).1; scan.Some? && seen <= scan.value
  }

  /** Packet `n` displaces flow `k`. */
  ghost predicate DisplacedAt(cfg: Config, es: seq<Event>, victims: seq<FlowKey>, states: seq<State>, k: FlowKey,
                              n: nat) {
    && n < |es| && n < |victims| && n < |states| && Arrives(es, n) && victims[n] == k
    && var live := Expire(cfg, es, states[n], At(es, n)).live;
    cfg.evictWhenFull && KeyAt(es, n) !in live && |live| >= cfg.capacity
  }

  ghost predicate LeavesAt(cfg: Config, es: seq<Event>, victims: seq<FlowKey>, states: seq<State>, k: FlowKey,
                           seen: int, n: nat) {
    && n < |es| && n < |states|
    && (ScansOut(cfg, states[n].clock, At(es, n), seen) || DisplacedAt(cfg, es, victims, states, k, n))
  }

  lemma {:induction false} ScanWithout(cfg: Config, es: seq<Event>, s: State, now: int, k: FlowKey)
    ensures var live := Expire(cfg, es, s, now).live;
            && (k in live <==> k in s.live && !ScansOut(cfg, s.clock, now, LastSeen(es, s.live[k])))
            && (k in live ==> live[k] == s.live[k])
  {
  }

  lemma AdmitWithout(cfg: Config, s: State, s': State, n: nat, k': FlowKey, k: FlowKey, victim: FlowKey)
    requires s' == Admit(cfg, s, n, k', victim) && n !in s.rejected && (k' == k ==> n in s'.rejected)
    ensures k in s'.live
       <==> k in s.live && !(cfg.evictWhenFull && k' !in s.live && |s.live| >= cfg.capacity && victim == k)
    ensures k in s'.live ==> s'.live[k] == s.live[k]
  {
  }

  /** A step without an accepted packet of flow `k`. */
  lemma {:induction false} StepWithout(cfg: Config, es: seq<Event>, victims: seq<FlowKey>, states: seq<State>,
                                       k: FlowKey, l: Lifetime, n: nat)
    requires IsRun(cfg, es, victims, states) && n < |states| - 1 && n < |es| && Sound(cfg, es, states[n], n)
    requires ArrivesFor(es, n, k) ==> n in states[n + 1].rejected
    requires k in states[n].live ==> states[n].live[k] == l
    ensures k in states[n + 1].live ==> states[n + 1].live[k] == l
    ensures k in states[n + 1].live
       <==> k in states[n].live && !LeavesAt(cfg, es, victims, states, k, LastSeen(es, l), n)
  {
    RunSteps(cfg, es, victims, states, n);
    ScanWithout(cfg, es, states[n], At(es, n), k);
    if Arrives(es, n) {
      assert n !in states[n].rejected;
      AdmitWithout(cfg, Expire(cfg, es, states[n], At(es, n)), states[n + 1], n, KeyAt(es, n), k, victims[n]);
    }
  }

  /** Flow `k` keeps lifetime `l` until something takes it out. */
  lemma {:induction false} StaysUntil(cfg: Config, es: seq<Event>, victims: seq<FlowKey>, states: seq<State>,
                                      k: FlowKey, l: Lifetime, i: nat, n: nat)
    requires cfg.capacity > 0 && IsRun(cfg, es, victims, states) && i < n < |states|
    requires k in states[i + 1].live && states[i + 1].live[k] == l
    requires forall m: nat | i < m < n && ArrivesFor(es, m, k) :: m in states[m + 1].rejected
    ensures k in states[n].live ==> states[n].live[k] == l
    ensures k in states[n].live
       <==> forall m: nat | i < m < n :: !LeavesAt(cfg, es, victims, states, k, LastSeen(es, l), m)
  {
    if i + 1 < n {
      var m := n - 1;
      StaysUntil(cfg, es, victims, states, k, l, i, m);
      RunIsSound(cfg, es, victims, states, m);
      StepWithout(cfg, es, victims, states, k, l, m);
    }
  }

  /** An accepted packet is the last of its flow's lifetime. */
  lemma AcceptedIsLive(cfg: Config, es: seq<Event>, victims: seq<FlowKey>, states: seq<State>, i: nat)
    requires cfg.capacity > 0 && IsRun(cfg, es, victims, states) && i < |states| - 1
    requires Arrives(es, i) && i !in states[i + 1].rejected
    ensures var k, s := KeyAt(es, i), states[i + 1];
            k in s.live && IsLifetime(es, s.live[k], k, i + 1) && s.live[k][|s.live[k]| - 1] == i
  {
    RunIsSound(cfg, es, victims, states, i + 1);
    RunSteps(cfg, es, victims, states, i);
  }

  /** An accepted packet joins its flow's lifetime if there is one, else it starts one. */
  lemma JoinsOrStarts(cfg: Config, es: seq<Event>, s: State, s': State, n: nat, k: FlowKey, i: nat, victim: FlowKey,
                      l: Lifetime)
    requires s' == Admit(cfg, s, n, k, victim) && n !in s'.rejected && i < n
    requires Partition(es, s'.lifetimes, s'.rejected, n + 1) && l != [] && l[|l| - 1] == i
    requires k in s.live ==> s.live[k] == l
    ensures Together(s'.lifetimes, i, n) <==> k in s.live
    ensures k in s'.live && s'.live[k] == if k in s.live then l + [n] else [n]
  {
    if k in s.live {
      JoinsLifetime(cfg, es, s, s', n, k, i, victim);
    } else {
      StartsLifetime(cfg, es, s, s', n, k, i, victim);
    }
  }

  /** Packets `i` and `j` are accepted packets of one flow, which `i` left in
      lifetime `l`, and the run rejects its packets in between. */
  ghost predicate Adjacent(cfg: Config, es: seq<Event>, victims: seq<FlowKey>, states: seq<State>, i: nat, j: nat,
                           l: Lifetime) {
    && cfg.capacity > 0 && IsRun(cfg, es, victims, states) && i < j < |states| - 1
    && Arrives(es, i) && ArrivesFor(es, j, KeyAt(es, i)) && j !in states[j + 1].rejected
    && (forall m: nat | i < m < j && ArrivesFor(es, m, KeyAt(es, i)) :: m in states[m + 1].rejected)
    && KeyAt(es, i) in states[i + 1].live && states[i + 1].live[KeyAt(es, i)] == l
    && l != [] && l[|l| - 1] == i
  }

  /** Packet `j` joins packet `i` exactly if the flow is still there after the scan. */
  lemma JoinsIfLive(cfg: Config, es: seq<Event>, victims: seq<FlowKey>, states: seq<State>, i: nat, j: nat, l: Lifetime)
    requires Adjacent(cfg, es, victims, states, i, j, l)
    ensures var k := KeyAt(es, i);
            && (Together(states[j + 1].lifetimes, i, j) <==> k in Expire(cfg, es, states[j], At(es, j)).live)
            && k in states[j + 1].live
            && states[j + 1].live[k] == if Together(states[j + 1].lifetimes, i, j) then l + [j] else [j]
  {
    var k := KeyAt(es, i);
    StaysUntil(cfg, es, victims, states, k, l, i, j);
    RunIsSound(cfg, es, victims, states, j + 1);
    RunSteps(cfg, es, victims, states, j);
    ScanWithout(cfg, es, states[j], At(es, j), k);
    JoinsOrStarts(cfg, es, Expire(cfg, es, states[j], At(es, j)), states[j + 1], j, k, i, victims[j], l);
  }

  /** That is, exactly if nothing took their flow out in between. */
  lemma {:induction false} JoinsUnlessLeft(cfg: Config, es: seq<Event>, victims: seq<FlowKey>, states: seq<State>,
                                           i: nat, j: nat, l: Lifetime)
    requires Adjacent(cfg, es, victims, states, i, j, l)
    ensures Together(states[j + 1].lifetimes, i, j)
       <==> && !ScansOut(cfg, states[j].clock, At(es, j), LastSeen(es, l))
            && forall m: nat | i < m < j :: !LeavesAt(cfg, es, victims, states, KeyAt(es, i), LastSeen(es, l), m)
  {
    StaysUntil(cfg, es, victims, states, KeyAt(es, i), l, i, j);
    ScanWithout(cfg, es, states[j], At(es, j), KeyAt(es, i));
    JoinsIfLive(cfg, es, victims, states, i, j, l);
  }

  /** Some scan after packet `i` and up to packet `j` takes out what was last seen at `seen`. */
  ghost predicate SomeScanOut(cfg: Config, es: seq<Event>, i: nat, j: nat, seen: int) {
    exists m: nat :: i < m <= j && m < |es| && ScansOut(cfg, ClockAt(cfg, es, m), At(es, m), seen)
  }

  /** A scan takes place exactly when the last one moves. */
  lemma ScanMoves(cfg: Config, es: seq<Event>, j: nat, seen: int)
    requires 0 < j < |es| && cfg.expires && cfg.interval > 0
    ensures LastScan(cfg, es, j - 1) <= LastScan(cfg, es, j)
    ensures ScansOut(cfg, ClockAt(cfg, es, j), At(es, j), seen)
       <==> LastScan(cfg, es, j - 1) < LastScan(cfg, es, j) && seen + cfg.idle <= LastScan(cfg, es, j)
  {
    ClockTicks(cfg, es, j - 1);
    ClockTicks(cfg, es, j);
  }

  /** Scans only get later, so the last one decides. */
  lemma {:induction false} LastScanDecides(cfg: Config, es: seq<Event>, i: nat, j: nat, seen: int)
    requires i <= j < |es| && cfg.expires && cfg.interval > 0
    ensures LastScan(cfg, es, i) <= LastScan(cfg, es, j)
    ensures SomeScanOut(cfg, es, i, j, seen)
       <==> LastScan(cfg, es, i) < LastScan(cfg, es, j) && seen + cfg.idle <= LastScan(cfg, es, j)
  {
    if i < j {
      LastScanDecides(cfg, es, i, j - 1, seen);
      ScanMoves(cfg, es, j, seen);
      LastScanStep(cfg, es, i, j, seen);
    }
  }

  lemma LastScanStep(cfg: Config, es: seq<Event>, i: nat, j: nat, seen: int)
    requires i < j < |es|
    ensures SomeScanOut(cfg, es, i, j, seen)
       <==> SomeScanOut(cfg, es, i, j - 1, seen) || ScansOut(cfg, ClockAt(cfg, es, j), At(es, j), seen)
  {
  }

  // ----- the exact segmentation -------------------------------------------------------------------

  /** The scans between packets `i` and `j` cut off what was last seen at `seen`. */
  predicate CutByScan(cfg: Config, es: seq<Event>, i: nat, j: nat, seen: int)
    requires i < |es| && j < |es|
  {
    cfg.expires && LastScan(cfg, es, i) < LastScan(cfg, es, j) && seen + cfg.idle <= LastScan(cfg, es, j)
  }

  ghost predicate CutByEviction(cfg: Config, es: seq<Event>, victims: seq<FlowKey>, states: seq<State>, k: FlowKey,
                                i: nat, j: nat) {
    exists m: nat :: i < m < j && DisplacedAt(cfg, es, victims, states, k, m)
  }

  /** When the flow of packet `i` had last been seen once `i` was counted. */
  ghost function SeenAt(es: seq<Event>, states: seq<State>, i: nat): int
    requires i < |states| - 1 && KeyAt(es, i) in states[i + 1].live
  {
    LastSeen(es, states[i + 1].live[KeyAt(es, i)])
  }

  lemma ScansAreOfTimes(cfg: Config, es: seq<Event>, victims: seq<FlowKey>, states: seq<State>, j: nat, seen: int)
    requires IsRun(cfg, es, victims, states) && j < |states| - 1
    ensures forall m: nat :: m <= j ==>
              (ScansOut(cfg, states[m].clock, At(es, m), seen) <==> ScansOut(cfg, ClockAt(cfg, es, m), At(es, m), seen))
  {
    forall m: nat | m <= j && cfg.expires
      ensures states[m].clock == ClockAt(cfg, es, m)
    {
      ClockIsOfTimes(cfg, es, victims, states, m);
    }
  }

  lemma LeavesAreCuts(cfg: Config, es: seq<Event>, victims: seq<FlowKey>, states: seq<State>, k: FlowKey,
                      i: nat, j: nat, seen: int)
    requires IsRun(cfg, es, victims, states) && i < j < |states| - 1 && (cfg.expires ==> cfg.interval > 0)
    ensures (&& !ScansOut(cfg, states[j].clock, At(es, j), seen)
             && forall m: nat | i < m < j :: !LeavesAt(cfg, es, victims, states, k, seen, m))
       <==> !CutByScan(cfg, es, i, j, seen) && !CutByEviction(cfg, es, victims, states, k, i, j)
  {
    ScansAreOfTimes(cfg, es, victims, states, j, seen);
    if cfg.expires {
      LastScanDecides(cfg, es, i, j, seen);
    }
    if SomeScanOut(cfg, es, i, j, seen) {
      var m: nat :| i < m <= j && m < |es| && ScansOut(cfg, ClockAt(cfg, es, m), At(es, m), seen);
      assert m < j ==> LeavesAt(cfg, es, victims, states, k, seen, m);
    } else if CutByEviction(cfg, es, victims, states, k, i, j) {
      var m: nat :| i < m < j && DisplacedAt(cfg, es, victims, states, k, m);
      assert LeavesAt(cfg, es, victims, states, k, seen, m);
    } else {
      forall m: nat | i < m <= j
        ensures !ScansOut(cfg, states[m].clock, At(es, m), seen)
      {
        assert !ScansOut(cfg, ClockAt(cfg, es, m), At(es, m), seen);
      }
    }
  }

  lemma NeighboursAreAdjacent(cfg: Config, es: seq<Event>, victims: seq<FlowKey>, states: seq<State>, n: nat,
                              i: nat, j: nat)
    requires cfg.capacity > 0 && IsRun(cfg, es, victims, states) && j < n < |states| && Neighbours(es, states[n], i, j)
    ensures KeyAt(es, i) in states[i + 1].live
    ensures Adjacent(cfg, es, victims, states, i, j, states[i + 1].live[KeyAt(es, i)])
    ensures Together(states[n].lifetimes, i, j) <==> Together(states[j + 1].lifetimes, i, j)
  {
    WereNeighbours(cfg, es, victims, states, n, i, j);
    AcceptedIsLive(cfg, es, victims, states, i);
  }

  /** Over any packet times and under either policy: two neighbouring accepted
      packets of a flow end up in one lifetime if and only if no packet between
      them displaced the flow, and no scan after the first of them found the flow
      idle for the timeout.  Scan times depend on packet times alone. */
  lemma SegmentsExactly(cfg: Config, es: seq<Event>, victims: seq<FlowKey>, states: seq<State>, n: nat, i: nat, j: nat)
    requires cfg.capacity > 0 && (cfg.expires ==> cfg.interval > 0)
    requires IsRun(cfg, es, victims, states) && j < n < |states| && Neighbours(es, states[n], i, j)
    ensures KeyAt(es, i) in states[i + 1].live
    ensures Together(states[n].lifetimes, i, j)
       <==> && !CutByScan(cfg, es, i, j, SeenAt(es, states, i))
            && !CutByEviction(cfg, es, victims, states, KeyAt(es, i), i, j)
  {
    NeighboursAreAdjacent(cfg, es, victims, states, n, i, j);
    JoinsUnlessLeft(cfg, es, victims, states, i, j, states[i + 1].live[KeyAt(es, i)]);
    LeavesAreCuts(cfg, es, victims, states, KeyAt(es, i), i, j, SeenAt(es, states, i));
  }

  /** The time a flow was last seen follows from the same decisions: it starts with
      a lifetime's first packet and is the later one whenever a packet joins. */
  lemma SeenCarries(cfg: Config, es: seq<Event>, victims: seq<FlowKey>, states: seq<State>, n: nat, i: nat, j: nat)
    requires cfg.capacity > 0 && IsRun(cfg, es, victims, states) && j < n < |states| && Neighbours(es, states[n], i, j)
    ensures KeyAt(es, i) in states[i + 1].live && KeyAt(es, j) in states[j + 1].live
    ensures SeenAt(es, states, j) == if Together(states[n].lifetimes, i, j) && SeenAt(es, states, i) > At(es, j)
                                     then SeenAt(es, states, i) else At(es, j)
  {
    NeighboursAreAdjacent(cfg, es, victims, states, n, i, j);
    var l := states[i + 1].live[KeyAt(es, i)];
    JoinsIfLive(cfg, es, victims, states, i, j, l);
    SeenOfLonger(es, l, j);
    SeenOfOne(es, [j], j);
  }

  lemma {:induction false} SeenOfLonger(es: seq<Event>, l: Lifetime, j: nat)
    requires l != []
    ensures LastSeen(es, l + [j]) == if LastSeen(es, l) < TimeAt(es, j) then TimeAt(es, j) else LastSeen(es, l)
  {
    assert (l + [j])[..|l|] == l;
  }

  lemma {:induction false} SeenOfOne(es: seq<Event>, l: Lifetime, i: nat)
    requires l != [] && forall x :: 0 <= x < |l| ==> l[x] == i
    ensures LastSeen(es, l) == TimeAt(es, i)
  {
    if |l| > 1 {
      SeenOfOne(es, l[..|l| - 1], i);
    }
  }

  lemma SeenStarts(cfg: Config, es: seq<Event>, victims: seq<FlowKey>, states: seq<State>, n: nat, i: nat)
    requires cfg.capacity > 0 && IsRun(cfg, es, victims, states) && i < n < |states| && Accepted(es, states[n], i)
    requires forall m: nat | m < i && ArrivesFor(es, m, KeyAt(es, i)) :: m in states[n].rejected
    ensures KeyAt(es, i) in states[i + 1].live && SeenAt(es, states, i) == At(es, i)
  {
    var k := KeyAt(es, i);
    DecisionsAreFinal(cfg, es, victims, states, i + 1, n, i, i);
    AcceptedIsLive(cfg, es, victims, states, i);
    RunIsSound(cfg, es, victims, states, i + 1);
    var l := states[i + 1].live[k];
    forall x | 0 <= x < |l|
      ensures l[x] == i
    {
      assert l[x] in l && ArrivesFor(es, l[x], k);
      DecisionsAreFinal(cfg, es, victims, states, i + 1, n, l[x], l[x]);
    }
    SeenOfOne(es, l, i);
  }

  // ----- packet times that never go back ------------------------------------------------------

  /** Then the last scan lies less than one interval before packet `n`. */
  lemma LastScanIsRecent(cfg: Config, es: seq<Event>, n: nat)
    requires Ordered(es) && n < |es| && cfg.interval > 0
    ensures LastScan(cfg, es, n) <= At(es, n) < LastScan(cfg, es, n) + cfg.interval
  {
    var ts := Times(es)[..n + 1];
    ScheduleOverAnyTimes(ts, cfg.idle, cfg.interval);
    assert ts[n] in ts;
  }

  /** If packet times never go back, two neighbouring accepted packets of a flow
      share a lifetime if and only if the last scan up to the second one comes
      before the first one's idle timeout.  So they do if the gap between them is
      below the idle timeout, and never do once it reaches idle timeout plus scan
      interval (to the microsecond: one microsecond earlier). */
  lemma LifetimeSegmentation(cfg: Config, es: seq<Event>, victims: seq<FlowKey>, states: seq<State>,
                             n: nat, i: nat, j: nat)
    requires Scanning(cfg) && Ordered(es) && IsRun(cfg, es, victims, states) && j < n < |states|
    requires Neighbours(es, states[n], i, j)
    ensures Together(states[n].lifetimes, i, j) <==> LastScan(cfg, es, j) < At(es, i) + cfg.idle
    ensures At(es, j) - At(es, i) < cfg.idle ==> Together(states[n].lifetimes, i, j)
    ensures At(es, j) - At(es, i) > cfg.idle + cfg.interval - 2 ==> !Together(states[n].lifetimes, i, j)
  {
    SegmentsExactly(cfg, es, victims, states, n, i, j);
    WereNeighbours(cfg, es, victims, states, n, i, j);
    AcceptedIsLive(cfg, es, victims, states, i);
    LastSeenIsLast(es, states[i + 1].live[KeyAt(es, i)], KeyAt(es, i), i + 1);
    LastScanDecides(cfg, es, i, j, At(es, i));
    LastScanIsRecent(cfg, es, i);
    LastScanIsRecent(cfg, es, j);
  }
}
