/** What a capture run means, with no table, slot or hash in sight: which packets
    end up together in one flow lifetime.  A lifetime is the list of positions
    of its packets in the capture. */
module Engine {
  import opened Machine
  import opened Timestamps
  import opened FlowKey
  import opened FlowRecord
  import opened Expiration

  /** One captured packet: its time, and what it contributes to a flow if it
      parsed completely. */
  datatype Event = Event(time: Time, arrival: Option<Arrival>)

  type Lifetime = seq<nat>

  datatype Config = Config(capacity: nat, expires: bool, idle: nat, interval: nat, evictWhenFull: bool)

  /** All lifetimes so far, and for each flow in the table its current one. */
  datatype State = State(clock: Clock, lifetimes: set<Lifetime>, live: map<FlowKey, Lifetime>, rejected: set<nat>)

  const INITIAL := State(Unset, {}, map[], {})

  // ----- lifetimes and their records ----------------------------------------------------------

  predicate Arrives(es: seq<Event>, i: int) {
    0 <= i < |es| && es[i].arrival.Some? && es[i].arrival.value.time == es[i].time
  }

  predicate ArrivesFor(es: seq<Event>, i: int, k: FlowKey) {
    Arrives(es, i) && es[i].arrival.value.key == k
  }

  function ArrivalAt(es: seq<Event>, i: nat): Arrival
    requires Arrives(es, i)
  {
    es[i].arrival.value
  }

  /** A non-empty, strictly increasing list of packets of flow `k`, all before `n`. */
  ghost predicate IsLifetime(es: seq<Event>, l: Lifetime, k: FlowKey, n: nat) {
    && l != []
    && (forall x :: 0 <= x < |l| ==> l[x] < n && ArrivesFor(es, l[x], k))
    && (forall x, y | 0 <= x < y < |l| :: l[x] < l[y])
  }

  ghost predicate AllArrive(es: seq<Event>, l: Lifetime) {
    forall x :: 0 <= x < |l| ==> Arrives(es, l[x])
  }

  ghost function Arrivals(es: seq<Event>, l: Lifetime): (ps: seq<Arrival>)
    requires AllArrive(es, l)
    ensures |ps| == |l|
  {
    seq(|l|, x requires 0 <= x < |l| => ArrivalAt(es, l[x]))
  }

  /** The record that a lifetime's packets leave behind. */
  ghost function RecordOf(es: seq<Event>, l: Lifetime): FlowRecord {
    if AllArrive(es, l) && SameFlow(Arrivals(es, l)) then Summary(Arrivals(es, l)) else NO_RECORD
  }

  function TimeAt(es: seq<Event>, i: nat): int {
    if i < |es| then Micros(es[i].time) else 0
  }

  /** The latest time of a lifetime's packets. */
  function LastSeen(es: seq<Event>, l: Lifetime): int {
    if l == [] then 0
    else if |l| == 1 then TimeAt(es, l[0])
    else
      var before, last := LastSeen(es, l[..|l| - 1]), TimeAt(es, l[|l| - 1]);
      if before < last then last else before
  }

  /** The engine's view of a lifetime's age is its record's `lastSeen`. */
  lemma {:induction false} LastSeenOfRecord(es: seq<Event>, l: Lifetime, k: FlowKey, n: nat)
    requires IsLifetime(es, l, k, n)
    ensures AllArrive(es, l) && SameFlow(Arrivals(es, l))
    ensures Micros(RecordOf(es, l).lastSeen) == LastSeen(es, l)
  {
    var ts := TimesOf(Arrivals(es, l));
    LatestTimes(es, l, ts);
  }

  lemma {:induction false} LatestTimes(es: seq<Event>, l: Lifetime, ts: seq<Time>)
    requires l != [] && |ts| == |l|
    requires forall x :: 0 <= x < |l| ==> l[x] < |es| && ts[x] == es[l[x]].time
    ensures Micros(Latest(ts)) == LastSeen(es, l)
  {
    if |l| > 1 {
      LatestTimes(es, l[..|l| - 1], ts[..|l| - 1]);
    }
  }

  // ----- one packet --------------------------------------------------------------------------

  /** The scan that may precede a packet at `now`. */
  ghost function Expire(cfg: Config, es: seq<Event>, s: State, now: int): State {
    if !cfg.expires then s
    else
      var (clock, scan) := Tick(s.clock, now, cfg.idle, cfg.interval);
      match scan
      case None => s.(clock := clock)
      case Some(cutoff) =>
        s.(clock := clock, live := map k | k in s.live && LastSeen(es, s.live[k]) > cutoff :: s.live[k])
  }

  /** Lifetime `l` gains packet `n`. */
  ghost function Extend(ls: set<Lifetime>, l: Lifetime, n: nat): set<Lifetime> {
    ls - {l} + {l + [n]}
  }

  /** Packet `n` joins its flow's lifetime, starts one, is rejected, or starts
      one in place of `victim`. */
  ghost function Admit(cfg: Config, s: State, n: nat, k: FlowKey, victim: FlowKey): State {
    if k in s.live then
      s.(live := s.live[k := s.live[k] + [n]], lifetimes := Extend(s.lifetimes, s.live[k], n))
    else if |s.live| < cfg.capacity then
      s.(live := s.live[k := [n]], lifetimes := s.lifetimes + {[n]})
    else if !cfg.evictWhenFull then
      s.(rejected := s.rejected + {n})
    else
      s.(live := (s.live - {victim})[k := [n]], lifetimes := s.lifetimes + {[n]})
  }

  /** A record that eviction may choose: none was last seen earlier. */
  ghost predicate IsVictim(es: seq<Event>, s: State, victim: FlowKey) {
    && victim in s.live
    && forall k :: k in s.live ==> LastSeen(es, s.live[victim]) <= LastSeen(es, s.live[k])
  }

  /** The victim choice is legal wherever one is needed. */
  ghost predicate VictimOk(cfg: Config, es: seq<Event>, s: State, k: FlowKey, victim: FlowKey) {
    cfg.evictWhenFull && k !in s.live && |s.live| >= cfg.capacity ==> IsVictim(es, s, victim)
  }

  ghost function Step(cfg: Config, es: seq<Event>, s: State, i: nat, victim: FlowKey): State
    requires i < |es|
  {
    var s' := Expire(cfg, es, s, Micros(es[i].time));
    if Arrives(es, i) then Admit(cfg, s', i, es[i].arrival.value.key, victim) else s'
  }

  /** `s'` follows `s` when packet `n` is processed, and any eviction is of an oldest flow. */
  ghost predicate IsStep(cfg: Config, es: seq<Event>, s: State, s': State, n: nat, victim: FlowKey)
    requires n < |es|
  {
    && s' == Step(cfg, es, s, n, victim)
    && (Arrives(es, n) ==> VictimOk(cfg, es, Expire(cfg, es, s, Micros(es[n].time)), es[n].arrival.value.key, victim))
  }

  ghost predicate StepAt(cfg: Config, es: seq<Event>, victims: seq<FlowKey>, states: seq<State>, n: nat) {
    n < |victims| && n < |states| - 1 && n < |es| && IsStep(cfg, es, states[n], states[n + 1], n, victims[n])
  }

  /** The states of a run over the first `|states| - 1` packets, with its eviction choices. */
  ghost predicate IsRun(cfg: Config, es: seq<Event>, victims: seq<FlowKey>, states: seq<State>) {
    && 1 <= |states| <= |es| + 1 && |victims| == |states| - 1
    && states[0] == INITIAL
    && forall n: nat :: n < |victims| ==> StepAt(cfg, es, victims, states, n)
  }

  lemma RunSteps(cfg: Config, es: seq<Event>, victims: seq<FlowKey>, states: seq<State>, n: nat)
    requires IsRun(cfg, es, victims, states) && n < |states| - 1
    ensures n < |es| && IsStep(cfg, es, states[n], states[n + 1], n, victims[n])
  {
    assert StepAt(cfg, es, victims, states, n);
  }

  lemma StepOfRun(cfg: Config, es: seq<Event>, victims: seq<FlowKey>, states: seq<State>, n: nat,
                  s: State, s': State, victim: FlowKey)
    requires IsRun(cfg, es, victims, states) && n < |states| - 1
    requires s == states[n] && s' == states[n + 1] && victim == victims[n]
    ensures n < |es| && IsStep(cfg, es, s, s', n, victim)
  {
    RunSteps(cfg, es, victims, states, n);
  }

  // ----- every run partitions the accepted packets into lifetimes ---------------------------------

  function KeyAt(es: seq<Event>, i: nat): FlowKey {
    if Arrives(es, i) then es[i].arrival.value.key else NO_KEY
  }

  ghost predicate Whole(es: seq<Event>, l: Lifetime, n: nat) {
    l != [] && IsLifetime(es, l, KeyAt(es, l[0]), n)
  }

  /** Each of the first `n` packets that has a flow is in exactly one lifetime, or
      rejected; lifetimes hold nothing else and never mix flows. */
  ghost predicate Partition(es: seq<Event>, ls: set<Lifetime>, rejected: set<nat>, n: nat) {
    && (forall l :: l in ls ==> Whole(es, l, n))
    && (forall l, l', i: nat | l in ls && l' in ls && i in l && i in l' :: l == l')
    && (forall i :: i in rejected ==> i < n && Arrives(es, i))
    && (forall l, i: nat | l in ls && i in l :: i !in rejected)
    && (forall i: nat :: i < n && Arrives(es, i) && i !in rejected ==> InSome(ls, i))
  }

  ghost predicate InSome(ls: set<Lifetime>, i: nat) {
    exists l :: l in ls && i in l
  }

  ghost predicate Together(ls: set<Lifetime>, i: nat, j: nat) {
    exists l :: l in ls && i in l && j in l
  }

  lemma ExtendKeepsPartition(es: seq<Event>, ls: set<Lifetime>, rejected: set<nat>, n: nat, l: Lifetime)
    requires Partition(es, ls, rejected, n) && l in ls && ArrivesFor(es, n, KeyAt(es, l[0]))
    ensures Partition(es, Extend(ls, l, n), rejected, n + 1)
  {
    var l', ls' := l + [n], Extend(ls, l, n);
    assert Whole(es, l, n) && l'[0] == l[0];
    forall m, i: nat | m in ls && m != l && i in m
      ensures i < n && i !in l'
    {
      assert Whole(es, m, n);
    }
    forall i: nat | i < n + 1 && Arrives(es, i) && i !in rejected
      ensures InSome(ls', i)
    {
      if i == n {
        assert l' in ls' && l'[|l|] == n;
      } else {
        var m :| m in ls && i in m;
        if m == l {
          assert l' in ls' && i in l';
        } else {
          assert m in ls';
        }
      }
    }
  }

  lemma StartKeepsPartition(es: seq<Event>, ls: set<Lifetime>, rejected: set<nat>, n: nat)
    requires Partition(es, ls, rejected, n) && Arrives(es, n)
    ensures Partition(es, ls + {[n]}, rejected, n + 1)
  {
    var ls' := ls + {[n]};
    forall m, i: nat | m in ls && i in m
      ensures i < n
    {
      assert Whole(es, m, n);
    }
    forall i: nat | i < n + 1 && Arrives(es, i) && i !in rejected
      ensures InSome(ls', i)
    {
      if i == n {
        assert [n] in ls' && n in [n];
      } else {
        var m :| m in ls && i in m;
        assert m in ls';
      }
    }
  }

  /** A packet without a flow, or a rejected one, leaves the lifetimes alone. */
  lemma SkipKeepsPartition(es: seq<Event>, ls: set<Lifetime>, rejected: set<nat>, n: nat)
    requires Partition(es, ls, rejected, n)
    ensures if Arrives(es, n) then Partition(es, ls, rejected + {n}, n + 1) else Partition(es, ls, rejected, n + 1)
  {
    forall l | l in ls
      ensures Whole(es, l, n + 1) && n !in l
    {
      assert Whole(es, l, n);
    }
  }

  /** No step ever joins or separates two packets that were there before. */
  lemma ExtendKeepsTogether(es: seq<Event>, ls: set<Lifetime>, rejected: set<nat>, n: nat, l: Lifetime, i: nat, j: nat)
    requires Partition(es, ls, rejected, n) && l in ls && i < n && j < n
    ensures Together(Extend(ls, l, n), i, j) <==> Together(ls, i, j)
  {
    var l', ls' := l + [n], Extend(ls, l, n);
    if m :| m in ls && i in m && j in m {
      assert (if m == l then l' else m) in ls';
    }
    if m :| m in ls' && i in m && j in m {
      assert (if m == l' then l else m) in ls;
    }
  }

  lemma StartKeepsTogether(es: seq<Event>, ls: set<Lifetime>, rejected: set<nat>, n: nat, i: nat, j: nat)
    requires Partition(es, ls, rejected, n) && i < n && j < n
    ensures Together(ls + {[n]}, i, j) <==> Together(ls, i, j)
  {
    if m :| m in ls && i in m && j in m {
      assert m in ls + {[n]};
    }
  }

  // ----- every step keeps the partition ------------------------------------------------------------

  ghost predicate Sound(cfg: Config, es: seq<Event>, s: State, n: nat) {
    && |s.live| <= cfg.capacity
    && (forall k :: k in s.live ==> s.live[k] in s.lifetimes && IsLifetime(es, s.live[k], k, n))
    && Partition(es, s.lifetimes, s.rejected, n)
  }

  lemma ExpireKeepsSound(cfg: Config, es: seq<Event>, s: State, n: nat, now: int)
    requires Sound(cfg, es, s, n)
    ensures Sound(cfg, es, Expire(cfg, es, s, now), n)
  {
    var s' := Expire(cfg, es, s, now);
    assert s'.live.Keys <= s.live.Keys;
    SubsetSize(s'.live.Keys, s.live.Keys);
  }

  lemma SubsetSize<T>(a: set<T>, b: set<T>)
    requires a <= b
    ensures |a| <= |b|
  {
    assert b == a + (b - a);
  }

  lemma ExtendLive(cfg: Config, es: seq<Event>, s: State, n: nat, k: FlowKey)
    requires Sound(cfg, es, s, n) && k in s.live && ArrivesFor(es, n, k)
    ensures Sound(cfg, es, s.(live := s.live[k := s.live[k] + [n]],
                              lifetimes := Extend(s.lifetimes, s.live[k], n)), n + 1)
  {
    var l := s.live[k];
    var live' := s.live[k := l + [n]];
    assert ArrivesFor(es, l[0], k);
    ExtendKeepsPartition(es, s.lifetimes, s.rejected, n, l);
    assert live'.Keys == s.live.Keys;
    forall k' | k' in live'
      ensures live'[k'] in Extend(s.lifetimes, l, n) && IsLifetime(es, live'[k'], k', n + 1)
    {
      if k' != k {
        assert ArrivesFor(es, s.live[k'][0], k');
      }
    }
  }

  lemma StartLive(cfg: Config, es: seq<Event>, s: State, n: nat, k: FlowKey)
    requires Sound(cfg, es, s, n) && k !in s.live && ArrivesFor(es, n, k) && |s.live| < cfg.capacity
    ensures Sound(cfg, es, s.(live := s.live[k := [n]], lifetimes := s.lifetimes + {[n]}), n + 1)
  {
    StartKeepsPartition(es, s.lifetimes, s.rejected, n);
    assert s.live[k := [n]].Keys == s.live.Keys + {k};
  }

  lemma AdmitKeepsSound(cfg: Config, es: seq<Event>, s: State, n: nat, victim: FlowKey)
    requires Sound(cfg, es, s, n) && Arrives(es, n) && cfg.capacity > 0
    requires VictimOk(cfg, es, s, KeyAt(es, n), victim)
    ensures Sound(cfg, es, Admit(cfg, s, n, KeyAt(es, n), victim), n + 1)
  {
    var k := KeyAt(es, n);
    if k in s.live {
      ExtendLive(cfg, es, s, n, k);
    } else if |s.live| < cfg.capacity {
      StartLive(cfg, es, s, n, k);
    } else if !cfg.evictWhenFull {
      SkipKeepsPartition(es, s.lifetimes, s.rejected, n);
    } else {
      DisplaceKeepsSound(cfg, es, s, n, k, victim);
    }
  }

  lemma DisplaceKeepsSound(cfg: Config, es: seq<Event>, s: State, n: nat, k: FlowKey, victim: FlowKey)
    requires Sound(cfg, es, s, n) && k !in s.live && ArrivesFor(es, n, k) && victim in s.live
    ensures Sound(cfg, es, s.(live := (s.live - {victim})[k := [n]], lifetimes := s.lifetimes + {[n]}), n + 1)
  {
    assert s.live.Keys == (s.live - {victim}).Keys + {victim};
    StartLive(cfg, es, s.(live := s.live - {victim}), n, k);
  }

  lemma StepKeepsSound(cfg: Config, es: seq<Event>, s: State, s': State, n: nat, victim: FlowKey)
    requires cfg.capacity > 0 && n < |es| && Sound(cfg, es, s, n) && IsStep(cfg, es, s, s', n, victim)
    ensures Sound(cfg, es, s', n + 1)
  {
    var scanned := Expire(cfg, es, s, Micros(es[n].time));
    ExpireKeepsSound(cfg, es, s, n, Micros(es[n].time));
    if Arrives(es, n) {
      AdmitKeepsSound(cfg, es, scanned, n, victim);
    } else {
      SkipKeepsPartition(es, scanned.lifetimes, scanned.rejected, n);
    }
  }

  lemma InitialIsSound(cfg: Config, es: seq<Event>)
    ensures Sound(cfg, es, INITIAL, 0)
  {
  }

  /** At every point of any run, the accepted packets so far are partitioned into
      lifetimes of one flow each, and no more than `capacity` of them are live. */
  lemma {:induction false} RunIsSound(cfg: Config, es: seq<Event>, victims: seq<FlowKey>, states: seq<State>, n: nat)
    requires cfg.capacity > 0 && IsRun(cfg, es, victims, states) && n < |states|
    ensures Sound(cfg, es, states[n], n)
  {
    if n == 0 {
      InitialIsSound(cfg, es);
    } else {
      var m := n - 1;
      RunIsSound(cfg, es, victims, states, m);
      RunSteps(cfg, es, victims, states, m);
      StepKeepsSound(cfg, es, states[m], states[m + 1], m, victims[m]);
    }
  }

  lemma SoundStepAt(cfg: Config, es: seq<Event>, victims: seq<FlowKey>, states: seq<State>, n: nat)
    requires cfg.capacity > 0 && IsRun(cfg, es, victims, states) && n < |states| - 1
    ensures StepAt(cfg, es, victims, states, n) && Sound(cfg, es, states[n], n)
  {
    RunIsSound(cfg, es, victims, states, n);
    RunSteps(cfg, es, victims, states, n);
  }
}
