/** Reversing a capture: with source and destination exchanged in every frame, the
    table goes through the same states, and each record comes out mirrored. */
module Mirroring {
  import opened Machine
  import opened Timestamps
  import opened FlowKey
  import opened FlowRecord
  import opened Engine

  // ----- one packet and one lifetime ----------------------------------------------------------

  function MirrorEvent(e: Event): Event {
    e.(arrival := match e.arrival
                  case None => None
                  case Some(a) => Some(MirrorArrival(a)))
  }

  /** The run's events with every packet reversed. */
  function MirrorEvents(es: seq<Event>): (qs: seq<Event>)
    ensures |qs| == |es| && forall i :: 0 <= i < |es| ==> qs[i] == MirrorEvent(es[i])
  {
    seq(|es|, i requires 0 <= i < |es| => MirrorEvent(es[i]))
  }

  lemma LooksAlike(es: seq<Event>, i: nat)
    ensures Arrives(MirrorEvents(es), i) <==> Arrives(es, i)
    ensures KeyAt(MirrorEvents(es), i) == KeyAt(es, i) && TimeAt(MirrorEvents(es), i) == TimeAt(es, i)
    ensures Arrives(es, i) ==> ArrivalAt(MirrorEvents(es), i) == MirrorArrival(ArrivalAt(es, i))
  {
  }

  lemma {:induction false} LastSeenIsSame(es: seq<Event>, l: Lifetime)
    ensures LastSeen(MirrorEvents(es), l) == LastSeen(es, l)
  {
    if |l| > 0 {
      LooksAlike(es, l[|l| - 1]);
      LastSeenIsSame(es, l[..|l| - 1]);
    }
  }

  lemma LifetimeArrives(es: seq<Event>, l: Lifetime)
    ensures AllArrive(MirrorEvents(es), l) <==> AllArrive(es, l)
    ensures AllArrive(es, l) ==> Arrivals(MirrorEvents(es), l) == MirrorArrivals(Arrivals(es, l))
  {
    forall x | 0 <= x < |l|
      ensures Arrives(MirrorEvents(es), l[x]) <==> Arrives(es, l[x])
    {
      LooksAlike(es, l[x]);
    }
  }

  lemma SameFlowMirrors(ps: seq<Arrival>)
    ensures SameFlow(MirrorArrivals(ps)) <==> SameFlow(ps)
  {
    var qs := MirrorArrivals(ps);
    assert forall i :: 0 <= i < |ps| ==> ps[i].key == qs[i].key;
    assert forall i :: 0 <= i < |ps| ==> qs[i].key == ps[i].key;
  }

  lemma RecordMirrors(es: seq<Event>, l: Lifetime)
    ensures RecordOf(MirrorEvents(es), l) == MirroredRecord(RecordOf(es, l))
  {
    LifetimeArrives(es, l);
    if AllArrive(es, l) {
      SameFlowMirrors(Arrivals(es, l));
      if SameFlow(Arrivals(es, l)) {
        SummaryMirrors(Arrivals(es, l));
      }
    }
  }

  // ----- a run ----------------------------------------------------------------------------------

  lemma ScanIsSame(cfg: Config, es: seq<Event>, s: State, now: int)
    ensures Expire(cfg, MirrorEvents(es), s, now) == Expire(cfg, es, s, now)
  {
    forall k | k in s.live
      ensures LastSeen(MirrorEvents(es), s.live[k]) == LastSeen(es, s.live[k])
    {
      LastSeenIsSame(es, s.live[k]);
    }
  }

  lemma VictimIsSame(es: seq<Event>, s: State, victim: FlowKey)
    ensures IsVictim(MirrorEvents(es), s, victim) <==> IsVictim(es, s, victim)
  {
    forall k | k in s.live
      ensures LastSeen(MirrorEvents(es), s.live[k]) == LastSeen(es, s.live[k])
    {
      LastSeenIsSame(es, s.live[k]);
    }
  }

  lemma StepIsSame(cfg: Config, es: seq<Event>, s: State, s': State, n: nat, victim: FlowKey)
    requires n < |es|
    ensures IsStep(cfg, MirrorEvents(es), s, s', n, victim) <==> IsStep(cfg, es, s, s', n, victim)
  {
    LooksAlike(es, n);
    ScanIsSame(cfg, es, s, Micros(es[n].time));
    VictimIsSame(es, Expire(cfg, es, s, Micros(es[n].time)), victim);
  }

  /** Reversing all packets leaves every run as it is. */
  lemma RunIsSame(cfg: Config, es: seq<Event>, victims: seq<FlowKey>, states: seq<State>)
    ensures IsRun(cfg, MirrorEvents(es), victims, states) <==> IsRun(cfg, es, victims, states)
  {
    forall n: nat
      ensures StepAt(cfg, MirrorEvents(es), victims, states, n) <==> StepAt(cfg, es, victims, states, n)
    {
      if n < |victims| && n < |states| - 1 && n < |es| {
        StepIsSame(cfg, es, states[n], states[n + 1], n, victims[n]);
      }
    }
  }
}
