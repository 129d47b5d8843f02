/** What the TCP observer concludes from a list of (direction, flags) pairs, in
    terms of the flag bits: FIN is bit 0, SYN bit 1, RST bit 2 and ACK bit 4. */
module TcpTraces {
  import opened Machine
  import opened FlowKey
  import opened TcpFlowState

  datatype Observation = Observation(direction: Direction, flags: U16)

  ghost predicate AllDirected(os: seq<Observation>) {
    forall i :: 0 <= i < |os| ==> os[i].direction != UNKNOWN
  }

  function SegmentFrom(o: Observation): Segment {
    Segment(o.direction, EventFromFlags(o.flags))
  }

  function SegmentsFrom(os: seq<Observation>): (es: seq<Segment>)
    ensures |es| == |os| && forall i :: 0 <= i < |os| ==> es[i] == SegmentFrom(os[i])
  {
    seq(|os|, i requires 0 <= i < |os| => SegmentFrom(os[i]))
  }

  predicate Resets(o: Observation) {
    o.flags / 4 % 2 == 1
  }

  /** FIN without RST. */
  predicate Finishes(o: Observation) {
    o.flags / 4 % 2 == 0 && o.flags % 2 == 1
  }

  /** Neither FIN nor RST, and exactly these of SYN and ACK. */
  predicate Carries(o: Observation, syn: bool, ack: bool) {
    && o.flags / 4 % 2 == 0 && o.flags % 2 == 0
    && (syn <==> o.flags / 2 % 2 == 1) && (ack <==> o.flags / 16 % 2 == 1)
  }

  /** One side sends the first FIN, then the other side sends one, then the first
      side a pure ACK, and nobody an RST up to there. */
  ghost predicate OrderlyClose(os: seq<Observation>, i: nat, j: nat, k: nat) {
    && i < j < k < |os| && Finishes(os[i]) && Finishes(os[j]) && Carries(os[k], false, true)
    && (forall x :: 0 <= x < i ==> !Finishes(os[x])) && (forall x :: 0 <= x < k ==> !Resets(os[x]))
    && os[j].direction != os[i].direction && os[k].direction == os[i].direction
  }

  ghost predicate ClosesBefore(os: seq<Observation>, n: nat) {
    exists i: nat, j: nat, k: nat :: k < n && OrderlyClose(os, i, j, k)
  }

  /** `a` SYNs from one side, `b` SYN-ACKs from the other, and an ACK from the first. */
  ghost predicate Shakes(os: seq<Observation>, a: nat, b: nat) {
    && a >= 1 && b >= 1 && a + b < |os| && Carries(os[a + b], false, true)
    && os[a + b].direction == os[0].direction
    && (forall x :: 0 <= x < a ==> Carries(os[x], true, false) && os[x].direction == os[0].direction)
    && (forall x :: a <= x < a + b ==> Carries(os[x], true, true) && os[x].direction != os[0].direction)
  }

  lemma SegmentBits(o: Observation)
    ensures SegmentFrom(o).event == RST <==> Resets(o)
    ensures SegmentFrom(o).event == FIN <==> Finishes(o)
    ensures SegmentFrom(o).event == SYN <==> Carries(o, true, false)
    ensures SegmentFrom(o).event == SYN_ACK <==> Carries(o, true, true)
    ensures SegmentFrom(o).event == ACK <==> Carries(o, false, true)
  {
    EventOfBits(o.flags);
  }

  lemma TraceBits(os: seq<Observation>, i: nat)
    requires i < |os|
    ensures var e := SegmentsFrom(os)[i];
            && e.direction == os[i].direction
            && (e.event == RST <==> Resets(os[i])) && (e.event == FIN <==> Finishes(os[i]))
            && (e.event == SYN <==> Carries(os[i], true, false)) && (e.event == SYN_ACK <==> Carries(os[i], true, true))
            && (e.event == ACK <==> Carries(os[i], false, true))
  {
    SegmentBits(os[i]);
  }

  lemma OtherSide(d: Direction, e: Direction)
    requires d != UNKNOWN && e != UNKNOWN
    ensures e == d.Opposite() <==> e != d
  {
  }

  lemma CloseIsClosure(os: seq<Observation>, i: nat, j: nat, k: nat)
    requires AllDirected(os)
    ensures Closure(SegmentsFrom(os), i, j, k) <==> OrderlyClose(os, i, j, k)
  {
    if i < j < k < |os| {
      forall x: nat | x < |os|
        ensures SegmentsFrom(os)[x].event == RST <==> Resets(os[x])
        ensures SegmentsFrom(os)[x].event == FIN <==> Finishes(os[x])
      {
        TraceBits(os, x);
      }
      TraceBits(os, k);
      OtherSide(os[i].direction, os[j].direction);
    }
  }

  lemma ClosesAreClosures(os: seq<Observation>, n: nat)
    requires AllDirected(os)
    ensures ClosedBefore(SegmentsFrom(os), n) <==> ClosesBefore(os, n)
  {
    var es := SegmentsFrom(os);
    forall i: nat, j: nat, k: nat
      ensures Closure(es, i, j, k) <==> OrderlyClose(os, i, j, k)
    {
      CloseIsClosure(os, i, j, k);
    }
    if ClosedBefore(es, n) {
      var i: nat, j: nat, k: nat :| k < n && Closure(es, i, j, k);
      assert OrderlyClose(os, i, j, k);
    }
    if ClosesBefore(os, n) {
      var i: nat, j: nat, k: nat :| k < n && OrderlyClose(os, i, j, k);
      assert Closure(es, i, j, k);
    }
  }

  lemma ShakeIsHandshake(os: seq<Observation>, a: nat, b: nat)
    requires AllDirected(os)
    ensures Shakes(os, a, b) <==> os != [] && Handshake(SegmentsFrom(os), os[0].direction, a, b)
  {
    var es := SegmentsFrom(os);
    forall x: nat | x < |os|
      ensures (es[x] == Segment(os[0].direction, SYN) <==> Carries(os[x], true, false)
                                                           && os[x].direction == os[0].direction)
      ensures (es[x] == Segment(os[0].direction.Opposite(), SYN_ACK) <==> Carries(os[x], true, true)
                                                                          && os[x].direction != os[0].direction)
      ensures (es[x] == Segment(os[0].direction, ACK) <==> Carries(os[x], false, true)
                                                           && os[x].direction == os[0].direction)
    {
      TraceBits(os, x);
      OtherSide(os[0].direction, os[x].direction);
    }
  }

  /** The observer ends in CLOSED exactly after an orderly close, in RESET exactly
      after an RST that no such close preceded, and reports a handshake exactly if
      the connection began with one. */
  lemma ObserverMeaning(os: seq<Observation>)
    requires AllDirected(os)
    ensures var s := Run(SegmentsFrom(os));
            && (s.phase == CLOSED <==> ClosesBefore(os, |os|))
            && (s.phase == RESET <==> exists r: nat :: r < |os| && Resets(os[r]) && !ClosesBefore(os, r))
            && (s.handshakeCompleted <==> exists a: nat, b: nat :: Shakes(os, a, b))
  {
    ClosingMeaning(os);
    ResettingMeaning(os);
    ShakingMeaning(os);
  }

  lemma ClosingMeaning(os: seq<Observation>)
    requires AllDirected(os)
    ensures Run(SegmentsFrom(os)).phase == CLOSED <==> ClosesBefore(os, |os|)
  {
    var es := SegmentsFrom(os);
    PhaseCharacterised(es, CLOSED);
    ClosesAreClosures(os, |os|);
  }

  lemma ResettingMeaning(os: seq<Observation>)
    requires AllDirected(os)
    ensures Run(SegmentsFrom(os)).phase == RESET
       <==> exists r: nat :: r < |os| && Resets(os[r]) && !ClosesBefore(os, r)
  {
    var es := SegmentsFrom(os);
    PhaseCharacterised(es, RESET);
    forall r: nat | r < |os|
      ensures es[r].event == RST && !ClosedBefore(es, r) <==> Resets(os[r]) && !ClosesBefore(os, r)
    {
      TraceBits(os, r);
      ClosesAreClosures(os, r);
    }
  }

  lemma ShakingMeaning(os: seq<Observation>)
    requires AllDirected(os)
    ensures Run(SegmentsFrom(os)).handshakeCompleted <==> exists a: nat, b: nat :: Shakes(os, a, b)
  {
    var es := SegmentsFrom(os);
    HandshakeCharacterised(es);
    if d, a: nat, b: nat :| Handshake(es, d, a, b) {
      assert es[0] == Segment(d, SYN);
      ShakeIsHandshake(os, a, b);
    }
    if a: nat, b: nat :| Shakes(os, a, b) {
      ShakeIsHandshake(os, a, b);
    }
  }
}
