/** The passive TCP observer: a state machine over (direction, flags) pairs. */
module TcpFlowState {
  import opened Machine
  import opened FlowKey

  const FLAG_FIN := 0x01
  const FLAG_SYN := 0x02
  const FLAG_RST := 0x04
  const FLAG_ACK := 0x10

  datatype Phase =
    | UNOBSERVED | SYN_SEEN | SYN_ACK_SEEN | ESTABLISHED | MIDSTREAM
    | FIN_SEEN | FIN_BIDIRECTIONAL | CLOSED | RESET

  datatype TcpState = TcpState(
    phase: Phase, initiator: Direction, firstFin: Direction,
    handshakeCompleted: bool, initialized: bool)

  /** The zero-filled state object of a UDP or ICMP flow. */
  const NO_STATE := TcpState(UNOBSERVED, UNKNOWN, UNKNOWN, false, false)

  const INITIAL_STATE := NO_STATE.(initialized := true)

  datatype Event = OTHER | SYN | SYN_ACK | ACK | FIN | RST

  /** `mask` is a power of two: the C test `(flags & mask) != 0`. */
  predicate HasFlag(flags: U16, mask: int)
    requires mask > 0
  {
    flags / mask % 2 == 1
  }

  function EventFromFlags(flags: U16): Event {
    var syn, ack, fin, rst :=
      HasFlag(flags, FLAG_SYN), HasFlag(flags, FLAG_ACK), HasFlag(flags, FLAG_FIN), HasFlag(flags, FLAG_RST);
    if rst then RST
    else if fin then FIN
    else if syn && ack then SYN_ACK
    else if syn then SYN
    else if ack then ACK
    else OTHER
  }

  /** The event of every flags word, bit by bit: FIN is bit 0, SYN bit 1, RST bit 2
      and ACK bit 4. */
  lemma EventOfBits(flags: U16)
    ensures EventFromFlags(flags) == RST <==> flags / 4 % 2 == 1
    ensures EventFromFlags(flags) == FIN <==> flags / 4 % 2 == 0 && flags % 2 == 1
    ensures EventFromFlags(flags) == SYN_ACK
       <==> flags / 4 % 2 == 0 && flags % 2 == 0 && flags / 2 % 2 == 1 && flags / 16 % 2 == 1
    ensures EventFromFlags(flags) == SYN
       <==> flags / 4 % 2 == 0 && flags % 2 == 0 && flags / 2 % 2 == 1 && flags / 16 % 2 == 0
    ensures EventFromFlags(flags) == ACK
       <==> flags / 4 % 2 == 0 && flags % 2 == 0 && flags / 2 % 2 == 0 && flags / 16 % 2 == 1
    ensures EventFromFlags(flags) == OTHER
       <==> flags / 4 % 2 == 0 && flags % 2 == 0 && flags / 2 % 2 == 0 && flags / 16 % 2 == 0
  {
  }

  /** One observed segment. */
  datatype Segment = Segment(direction: Direction, event: Event)

  /** The transition table. */
  function Advance(s: TcpState, o: Segment): TcpState {
    match s.phase
    case CLOSED => s
    case RESET => s
    case _ =>
      if o.event == RST then s.(phase := RESET)
      else if o.event == FIN then AdvanceFin(s, o.direction)
      else AdvanceOther(s, o)
  }

  function AdvanceFin(s: TcpState, direction: Direction): TcpState {
    match s.phase
    case FIN_SEEN => if direction == s.firstFin then s else s.(phase := FIN_BIDIRECTIONAL)
    case FIN_BIDIRECTIONAL => s
    case _ => s.(phase := FIN_SEEN, firstFin := direction)
  }

  function AdvanceOther(s: TcpState, o: Segment): TcpState {
    match s.phase
    case UNOBSERVED =>
      if o.event == SYN then s.(phase := SYN_SEEN, initiator := o.direction) else s.(phase := MIDSTREAM)
    case SYN_SEEN =>
      if o == Segment(s.initiator, SYN) then s
      else if o.event == SYN_ACK && o.direction != s.initiator then s.(phase := SYN_ACK_SEEN)
      else s.(phase := MIDSTREAM)
    case SYN_ACK_SEEN =>
      if o.event == SYN_ACK && o.direction != s.initiator then s
      else if o == Segment(s.initiator, ACK) then s.(phase := ESTABLISHED, handshakeCompleted := true)
      else s.(phase := MIDSTREAM)
    case FIN_BIDIRECTIONAL =>
      if o == Segment(s.firstFin, ACK) then s.(phase := CLOSED) else s
    case _ => s
  }

  /** The observer as written: work on a copy, publish it at each exit. */
  method Observe(state: TcpState, direction: Direction, flags: U16) returns (code: Errno, next: TcpState)
    ensures code == if state.initialized && direction != UNKNOWN then OK else EINVAL
    ensures next == if code == OK then Advance(state, Segment(direction, EventFromFlags(flags))) else state
    ensures code == OK && state.phase != CLOSED && state.phase != RESET ==>
              && (next.phase == RESET <==> flags / 4 % 2 == 1)
              && (flags / 4 % 2 == 0 && flags % 2 == 1 ==> next.phase == FIN_SEEN || next.phase == FIN_BIDIRECTIONAL)
  {
    next := state;
    if !state.initialized || direction == UNKNOWN {
      return EINVAL, state;
    }
    code := OK;
    var event := EventFromFlags(flags);
    if next.phase == CLOSED || next.phase == RESET {
      return;
    }
    if event == RST {
      next := next.(phase := RESET);
      return;
    }
    if event == FIN {
      if next.phase == FIN_SEEN {
        if direction != next.firstFin {
          next := next.(phase := FIN_BIDIRECTIONAL);
        }
      } else if next.phase != FIN_BIDIRECTIONAL {
        next := next.(phase := FIN_SEEN, firstFin := direction);
      }
      return;
    }
    match next.phase {
      case UNOBSERVED =>
        if event == SYN {
          next := next.(phase := SYN_SEEN, initiator := direction);
        } else {
          next := next.(phase := MIDSTREAM);
        }
      case SYN_SEEN =>
        if event == SYN && direction == next.initiator {
        } else if event == SYN_ACK && direction != next.initiator {
          next := next.(phase := SYN_ACK_SEEN);
        } else {
          next := next.(phase := MIDSTREAM);
        }
      case SYN_ACK_SEEN =>
        if event == SYN_ACK && direction != next.initiator {
        } else if event == ACK && direction == next.initiator {
          next := next.(phase := ESTABLISHED, handshakeCompleted := true);
        } else {
          next := next.(phase := MIDSTREAM);
        }
      case FIN_BIDIRECTIONAL =>
        if event == ACK && direction == next.firstFin {
          next := next.(phase := CLOSED);
        }
      case _ =>
    }
  }

  // ----- whole traces ---------------------------------------------------------------

  /** A trace as the flow record produces it: every segment has a direction. */
  ghost predicate Directed(es: seq<Segment>) {
    forall i :: 0 <= i < |es| ==> es[i].direction != UNKNOWN
  }

  function Run(es: seq<Segment>): (s: TcpState)
    ensures s.initialized
  {
    if es == [] then INITIAL_STATE
    else Advance(Run(es[..|es| - 1]), es[|es| - 1])
  }

  /** The trace starts with SYN(d)^a SYN_ACK(opposite of d)^b, and a >= 1. */
  ghost predicate Opening(es: seq<Segment>, d: Direction, a: nat, b: nat) {
    && a >= 1 && a + b <= |es|
    && (forall i :: 0 <= i < a ==> es[i] == Segment(d, SYN))
    && (forall i :: a <= i < a + b ==> es[i] == Segment(d.Opposite(), SYN_ACK))
  }

  /** ... with b >= 1 ... */
  ghost predicate HalfOpen(es: seq<Segment>, d: Direction, a: nat, b: nat) {
    Opening(es, d, a, b) && b >= 1
  }

  /** ... and goes on with ACK(d). */
  ghost predicate Handshake(es: seq<Segment>, d: Direction, a: nat, b: nat) {
    HalfOpen(es, d, a, b) && a + b < |es| && es[a + b] == Segment(d, ACK)
  }

  ghost predicate NoReset(es: seq<Segment>, n: nat)
    requires n <= |es|
  {
    forall i :: 0 <= i < n ==> es[i].event != RST
  }

  /** The first FIN is `es[i]`, the other side's FIN `es[j]` follows it, and
      `es[k]` is a later pure ACK from the side that closed first; no RST so far. */
  ghost predicate Closure(es: seq<Segment>, i: nat, j: nat, k: nat) {
    && i < j < k < |es|
    && es[i].event == FIN && (forall x :: 0 <= x < i ==> es[x].event != FIN)
    && es[j] == Segment(es[i].direction.Opposite(), FIN)
    && es[k] == Segment(es[i].direction, ACK)
    && NoReset(es, k)
  }

  ghost predicate ClosedBefore(es: seq<Segment>, n: nat) {
    exists i: nat, j: nat, k: nat :: k < n && Closure(es, i, j, k)
  }

  /** What each phase says about the segments seen so far. */
  ghost predicate Explains(es: seq<Segment>, s: TcpState) {
    match s.phase
    case UNOBSERVED => es == []
    case FIN_SEEN =>
      && NoReset(es, |es|)
      && (exists i: nat :: FirstFin(es, i, s.firstFin))
      && (forall x :: 0 <= x < |es| && es[x].event == FIN ==> es[x].direction == s.firstFin)
    case FIN_BIDIRECTIONAL =>
      && NoReset(es, |es|)
      && (exists i: nat, j: nat :: FirstFin(es, i, s.firstFin) && i < j < |es|
                                   && es[j] == Segment(s.firstFin.Opposite(), FIN))
      && (forall j, k :: 0 <= j < k < |es| && es[j] == Segment(s.firstFin.Opposite(), FIN)
                         ==> es[k] != Segment(s.firstFin, ACK))
    case CLOSED => ClosedBefore(es, |es|)
    case RESET => exists r: nat :: r < |es| && es[r].event == RST && !ClosedBefore(es, r)
    case _ => forall x :: 0 <= x < |es| ==> es[x].event != RST && es[x].event != FIN
  }

  ghost predicate FirstFin(es: seq<Segment>, i: nat, d: Direction) {
    && i < |es| && es[i] == Segment(d, FIN)
    && (forall x :: 0 <= x < i ==> es[x].event != FIN)
    && d != UNKNOWN
  }

  /** Closures of a prefix are the closures of the trace that end inside it. */
  lemma ClosureInPrefix(es: seq<Segment>, m: nat, n: nat)
    requires n <= m <= |es|
    ensures ClosedBefore(es[..m], n) <==> ClosedBefore(es, n)
  {
    forall i: nat, j: nat, k: nat | k < n
      ensures Closure(es[..m], i, j, k) <==> Closure(es, i, j, k)
    {
    }
    if ClosedBefore(es, n) {
      var i: nat, j: nat, k: nat :| k < n && Closure(es, i, j, k);
      assert Closure(es[..m], i, j, k);
    }
    if ClosedBefore(es[..m], n) {
      var i: nat, j: nat, k: nat :| k < n && Closure(es[..m], i, j, k);
      assert Closure(es, i, j, k);
    }
  }

  lemma {:induction false} RunIsExplained(es: seq<Segment>)
    requires Directed(es)
    ensures Explains(es, Run(es))
  {
    if es != [] {
      var n := |es| - 1;
      var before, o := es[..n], es[n];
      RunIsExplained(before);
      var s := Run(before);
      match s.phase {
        case CLOSED =>
          ClosureInPrefix(es, n, n);
          var i: nat, j: nat, k: nat :| k < n && Closure(es, i, j, k);
          assert ClosedBefore(es, |es|);
        case RESET =>
          var r: nat :| r < n && before[r].event == RST && !ClosedBefore(before, r);
          ClosureInPrefix(es, n, r);
          assert es[r].event == RST;
        case _ =>
          if o.event == RST {
            NoClosureYet(before, s);
            ClosureInPrefix(es, n, n);
            assert es[n].event == RST && !ClosedBefore(es, n);
          } else {
            ExplainStep(before, o, s);
            assert before + [o] == es;
          }
      }
    }
  }

  lemma NoClosureYet(es: seq<Segment>, s: TcpState)
    requires Explains(es, s) && s.phase != CLOSED && s.phase != RESET
    ensures NoReset(es, |es|) && !ClosedBefore(es, |es|)
  {
    forall i: nat, j: nat, k: nat | k < |es|
      ensures !Closure(es, i, j, k)
    {
    }
  }

  lemma ExplainAfterFin(es: seq<Segment>, o: Segment, s: TcpState)
    requires Explains(es, s) && s.phase == FIN_SEEN && Directed(es)
    requires o.event != RST && o.direction != UNKNOWN
    ensures Explains(es + [o], Advance(s, o))
  {
    var after := es + [o];
    var i :| FirstFin(es, i, s.firstFin);
    assert FirstFin(after, i, s.firstFin);
    if Advance(s, o).phase == FIN_BIDIRECTIONAL {
      assert after[|es|] == Segment(s.firstFin.Opposite(), FIN);
    }
  }

  lemma ExplainAfterBoth(es: seq<Segment>, o: Segment, s: TcpState)
    requires Explains(es, s) && s.phase == FIN_BIDIRECTIONAL && Directed(es)
    requires o.event != RST && o.direction != UNKNOWN
    ensures Explains(es + [o], Advance(s, o))
  {
    var after := es + [o];
    var i: nat, j: nat :| FirstFin(es, i, s.firstFin) && i < j < |es|
                          && es[j] == Segment(s.firstFin.Opposite(), FIN);
    assert FirstFin(after, i, s.firstFin);
    assert after[j] == Segment(s.firstFin.Opposite(), FIN);
    if Advance(s, o).phase == CLOSED {
      assert Closure(after, i, j, |es|);
    }
  }

  lemma ExplainBeforeFin(es: seq<Segment>, o: Segment, s: TcpState)
    requires Explains(es, s) && s.phase !in {FIN_SEEN, FIN_BIDIRECTIONAL, CLOSED, RESET} && Directed(es)
    requires o.event != RST && o.direction != UNKNOWN
    ensures Explains(es + [o], Advance(s, o))
  {
    if o.event == FIN {
      assert FirstFin(es + [o], |es|, o.direction);
    }
  }

  lemma ExplainStep(es: seq<Segment>, o: Segment, s: TcpState)
    requires Explains(es, s) && s.phase != CLOSED && s.phase != RESET
    requires o.event != RST && o.direction != UNKNOWN
    requires Directed(es)
    ensures Explains(es + [o], Advance(s, o))
  {
    if s.phase == FIN_SEEN {
      ExplainAfterFin(es, o, s);
    } else if s.phase == FIN_BIDIRECTIONAL {
      ExplainAfterBoth(es, o, s);
    } else {
      ExplainBeforeFin(es, o, s);
    }
  }

  /** CLOSED is reached exactly when an orderly closure ends somewhere in the trace. */
  lemma ClosedCharacterised(es: seq<Segment>)
    requires Directed(es)
    ensures Run(es).phase == CLOSED <==> exists i: nat, j: nat, k: nat :: Closure(es, i, j, k)
  {
    RunIsExplained(es);
    var s := Run(es);
    if i: nat, j: nat, k: nat :| Closure(es, i, j, k) {
      assert ClosedBefore(es, |es|);
      if s.phase != CLOSED && s.phase != RESET {
        NoClosureYet(es, s);
      }
    }
  }

  /** RESET is reached exactly when some RST comes before any orderly closure. */
  lemma ResetCharacterised(es: seq<Segment>)
    requires Directed(es)
    ensures Run(es).phase == RESET <==>
            exists r: nat :: r < |es| && es[r].event == RST && !ClosedBefore(es, r)
  {
    RunIsExplained(es);
    var s := Run(es);
    if r: nat :| r < |es| && es[r].event == RST && !ClosedBefore(es, r) {
      if s.phase != CLOSED && s.phase != RESET {
        NoClosureYet(es, s);
      }
    }
  }

  /** Once CLOSED or RESET, nothing changes any more; the handshake fact never goes away. */
  lemma {:induction false} TerminalPhasesAbsorb(es: seq<Segment>, more: seq<Segment>)
    ensures Run(es).phase in {CLOSED, RESET} ==> Run(es + more) == Run(es)
    ensures Run(es).handshakeCompleted ==> Run(es + more).handshakeCompleted
  {
    if more == [] {
      assert es + more == es;
    } else {
      var m := |more| - 1;
      TerminalPhasesAbsorb(es, more[..m]);
      assert (es + more)[..|es| + m] == es + more[..m];
    }
  }

  /** Reading an opening from the left: SYN_SEEN, then SYN_ACK_SEEN. */
  lemma {:induction false} OpeningDrives(es: seq<Segment>, d: Direction, a: nat, b: nat, n: nat)
    requires Directed(es) && Opening(es, d, a, b) && 1 <= n <= a + b
    ensures Run(es[..n]) == TcpState(if n <= a then SYN_SEEN else SYN_ACK_SEEN, d, UNKNOWN, false, true)
  {
    assert es[..n][..n - 1] == es[..n - 1];
    if n == 1 {
      assert es[0] == Segment(d, SYN);
      assert Run(es[..0]) == INITIAL_STATE;
    } else {
      OpeningDrives(es, d, a, b, n - 1);
    }
  }

  /** Reading a handshake from the left drives the observer to ESTABLISHED. */
  lemma HandshakeDrives(es: seq<Segment>, d: Direction, a: nat, b: nat)
    requires Directed(es) && Handshake(es, d, a, b)
    ensures Run(es[..a + b + 1]) == TcpState(ESTABLISHED, d, UNKNOWN, true, true)
  {
    var n := a + b + 1;
    assert es[..n][..n - 1] == es[..n - 1];
    OpeningDrives(es, d, a, b, n - 1);
  }

  /** Where a trace stands inside the handshake language, read off the state. */
  ghost predicate HandshakeStage(es: seq<Segment>, s: TcpState) {
    && (s.phase == UNOBSERVED ==> es == [])
    && (s.phase == SYN_SEEN ==>
          es != [] && forall i :: 0 <= i < |es| ==> es[i] == Segment(s.initiator, SYN))
    && (s.phase == SYN_ACK_SEEN ==>
          exists a: nat, b: nat :: a + b == |es| && HalfOpen(es, s.initiator, a, b))
    && (s.handshakeCompleted ==> exists d, a: nat, b: nat :: Handshake(es, d, a, b))
  }

  lemma HalfOpenNext(es: seq<Segment>, o: Segment, s: TcpState)
    requires HandshakeStage(es, s) && s.phase == SYN_ACK_SEEN && s.initiator != UNKNOWN && o.direction != UNKNOWN
    ensures var next := Advance(s, o);
            && (next.phase == SYN_ACK_SEEN ==>
                  exists a: nat, b: nat :: a + b == |es| + 1 && HalfOpen(es + [o], s.initiator, a, b))
            && (next.phase == ESTABLISHED ==>
                  exists a: nat, b: nat :: Handshake(es + [o], s.initiator, a, b))
  {
    var after, next := es + [o], Advance(s, o);
    var a: nat, b: nat :| a + b == |es| && HalfOpen(es, s.initiator, a, b);
    assert HalfOpen(after, s.initiator, a, b);
    if next.phase == SYN_ACK_SEEN {
      assert HalfOpen(after, s.initiator, a, b + 1);
    } else if next.phase == ESTABLISHED {
      assert Handshake(after, s.initiator, a, b);
    }
  }

  lemma HandshakeStays(es: seq<Segment>, o: Segment, d: Direction, a: nat, b: nat)
    requires Handshake(es, d, a, b)
    ensures Handshake(es + [o], d, a, b)
  {
  }

  lemma HandshakeStageStep(es: seq<Segment>, o: Segment, s: TcpState)
    requires HandshakeStage(es, s) && o.direction != UNKNOWN
    requires s.phase in {SYN_SEEN, SYN_ACK_SEEN} ==> s.initiator != UNKNOWN
    ensures HandshakeStage(es + [o], Advance(s, o))
  {
    var after, next := es + [o], Advance(s, o);
    if s.handshakeCompleted {
      var d, a: nat, b: nat :| Handshake(es, d, a, b);
      HandshakeStays(es, o, d, a, b);
    }
    if next.phase == SYN_ACK_SEEN && s.phase == SYN_SEEN {
      assert o.direction == s.initiator.Opposite();
      assert HalfOpen(after, s.initiator, |es|, 1);
    } else if s.phase == SYN_ACK_SEEN {
      HalfOpenNext(es, o, s);
    }
  }

  lemma {:induction false} HandshakeProgress(es: seq<Segment>)
    requires Directed(es)
    ensures HandshakeStage(es, Run(es))
  {
    if es != [] {
      var n := |es| - 1;
      HandshakeProgress(es[..n]);
      DirectionsRecorded(es[..n]);
      HandshakeStageStep(es[..n], es[n], Run(es[..n]));
      assert es[..n] + [es[n]] == es;
    }
  }

  /** The handshake flag is set exactly by traces with a prefix in
      SYN(d)+ SYN_ACK(other)+ ACK(d). */
  lemma HandshakeCharacterised(es: seq<Segment>)
    requires Directed(es)
    ensures Run(es).handshakeCompleted <==> exists d, a: nat, b: nat :: Handshake(es, d, a, b)
  {
    HandshakeProgress(es);
    if d, a: nat, b: nat :| Handshake(es, d, a, b) {
      var n := a + b + 1;
      HandshakeDrives(es, d, a, b);
      TerminalPhasesAbsorb(es[..n], es[n..]);
      assert es[..n] + es[n..] == es;
    }
  }

  // ----- every phase ----------------------------------------------------------------------

  /** Until a FIN or RST the flag and the phases around it move together. */
  ghost predicate Paired(s: TcpState) {
    && (s.phase == ESTABLISHED ==> s.handshakeCompleted)
    && (s.handshakeCompleted ==> s.phase in {ESTABLISHED, FIN_SEEN, FIN_BIDIRECTIONAL, CLOSED, RESET})
  }

  lemma {:induction false} RunIsPaired(es: seq<Segment>)
    ensures Paired(Run(es))
  {
    if es != [] {
      RunIsPaired(es[..|es| - 1]);
    }
  }

  ghost predicate AnyOf(es: seq<Segment>, o: Segment) {
    exists i: nat :: i < |es| && es[i] == o
  }

  ghost predicate NoneOf(es: seq<Segment>, event: Event) {
    forall i :: 0 <= i < |es| ==> es[i].event != event
  }

  /** All of the trace is SYN(d)^a SYN_ACK(opposite of d)^b. */
  ghost predicate IsOpening(es: seq<Segment>, acknowledged: bool) {
    exists d, a: nat, b: nat :: Opening(es, d, a, b) && a + b == |es| && (b >= 1 <==> acknowledged)
  }

  ghost predicate Shaken(es: seq<Segment>) {
    exists d, a: nat, b: nat :: Handshake(es, d, a, b)
  }

  ghost predicate BothFinished(es: seq<Segment>) {
    AnyOf(es, Segment(A_TO_B, FIN)) && AnyOf(es, Segment(B_TO_A, FIN))
  }

  /** What a trace must look like for the observer to be in `phase` after it. */
  ghost predicate PhaseFits(es: seq<Segment>, phase: Phase) {
    match phase
    case UNOBSERVED => es == []
    case CLOSED => ClosedBefore(es, |es|)
    case RESET => exists r: nat :: r < |es| && es[r].event == RST && !ClosedBefore(es, r)
    case FIN_SEEN => NoneOf(es, RST) && !NoneOf(es, FIN) && !BothFinished(es)
    case FIN_BIDIRECTIONAL => NoneOf(es, RST) && BothFinished(es) && !ClosedBefore(es, |es|)
    case SYN_SEEN => IsOpening(es, false)
    case SYN_ACK_SEEN => IsOpening(es, true)
    case ESTABLISHED => NoneOf(es, RST) && NoneOf(es, FIN) && Shaken(es)
    case MIDSTREAM =>
      && es != [] && NoneOf(es, RST) && NoneOf(es, FIN)
      && !IsOpening(es, false) && !IsOpening(es, true) && !Shaken(es)
  }

  lemma OpeningShows(es: seq<Segment>, acknowledged: bool)
    requires Directed(es) && IsOpening(es, acknowledged)
    ensures Run(es).phase == if acknowledged then SYN_ACK_SEEN else SYN_SEEN
  {
    var d, a: nat, b: nat :| Opening(es, d, a, b) && a + b == |es| && (b >= 1 <==> acknowledged);
    OpeningDrives(es, d, a, b, |es|);
    assert es[..|es|] == es;
  }

  lemma FinsDiffer(es: seq<Segment>, i: nat, j: nat)
    requires i < |es| && j < |es| && Directed(es) && es[i].event == FIN && es[j].event == FIN
    requires es[i].direction != es[j].direction
    ensures BothFinished(es)
  {
    assert es[i] == Segment(es[i].direction, FIN) && es[j] == Segment(es[j].direction, FIN);
  }

  lemma FinPhaseFits(es: seq<Segment>, s: TcpState)
    requires Directed(es) && Explains(es, s) && s.phase in {FIN_SEEN, FIN_BIDIRECTIONAL}
    ensures PhaseFits(es, s.phase)
  {
    NoClosureYet(es, s);
    if s.phase == FIN_BIDIRECTIONAL {
      var i: nat, j: nat :| FirstFin(es, i, s.firstFin) && i < j < |es|
                            && es[j] == Segment(s.firstFin.Opposite(), FIN);
      FinsDiffer(es, i, j);
    }
  }

  lemma OpeningPhaseFits(es: seq<Segment>, s: TcpState)
    requires Directed(es) && HandshakeStage(es, s) && s.phase in {SYN_SEEN, SYN_ACK_SEEN}
    ensures PhaseFits(es, s.phase)
  {
    if s.phase == SYN_SEEN {
      assert Opening(es, s.initiator, |es|, 0);
    } else {
      var a: nat, b: nat :| a + b == |es| && HalfOpen(es, s.initiator, a, b);
      assert Opening(es, s.initiator, a, b);
    }
  }

  lemma {:induction false} OwnPhaseFits(es: seq<Segment>)
    requires Directed(es)
    ensures PhaseFits(es, Run(es).phase)
  {
    var s := Run(es);
    RunIsExplained(es);
    HandshakeProgress(es);
    if s.phase in {FIN_SEEN, FIN_BIDIRECTIONAL} {
      FinPhaseFits(es, s);
    } else if s.phase in {SYN_SEEN, SYN_ACK_SEEN} {
      OpeningPhaseFits(es, s);
    } else if s.phase in {ESTABLISHED, MIDSTREAM} {
      RunIsPaired(es);
      HandshakeCharacterised(es);
      if s.phase == MIDSTREAM {
        NotAnOpening(es);
      }
    }
  }

  lemma NotAnOpening(es: seq<Segment>)
    requires Directed(es) && Run(es).phase == MIDSTREAM
    ensures !IsOpening(es, false) && !IsOpening(es, true) && es != []
  {
    if IsOpening(es, false) {
      OpeningShows(es, false);
    } else if IsOpening(es, true) {
      OpeningShows(es, true);
    }
  }

  /** The phase after any trace is the only one that fits it. */
  lemma {:induction false} PhaseCharacterised(es: seq<Segment>, phase: Phase)
    requires Directed(es)
    ensures Run(es).phase == phase <==> PhaseFits(es, phase)
  {
    OwnPhaseFits(es);
    if PhaseFits(es, phase) {
      OnePhaseFits(es, phase);
    }
  }

  lemma OpeningIsPlain(es: seq<Segment>, acknowledged: bool)
    requires IsOpening(es, acknowledged)
    ensures es != [] && NoneOf(es, RST) && NoneOf(es, FIN)
  {
    var d, a: nat, b: nat :| Opening(es, d, a, b) && a + b == |es| && (b >= 1 <==> acknowledged);
    forall i | 0 <= i < |es|
      ensures es[i].event in {SYN, SYN_ACK}
    {
    }
  }

  lemma OnePhaseFits(es: seq<Segment>, phase: Phase)
    requires Directed(es) && PhaseFits(es, phase)
    ensures Run(es).phase == phase
  {
    var s := Run(es);
    OwnPhaseFits(es);
    if phase in {SYN_SEEN, SYN_ACK_SEEN} {
      OpeningShows(es, phase == SYN_ACK_SEEN);
    } else if phase == CLOSED {
      ClosedCharacterised(es);
    } else if phase == RESET {
      ResetCharacterised(es);
    } else if s.phase in {CLOSED, RESET} {
      EndedWithFin(es);
    } else if s.phase in {SYN_SEEN, SYN_ACK_SEEN} {
      OpeningIsPlain(es, s.phase == SYN_ACK_SEEN);
      OpeningIsNoHandshake(es);
    }
  }

  lemma EndedWithFin(es: seq<Segment>)
    requires Directed(es) && Run(es).phase in {CLOSED, RESET}
    ensures es != [] && (NoneOf(es, RST) ==> ClosedBefore(es, |es|)) && !(NoneOf(es, RST) && NoneOf(es, FIN))
  {
    OwnPhaseFits(es);
  }

  lemma OpeningIsNoHandshake(es: seq<Segment>)
    requires Directed(es) && Run(es).phase in {SYN_SEEN, SYN_ACK_SEEN}
    ensures !Shaken(es)
  {
    RunIsPaired(es);
    HandshakeCharacterised(es);
  }

  // ----- the remembered directions -----------------------------------------------------------

  /** The first FIN is segment `i`, and no RST precedes it. */
  ghost predicate OpensClosing(es: seq<Segment>, i: nat) {
    i < |es| && es[i].event == FIN && NoReset(es, i) && forall x :: 0 <= x < i ==> es[x].event != FIN
  }

  ghost predicate FirstFinIs(es: seq<Segment>, d: Direction) {
    if d == UNKNOWN then forall i: nat :: !OpensClosing(es, i)
    else exists i: nat :: OpensClosing(es, i) && es[i].direction == d
  }

  /** The initiator is who sent the first segment if that is a SYN, and the side
      that closed first is who sent the first FIN, unless an RST came before. */
  lemma DirectionsCharacterised(es: seq<Segment>, d: Direction)
    requires Directed(es)
    ensures Run(es).initiator == if es != [] && es[0].event == SYN then es[0].direction else UNKNOWN
    ensures Run(es).firstFin == d <==> FirstFinIs(es, d)
  {
    InitiatorIsFirst(es);
    FirstFinIsFirst(es);
    if FirstFinIs(es, d) && FirstFinIs(es, Run(es).firstFin) {
      OneFirstFin(es, d, Run(es).firstFin);
    }
  }

  lemma OneFirstFin(es: seq<Segment>, d: Direction, d': Direction)
    requires Directed(es) && FirstFinIs(es, d) && FirstFinIs(es, d')
    ensures d == d'
  {
    if i: nat :| OpensClosing(es, i) {
      forall j: nat | OpensClosing(es, j)
        ensures j == i
      {
        assert j < i || i < j || i == j;
      }
    }
  }

  lemma {:induction false} InitiatorIsFirst(es: seq<Segment>)
    ensures var s := Run(es);
            && (s.phase == UNOBSERVED <==> es == [])
            && s.initiator == if es != [] && es[0].event == SYN then es[0].direction else UNKNOWN
  {
    if es != [] {
      InitiatorIsFirst(es[..|es| - 1]);
    }
  }

  lemma {:induction false} FirstFinIsFirst(es: seq<Segment>)
    requires Directed(es)
    ensures FirstFinIs(es, Run(es).firstFin)
  {
    if es != [] {
      var n := |es| - 1;
      FirstFinIsFirst(es[..n]);
      RunIsExplained(es[..n]);
      FirstFinStep(es, n, es[..n], Run(es[..n]));
    }
  }

  lemma ClosingStays(es: seq<Segment>, n: nat, i: nat)
    requires n < |es| && i < n
    ensures OpensClosing(es[..n], i) <==> OpensClosing(es, i)
  {
  }

  lemma FirstFinStep(es: seq<Segment>, n: nat, before: seq<Segment>, s: TcpState)
    requires Directed(es) && |es| == n + 1 && before == es[..n] && Explains(before, s)
    requires FirstFinIs(before, s.firstFin)
    ensures FirstFinIs(es, Advance(s, es[n]).firstFin)
  {
    forall i: nat | i < n
      ensures OpensClosing(before, i) <==> OpensClosing(es, i)
    {
      ClosingStays(es, n, i);
    }
    if s.firstFin != UNKNOWN {
      var i: nat :| OpensClosing(before, i) && before[i].direction == s.firstFin;
      FirstFinKept(before, s, es[n], i);
      assert OpensClosing(es, i);
    } else {
      NoFinYet(before, s);
      if Advance(s, es[n]).firstFin != UNKNOWN {
        assert OpensClosing(es, n);
      }
    }
  }

  lemma FirstFinKept(es: seq<Segment>, s: TcpState, o: Segment, i: nat)
    requires Explains(es, s) && OpensClosing(es, i)
    ensures Advance(s, o).firstFin == s.firstFin
  {
  }

  lemma NoFinYet(es: seq<Segment>, s: TcpState)
    requires Explains(es, s) && forall i: nat :: !OpensClosing(es, i)
    ensures s.phase != RESET ==> NoneOf(es, RST) && NoneOf(es, FIN)
    ensures s.phase !in {FIN_SEEN, FIN_BIDIRECTIONAL, CLOSED}
    ensures s.phase == RESET ==> !NoneOf(es, RST)
  {
    if s.phase == CLOSED {
      var i: nat, j: nat, k: nat :| k < |es| && Closure(es, i, j, k);
      assert OpensClosing(es, i);
    } else if s.phase in {FIN_SEEN, FIN_BIDIRECTIONAL} {
      var i: nat :| FirstFin(es, i, s.firstFin);
      assert OpensClosing(es, i);
    }
  }

  function Mirrored(es: seq<Segment>): seq<Segment> {
    seq(|es|, i requires 0 <= i < |es| => Segment(es[i].direction.Opposite(), es[i].event))
  }

  function MirroredState(s: TcpState): TcpState {
    s.(initiator := s.initiator.Opposite(), firstFin := s.firstFin.Opposite())
  }

  lemma MirrorFin(s: TcpState, d: Direction)
    requires d != UNKNOWN && (s.phase in {FIN_SEEN, FIN_BIDIRECTIONAL} ==> s.firstFin != UNKNOWN)
    ensures AdvanceFin(MirroredState(s), d.Opposite()) == MirroredState(AdvanceFin(s, d))
  {
  }

  lemma OppositeAgrees(d: Direction, e: Direction)
    requires d != UNKNOWN && e != UNKNOWN
    ensures d.Opposite() == e.Opposite() <==> d == e
  {
  }

  lemma MirrorHandshake(s: TcpState, o: Segment)
    requires o.direction != UNKNOWN && s.phase in {SYN_SEEN, SYN_ACK_SEEN} && s.initiator != UNKNOWN
    ensures AdvanceOther(MirroredState(s), Segment(o.direction.Opposite(), o.event))
            == MirroredState(AdvanceOther(s, o))
  {
    OppositeAgrees(o.direction, s.initiator);
  }

  lemma MirrorOther(s: TcpState, o: Segment)
    requires o.direction != UNKNOWN && s.phase !in {SYN_SEEN, SYN_ACK_SEEN}
    requires s.phase == FIN_BIDIRECTIONAL ==> s.firstFin != UNKNOWN
    ensures AdvanceOther(MirroredState(s), Segment(o.direction.Opposite(), o.event))
            == MirroredState(AdvanceOther(s, o))
  {
    if s.phase == FIN_BIDIRECTIONAL {
      OppositeAgrees(o.direction, s.firstFin);
    }
  }

  lemma MirrorStep(s: TcpState, o: Segment)
    requires o.direction != UNKNOWN
    requires s.phase in {SYN_SEEN, SYN_ACK_SEEN} ==> s.initiator != UNKNOWN
    requires s.phase in {FIN_SEEN, FIN_BIDIRECTIONAL} ==> s.firstFin != UNKNOWN
    ensures Advance(MirroredState(s), Segment(o.direction.Opposite(), o.event)) == MirroredState(Advance(s, o))
  {
    if o.event == FIN {
      MirrorFin(s, o.direction);
    } else if o.event != RST {
      if s.phase in {SYN_SEEN, SYN_ACK_SEEN} {
        MirrorHandshake(s, o);
      } else {
        MirrorOther(s, o);
      }
    }
  }

  /** The observer treats the two endpoints alike. */
  lemma {:induction false} MirrorSymmetry(es: seq<Segment>)
    requires Directed(es)
    ensures Run(Mirrored(es)) == MirroredState(Run(es))
  {
    if es != [] {
      var n := |es| - 1;
      MirrorSymmetry(es[..n]);
      assert Mirrored(es)[..n] == Mirrored(es[..n]);
      DirectionsRecorded(es[..n]);
      MirrorStep(Run(es[..n]), es[n]);
    }
  }

  /** The remembered directions are known whenever the phase consults them. */
  lemma {:induction false} DirectionsRecorded(es: seq<Segment>)
    requires Directed(es)
    ensures var s := Run(es);
            && (s.phase in {SYN_SEEN, SYN_ACK_SEEN} ==> s.initiator != UNKNOWN)
            && (s.phase in {FIN_SEEN, FIN_BIDIRECTIONAL} ==> s.firstFin != UNKNOWN)
  {
    if es != [] {
      DirectionsRecorded(es[..|es| - 1]);
    }
  }
}
