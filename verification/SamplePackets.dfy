/** Two small captured packets: a complete UDP frame and an empty frame. */
module SamplePackets {
  import opened Machine
  import opened Timestamps
  import opened PacketInfo
  import opened FlowKey
  import opened FrameFormat
  import opened WireFormat
  import opened Engine
  import opened CaptureLedger
  import opened Expiration
  import opened FeatureRun

  const MAC: seq<U8> := [2, 0, 0, 0, 0, 1]

  const ETHERNET := EthernetHeader(MAC, MAC, ETHERNET_TYPE_IPV4, 14, 28)

  const IPV4 := Ipv4Header(20, 28, 0, false, false, 0, 64, PROTOCOL_UDP, 0, 1, 2, 34, 8, false)

  const UDP := UdpHeader(1, 2, 8, 0, 42, 0, false)

  const NOTHING_UNREAD := Unread(0, false, [], 0, [])

  /** The key of the frame's flow. */
  const UDP_KEY := FlowKey(Endpoint(1, 1), Endpoint(2, 2), PROTOCOL_UDP)

  const UDP_FRAME_LENGTH := 42

  /** Ethernet, IPv4 and UDP headers without payload. */
  function UdpFrame(): (f: seq<U8>)
    ensures |f| == UDP_FRAME_LENGTH
  {
    FrameBytes(ETHERNET, IPV4, Udp(UDP), NOTHING_UNREAD, [], [])
  }

  lemma SampleFits()
    ensures FrameFits(ETHERNET, IPV4, Udp(UDP), NOTHING_UNREAD, [], [])
  {
  }

  /** The frame captured at `time`, with `wire` as its length on the wire. */
  function UdpPacket(time: Time, wire: U32): (p: Packet)
    ensures p.time == time && p.wire == wire && |p.data| == UDP_FRAME_LENGTH
  {
    PacketData(time, wire, UdpFrame())
  }

  /** A frame of which nothing was captured. */
  function EmptyPacket(time: Time): (p: Packet)
    ensures p.time == time && p.wire == 0 && |p.data| == 0
  {
    PacketData(time, 0, [])
  }

  lemma UdpPacketArrives(time: Time, wire: U32)
    ensures InfoOf(UdpPacket(time, wire)).status == COMPLETE
    ensures EventOf(UdpPacket(time, wire)).time == time
    ensures EventOf(UdpPacket(time, wire)).arrival.Some?
    ensures var a := EventOf(UdpPacket(time, wire)).arrival.value; a.key == UDP_KEY && a.time == time
  {
    var p := UdpPacket(time, wire);
    SampleFits();
    ParseOfFrameBytes(ETHERNET, IPV4, Udp(UDP), NOTHING_UNREAD, [], [], Blank(time, UDP_FRAME_LENGTH, wire));
    CompletePacketsArrive(p);
    KeyOfSample(InfoOf(p));
  }

  lemma KeyOfSample(info: PacketInfo)
    requires info.initialized && info.status == COMPLETE && info.ipv4 == Some(IPV4) && info.udp == Some(UDP)
    requires info.tcp.None? && info.icmp.None?
    ensures FromPacket(info).Keyed? && FromPacket(info).key == UDP_KEY
  {
  }

  lemma EmptyPacketHasNoFlow(time: Time)
    ensures EventOf(EmptyPacket(time)).time == time && EventOf(EmptyPacket(time)).arrival.None?
  {
    CompletePacketsArrive(EmptyPacket(time));
  }

  lemma {:induction false} SmallTallies(ps: seq<Packet>)
    requires forall i :: 0 <= i < |ps| ==> |ps[i].data| <= UDP_FRAME_LENGTH && ps[i].wire <= UDP_FRAME_LENGTH
    ensures var t := TallyOfPackets(ps);
            && t.packets == |ps| && t.captured <= UDP_FRAME_LENGTH * |ps| && t.wire <= UDP_FRAME_LENGTH * |ps|
  {
    if ps != [] {
      SmallTallies(ps[..|ps| - 1]);
    }
  }

  lemma OnePacketCompletes(cfg: Config, ps: seq<Packet>)
    requires |ps| == 1 && ValidTime(ps[0].time) && |ps[0].data| <= UDP_FRAME_LENGTH && ps[0].wire <= UDP_FRAME_LENGTH
    ensures Completes(cfg, ps)
  {
    SmallTallies(ps);
    FirstPacketNeverScans(cfg, MicrosOf(ps));
  }

  lemma FirstPacketNeverScans(cfg: Config, ts: seq<int>)
    requires |ts| == 1
    ensures |Cutoffs(ts, cfg.idle, cfg.interval)| == 0
  {
    assert ts[..0] == [];
  }

  /** There is such a capture: the UDP frame with a wire length of zero.  Whatever
      timeout and policy, the analysis completes over it, but never with a feature CSV. */
  lemma SomeCaptureNeverFits(cfg: Config, time: Time) returns (ps: seq<Packet>)
    requires cfg.capacity > 0
    ensures ps == [UdpPacket(time, 0)] && Completes(cfg, ps) && exists log :: FullRun(cfg, ps, log)
    ensures forall log | FullRun(cfg, ps, log) :: !AllFit(EventsOf(ps), log.states[|ps|].lifetimes)
  {
    ps := [UdpPacket(time, 0)];
    OnePacketCompletes(cfg, ps);
    UdpPacketArrives(time, 0);
    var log := SomeFullRun(cfg, ps);
    forall log | FullRun(cfg, ps, log)
      ensures !AllFit(EventsOf(ps), log.states[|ps|].lifetimes)
    {
      OverlongPacketNeverFits(cfg, ps, log);
    }
  }
}
