/** Exchanging source and destination in the bytes of a frame. */
module MirroredFrames {
  import opened Machine
  import opened Timestamps
  import opened PacketInfo
  import opened ByteReader
  import opened FrameFormat
  import opened FlowRecord

  /** The frame carries a complete TCP, UDP or ICMP header. */
  predicate IsFlowFrame(f: seq<U8>) {
    |f| >= LINK && NetworkOf(f).Carried? && !NetworkOf(f).upper.NoUpper?
  }

  /** The two neighbouring fields of `width` bytes at `at`, exchanged. */
  function Exchanged(f: seq<U8>, at: nat, width: nat): (g: seq<U8>)
    requires at + 2 * width <= |f|
    ensures |g| == |f|
  {
    f[..at] + f[at + width..at + 2 * width] + f[at..at + width] + f[at + 2 * width..]
  }

  /** Where byte `i` of the exchanged frame comes from. */
  function Origin(at: nat, width: nat, i: nat): nat {
    if at <= i < at + width then i + width
    else if at + width <= i < at + 2 * width then i - width
    else i
  }

  /** The Ethernet header, and the IPv4 header without options. */
  const LINK := ETHERNET_HEADER_LENGTH

  const FIXED := IPV4_MIN_HEADER_LENGTH

  const ADDRESSES := LINK + 12

  const HEADERS := LINK + FIXED

  /** The addresses exchanged, and the ports at `at` if there are any. */
  function MirrorBytes(f: seq<U8>, at: nat, ports: bool): (g: seq<U8>)
    requires HEADERS <= at && at + 4 <= |f|
    ensures |g| == |f|
  {
    var g := Exchanged(f, ADDRESSES, 4);
    if ports then Exchanged(g, at, 2) else g
  }

  lemma PayloadInside(f: seq<U8>)
    requires IsFlowFrame(f)
    ensures var ip := NetworkOf(f).ip;
            HEADERS <= ip.payloadOffset && ip.payloadLength >= 8 && ip.payloadOffset + ip.payloadLength <= |f|
  {
  }

  /** The frame with the IPv4 addresses exchanged, and the ports too if it has any.
      A frame that is no complete packet of a flow stays as it is. */
  function MirrorFrame(f: seq<U8>): (g: seq<U8>)
    ensures |g| == |f|
  {
    if !IsFlowFrame(f) then f
    else
      PayloadInside(f);
      MirrorBytes(f, NetworkOf(f).ip.payloadOffset, !NetworkOf(f).upper.Icmp?)
  }

  function MirrorIpv4(ip: Ipv4Header): Ipv4Header {
    ip.(source := ip.destination, destination := ip.source)
  }

  function MirrorUpper(u: Upper): Upper {
    match u
    case Tcp(h) => Tcp(h.(sourcePort := h.destinationPort, destinationPort := h.sourcePort))
    case Udp(h) => Udp(h.(sourcePort := h.destinationPort, destinationPort := h.sourcePort))
    case _ => u
  }

  // ----- the bytes -------------------------------------------------------------------------------

  lemma ExchangedAt(f: seq<U8>, at: nat, width: nat, i: nat)
    requires at + 2 * width <= |f| && i < |f|
    ensures Exchanged(f, at, width)[i] == f[Origin(at, width, i)]
  {
  }

  lemma MirrorBytesAt(f: seq<U8>, at: nat, ports: bool, i: nat)
    requires HEADERS <= at && at + 4 <= |f| && i < |f|
    ensures MirrorBytes(f, at, ports)[i]
         == f[if i < at then Origin(ADDRESSES, 4, i) else if ports then Origin(at, 2, i) else i]
  {
    var g := Exchanged(f, ADDRESSES, 4);
    ExchangedAt(f, ADDRESSES, 4, i);
    if ports {
      ExchangedAt(g, at, 2, i);
      ExchangedAt(f, ADDRESSES, 4, Origin(at, 2, i));
    }
  }

  /** `g` is `w` with the two fields of `width` bytes at `at` exchanged. */
  predicate Swapped(w: seq<U8>, g: seq<U8>, at: nat, width: nat) {
    at + 2 * width <= |w| && |g| == |w| && forall i | 0 <= i < |w| :: g[i] == w[Origin(at, width, i)]
  }

  lemma MirrorBytesBelow(f: seq<U8>, at: nat, ports: bool)
    requires HEADERS <= at && at + 4 <= |f|
    ensures var g := MirrorBytes(f, at, ports);
            g[..LINK] == f[..LINK] && Swapped(f[LINK..at], g[LINK..at], 12, 4)
  {
    var g := MirrorBytes(f, at, ports);
    forall i | 0 <= i < at
      ensures g[i] == f[Origin(ADDRESSES, 4, i)]
    {
      MirrorBytesAt(f, at, ports, i);
    }
  }

  lemma MirrorBytesAbove(f: seq<U8>, at: nat, ports: bool, end: nat)
    requires HEADERS <= at && at + 4 <= end <= |f|
    ensures var g := MirrorBytes(f, at, ports);
            if ports then Swapped(f[at..end], g[at..end], 0, 2) else g[at..end] == f[at..end]
  {
    var g := MirrorBytes(f, at, ports);
    forall i | at <= i < end
      ensures g[i] == f[if ports then Origin(at, 2, i) else i]
    {
      MirrorBytesAt(f, at, ports, i);
    }
  }

  // ----- what the parsers make of them ------------------------------------------------------------

  /** Exchanging the address fields of an IPv4 header mirrors what it parses to. */
  lemma Ipv4Mirrors(w: seq<U8>, g: seq<U8>, base: nat)
    requires Ipv4Of(w, base).Parsed? && |g| == |w| && Swapped(w[..FIXED], g[..FIXED], 12, 4)
    ensures Ipv4Of(g, base) == Parsed(MirrorIpv4(Ipv4Of(w, base).header))
  {
    assert forall i | 0 <= i < FIXED :: g[i] == g[..FIXED][i] == w[..FIXED][Origin(12, 4, i)];
    assert forall i | 0 <= i < 12 :: g[i] == w[i];
    assert g[12] == w[16] && g[13] == w[17] && g[LINK] == w[18] && g[15] == w[19];
    assert g[16] == w[12] && g[17] == w[13] && g[18] == w[LINK] && g[19] == w[15];
  }

  /** The same for the ports; the IPv4 addresses do not matter here. */
  lemma UpperMirrors(w: seq<U8>, g: seq<U8>, ip: Ipv4Header)
    requires !UpperOf(w, ip).NoUpper?
    requires if UpperOf(w, ip).Icmp? then g == w else Swapped(w, g, 0, 2)
    ensures UpperOf(g, MirrorIpv4(ip)) == MirrorUpper(UpperOf(w, ip))
  {
    if !UpperOf(w, ip).Icmp? {
      assert g[0] == w[2] && g[1] == w[3] && g[2] == w[0] && g[3] == w[1];
      assert forall i | 4 <= i < |w| :: g[i] == w[i];
    }
  }

  /** The headers and the payload of `g` decide what it carries. */
  lemma CarriedBy(g: seq<U8>, w: seq<U8>, ip: Ipv4Header, v: seq<U8>, u: Upper)
    requires |g| >= LINK && w == g[LINK..] && Be16(g, 12) == ETHERNET_TYPE_IPV4 && Ipv4Of(w, LINK) == Parsed(ip)
    requires ip.payloadOffset + ip.payloadLength <= |g|
    requires v == g[ip.payloadOffset..ip.payloadOffset + ip.payloadLength] && UpperOf(v, ip) == u
    ensures NetworkOf(g) == Carried(ip, u)
  {
  }

  lemma CarriedParses(f: seq<U8>, g: seq<U8>, ip: Ipv4Header, u: Upper, at: nat, end: int, w: seq<U8>)
    requires IsFlowFrame(f) && NetworkOf(f) == Carried(ip, u) && w == f[LINK..] && g == MirrorFrame(f)
    requires at == ip.payloadOffset && end == at + ip.payloadLength
    ensures Be16(f, 12) == ETHERNET_TYPE_IPV4 && Ipv4Of(w, LINK) == Parsed(ip)
    ensures HEADERS <= at && at + 8 <= end <= |f| && UpperOf(f[at..end], ip) == u && !u.NoUpper?
    ensures g == MirrorBytes(f, at, !u.Icmp?)
  {
    PayloadInside(f);
  }

  lemma NetworkMirrors(f: seq<U8>)
    requires IsFlowFrame(f)
    ensures EthernetOf(MirrorFrame(f)) == EthernetOf(f)
    ensures NetworkOf(MirrorFrame(f)) == Carried(MirrorIpv4(NetworkOf(f).ip), MirrorUpper(NetworkOf(f).upper))
  {
    var g, ip, u := MirrorFrame(f), NetworkOf(f).ip, NetworkOf(f).upper;
    var at, end := ip.payloadOffset, ip.payloadOffset + ip.payloadLength;
    CarriedParses(f, g, ip, u, at, end, f[LINK..]);
    NetworkOfMirror(f, g, ip, u, at, end, f[LINK..], g[LINK..]);
  }

  lemma NetworkOfMirror(f: seq<U8>, g: seq<U8>, ip: Ipv4Header, u: Upper, at: nat, end: nat, w: seq<U8>, v: seq<U8>)
    requires |f| >= LINK && w == f[LINK..] && Be16(f, 12) == ETHERNET_TYPE_IPV4 && Ipv4Of(w, LINK) == Parsed(ip)
    requires HEADERS <= at && at + 8 <= end <= |f| && at == ip.payloadOffset && end == at + ip.payloadLength
    requires UpperOf(f[at..end], ip) == u && !u.NoUpper?
    requires g == MirrorBytes(f, at, !u.Icmp?) && v == g[LINK..]
    ensures EthernetOf(g) == EthernetOf(f) && NetworkOf(g) == Carried(MirrorIpv4(ip), MirrorUpper(u))
  {
    HeadersMirror(f, g, ip, !u.Icmp?, w, v);
    PayloadMirrors(f, at, end, ip, u, f[at..end], g[at..end]);
    CarriedBy(g, v, MirrorIpv4(ip), g[at..end], MirrorUpper(u));
  }

  lemma HeadersMirror(f: seq<U8>, g: seq<U8>, ip: Ipv4Header, ports: bool, w: seq<U8>, v: seq<U8>)
    requires |f| >= LINK && w == f[LINK..] && Ipv4Of(w, LINK) == Parsed(ip)
    requires HEADERS <= ip.payloadOffset && ip.payloadOffset + 4 <= |f|
    requires g == MirrorBytes(f, ip.payloadOffset, ports) && v == g[LINK..]
    ensures EthernetOf(g) == EthernetOf(f) && Be16(g, 12) == Be16(f, 12)
    ensures Ipv4Of(v, LINK) == Parsed(MirrorIpv4(ip))
  {
    MirrorBytesBelow(f, ip.payloadOffset, ports);
    EthernetStays(f, g);
    HeaderBytes(f, g, ip.payloadOffset);
    Ipv4Mirrors(w, v, LINK);
  }

  lemma PayloadMirrors(f: seq<U8>, at: nat, end: nat, ip: Ipv4Header, u: Upper, w: seq<U8>, v: seq<U8>)
    requires HEADERS <= at && at + 4 <= end <= |f| && UpperOf(w, ip) == u && !u.NoUpper?
    requires w == f[at..end] && v == MirrorBytes(f, at, !u.Icmp?)[at..end]
    ensures UpperOf(v, MirrorIpv4(ip)) == MirrorUpper(u)
  {
    MirrorBytesAbove(f, at, !u.Icmp?, end);
    UpperMirrors(w, v, ip);
  }

  lemma EthernetStays(f: seq<U8>, g: seq<U8>)
    requires |f| >= LINK && |g| == |f| && g[..LINK] == f[..LINK]
    ensures EthernetOf(g) == EthernetOf(f) && Be16(g, 12) == Be16(f, 12)
  {
    assert forall i | 0 <= i < LINK :: g[i] == g[..LINK][i] == f[..LINK][i] == f[i];
    assert g[..6] == f[..6] && g[6..12] == f[6..12];
  }

  lemma HeaderBytes(f: seq<U8>, g: seq<U8>, at: nat)
    requires HEADERS <= at <= |f| == |g| && Swapped(f[LINK..at], g[LINK..at], 12, 4)
    ensures Swapped(f[LINK..][..FIXED], g[LINK..][..FIXED], 12, 4)
  {
    forall i | 0 <= i < FIXED
      ensures g[LINK..][..FIXED][i] == f[LINK..][..FIXED][Origin(12, 4, i)]
    {
      assert g[LINK..at][i] == f[LINK..at][Origin(12, 4, i)];
    }
  }

  lemma WithUpperMirrors(info: PacketInfo, ip: Ipv4Header, u: Upper)
    requires info.tcp.None? && info.udp.None? && !u.NoUpper?
    ensures WithUpper(info.(ipv4 := Some(MirrorIpv4(ip))), MirrorUpper(u))
         == MirrorPacket(WithUpper(info.(ipv4 := Some(ip)), u))
    ensures WithUpper(info.(ipv4 := Some(ip)), u).status == COMPLETE
  {
  }

  lemma ParseIncomplete(f: seq<U8>, blank: PacketInfo)
    requires !IsFlowFrame(f) && blank.status != COMPLETE
    ensures Parse(f, blank).status != COMPLETE
  {
  }

  lemma ParseFlowFrame(f: seq<U8>, blank: PacketInfo)
    requires IsFlowFrame(f)
    ensures EthernetOf(f).Parsed?
    ensures Parse(f, blank) == WithUpper(blank.(ethernet := Some(EthernetOf(f).header), ipv4 := Some(NetworkOf(f).ip)),
                                         NetworkOf(f).upper)
  {
  }

  /** A complete frame with its endpoints exchanged parses to the same with source
      and destination exchanged. */
  lemma FrameMirrors(f: seq<U8>, time: Timestamp, captured: U32, wire: U32)
    ensures var info := Parse(f, Blank(time, captured, wire));
            Parse(MirrorFrame(f), Blank(time, captured, wire))
            == if info.status == COMPLETE then MirrorPacket(info) else info
  {
    var blank := Blank(time, captured, wire);
    if IsFlowFrame(f) {
      NetworkMirrors(f);
      ParseFlowFrame(f, blank);
      ParseFlowFrame(MirrorFrame(f), blank);
      WithUpperMirrors(blank.(ethernet := Some(EthernetOf(f).header)), NetworkOf(f).ip, NetworkOf(f).upper);
    } else {
      ParseIncomplete(f, blank);
    }
  }
}
