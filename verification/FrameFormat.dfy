/** What the bytes of a frame mean, layer by layer: RFC 791 section 3.1, RFC 9293
    section 3.1, RFC 768 and RFC 792, with the length checks of the parsers.
    Shifts and masks are divisions and remainders by powers of two. */
module FrameFormat {
  import opened Machine
  import opened PacketInfo
  import opened ByteReader

  const ETHERNET_HEADER_LENGTH := 14
  const ETHERNET_TYPE_IPV4: U16 := 0x0800
  const IPV4_MIN_HEADER_LENGTH := 20
  const TCP_MIN_HEADER_LENGTH := 20
  const TCP_MAX_HEADER_LENGTH := 60
  const UDP_HEADER_LENGTH := 8
  const ICMP_HEADER_LENGTH := 8

  /** One layer's outcome. */
  datatype Layer<+H> = Parsed(header: H) | Bad(status: ParseStatus, code: Errno, offset: nat)

  function EthernetOf(f: seq<U8>): Layer<EthernetHeader> {
    if |f| < ETHERNET_HEADER_LENGTH then Bad(TRUNCATED, ENODATA, |f|)
    else Parsed(EthernetHeader(f[..6], f[6..12], Be16(f, 12), ETHERNET_HEADER_LENGTH, |f| - ETHERNET_HEADER_LENGTH))
  }

  /** The IPv4 header at the start of `w`, the captured Ethernet payload, which
      begins at frame offset `base`. */
  function Ipv4Of(w: seq<U8>, base: nat): Layer<Ipv4Header> {
    if |w| < IPV4_MIN_HEADER_LENGTH then Bad(TRUNCATED, ENODATA, base + |w|)
    else if w[0] / 16 != 4 || w[0] % 16 < 5 then Bad(MALFORMED, EBADMSG, base)
    else
      var header, total, fragment := w[0] as int % 16 * 4, Be16(w, 2), Be16(w, 6);
      if total < header then Bad(MALFORMED, EBADMSG, base + 2)
      else if |w| < header then Bad(TRUNCATED, ENODATA, base + |w|)
      else Parsed(Ipv4Header(
        header, total, Be16(w, 4),
        fragment / 0x4000 % 2 == 1, fragment / 0x2000 % 2 == 1, fragment % 0x2000,
        w[8], w[9], Be16(w, 10), Be32(w, 12), Be32(w, 16),
        base + header, (if total < |w| then total else |w|) - header, |w| < total))
  }

  predicate IsFragment(ip: Ipv4Header) {
    ip.moreFragments || ip.fragmentOffset != 0
  }

  /** The length the IPv4 header promises for its payload. */
  function Declared(ip: Ipv4Header): int {
    ip.totalLength - ip.headerLength
  }

  /** The TCP header at the start of `w`, the captured part of `ip`'s payload. */
  function TcpOf(w: seq<U8>, ip: Ipv4Header): Layer<TcpHeader> {
    var base := ip.payloadOffset;
    if IsFragment(ip) then Bad(UNSUPPORTED, ENOTSUP, base)
    else if Declared(ip) < TCP_MIN_HEADER_LENGTH then Bad(MALFORMED, EBADMSG, base)
    else if |w| < TCP_MIN_HEADER_LENGTH then Bad(TRUNCATED, ENODATA, base + |w|)
    else
      var header := w[12] as int / 16 * 4;
      if header < TCP_MIN_HEADER_LENGTH || header > TCP_MAX_HEADER_LENGTH || header > Declared(ip)
      then Bad(MALFORMED, EBADMSG, base + 12)
      else if |w| < header then Bad(TRUNCATED, ENODATA, base + |w|)
      else Parsed(TcpHeader(
        Be16(w, 0), Be16(w, 2), Be32(w, 4), Be32(w, 8), header, w[12] as int % 2 * 0x100 + w[13],
        Be16(w, 14), Be16(w, 16), Be16(w, 18), base + header, |w| - header, ip.payloadTruncated))
  }

  function UdpOf(w: seq<U8>, ip: Ipv4Header): Layer<UdpHeader> {
    var base := ip.payloadOffset;
    if IsFragment(ip) then Bad(UNSUPPORTED, ENOTSUP, base)
    else if Declared(ip) < UDP_HEADER_LENGTH then Bad(MALFORMED, EBADMSG, base)
    else if |w| < UDP_HEADER_LENGTH then Bad(TRUNCATED, ENODATA, base + |w|)
    else if Be16(w, 4) < UDP_HEADER_LENGTH || Be16(w, 4) != Declared(ip) then Bad(MALFORMED, EBADMSG, base + 4)
    else Parsed(UdpHeader(
      Be16(w, 0), Be16(w, 2), Be16(w, 4), Be16(w, 6),
      base + UDP_HEADER_LENGTH, |w| - UDP_HEADER_LENGTH, ip.payloadTruncated))
  }

  predicate IsEcho(icmpType: U8) {
    icmpType == 8 || icmpType == 0
  }

  function IcmpOf(w: seq<U8>, ip: Ipv4Header): Layer<IcmpHeader> {
    var base := ip.payloadOffset;
    if IsFragment(ip) then Bad(UNSUPPORTED, ENOTSUP, base)
    else if Declared(ip) < ICMP_HEADER_LENGTH then Bad(MALFORMED, EBADMSG, base)
    else if |w| < ICMP_HEADER_LENGTH then Bad(TRUNCATED, ENODATA, base + |w|)
    else Parsed(IcmpHeader(
      w[0], w[1], Be16(w, 2), Be32(w, 4), IsEcho(w[0]),
      (if IsEcho(w[0]) then Be16(w, 4) else 0), (if IsEcho(w[0]) then Be16(w, 6) else 0),
      base + ICMP_HEADER_LENGTH, |w| - ICMP_HEADER_LENGTH, ip.payloadTruncated))
  }

  /** What an IPv4 packet carries. */
  datatype Upper = Tcp(tcp: TcpHeader) | Udp(udp: UdpHeader) | Icmp(icmp: IcmpHeader)
                 | NoUpper(layer: ParseLayer, status: ParseStatus, code: Errno, offset: nat)

  /** The upper layer of an IPv4 packet whose captured payload is `w`. */
  function UpperOf(w: seq<U8>, ip: Ipv4Header): Upper {
    if ip.protocol == PROTOCOL_TCP then
      match TcpOf(w, ip)
      case Parsed(h) => Tcp(h)
      case Bad(status, code, offset) => NoUpper(LAYER_TCP, status, code, offset)
    else if ip.protocol == PROTOCOL_UDP then
      match UdpOf(w, ip)
      case Parsed(h) => Udp(h)
      case Bad(status, code, offset) => NoUpper(LAYER_UDP, status, code, offset)
    else if ip.protocol == PROTOCOL_ICMP then
      match IcmpOf(w, ip)
      case Parsed(h) => Icmp(h)
      case Bad(status, code, offset) => NoUpper(LAYER_ICMP, status, code, offset)
    else NoUpper(LAYER_IPV4, UNSUPPORTED, ENOTSUP, ip.payloadOffset)
  }

  /** The bytes of a view, if it lies inside the frame. */
  function Window(f: seq<U8>, offset: nat, length: nat): Option<seq<U8>> {
    if offset <= |f| && length <= |f| - offset then Some(f[offset..offset + length]) else None
  }

  /** What an Ethernet frame carries. */
  datatype Network = NotIpv4 | NoIpv4(status: ParseStatus, code: Errno, offset: nat)
                   | Carried(ip: Ipv4Header, upper: Upper)

  /** The payload of a frame of at least 14 bytes. */
  function NetworkOf(f: seq<U8>): Network
    requires |f| >= ETHERNET_HEADER_LENGTH
  {
    if Be16(f, 12) != ETHERNET_TYPE_IPV4 then NotIpv4
    else
      match Ipv4Of(f[ETHERNET_HEADER_LENGTH..], ETHERNET_HEADER_LENGTH)
      case Bad(status, code, offset) => NoIpv4(status, code, offset)
      case Parsed(ip) => Carried(ip, UpperOf(f[ip.payloadOffset..ip.payloadOffset + ip.payloadLength], ip))
  }

  function WithUpper(info: PacketInfo, u: Upper): PacketInfo {
    match u
    case Tcp(h) => Completed(info.(tcp := Some(h)))
    case Udp(h) => Completed(info.(udp := Some(h)))
    case Icmp(h) => Completed(info.(icmp := Some(h)))
    case NoUpper(layer, status, code, offset) => Failed(info, status, layer, code, offset)
  }

  function WithNetwork(info: PacketInfo, network: Network): PacketInfo {
    match network
    case NotIpv4 => info
    case NoIpv4(status, code, offset) => Failed(info, status, LAYER_IPV4, code, offset)
    case Carried(ip, upper) => WithUpper(info.(ipv4 := Some(ip)), upper)
  }

  /** The parser chain on a whole frame.  A frame that is not IPv4 keeps NOT_STARTED. */
  function Parse(f: seq<U8>, blank: PacketInfo): PacketInfo {
    match EthernetOf(f)
    case Bad(status, code, offset) => Failed(blank, status, LAYER_ETHERNET, code, offset)
    case Parsed(eth) => WithNetwork(blank.(ethernet := Some(eth)), NetworkOf(f))
  }

  /** The packet class the program counts. */
  function ClassOf(info: PacketInfo): ParseStatus {
    if info.status == NOT_STARTED then UNSUPPORTED else info.status
  }
}
