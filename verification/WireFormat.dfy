/** The standard encodings of the headers, written as byte layouts, and the proof
    that parsing is their inverse in both directions. */
module WireFormat {
  import opened Machine
  import opened PacketInfo
  import opened ByteReader
  import opened FrameFormat

  function Bytes16(x: U16): (b: seq<U8>)
    ensures |b| == 2 && Be16(b, 0) == x
  {
    [x / 0x100, x % 0x100]
  }

  function Bytes32(x: U32): (b: seq<U8>)
    ensures |b| == 4 && Be32(b, 0) == x
  {
    Quotients(x, x / 0x100, x / 0x1_0000, x / 0x100_0000);
    [x / 0x100_0000, x / 0x1_0000 % 0x100, x / 0x100 % 0x100, x % 0x100]
  }

  /** A number and its quotients by powers of 256. */
  lemma Quotients(x: U32, y: nat, z: nat, top: nat)
    requires y == x / 0x100 && z == x / 0x1_0000 && top == x / 0x100_0000
    ensures x == y * 0x100 + x % 0x100 && y == z * 0x100 + y % 0x100 && z == top * 0x100 + z % 0x100 && top < 0x100
  {
    Quotient(x, 0x100);
    Quotient(x, 0x1_0000);
  }

  lemma Quotient(x: nat, d: nat)
    requires d == 0x100 || d == 0x1_0000
    ensures x / d / 0x100 == x / (d * 0x100)
  {
  }

  /** The bits of a header that the program reads past. */
  datatype Unread = Unread(tos: U8, reservedBit: bool, ipOptions: seq<U8>, tcpReserved: nat, tcpOptions: seq<U8>)

  predicate UnreadOk(u: Unread) {
    && |u.ipOptions| <= 40 && |u.ipOptions| % 4 == 0
    && |u.tcpOptions| <= 40 && |u.tcpOptions| % 4 == 0
    && u.tcpReserved < 8
  }

  function Bit(b: bool): nat {
    if b then 1 else 0
  }

  function FragmentField(h: Ipv4Header, reservedBit: bool): nat {
    Bit(reservedBit) * 0x8000 + Bit(h.dontFragment) * 0x4000 + Bit(h.moreFragments) * 0x2000 + h.fragmentOffset
  }

  // ----- the layouts ------------------------------------------------------------------------

  function EthernetBytes(h: EthernetHeader): (b: seq<U8>)
    ensures |b| == |h.destinationMac| + |h.sourceMac| + 2
  {
    h.destinationMac + h.sourceMac + Bytes16(h.etherType)
  }

  /** RFC 791, section 3.1. */
  function Ipv4Bytes(h: Ipv4Header, u: Unread): (b: seq<U8>)
    requires h.fragmentOffset < 0x2000 && h.headerLength < 64
    ensures |b| == IPV4_MIN_HEADER_LENGTH + |u.ipOptions|
  {
    [0x40 + h.headerLength / 4, u.tos]
    + Bytes16(h.totalLength) + Bytes16(h.identification) + Bytes16(FragmentField(h, u.reservedBit))
    + [h.ttl, h.protocol] + Bytes16(h.checksum) + Bytes32(h.source) + Bytes32(h.destination) + u.ipOptions
  }

  /** RFC 9293, section 3.1, with the ninth flag of RFC 3540. */
  function TcpBytes(h: TcpHeader, u: Unread): (b: seq<U8>)
    requires h.headerLength < 64 && u.tcpReserved < 8 && h.flags < 0x200
    ensures |b| == TCP_MIN_HEADER_LENGTH + |u.tcpOptions|
  {
    Bytes16(h.sourcePort) + Bytes16(h.destinationPort) + Bytes32(h.sequence) + Bytes32(h.acknowledgment)
    + [h.headerLength / 4 * 0x10 + u.tcpReserved * 2 + h.flags / 0x100, h.flags % 0x100]
    + Bytes16(h.window) + Bytes16(h.checksum) + Bytes16(h.urgent) + u.tcpOptions
  }

  /** RFC 768. */
  function UdpBytes(h: UdpHeader): seq<U8> {
    Bytes16(h.sourcePort) + Bytes16(h.destinationPort) + Bytes16(h.length) + Bytes16(h.checksum)
  }

  /** RFC 792. */
  function IcmpBytes(h: IcmpHeader): seq<U8> {
    [h.icmpType, h.code] + Bytes16(h.checksum)
    + if IsEcho(h.icmpType) then Bytes16(h.identifier) + Bytes16(h.sequence) else Bytes32(h.restOfHeader)
  }

  // ----- which headers a well-formed packet has -------------------------------------------------

  /** `h` describes a datagram of which `captured` bytes are at hand from frame offset `base`. */
  predicate Ipv4Fits(h: Ipv4Header, u: Unread, base: nat, captured: nat) {
    && UnreadOk(u) && h.fragmentOffset < 0x2000
    && h.headerLength == IPV4_MIN_HEADER_LENGTH + |u.ipOptions| <= h.totalLength && h.headerLength <= captured
    && h.payloadOffset == base + h.headerLength
    && h.payloadLength == (if h.totalLength < captured then h.totalLength else captured) - h.headerLength
    && h.payloadTruncated == (captured < h.totalLength)
  }

  predicate TcpFits(h: TcpHeader, u: Unread, ip: Ipv4Header, captured: nat) {
    && UnreadOk(u) && !IsFragment(ip) && h.flags < 0x200
    && h.headerLength == TCP_MIN_HEADER_LENGTH + |u.tcpOptions| <= captured && h.headerLength <= Declared(ip)
    && h.payloadOffset == ip.payloadOffset + h.headerLength
    && h.payloadLength == captured - h.headerLength
    && h.payloadTruncated == ip.payloadTruncated
  }

  predicate UdpFits(h: UdpHeader, ip: Ipv4Header, captured: nat) {
    && !IsFragment(ip) && UDP_HEADER_LENGTH <= h.length == Declared(ip) && UDP_HEADER_LENGTH <= captured
    && h.payloadOffset == ip.payloadOffset + UDP_HEADER_LENGTH
    && h.payloadLength == captured - UDP_HEADER_LENGTH
    && h.payloadTruncated == ip.payloadTruncated
  }

  predicate IcmpFits(h: IcmpHeader, ip: Ipv4Header, captured: nat) {
    && !IsFragment(ip) && ICMP_HEADER_LENGTH <= Declared(ip) && ICMP_HEADER_LENGTH <= captured
    && h.hasEcho == IsEcho(h.icmpType)
    && (if h.hasEcho then h.restOfHeader == h.identifier * 0x1_0000 + h.sequence
        else h.identifier == 0 && h.sequence == 0)
    && h.payloadOffset == ip.payloadOffset + ICMP_HEADER_LENGTH
    && h.payloadLength == captured - ICMP_HEADER_LENGTH
    && h.payloadTruncated == ip.payloadTruncated
  }

  // ----- parsing accepts exactly the encodings ------------------------------------------------------

  lemma Split16(w: seq<U8>, o: nat)
    requires o + 2 <= |w|
    ensures Bytes16(Be16(w, o)) == w[o..o + 2]
  {
  }

  lemma Digits(a: U8, b: U8, c: U8, d: U8)
    ensures var x := a as int * 0x100_0000 + b as int * 0x1_0000 + c as int * 0x100 + d;
            x / 0x100_0000 == a && x / 0x1_0000 % 0x100 == b && x / 0x100 % 0x100 == c && x % 0x100 == d
  {
    var x := a as int * 0x100_0000 + b as int * 0x1_0000 + c as int * 0x100 + d;
    assert x / 0x1_0000 == a as int * 0x100 + b;
    assert x / 0x100 == a as int * 0x1_0000 + b as int * 0x100 + c;
  }

  lemma Split32(w: seq<U8>, o: nat)
    requires o + 4 <= |w|
    ensures Bytes32(Be32(w, o)) == w[o..o + 4]
  {
    Digits(w[o], w[o + 1], w[o + 2], w[o + 3]);
  }

  lemma EthernetEncode(h: EthernetHeader, payload: seq<U8>)
    requires |h.destinationMac| == |h.sourceMac| == 6
    requires h.payloadOffset == ETHERNET_HEADER_LENGTH && h.payloadLength == |payload|
    ensures EthernetOf(EthernetBytes(h) + payload) == Parsed(h)
  {
    var f := EthernetBytes(h) + payload;
    assert f[..6] == h.destinationMac && f[6..12] == h.sourceMac && Be16(f, 12) == h.etherType;
  }

  lemma EthernetDecode(f: seq<U8>)
    requires EthernetOf(f).Parsed?
    ensures EthernetBytes(EthernetOf(f).header) == f[..ETHERNET_HEADER_LENGTH]
  {
    Split16(f, 12);
  }

  /** The bits a parse of `w` skips. */
  function UnreadIpv4(w: seq<U8>): Unread
    requires |w| >= IPV4_MIN_HEADER_LENGTH
  {
    var header := w[0] as int % 16 * 4;
    var options := if IPV4_MIN_HEADER_LENGTH <= header <= |w| then w[IPV4_MIN_HEADER_LENGTH..header] else [];
    Unread(w[1], w[6] >= 0x80, options, 0, [])
  }

  lemma Ipv4Fields(h: Ipv4Header, u: Unread, rest: seq<U8>)
    requires h.fragmentOffset < 0x2000 && h.headerLength < 64
    ensures var w := Ipv4Bytes(h, u) + rest;
            && w[0] == 0x40 + h.headerLength / 4
            && Be16(w, 2) == h.totalLength && Be16(w, 4) == h.identification
            && Be16(w, 6) == FragmentField(h, u.reservedBit)
            && w[8] == h.ttl && w[9] == h.protocol && Be16(w, 10) == h.checksum
            && Be32(w, 12) == h.source && Be32(w, 16) == h.destination
  {
    var w := Ipv4Bytes(h, u) + rest;
    Field16(w, 2, h.totalLength);
    Field16(w, 4, h.identification);
    Field16(w, 6, FragmentField(h, u.reservedBit));
    Field16(w, 10, h.checksum);
    Field32(w, 12, h.source);
    Field32(w, 16, h.destination);
  }

  lemma FlagBits(h: Ipv4Header, reservedBit: bool)
    requires h.fragmentOffset < 0x2000
    ensures var f := FragmentField(h, reservedBit);
            (f / 0x4000 % 2 == 1) == h.dontFragment && (f / 0x2000 % 2 == 1) == h.moreFragments
              && f % 0x2000 == h.fragmentOffset
  {
  }

  lemma Ipv4Encode(h: Ipv4Header, u: Unread, rest: seq<U8>, base: nat)
    requires Ipv4Fits(h, u, base, h.headerLength + |rest|)
    ensures Ipv4Of(Ipv4Bytes(h, u) + rest, base) == Parsed(h)
  {
    Ipv4Fields(h, u, rest);
    FlagBits(h, u.reservedBit);
  }

  lemma FragmentBits(f: U16)
    ensures f == f / 0x8000 * 0x8000 + f / 0x4000 % 2 * 0x4000 + f / 0x2000 % 2 * 0x2000 + f % 0x2000
  {
  }

  lemma FragmentDecodes(h: Ipv4Header, f: U16, reservedBit: bool)
    requires h.dontFragment == (f / 0x4000 % 2 == 1) && h.moreFragments == (f / 0x2000 % 2 == 1)
    requires h.fragmentOffset == f % 0x2000 && reservedBit == (f >= 0x8000)
    ensures FragmentField(h, reservedBit) == f
  {
    FragmentBits(f);
  }

  lemma VersionBits(b: U8)
    requires b / 16 == 4
    ensures 0x40 + b as int % 16 * 4 / 4 == b
  {
  }

  lemma Ipv4Decode(w: seq<U8>, base: nat)
    requires Ipv4Of(w, base).Parsed?
    ensures var h, u := Ipv4Of(w, base).header, UnreadIpv4(w);
            Ipv4Fits(h, u, base, |w|) && Ipv4Bytes(h, u) == w[..h.headerLength]
  {
    var h, u := Ipv4Of(w, base).header, UnreadIpv4(w);
    Ipv4DecodeFits(w, base, h, u);
    FragmentDecodes(h, Be16(w, 6), u.reservedBit);
    VersionBits(w[0]);
    Ipv4DecodeBytes(w, base);
  }

  lemma Ipv4DecodeFits(w: seq<U8>, base: nat, h: Ipv4Header, u: Unread)
    requires Ipv4Of(w, base) == Parsed(h) && u == UnreadIpv4(w)
    ensures Ipv4Fits(h, u, base, |w|) && (u.reservedBit <==> Be16(w, 6) >= 0x8000)
  {
  }

  lemma Ipv4DecodeBytes(w: seq<U8>, base: nat)
    requires Ipv4Of(w, base).Parsed?
    requires var h, u := Ipv4Of(w, base).header, UnreadIpv4(w);
             h.fragmentOffset < 0x2000 && h.headerLength < 64 && FragmentField(h, u.reservedBit) == Be16(w, 6)
             && 0x40 + h.headerLength / 4 == w[0]
    ensures var h, u := Ipv4Of(w, base).header, UnreadIpv4(w);
            Ipv4Bytes(h, u) == w[..h.headerLength]
  {
    Split16(w, 2);
    Split16(w, 4);
    Split16(w, 6);
    Split16(w, 10);
    Split32(w, 12);
    Split32(w, 16);
    Ipv4Pieces(w, Ipv4Of(w, base).header.headerLength);
  }

  lemma Ipv4Pieces(w: seq<U8>, n: nat)
    requires IPV4_MIN_HEADER_LENGTH <= n <= |w|
    ensures [w[0], w[1]] + w[2..4] + w[4..6] + w[6..8] + [w[8], w[9]] + w[10..12] + w[12..16] + w[16..20] + w[20..n]
         == w[..n]
  {
  }

  /** The bits a parse of the segment `w` skips. */
  function UnreadTcp(w: seq<U8>): Unread
    requires |w| >= TCP_MIN_HEADER_LENGTH
  {
    var header := w[12] as int / 16 * 4;
    var options := if TCP_MIN_HEADER_LENGTH <= header <= |w| then w[TCP_MIN_HEADER_LENGTH..header] else [];
    Unread(0, false, [], w[12] as int / 2 % 8, options)
  }

  lemma Field16(w: seq<U8>, o: nat, x: U16)
    requires o + 2 <= |w| && w[o..o + 2] == Bytes16(x)
    ensures Be16(w, o) == x
  {
    assert Be16(w, o) == Be16(w[o..o + 2], 0);
  }

  lemma Field32(w: seq<U8>, o: nat, x: U32)
    requires o + 4 <= |w| && w[o..o + 4] == Bytes32(x)
    ensures Be32(w, o) == x
  {
    assert Be32(w, o) == Be32(w[o..o + 4], 0);
  }

  lemma TcpFields(h: TcpHeader, u: Unread, rest: seq<U8>)
    requires h.headerLength < 64 && u.tcpReserved < 8 && h.flags < 0x200
    ensures var w := TcpBytes(h, u) + rest;
            && Be16(w, 0) == h.sourcePort && Be16(w, 2) == h.destinationPort
            && Be32(w, 4) == h.sequence && Be32(w, 8) == h.acknowledgment
            && w[12] == h.headerLength / 4 * 0x10 + u.tcpReserved * 2 + h.flags / 0x100 && w[13] == h.flags % 0x100
            && Be16(w, 14) == h.window && Be16(w, 16) == h.checksum && Be16(w, 18) == h.urgent
  {
    var w := TcpBytes(h, u) + rest;
    Field16(w, 0, h.sourcePort);
    Field16(w, 2, h.destinationPort);
    Field32(w, 4, h.sequence);
    Field32(w, 8, h.acknowledgment);
    Field16(w, 14, h.window);
    Field16(w, 16, h.checksum);
    Field16(w, 18, h.urgent);
  }

  /** Byte 12 holds the header length in words, three reserved bits and one flag. */
  lemma OffsetBits(length: nat, reserved: nat, flags: nat)
    requires length < 64 && length % 4 == 0 && reserved < 8 && flags < 0x200
    ensures var b := length / 4 * 0x10 + reserved * 2 + flags / 0x100;
            b / 16 * 4 == length && b % 2 * 0x100 + flags % 0x100 == flags
  {
    var b := length / 4 * 0x10 + reserved * 2 + flags / 0x100;
    assert b / 16 == length / 4 && b % 2 == flags / 0x100;
  }

  lemma OffsetByte(b: U8, low: U8)
    ensures var length, flags := b as int / 16 * 4, b as int % 2 * 0x100 + low;
            && b == length / 4 * 0x10 + b as int / 2 % 8 * 2 + flags / 0x100
            && flags % 0x100 == low && length < 64 && flags < 0x200
  {
    var length, flags := b as int / 16 * 4, b as int % 2 * 0x100 + low;
    assert flags / 0x100 == b % 2 && length / 4 == b / 16;
  }

  lemma TcpEncode(h: TcpHeader, u: Unread, rest: seq<U8>, ip: Ipv4Header)
    requires TcpFits(h, u, ip, h.headerLength + |rest|)
    ensures TcpOf(TcpBytes(h, u) + rest, ip) == Parsed(h)
  {
    TcpFields(h, u, rest);
    OffsetBits(h.headerLength, u.tcpReserved, h.flags);
    TcpFromFields(TcpBytes(h, u) + rest, h, u, ip);
  }

  lemma TcpFromFields(w: seq<U8>, h: TcpHeader, u: Unread, ip: Ipv4Header)
    requires TcpFits(h, u, ip, |w|) && h.headerLength <= TCP_MAX_HEADER_LENGTH
    requires Be16(w, 0) == h.sourcePort && Be16(w, 2) == h.destinationPort
    requires Be32(w, 4) == h.sequence && Be32(w, 8) == h.acknowledgment
    requires w[12] as int / 16 * 4 == h.headerLength && w[12] as int % 2 * 0x100 + w[13] == h.flags
    requires Be16(w, 14) == h.window && Be16(w, 16) == h.checksum && Be16(w, 18) == h.urgent
    ensures TcpOf(w, ip) == Parsed(h)
  {
  }

  lemma TcpDecode(w: seq<U8>, ip: Ipv4Header)
    requires TcpOf(w, ip).Parsed?
    ensures var h, u := TcpOf(w, ip).header, UnreadTcp(w);
            TcpFits(h, u, ip, |w|) && TcpBytes(h, u) == w[..h.headerLength]
  {
    TcpDecodeFits(w, ip, TcpOf(w, ip).header, UnreadTcp(w));
    TcpDecodeBytes(w, ip, TcpOf(w, ip).header, UnreadTcp(w));
  }

  lemma TcpDecodeFits(w: seq<U8>, ip: Ipv4Header, h: TcpHeader, u: Unread)
    requires TcpOf(w, ip) == Parsed(h) && u == UnreadTcp(w)
    ensures TcpFits(h, u, ip, |w|) && h.headerLength < 64 && u.tcpReserved < 8
    ensures h.headerLength / 4 * 16 + u.tcpReserved * 2 + h.flags / 0x100 == w[12] && h.flags % 0x100 == w[13]
  {
    OffsetByte(w[12], w[13]);
  }

  lemma TcpDecodeBytes(w: seq<U8>, ip: Ipv4Header, h: TcpHeader, u: Unread)
    requires TcpOf(w, ip) == Parsed(h) && u == UnreadTcp(w)
    requires h.headerLength < 64 && u.tcpReserved < 8 && h.flags < 0x200
    requires h.headerLength / 4 * 16 + u.tcpReserved * 2 + h.flags / 0x100 == w[12] && h.flags % 0x100 == w[13]
    ensures TcpBytes(h, u) == w[..h.headerLength]
  {
    Split16(w, 0);
    Split16(w, 2);
    Split32(w, 4);
    Split32(w, 8);
    Split16(w, 14);
    Split16(w, 16);
    Split16(w, 18);
    TcpPieces(w, h.headerLength);
  }

  lemma TcpPieces(w: seq<U8>, n: nat)
    requires TCP_MIN_HEADER_LENGTH <= n <= |w|
    ensures w[0..2] + w[2..4] + w[4..8] + w[8..12] + [w[12], w[13]] + w[14..16] + w[16..18] + w[18..20] + w[20..n]
         == w[..n]
  {
  }

  lemma UdpEncode(h: UdpHeader, rest: seq<U8>, ip: Ipv4Header)
    requires UdpFits(h, ip, UDP_HEADER_LENGTH + |rest|)
    ensures UdpOf(UdpBytes(h) + rest, ip) == Parsed(h)
  {
  }

  lemma UdpDecode(w: seq<U8>, ip: Ipv4Header)
    requires UdpOf(w, ip).Parsed?
    ensures var h := UdpOf(w, ip).header;
            UdpFits(h, ip, |w|) && UdpBytes(h) == w[..UDP_HEADER_LENGTH]
  {
    Split16(w, 0);
    Split16(w, 2);
    Split16(w, 4);
    Split16(w, 6);
  }

  lemma IcmpEncode(h: IcmpHeader, rest: seq<U8>, ip: Ipv4Header)
    requires IcmpFits(h, ip, ICMP_HEADER_LENGTH + |rest|)
    ensures IcmpOf(IcmpBytes(h) + rest, ip) == Parsed(h)
  {
    var w := IcmpBytes(h) + rest;
    assert w[0] == h.icmpType && w[1] == h.code && Be16(w, 2) == h.checksum;
    if IsEcho(h.icmpType) {
      assert Be16(w, 4) == h.identifier && Be16(w, 6) == h.sequence;
    } else {
      assert w[4..8] == Bytes32(h.restOfHeader);
      assert Be32(w[4..8], 0) == Be32(w, 4);
    }
  }

  lemma IcmpDecode(w: seq<U8>, ip: Ipv4Header)
    requires IcmpOf(w, ip).Parsed?
    ensures var h := IcmpOf(w, ip).header;
            IcmpFits(h, ip, |w|) && IcmpBytes(h) == w[..ICMP_HEADER_LENGTH]
  {
    Split16(w, 2);
    Split32(w, 4);
    Split16(w, 4);
    Split16(w, 6);
  }

  // ----- whole frames ---------------------------------------------------------------------------

  predicate UpperFits(u: Upper, x: Unread, ip: Ipv4Header, captured: nat) {
    match u
    case Tcp(h) => ip.protocol == PROTOCOL_TCP && TcpFits(h, x, ip, captured)
    case Udp(h) => ip.protocol == PROTOCOL_UDP && UdpFits(h, ip, captured)
    case Icmp(h) => ip.protocol == PROTOCOL_ICMP && IcmpFits(h, ip, captured)
    case NoUpper(_, _, _, _) => false
  }

  function UpperBytes(u: Upper, x: Unread): seq<U8>
    requires u.Tcp? ==> u.tcp.headerLength < 64 && x.tcpReserved < 8 && u.tcp.flags < 0x200
  {
    match u
    case Tcp(h) => TcpBytes(h, x)
    case Udp(h) => UdpBytes(h)
    case Icmp(h) => IcmpBytes(h)
    case NoUpper(_, _, _, _) => []
  }

  lemma UpperEncode(u: Upper, x: Unread, rest: seq<U8>, ip: Ipv4Header, captured: nat)
    requires UpperFits(u, x, ip, captured) && captured == |UpperBytes(u, x)| + |rest|
    ensures UpperOf(UpperBytes(u, x) + rest, ip) == u
  {
    match u
    case Tcp(h) => TcpEncode(h, x, rest, ip);
    case Udp(h) => UdpEncode(h, rest, ip);
    case Icmp(h) => IcmpEncode(h, rest, ip);
  }

  /** A frame on the wire, padding included. */
  function FrameBytes(eth: EthernetHeader, ip: Ipv4Header, u: Upper, x: Unread, payload: seq<U8>,
                      padding: seq<U8>): seq<U8>
    requires ip.fragmentOffset < 0x2000 && ip.headerLength < 64
    requires u.Tcp? ==> u.tcp.headerLength < 64 && x.tcpReserved < 8 && u.tcp.flags < 0x200
  {
    EthernetBytes(eth) + (Ipv4Bytes(ip, x) + (UpperBytes(u, x) + payload + padding))
  }

  /** These headers, this payload and this padding make one frame. */
  predicate FrameFits(eth: EthernetHeader, ip: Ipv4Header, u: Upper, x: Unread, payload: seq<U8>, padding: seq<U8>) {
    && |eth.destinationMac| == |eth.sourceMac| == 6 && eth.etherType == ETHERNET_TYPE_IPV4
    && eth.payloadOffset == ETHERNET_HEADER_LENGTH
    && eth.payloadLength == ip.headerLength + ip.payloadLength + |padding|
    && Ipv4Fits(ip, x, ETHERNET_HEADER_LENGTH, eth.payloadLength)
    && UpperFits(u, x, ip, ip.payloadLength) && |UpperBytes(u, x)| + |payload| == ip.payloadLength
  }

  lemma Between(a: seq<U8>, b: seq<U8>, c: seq<U8>, d: seq<U8>)
    ensures (a + (b + (c + d)))[|a|..] == b + (c + d)
    ensures (a + (b + (c + d)))[|a| + |b|..|a| + |b| + |c|] == c
  {
  }

  lemma Ipv4OfFrameBytes(eth: EthernetHeader, ip: Ipv4Header, u: Upper, x: Unread, payload: seq<U8>, padding: seq<U8>)
    requires FrameFits(eth, ip, u, x, payload, padding)
    ensures var f := FrameBytes(eth, ip, u, x, payload, padding);
            && |f| >= ETHERNET_HEADER_LENGTH && Be16(f, 12) == ETHERNET_TYPE_IPV4
            && Ipv4Of(f[ETHERNET_HEADER_LENGTH..], ETHERNET_HEADER_LENGTH) == Parsed(ip)
            && ip.payloadOffset + ip.payloadLength <= |f|
            && f[ip.payloadOffset..ip.payloadOffset + ip.payloadLength] == UpperBytes(u, x) + payload
  {
    var segment := UpperBytes(u, x) + payload;
    Between(EthernetBytes(eth), Ipv4Bytes(ip, x), segment, padding);
    Ipv4Encode(ip, x, segment + padding, ETHERNET_HEADER_LENGTH);
    assert Be16(FrameBytes(eth, ip, u, x, payload, padding), 12) == Be16(Bytes16(eth.etherType), 0);
  }

  lemma CarriedBy(f: seq<U8>, ip: Ipv4Header, u: Upper)
    requires |f| >= ETHERNET_HEADER_LENGTH && Be16(f, 12) == ETHERNET_TYPE_IPV4
    requires Ipv4Of(f[ETHERNET_HEADER_LENGTH..], ETHERNET_HEADER_LENGTH) == Parsed(ip)
    requires ip.payloadOffset + ip.payloadLength <= |f|
    requires UpperOf(f[ip.payloadOffset..ip.payloadOffset + ip.payloadLength], ip) == u
    ensures NetworkOf(f) == Carried(ip, u)
  {
  }

  lemma NetworkOfFrameBytes(eth: EthernetHeader, ip: Ipv4Header, u: Upper, x: Unread, payload: seq<U8>,
                            padding: seq<U8>)
    requires FrameFits(eth, ip, u, x, payload, padding)
    ensures NetworkOf(FrameBytes(eth, ip, u, x, payload, padding)) == Carried(ip, u)
  {
    Ipv4OfFrameBytes(eth, ip, u, x, payload, padding);
    UpperEncode(u, x, payload, ip, ip.payloadLength);
    CarriedBy(FrameBytes(eth, ip, u, x, payload, padding), ip, u);
  }

  /** Parsing undoes encoding: every consistent choice of headers, payload and
      padding comes back complete, field by field. */
  lemma ParseOfFrameBytes(eth: EthernetHeader, ip: Ipv4Header, u: Upper, x: Unread, payload: seq<U8>, padding: seq<U8>,
                          blank: PacketInfo)
    requires FrameFits(eth, ip, u, x, payload, padding)
    ensures Parse(FrameBytes(eth, ip, u, x, payload, padding), blank)
         == WithUpper(blank.(ethernet := Some(eth), ipv4 := Some(ip)), u)
  {
    EthernetEncode(eth, Ipv4Bytes(ip, x) + (UpperBytes(u, x) + payload + padding));
    NetworkOfFrameBytes(eth, ip, u, x, payload, padding);
  }

  /** `w` starts with the encoding of the upper layer parsed from it. */
  predicate UpperEncoded(w: seq<U8>, ip: Ipv4Header, u: Upper) {
    match u
    case Tcp(h) => |w| >= TCP_MIN_HEADER_LENGTH && TcpFits(h, UnreadTcp(w), ip, |w|)
                   && TcpBytes(h, UnreadTcp(w)) == w[..h.headerLength]
    case Udp(h) => UdpFits(h, ip, |w|) && UdpBytes(h) == w[..UDP_HEADER_LENGTH]
    case Icmp(h) => IcmpFits(h, ip, |w|) && IcmpBytes(h) == w[..ICMP_HEADER_LENGTH]
    case NoUpper(_, _, _, _) => true
  }

  lemma UpperDecode(w: seq<U8>, ip: Ipv4Header)
    ensures UpperEncoded(w, ip, UpperOf(w, ip))
  {
    match UpperOf(w, ip)
    case Tcp(h) => TcpDecode(w, ip);
    case Udp(h) => UdpDecode(w, ip);
    case Icmp(h) => IcmpDecode(w, ip);
    case NoUpper(_, _, _, _) =>
  }

  /** And encoding undoes parsing: the headers of an IPv4 frame are the encodings
      of what was parsed, with the bits the parsers read past. */
  lemma HeadersOfParsedFrame(f: seq<U8>)
    requires EthernetOf(f).Parsed? && NetworkOf(f).Carried?
    ensures var ip, w := NetworkOf(f).ip, f[ETHERNET_HEADER_LENGTH..];
            && EthernetBytes(EthernetOf(f).header) == f[..ETHERNET_HEADER_LENGTH]
            && Ipv4Fits(ip, UnreadIpv4(w), ETHERNET_HEADER_LENGTH, |w|)
            && Ipv4Bytes(ip, UnreadIpv4(w)) == w[..ip.headerLength]
  {
    EthernetDecode(f);
    Ipv4Decode(f[ETHERNET_HEADER_LENGTH..], ETHERNET_HEADER_LENGTH);
  }

  lemma UpperOfParsedFrame(f: seq<U8>)
    requires |f| >= ETHERNET_HEADER_LENGTH && NetworkOf(f).Carried?
    ensures var ip := NetworkOf(f).ip;
            UpperEncoded(f[ip.payloadOffset..ip.payloadOffset + ip.payloadLength], ip, NetworkOf(f).upper)
  {
    var ip := NetworkOf(f).ip;
    UpperDecode(f[ip.payloadOffset..ip.payloadOffset + ip.payloadLength], ip);
  }
}
