/** How a captured frame ends, read off its bytes without any parser: the Ethernet
    type in bytes 12 and 13, the IPv4 header from byte 14 on, and behind it TCP,
    UDP or ICMP. */
module RawFrames {
  import opened Machine
  import opened Timestamps
  import opened PacketInfo
  import opened ByteReader
  import opened FrameFormat
  import opened FlowKey

  /** Two bytes, most significant first. */
  function Word(f: seq<U8>, i: nat): nat
    requires i + 2 <= |f|
  {
    256 * f[i] as int + f[i + 1]
  }

  predicate CarriesIpv4(f: seq<U8>) {
    |f| >= 14 && f[12] == 8 && f[13] == 0
  }

  /** The IPv4 header length in bytes. */
  function Ihl(f: seq<U8>): nat
    requires |f| >= 34
  {
    4 * (f[14] as int % 16)
  }

  /** Version 4, at least five words of header, and a total length that covers them. */
  predicate SaneIpv4(f: seq<U8>) {
    |f| >= 34 && f[14] / 16 == 4 && Ihl(f) >= 20 && Word(f, 16) >= Ihl(f)
  }

  /** The whole IPv4 header was captured. */
  predicate HasIpv4(f: seq<U8>) {
    CarriesIpv4(f) && SaneIpv4(f) && |f| >= 14 + Ihl(f)
  }

  /** Another fragment follows, or this is not the first one. */
  predicate IsPiece(f: seq<U8>)
    requires |f| >= 34
  {
    f[20] / 32 % 2 == 1 || f[20] % 32 != 0 || f[21] != 0
  }

  /** How long the datagram says its payload is. */
  function Promised(f: seq<U8>): nat
    requires SaneIpv4(f)
  {
    Word(f, 16) - Ihl(f)
  }

  /** How much of it was captured. */
  function Available(f: seq<U8>): nat
    requires HasIpv4(f)
  {
    (if Word(f, 16) < |f| - 14 then Word(f, 16) else |f| - 14) - Ihl(f)
  }

  /** The TCP header length in bytes. */
  function DataOffset(f: seq<U8>): nat
    requires HasIpv4(f) && Available(f) >= 20
  {
    4 * (f[14 + Ihl(f) + 12] as int / 16)
  }

  predicate BadTcp(f: seq<U8>)
    requires HasIpv4(f)
  {
    Promised(f) < 20 || (Available(f) >= 20 && (DataOffset(f) < 20 || DataOffset(f) > Promised(f)))
  }

  predicate ShortTcp(f: seq<U8>)
    requires HasIpv4(f)
  {
    !BadTcp(f) && (Available(f) < 20 || Available(f) < DataOffset(f))
  }

  predicate BadUdp(f: seq<U8>)
    requires HasIpv4(f)
  {
    Promised(f) < 8 || (Available(f) >= 8 && Word(f, 14 + Ihl(f) + 4) != Promised(f))
  }

  predicate ShortUdp(f: seq<U8>)
    requires HasIpv4(f)
  {
    Promised(f) >= 8 && Available(f) < 8
  }

  /** No fragment, and the header behind IPv4 is wrong. */
  predicate BadUpper(f: seq<U8>) {
    && HasIpv4(f) && !IsPiece(f)
    && match f[23]
       case 6 => BadTcp(f)
       case 17 => BadUdp(f)
       case 1 => Promised(f) < 8
       case _ => false
  }

  predicate ShortUpper(f: seq<U8>) {
    && HasIpv4(f) && !IsPiece(f)
    && match f[23]
       case 6 => ShortTcp(f)
       case 17 => ShortUdp(f)
       case 1 => Promised(f) >= 8 && Available(f) < 8
       case _ => false
  }

  predicate KnownProtocol(f: seq<U8>)
    requires |f| >= 34
  {
    f[23] == 6 || f[23] == 17 || f[23] == 1
  }

  /** `ip` is the IPv4 header of frame `f` as far as the layers above it care. */
  predicate Describes(ip: Ipv4Header, f: seq<U8>) {
    && HasIpv4(f) && ip.payloadOffset == 14 + Ihl(f) && ip.payloadLength == Available(f)
    && Declared(ip) == Promised(f) && (IsFragment(ip) <==> IsPiece(f)) && ip.protocol == f[23]
  }

  lemma TcpVerdict(w: seq<U8>, ip: Ipv4Header)
    requires !IsFragment(ip)
    ensures match TcpOf(w, ip)
            case Parsed(_) => Declared(ip) >= 20 && |w| >= 20 && 20 <= 4 * (w[12] as int / 16) <= Declared(ip)
                              && |w| >= 4 * (w[12] as int / 16)
            case Bad(status, code, _) =>
              if Declared(ip) < 20 || (|w| >= 20 && !(20 <= 4 * (w[12] as int / 16) <= Declared(ip)))
              then status == MALFORMED && code == EBADMSG else status == TRUNCATED && code == ENODATA
  {
  }

  lemma UdpVerdict(w: seq<U8>, ip: Ipv4Header)
    requires !IsFragment(ip)
    ensures match UdpOf(w, ip)
            case Parsed(_) => Declared(ip) >= 8 && |w| >= 8 && Word(w, 4) == Declared(ip)
            case Bad(status, code, _) =>
              if Declared(ip) < 8 || (|w| >= 8 && Word(w, 4) != Declared(ip))
              then status == MALFORMED && code == EBADMSG else status == TRUNCATED && code == ENODATA
  {
  }

  lemma IcmpVerdict(w: seq<U8>, ip: Ipv4Header)
    requires !IsFragment(ip)
    ensures match IcmpOf(w, ip)
            case Parsed(_) => Declared(ip) >= 8 && |w| >= 8
            case Bad(status, code, _) =>
              if Declared(ip) < 8 then status == MALFORMED && code == EBADMSG
              else status == TRUNCATED && code == ENODATA
  {
  }

  lemma FragmentVerdict(w: seq<U8>, ip: Ipv4Header)
    requires IsFragment(ip)
    ensures TcpOf(w, ip).Bad? && TcpOf(w, ip).status == UNSUPPORTED && TcpOf(w, ip).code == ENOTSUP
    ensures UdpOf(w, ip).Bad? && UdpOf(w, ip).status == UNSUPPORTED && UdpOf(w, ip).code == ENOTSUP
    ensures IcmpOf(w, ip).Bad? && IcmpOf(w, ip).status == UNSUPPORTED && IcmpOf(w, ip).code == ENOTSUP
  {
  }

  /** The IPv4 header in terms of the frame's bytes. */
  lemma Ipv4Verdict(f: seq<U8>)
    requires CarriesIpv4(f)
    ensures match Ipv4Of(f[14..], 14)
            case Parsed(ip) => Describes(ip, f)
            case Bad(status, code, _) =>
              if |f| >= 34 && !SaneIpv4(f) then status == MALFORMED && code == EBADMSG
              else !HasIpv4(f) && status == TRUNCATED && code == ENODATA
  {
    if |f| >= 34 {
      HeaderByte(f, 0);
      HeaderByte(f, 2);
      HeaderByte(f, 6);
      HeaderByte(f, 9);
      FragmentBits(f[20], f[21]);
    }
  }

  lemma HeaderByte(f: seq<U8>, i: nat)
    requires |f| >= 34 && i < 19
    ensures f[14..][i] == f[14 + i] && f[14..][i + 1] == f[14 + i + 1]
  {
  }

  lemma FragmentBits(high: U8, low: U8)
    ensures var field := high as int * 0x100 + low;
            && (field / 0x2000 % 2 == 1 <==> high / 32 % 2 == 1)
            && (field % 0x2000 != 0 <==> high % 32 != 0 || low != 0)
  {
    var field := high as int * 0x100 + low;
    assert field / 0x2000 == high / 32;
    assert field % 0x2000 == high as int % 32 * 0x100 + low;
  }

  lemma PayloadByte(f: seq<U8>, at: nat, n: nat, i: nat)
    requires at + n <= |f| && i < n
    ensures f[at..at + n][i] == f[at + i]
  {
  }

  lemma TcpEnds(f: seq<U8>, ip: Ipv4Header, w: seq<U8>)
    requires Describes(ip, f) && !IsPiece(f) && w == f[14 + Ihl(f)..14 + Ihl(f) + Available(f)]
    ensures match TcpOf(w, ip)
            case Parsed(_) => !BadTcp(f) && !ShortTcp(f)
            case Bad(status, code, _) =>
              if BadTcp(f) then status == MALFORMED && code == EBADMSG
              else ShortTcp(f) && status == TRUNCATED && code == ENODATA
  {
    TcpVerdict(w, ip);
    if Available(f) >= 20 {
      PayloadByte(f, 14 + Ihl(f), Available(f), 12);
    }
  }

  lemma UdpEnds(f: seq<U8>, ip: Ipv4Header, w: seq<U8>)
    requires Describes(ip, f) && !IsPiece(f) && w == f[14 + Ihl(f)..14 + Ihl(f) + Available(f)]
    ensures match UdpOf(w, ip)
            case Parsed(_) => !BadUdp(f) && !ShortUdp(f)
            case Bad(status, code, _) =>
              if BadUdp(f) then status == MALFORMED && code == EBADMSG
              else ShortUdp(f) && status == TRUNCATED && code == ENODATA
  {
    UdpVerdict(w, ip);
    if Available(f) >= 8 {
      PayloadByte(f, 14 + Ihl(f), Available(f), 4);
      PayloadByte(f, 14 + Ihl(f), Available(f), 5);
    }
  }

  lemma UpperEnds(f: seq<U8>, ip: Ipv4Header, w: seq<U8>)
    requires Describes(ip, f) && w == f[14 + Ihl(f)..14 + Ihl(f) + Available(f)]
    ensures match UpperOf(w, ip)
            case NoUpper(_, status, code, _) =>
              if !KnownProtocol(f) || IsPiece(f) then status == UNSUPPORTED && code == ENOTSUP
              else if BadUpper(f) then status == MALFORMED && code == EBADMSG
              else ShortUpper(f) && status == TRUNCATED && code == ENODATA
            case _ => KnownProtocol(f) && !IsPiece(f) && !BadUpper(f) && !ShortUpper(f)
  {
    if IsPiece(f) {
      FragmentVerdict(w, ip);
    } else {
      TcpEnds(f, ip, w);
      UdpEnds(f, ip, w);
      IcmpVerdict(w, ip);
    }
  }

  lemma NetworkEnds(f: seq<U8>)
    requires |f| >= 14
    ensures match NetworkOf(f)
            case NotIpv4 => !CarriesIpv4(f)
            case NoIpv4(status, code, _) =>
              && CarriesIpv4(f)
              && if |f| >= 34 && !SaneIpv4(f) then status == MALFORMED && code == EBADMSG
                 else !HasIpv4(f) && status == TRUNCATED && code == ENODATA
            case Carried(ip, upper) =>
              && Describes(ip, f)
              && upper == UpperOf(f[14 + Ihl(f)..14 + Ihl(f) + Available(f)], ip)
  {
    if CarriesIpv4(f) {
      Ipv4Verdict(f);
    }
  }

  /** The frame was captured whole up to the header that ends its parse. */
  predicate Complete(f: seq<U8>) {
    HasIpv4(f) && KnownProtocol(f) && !IsPiece(f) && !BadUpper(f) && !ShortUpper(f)
  }

  /** Every frame ends with exactly the status and errno that its bytes deserve. */
  lemma StatusOfBytes(f: seq<U8>, time: Time, wire: U32)
    requires |f| <= U32_MAX
    ensures var p := Parse(f, Blank(time, |f|, wire));
            && (p.status == COMPLETE <==> Complete(f))
            && (p.status == TRUNCATED <==> || |f| < 14 || ShortUpper(f)
                                           || (CarriesIpv4(f) && !HasIpv4(f) && (|f| < 34 || SaneIpv4(f))))
            && (p.status == MALFORMED <==> (CarriesIpv4(f) && |f| >= 34 && !SaneIpv4(f)) || BadUpper(f))
            && (p.status == UNSUPPORTED <==> HasIpv4(f) && (!KnownProtocol(f) || IsPiece(f)))
            && (p.status == NOT_STARTED <==> |f| >= 14 && !CarriesIpv4(f))
    ensures var p := Parse(f, Blank(time, |f|, wire));
            p.errorCode == match p.status
                           case TRUNCATED => ENODATA
                           case MALFORMED => EBADMSG
                           case UNSUPPORTED => ENOTSUP
                           case _ => OK
  {
    if |f| >= 14 {
      NetworkEnds(f);
      var network := NetworkOf(f);
      if network.Carried? {
        UpperEnds(f, network.ip, f[14 + Ihl(f)..14 + Ihl(f) + Available(f)]);
      }
    }
  }

  // ----- where a failure lies ---------------------------------------------------------------------

  /** The layer at which the parse of a frame that is not complete gives up. */
  function FaultLayer(f: seq<U8>): ParseLayer {
    if |f| < 14 then LAYER_ETHERNET
    else if !HasIpv4(f) || !KnownProtocol(f) then LAYER_IPV4
    else if f[23] == 6 then LAYER_TCP
    else if f[23] == 17 then LAYER_UDP
    else LAYER_ICMP
  }

  /** The byte it blames: the wrong field, or the end of what was captured. */
  function FaultOffset(f: seq<U8>): nat {
    if |f| < 34 then |f|
    else if f[14] / 16 != 4 || f[14] % 16 < 5 then 14
    else if Word(f, 16) < Ihl(f) then 16
    else if |f| < 14 + Ihl(f) then |f|
    else if !KnownProtocol(f) || IsPiece(f) || Promised(f) < (if f[23] == 6 then 20 else 8) then 14 + Ihl(f)
    else if ShortUpper(f) then 14 + Ihl(f) + Available(f)
    else 14 + Ihl(f) + if f[23] == 6 then 12 else 4
  }

  lemma Ipv4Fault(f: seq<U8>)
    requires CarriesIpv4(f) && !HasIpv4(f)
    ensures Ipv4Of(f[14..], 14).Bad? && Ipv4Of(f[14..], 14).offset == FaultOffset(f)
  {
    if |f| >= 34 {
      HeaderByte(f, 0);
      HeaderByte(f, 2);
    }
  }

  lemma TcpFault(f: seq<U8>, ip: Ipv4Header, w: seq<U8>)
    requires Describes(ip, f) && f[23] == 6 && w == f[14 + Ihl(f)..14 + Ihl(f) + Available(f)]
    ensures TcpOf(w, ip).Bad? ==> TcpOf(w, ip).offset == FaultOffset(f)
  {
    if !IsPiece(f) {
      TcpEnds(f, ip, w);
      TcpVerdict(w, ip);
      if Available(f) >= 20 {
        PayloadByte(f, 14 + Ihl(f), Available(f), 12);
      }
    }
  }

  lemma UdpFault(f: seq<U8>, ip: Ipv4Header, w: seq<U8>)
    requires Describes(ip, f) && f[23] == 17 && w == f[14 + Ihl(f)..14 + Ihl(f) + Available(f)]
    ensures UdpOf(w, ip).Bad? ==> UdpOf(w, ip).offset == FaultOffset(f)
  {
    if !IsPiece(f) {
      UdpEnds(f, ip, w);
    }
  }

  lemma UpperFault(f: seq<U8>, ip: Ipv4Header, w: seq<U8>)
    requires Describes(ip, f) && w == f[14 + Ihl(f)..14 + Ihl(f) + Available(f)]
    ensures var upper := UpperOf(w, ip);
            upper.NoUpper? ==> upper.layer == FaultLayer(f) && upper.offset == FaultOffset(f)
  {
    if f[23] == 6 {
      TcpFault(f, ip, w);
    } else if f[23] == 17 {
      UdpFault(f, ip, w);
    } else if f[23] == 1 && !IsPiece(f) {
      IcmpVerdict(w, ip);
    }
  }

  /** A failure names the layer whose bytes are at fault and the byte. */
  lemma FaultOfBytes(f: seq<U8>, time: Time, wire: U32)
    requires |f| <= U32_MAX
    ensures var p := Parse(f, Blank(time, |f|, wire));
            if p.status in {TRUNCATED, MALFORMED, UNSUPPORTED}
            then p.errorLayer == FaultLayer(f) && p.errorOffset == FaultOffset(f) <= |f|
            else p.errorLayer == LAYER_NONE && p.errorOffset == 0
  {
    if |f| >= 14 {
      NetworkEnds(f);
      var network := NetworkOf(f);
      if network.Carried? {
        UpperFault(f, network.ip, f[14 + Ihl(f)..14 + Ihl(f) + Available(f)]);
      } else if network.NoIpv4? {
        Ipv4Fault(f);
      }
    }
  }

  // ----- whose packet it is -----------------------------------------------------------------------

  /** An IPv4 address, most significant byte first. */
  function Address(f: seq<U8>, i: nat): nat
    requires i + 4 <= |f|
  {
    256 * (256 * (256 * f[i] as int + f[i + 1]) + f[i + 2]) + f[i + 3]
  }

  /** Source and destination ports; ICMP has none. */
  function PortAt(f: seq<U8>, source: bool): nat
    requires Complete(f)
  {
    if f[23] == 1 then 0 else Word(f, 14 + Ihl(f) + if source then 0 else 2)
  }

  /** The nine TCP flags. */
  function FlagsAt(f: seq<U8>): nat
    requires Complete(f) && f[23] == 6
  {
    256 * (f[14 + Ihl(f) + 12] as int % 2) + f[14 + Ihl(f) + 13]
  }

  lemma AddressesOfBytes(f: seq<U8>)
    requires HasIpv4(f)
    ensures var h := Ipv4Of(f[14..], 14);
            && h.Parsed? && h.header.source == Address(f, 26) && h.header.destination == Address(f, 30)
            && h.header.protocol == f[23]
  {
    Ipv4Verdict(f);
    HeaderByte(f, 12);
    HeaderByte(f, 14);
    HeaderByte(f, 16);
    HeaderByte(f, 18);
    HeaderByte(f, 9);
  }

  // ----- every header field -----------------------------------------------------------------------

  /** RFC 791 section 3.1, from byte 14. */
  predicate IsIpv4At(h: Ipv4Header, f: seq<U8>)
    requires HasIpv4(f)
  {
    && h.headerLength == Ihl(f) && h.totalLength == Word(f, 16) && h.identification == Word(f, 18)
    && (h.dontFragment <==> f[20] / 64 % 2 == 1) && (h.moreFragments <==> f[20] / 32 % 2 == 1)
    && h.fragmentOffset == 256 * (f[20] as int % 32) + f[21]
    && h.ttl == f[22] && h.protocol == f[23] && h.checksum == Word(f, 24)
    && h.source == Address(f, 26) && h.destination == Address(f, 30)
    && h.payloadOffset == 14 + Ihl(f) && h.payloadLength == Available(f)
    && (h.payloadTruncated <==> |f| - 14 < Word(f, 16))
  }

  /** RFC 9293 section 3.1, behind the IPv4 header. */
  predicate IsTcpAt(h: TcpHeader, f: seq<U8>)
    requires Complete(f) && f[23] == 6
  {
    var at := 14 + Ihl(f);
    && h.sourcePort == Word(f, at) && h.destinationPort == Word(f, at + 2)
    && h.sequence == Address(f, at + 4) && h.acknowledgment == Address(f, at + 8)
    && h.headerLength == DataOffset(f) && h.flags == FlagsAt(f)
    && h.window == Word(f, at + 14) && h.checksum == Word(f, at + 16) && h.urgent == Word(f, at + 18)
    && h.payloadOffset == at + DataOffset(f) && h.payloadLength == Available(f) - DataOffset(f)
    && (h.payloadTruncated <==> |f| - 14 < Word(f, 16))
  }

  /** RFC 768. */
  predicate IsUdpAt(h: UdpHeader, f: seq<U8>)
    requires Complete(f) && f[23] == 17
  {
    var at := 14 + Ihl(f);
    && h.sourcePort == Word(f, at) && h.destinationPort == Word(f, at + 2)
    && h.length == Word(f, at + 4) && h.checksum == Word(f, at + 6)
    && h.payloadOffset == at + 8 && h.payloadLength == Available(f) - 8
    && (h.payloadTruncated <==> |f| - 14 < Word(f, 16))
  }

  /** RFC 792; only echo messages have an identifier and a sequence number. */
  predicate IsIcmpAt(h: IcmpHeader, f: seq<U8>)
    requires Complete(f) && f[23] == 1
  {
    var at := 14 + Ihl(f);
    && h.icmpType == f[at] && h.code == f[at + 1] && h.checksum == Word(f, at + 2)
    && h.restOfHeader == Address(f, at + 4) && (h.hasEcho <==> f[at] == 8 || f[at] == 0)
    && h.identifier == (if h.hasEcho then Word(f, at + 4) else 0)
    && h.sequence == (if h.hasEcho then Word(f, at + 6) else 0)
    && h.payloadOffset == at + 8 && h.payloadLength == Available(f) - 8
    && (h.payloadTruncated <==> |f| - 14 < Word(f, 16))
  }

  lemma WordOfPart(f: seq<U8>, at: nat, n: nat, i: nat)
    requires at + n <= |f| && i + 2 <= n
    ensures Be16(f[at..at + n], i) == Word(f, at + i)
  {
    PayloadByte(f, at, n, i);
    PayloadByte(f, at, n, i + 1);
  }

  lemma AddressOfPart(f: seq<U8>, at: nat, n: nat, i: nat)
    requires at + n <= |f| && i + 4 <= n
    ensures Be32(f[at..at + n], i) == Address(f, at + i)
  {
    PayloadByte(f, at, n, i);
    PayloadByte(f, at, n, i + 1);
    PayloadByte(f, at, n, i + 2);
    PayloadByte(f, at, n, i + 3);
  }

  lemma Ipv4Fields(f: seq<U8>)
    requires CarriesIpv4(f) && HasIpv4(f)
    ensures Ipv4Of(f[14..], 14).Parsed? && IsIpv4At(Ipv4Of(f[14..], 14).header, f)
  {
    Ipv4Verdict(f);
    AddressesOfBytes(f);
    HeaderByte(f, 0);
    HeaderByte(f, 2);
    HeaderByte(f, 4);
    HeaderByte(f, 6);
    HeaderByte(f, 8);
    HeaderByte(f, 10);
    FlagBits(f[20], f[21]);
  }

  lemma FlagBits(high: U8, low: U8)
    ensures var field := high as int * 0x100 + low;
            && (field / 0x4000 % 2 == 1 <==> high / 64 % 2 == 1)
            && (field / 0x2000 % 2 == 1 <==> high / 32 % 2 == 1)
            && field % 0x2000 == 256 * (high as int % 32) + low
  {
    var field := high as int * 0x100 + low;
    assert field / 0x4000 == high / 64;
    assert field / 0x2000 == high / 32;
  }

  lemma TcpNumbers(f: seq<U8>, at: nat, w: seq<U8>)
    requires |w| >= 20 && at + |w| <= |f| && w == f[at..at + |w|]
    ensures Be16(w, 0) == Word(f, at) && Be16(w, 2) == Word(f, at + 2)
    ensures Be32(w, 4) == Address(f, at + 4) && Be32(w, 8) == Address(f, at + 8)
    ensures w[12] == f[at + 12] && w[13] == f[at + 13]
    ensures Be16(w, 14) == Word(f, at + 14) && Be16(w, 16) == Word(f, at + 16) && Be16(w, 18) == Word(f, at + 18)
  {
    WordOfPart(f, at, |w|, 0);
    WordOfPart(f, at, |w|, 2);
    AddressOfPart(f, at, |w|, 4);
    AddressOfPart(f, at, |w|, 8);
    WordOfPart(f, at, |w|, 14);
    WordOfPart(f, at, |w|, 16);
    WordOfPart(f, at, |w|, 18);
  }

  lemma TcpFields(f: seq<U8>, ip: Ipv4Header, w: seq<U8>)
    requires HasIpv4(f) && Describes(ip, f) && IsIpv4At(ip, f) && Complete(f) && f[23] == 6
    requires w == f[14 + Ihl(f)..14 + Ihl(f) + Available(f)]
    ensures TcpOf(w, ip).Parsed? && IsTcpAt(TcpOf(w, ip).header, f)
  {
    TcpEnds(f, ip, w);
    TcpNumbers(f, 14 + Ihl(f), w);
  }

  lemma UdpFields(f: seq<U8>, ip: Ipv4Header, w: seq<U8>)
    requires HasIpv4(f) && Describes(ip, f) && IsIpv4At(ip, f) && Complete(f) && f[23] == 17
    requires w == f[14 + Ihl(f)..14 + Ihl(f) + Available(f)]
    ensures UdpOf(w, ip).Parsed? && IsUdpAt(UdpOf(w, ip).header, f)
  {
    var at, n := 14 + Ihl(f), Available(f);
    UdpEnds(f, ip, w);
    WordOfPart(f, at, n, 0);
    WordOfPart(f, at, n, 2);
    WordOfPart(f, at, n, 4);
    WordOfPart(f, at, n, 6);
  }

  lemma IcmpFields(f: seq<U8>, ip: Ipv4Header, w: seq<U8>)
    requires HasIpv4(f) && Describes(ip, f) && IsIpv4At(ip, f) && Complete(f) && f[23] == 1
    requires w == f[14 + Ihl(f)..14 + Ihl(f) + Available(f)]
    ensures IcmpOf(w, ip).Parsed? && IsIcmpAt(IcmpOf(w, ip).header, f)
  {
    var at, n := 14 + Ihl(f), Available(f);
    IcmpVerdict(w, ip);
    PayloadByte(f, at, n, 0);
    PayloadByte(f, at, n, 1);
    WordOfPart(f, at, n, 2);
    AddressOfPart(f, at, n, 4);
    WordOfPart(f, at, n, 4);
    WordOfPart(f, at, n, 6);
  }

  /** Every field of every header of a complete frame is where its standard puts it,
      and exactly one layer is found behind IPv4. */
  lemma HeadersOfBytes(f: seq<U8>, time: Time, wire: U32)
    requires |f| <= U32_MAX && Complete(f)
    ensures var p := Parse(f, Blank(time, |f|, wire));
            && p.ethernet == Some(EthernetHeader(f[..6], f[6..12], 0x0800, 14, |f| - 14))
            && p.ipv4.Some? && IsIpv4At(p.ipv4.value, f)
            && (p.tcp.Some? <==> f[23] == 6) && (p.tcp.Some? ==> IsTcpAt(p.tcp.value, f))
            && (p.udp.Some? <==> f[23] == 17) && (p.udp.Some? ==> IsUdpAt(p.udp.value, f))
            && (p.icmp.Some? <==> f[23] == 1) && (p.icmp.Some? ==> IsIcmpAt(p.icmp.value, f))
  {
    NetworkEnds(f);
    Ipv4Fields(f);
    var ip := NetworkOf(f).ip;
    var w := f[14 + Ihl(f)..14 + Ihl(f) + Available(f)];
    if f[23] == 6 {
      TcpFields(f, ip, w);
    } else if f[23] == 17 {
      UdpFields(f, ip, w);
    } else {
      IcmpFields(f, ip, w);
    }
  }

  /** A complete frame's endpoints are its addresses and ports, byte for byte. */
  lemma EndpointsOfBytes(f: seq<U8>, time: Time, wire: U32)
    requires |f| <= U32_MAX && Complete(f)
    ensures var p := Parse(f, Blank(time, |f|, wire));
            && FromPacket(p).Keyed? && FromPacket(p).key.protocol == f[23]
            && Address(f, 26) <= U32_MAX && Address(f, 30) <= U32_MAX
            && Source(p) == Endpoint(Address(f, 26), PortAt(f, true))
            && Destination(p) == Endpoint(Address(f, 30), PortAt(f, false))
            && (f[23] == 6 ==> p.tcp.Some? && p.tcp.value.flags == FlagsAt(f))
  {
    HeadersOfBytes(f, time, wire);
  }

  /** The same addresses and ports, in the same direction. */
  predicate Alike(f: seq<U8>, g: seq<U8>)
    requires Complete(f) && Complete(g)
  {
    && Address(f, 26) == Address(g, 26) && PortAt(f, true) == PortAt(g, true)
    && Address(f, 30) == Address(g, 30) && PortAt(f, false) == PortAt(g, false)
  }

  /** ... in the opposite direction. */
  predicate Reversed(f: seq<U8>, g: seq<U8>)
    requires Complete(f) && Complete(g)
  {
    && Address(f, 26) == Address(g, 30) && PortAt(f, true) == PortAt(g, false)
    && Address(f, 30) == Address(g, 26) && PortAt(f, false) == PortAt(g, true)
  }

  /** Two complete frames belong to the same flow exactly if they carry the same
      protocol between the same two addresses and ports, in either direction. */
  lemma SameFlowInBytes(f: seq<U8>, g: seq<U8>, time: Time, time': Time, wire: U32, wire': U32)
    requires |f| <= U32_MAX && |g| <= U32_MAX && Complete(f) && Complete(g)
    ensures var p, q := Parse(f, Blank(time, |f|, wire)), Parse(g, Blank(time', |g|, wire'));
            && FromPacket(p).Keyed? && FromPacket(q).Keyed?
            && (FromPacket(p).key == FromPacket(q).key <==> f[23] == g[23] && (Alike(f, g) || Reversed(f, g)))
  {
    var p, q := Parse(f, Blank(time, |f|, wire)), Parse(g, Blank(time', |g|, wire'));
    EndpointsOfBytes(f, time, wire);
    EndpointsOfBytes(g, time', wire');
    KeyIsUnorderedPair(p, q);
    SamePair(Source(p), Destination(p), Source(q), Destination(q));
  }

  lemma SamePair(a: Endpoint, b: Endpoint, c: Endpoint, d: Endpoint)
    ensures {a, b} == {c, d} <==> (a == c && b == d) || (a == d && b == c)
  {
    if {a, b} == {c, d} {
      assert a in {c, d} && b in {c, d} && c in {a, b} && d in {a, b};
    }
  }
}
