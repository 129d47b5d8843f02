/** What the parser chain guarantees about any bytes: it always classifies, a
    shorter capture never changes a decision, padding is invisible, and the
    header formats are exactly their standard encodings. */
module FrameTheorems {
  import opened Machine
  import opened Timestamps
  import opened PacketInfo
  import opened FlowKey
  import opened ByteReader
  import opened FrameFormat

  // ----- totality ---------------------------------------------------------------------------

  /** The errno that goes with each final status. */
  function CodeOf(status: ParseStatus): Errno {
    match status
    case NOT_STARTED => OK
    case COMPLETE => OK
    case TRUNCATED => ENODATA
    case MALFORMED => EBADMSG
    case UNSUPPORTED => ENOTSUP
  }

  predicate InFrame(f: seq<U8>, offset: nat, length: nat) {
    Window(f, offset, length).Some?
  }

  /** Every payload view that `p` offers lies inside the captured bytes. */
  predicate ViewsInFrame(f: seq<U8>, p: PacketInfo) {
    && (p.ethernet.Some? ==> InFrame(f, p.ethernet.value.payloadOffset, p.ethernet.value.payloadLength))
    && (p.ipv4.Some? ==> InFrame(f, p.ipv4.value.payloadOffset, p.ipv4.value.payloadLength))
    && (p.tcp.Some? ==> InFrame(f, p.tcp.value.payloadOffset, p.tcp.value.payloadLength))
    && (p.udp.Some? ==> InFrame(f, p.udp.value.payloadOffset, p.udp.value.payloadLength))
    && (p.icmp.Some? ==> InFrame(f, p.icmp.value.payloadOffset, p.icmp.value.payloadLength))
  }

  /** An upper layer, or the reason there is none, fits the frame and the protocol. */
  predicate UpperInBounds(f: seq<U8>, ip: Ipv4Header, u: Upper) {
    match u
    case Tcp(h) => ip.protocol == PROTOCOL_TCP && InFrame(f, h.payloadOffset, h.payloadLength)
    case Udp(h) => ip.protocol == PROTOCOL_UDP && InFrame(f, h.payloadOffset, h.payloadLength)
    case Icmp(h) => ip.protocol == PROTOCOL_ICMP && InFrame(f, h.payloadOffset, h.payloadLength)
    case NoUpper(layer, status, code, offset) =>
      status in {TRUNCATED, MALFORMED, UNSUPPORTED} && code == CodeOf(status) && offset <= |f|
  }

  lemma UpperIsTotal(f: seq<U8>, ip: Ipv4Header)
    requires InFrame(f, ip.payloadOffset, ip.payloadLength)
    ensures UpperInBounds(f, ip, UpperOf(f[ip.payloadOffset..ip.payloadOffset + ip.payloadLength], ip))
  {
  }

  lemma Ipv4IsTotal(w: seq<U8>, base: nat)
    ensures match Ipv4Of(w, base)
            case Parsed(h) => base <= h.payloadOffset && h.payloadOffset + h.payloadLength <= base + |w|
            case Bad(status, code, offset) =>
              status in {TRUNCATED, MALFORMED} && code == CodeOf(status) && offset <= base + |w|
  {
  }

  lemma NetworkIsTotal(f: seq<U8>)
    requires |f| >= ETHERNET_HEADER_LENGTH
    ensures match NetworkOf(f)
            case NotIpv4 => true
            case NoIpv4(status, code, offset) =>
              status in {TRUNCATED, MALFORMED} && code == CodeOf(status) && offset <= |f|
            case Carried(ip, upper) => InFrame(f, ip.payloadOffset, ip.payloadLength) && UpperInBounds(f, ip, upper)
  {
    Ipv4IsTotal(f[ETHERNET_HEADER_LENGTH..], ETHERNET_HEADER_LENGTH);
    var network := Ipv4Of(f[ETHERNET_HEADER_LENGTH..], ETHERNET_HEADER_LENGTH);
    if network.Parsed? {
      UpperIsTotal(f, network.header);
    }
  }

  /** Any bytes end in one of the four classes with the matching errno and an
      error offset inside the capture; a packet has a flow key exactly if its
      parse is complete. */
  lemma ParseIsTotal(f: seq<U8>, time: Time, wire: U32)
    requires |f| <= U32_MAX
    ensures var p := Parse(f, Blank(time, |f|, wire));
            && p.initialized && p.time == time && p.capturedLength == |f| && p.wireLength == wire
            && ClassOf(p) != NOT_STARTED
            && p.errorCode == CodeOf(p.status) && p.errorOffset <= |f|
            && (p.status == NOT_STARTED <==> |f| >= ETHERNET_HEADER_LENGTH && Be16(f, 12) != ETHERNET_TYPE_IPV4)
            && ViewsInFrame(f, p)
            && (p.status == COMPLETE <==> FromPacket(p).Keyed?)
            && (p.status == COMPLETE <==> p.tcp.Some? || p.udp.Some? || p.icmp.Some?)
  {
    if |f| >= ETHERNET_HEADER_LENGTH {
      NetworkIsTotal(f);
    }
  }

  // ----- shorter captures -------------------------------------------------------------------

  /** Equal but for how much of the payload was captured. */
  predicate SameEthernet(a: EthernetHeader, b: EthernetHeader) {
    a == b.(payloadLength := a.payloadLength)
  }

  predicate SameIpv4(a: Ipv4Header, b: Ipv4Header) {
    a == b.(payloadLength := a.payloadLength, payloadTruncated := a.payloadTruncated)
  }

  predicate SameTcp(a: TcpHeader, b: TcpHeader) {
    a == b.(payloadLength := a.payloadLength, payloadTruncated := a.payloadTruncated)
  }

  predicate SameUdp(a: UdpHeader, b: UdpHeader) {
    a == b.(payloadLength := a.payloadLength, payloadTruncated := a.payloadTruncated)
  }

  predicate SameIcmp(a: IcmpHeader, b: IcmpHeader) {
    a == b.(payloadLength := a.payloadLength, payloadTruncated := a.payloadTruncated)
  }

  /** The outcome `cut` on fewer bytes is truncation, or agrees with `full`. */
  predicate Agrees<H>(cut: Layer<H>, full: Layer<H>) {
    if cut.Parsed? then full.Parsed?
    else cut.status == TRUNCATED
         || (full.Bad? && cut.status == full.status && cut.code == full.code && cut.offset == full.offset)
  }

  lemma Ipv4Cut(w: seq<U8>, n: nat, base: nat)
    requires n <= |w|
    ensures var full, short := Ipv4Of(w, base), Ipv4Of(w[..n], base);
            Agrees(short, full) && (short.Parsed? ==> SameIpv4(short.header, full.header))
  {
  }

  lemma TcpCut(w: seq<U8>, n: nat, ip: Ipv4Header, cut: Ipv4Header)
    requires n <= |w| && SameIpv4(cut, ip)
    ensures var full, short := TcpOf(w, ip), TcpOf(w[..n], cut);
            Agrees(short, full) && (short.Parsed? ==> SameTcp(short.header, full.header))
  {
  }

  lemma UdpCut(w: seq<U8>, n: nat, ip: Ipv4Header, cut: Ipv4Header)
    requires n <= |w| && SameIpv4(cut, ip)
    ensures var full, short := UdpOf(w, ip), UdpOf(w[..n], cut);
            Agrees(short, full) && (short.Parsed? ==> SameUdp(short.header, full.header))
  {
  }

  lemma IcmpCut(w: seq<U8>, n: nat, ip: Ipv4Header, cut: Ipv4Header)
    requires n <= |w| && SameIpv4(cut, ip)
    ensures var full, short := IcmpOf(w, ip), IcmpOf(w[..n], cut);
            Agrees(short, full) && (short.Parsed? ==> SameIcmp(short.header, full.header))
  {
  }

  predicate SameUpper(a: Upper, b: Upper) {
    || (a.Tcp? && b.Tcp? && SameTcp(a.tcp, b.tcp))
    || (a.Udp? && b.Udp? && SameUdp(a.udp, b.udp))
    || (a.Icmp? && b.Icmp? && SameIcmp(a.icmp, b.icmp))
  }

  /** `cut` stopped for want of bytes, or ended as `full` did. */
  predicate UpperCutShort(cut: Upper, full: Upper) {
    if cut.NoUpper? then cut.status == TRUNCATED || (full.NoUpper? && cut.status == full.status)
    else SameUpper(cut, full)
  }

  /** The same upper layer on fewer captured bytes. */
  lemma UpperCut(w: seq<U8>, n: nat, ip: Ipv4Header, cut: Ipv4Header)
    requires n <= |w| && SameIpv4(cut, ip)
    ensures UpperCutShort(UpperOf(w[..n], cut), UpperOf(w, ip))
  {
    if ip.protocol == PROTOCOL_TCP {
      TcpCut(w, n, ip, cut);
    } else if ip.protocol == PROTOCOL_UDP {
      UdpCut(w, n, ip, cut);
    } else if ip.protocol == PROTOCOL_ICMP {
      IcmpCut(w, n, ip, cut);
    }
  }

  lemma CutWindow(f: seq<U8>, n: nat, offset: nat, length: nat, cutLength: nat)
    requires offset + cutLength <= n <= |f| && offset + length <= |f| && cutLength <= length
    ensures f[..n][offset..offset + cutLength] == f[offset..offset + length][..cutLength]
  {
  }

  predicate NetworkCutShort(cut: Network, full: Network) {
    match cut
    case NotIpv4 => full == NotIpv4
    case NoIpv4(status, code, offset) => status == TRUNCATED || (full.NoIpv4? && full.status == status)
    case Carried(ip, upper) => full.Carried? && SameIpv4(ip, full.ip) && UpperCutShort(upper, full.upper)
  }

  lemma CarriedCut(f: seq<U8>, n: nat, ip: Ipv4Header, cut: Ipv4Header)
    requires n <= |f| && SameIpv4(cut, ip) && cut.payloadLength <= ip.payloadLength
    requires cut.payloadOffset + cut.payloadLength <= n && ip.payloadOffset + ip.payloadLength <= |f|
    ensures UpperCutShort(UpperOf(f[..n][cut.payloadOffset..cut.payloadOffset + cut.payloadLength], cut),
                          UpperOf(f[ip.payloadOffset..ip.payloadOffset + ip.payloadLength], ip))
  {
    CutWindow(f, n, ip.payloadOffset, ip.payloadLength, cut.payloadLength);
    UpperCutAt(f[ip.payloadOffset..ip.payloadOffset + ip.payloadLength],
               f[..n][cut.payloadOffset..cut.payloadOffset + cut.payloadLength], ip, cut);
  }

  lemma UpperCutAt(w: seq<U8>, w': seq<U8>, ip: Ipv4Header, cut: Ipv4Header)
    requires |w'| <= |w| && w' == w[..|w'|] && SameIpv4(cut, ip)
    ensures UpperCutShort(UpperOf(w', cut), UpperOf(w, ip))
  {
    UpperCut(w, |w'|, ip, cut);
  }

  lemma NetworkOfCarried(f: seq<U8>, ip: Ipv4Header)
    requires |f| >= ETHERNET_HEADER_LENGTH && Be16(f, 12) == ETHERNET_TYPE_IPV4
    requires Ipv4Of(f[ETHERNET_HEADER_LENGTH..], ETHERNET_HEADER_LENGTH) == Parsed(ip)
    requires ip.payloadOffset + ip.payloadLength <= |f|
    ensures NetworkOf(f) == Carried(ip, UpperOf(f[ip.payloadOffset..ip.payloadOffset + ip.payloadLength], ip))
  {
  }

  lemma NetworkCutParsed(f: seq<U8>, n: nat, ip: Ipv4Header, cut: Ipv4Header)
    requires ETHERNET_HEADER_LENGTH <= n <= |f| && Be16(f, 12) == ETHERNET_TYPE_IPV4
    requires Ipv4Of(f[ETHERNET_HEADER_LENGTH..], ETHERNET_HEADER_LENGTH) == Parsed(ip)
    requires Ipv4Of(f[..n][ETHERNET_HEADER_LENGTH..], ETHERNET_HEADER_LENGTH) == Parsed(cut)
    requires SameIpv4(cut, ip) && cut.payloadLength <= ip.payloadLength
    requires cut.payloadOffset + cut.payloadLength <= n && ip.payloadOffset + ip.payloadLength <= |f|
    ensures NetworkCutShort(NetworkOf(f[..n]), NetworkOf(f))
  {
    assert Be16(f[..n], 12) == Be16(f, 12);
    NetworkOfCarried(f, ip);
    NetworkOfCarried(f[..n], cut);
    CarriedCut(f, n, ip, cut);
  }

  lemma Ipv4WindowCut(f: seq<U8>, n: nat)
    requires ETHERNET_HEADER_LENGTH <= n <= |f|
    ensures var full, cut := Ipv4Of(f[ETHERNET_HEADER_LENGTH..], ETHERNET_HEADER_LENGTH),
                             Ipv4Of(f[..n][ETHERNET_HEADER_LENGTH..], ETHERNET_HEADER_LENGTH);
            && Agrees(cut, full)
            && (cut.Parsed? ==>
                  && SameIpv4(cut.header, full.header) && cut.header.payloadLength <= full.header.payloadLength
                  && cut.header.payloadOffset + cut.header.payloadLength <= n
                  && full.header.payloadOffset + full.header.payloadLength <= |f|)
  {
    assert f[..n][ETHERNET_HEADER_LENGTH..] == f[ETHERNET_HEADER_LENGTH..][..n - ETHERNET_HEADER_LENGTH];
    Ipv4Cut(f[ETHERNET_HEADER_LENGTH..], n - ETHERNET_HEADER_LENGTH, ETHERNET_HEADER_LENGTH);
  }

  lemma NetworkCut(f: seq<U8>, n: nat)
    requires ETHERNET_HEADER_LENGTH <= n <= |f|
    ensures NetworkCutShort(NetworkOf(f[..n]), NetworkOf(f))
  {
    Ipv4WindowCut(f, n);
    var cut := Ipv4Of(f[..n][ETHERNET_HEADER_LENGTH..], ETHERNET_HEADER_LENGTH);
    assert Be16(f[..n], 12) == Be16(f, 12);
    if cut.Parsed? && Be16(f, 12) == ETHERNET_TYPE_IPV4 {
      NetworkCutParsed(f, n, Ipv4Of(f[ETHERNET_HEADER_LENGTH..], ETHERNET_HEADER_LENGTH).header, cut.header);
    }
  }

  /** Both packets have the same layers with the same header fields. */
  predicate SameHeaders(a: PacketInfo, b: PacketInfo) {
    && a.ethernet.Some? && b.ethernet.Some? && SameEthernet(a.ethernet.value, b.ethernet.value)
    && a.ipv4.Some? && b.ipv4.Some? && SameIpv4(a.ipv4.value, b.ipv4.value)
    && (a.tcp.Some? <==> b.tcp.Some?) && (a.tcp.Some? ==> SameTcp(a.tcp.value, b.tcp.value))
    && (a.udp.Some? <==> b.udp.Some?) && (a.udp.Some? ==> SameUdp(a.udp.value, b.udp.value))
    && (a.icmp.Some? <==> b.icmp.Some?) && (a.icmp.Some? ==> SameIcmp(a.icmp.value, b.icmp.value))
  }

  lemma UpperCutShows(full: PacketInfo, cut: PacketInfo, u: Upper, v: Upper)
    requires full.initialized && cut.initialized && full.status == cut.status == NOT_STARTED
    requires full.ethernet.Some? && cut.ethernet.Some? && SameEthernet(cut.ethernet.value, full.ethernet.value)
    requires full.ipv4.Some? && cut.ipv4.Some? && SameIpv4(cut.ipv4.value, full.ipv4.value)
    requires full.tcp.None? && full.udp.None? && full.icmp.None? && cut.tcp.None? && cut.udp.None? && cut.icmp.None?
    requires UpperCutShort(v, u) && (v.NoUpper? ==> v.status != NOT_STARTED && v.status != COMPLETE)
    ensures var a, b := WithUpper(cut, v), WithUpper(full, u);
            && ClassOf(a) in {ClassOf(b), TRUNCATED}
            && (a.status == COMPLETE ==> SameHeaders(a, b) && FromPacket(a) == FromPacket(b))
  {
  }

  lemma NetworkCutShows(full: PacketInfo, cut: PacketInfo, u: Network, v: Network)
    requires full.initialized && cut.initialized && full.status == cut.status == NOT_STARTED
    requires full.ethernet.Some? && cut.ethernet.Some? && SameEthernet(cut.ethernet.value, full.ethernet.value)
    requires full.tcp.None? && full.udp.None? && full.icmp.None? && cut.tcp.None? && cut.udp.None? && cut.icmp.None?
    requires NetworkCutShort(v, u) && (v.NoIpv4? ==> v.status in {TRUNCATED, MALFORMED})
    requires v.Carried? && v.upper.NoUpper? ==> v.upper.status in {TRUNCATED, MALFORMED, UNSUPPORTED}
    ensures var a, b := WithNetwork(cut, v), WithNetwork(full, u);
            && ClassOf(a) in {ClassOf(b), TRUNCATED}
            && (a.status == COMPLETE ==> SameHeaders(a, b) && FromPacket(a) == FromPacket(b))
  {
    if v.Carried? {
      UpperCutShows(full.(ipv4 := Some(u.ip)), cut.(ipv4 := Some(v.ip)), u.upper, v.upper);
    }
  }

  /** Capturing only the first `n` bytes of a frame yields the same class or
      TRUNCATED, and a complete parse has the same headers, key and direction. */
  lemma ShorterCapture(f: seq<U8>, n: nat, time: Time, wire: U32)
    requires n <= |f| <= U32_MAX
    ensures var full, cut := Parse(f, Blank(time, |f|, wire)), Parse(f[..n], Blank(time, n, wire));
            && ClassOf(cut) in {ClassOf(full), TRUNCATED}
            && (cut.status == COMPLETE ==> SameHeaders(cut, full) && FromPacket(cut) == FromPacket(full))
  {
    if n >= ETHERNET_HEADER_LENGTH {
      assert Be16(f, 12) == Be16(f[..n], 12) && f[..n][..6] == f[..6] && f[..n][6..12] == f[6..12];
      NetworkCut(f, n);
      NetworkIsTotal(f[..n]);
      NetworkCutShows(Blank(time, |f|, wire).(ethernet := Some(EthernetOf(f).header)),
                      Blank(time, n, wire).(ethernet := Some(EthernetOf(f[..n]).header)),
                      NetworkOf(f), NetworkOf(f[..n]));
    }
  }

  // ----- padding ----------------------------------------------------------------------------

  lemma Ipv4IgnoresPadding(v: seq<U8>, w: seq<U8>, ip: Ipv4Header, base: nat)
    requires Ipv4Of(v, base) == Parsed(ip) && !ip.payloadTruncated
    requires |w| >= ip.totalLength && forall i :: 0 <= i < ip.totalLength ==> v[i] == w[i]
    ensures Ipv4Of(w, base) == Parsed(ip)
    ensures ip.payloadOffset == base + ip.headerLength && ip.payloadLength == ip.totalLength - ip.headerLength
  {
  }

  lemma SameStretch(f: seq<U8>, g: seq<U8>, end: nat, offset: nat, length: nat)
    requires end <= |f| && end <= |g| && offset + length <= end && forall i :: 0 <= i < end ==> f[i] == g[i]
    ensures f[offset..offset + length] == g[offset..offset + length]
  {
  }

  lemma NetworkIgnoresPadding(f: seq<U8>, g: seq<U8>, ip: Ipv4Header)
    requires |f| >= ETHERNET_HEADER_LENGTH && Be16(f, 12) == ETHERNET_TYPE_IPV4
    requires Ipv4Of(f[ETHERNET_HEADER_LENGTH..], ETHERNET_HEADER_LENGTH) == Parsed(ip) && !ip.payloadTruncated
    requires f[..ETHERNET_HEADER_LENGTH + ip.totalLength] <= g
    ensures NetworkOf(g) == NetworkOf(f)
  {
    var end := ETHERNET_HEADER_LENGTH + ip.totalLength;
    forall i | 0 <= i < end
      ensures f[i] == g[i]
    {
      assert f[..end][i] == g[i];
    }
    Ipv4IgnoresPadding(f[ETHERNET_HEADER_LENGTH..], g[ETHERNET_HEADER_LENGTH..], ip, ETHERNET_HEADER_LENGTH);
    SameStretch(f, g, end, ip.payloadOffset, ip.payloadLength);
  }

  /** Bytes after a fully captured IPv4 datagram change nothing above the Ethernet layer. */
  lemma PaddingIsInvisible(f: seq<U8>, g: seq<U8>, time: Time, wire: U32, ip: Ipv4Header)
    requires ETHERNET_HEADER_LENGTH <= |f| <= U32_MAX && |g| <= U32_MAX && Be16(f, 12) == ETHERNET_TYPE_IPV4
    requires Ipv4Of(f[ETHERNET_HEADER_LENGTH..], ETHERNET_HEADER_LENGTH) == Parsed(ip) && !ip.payloadTruncated
    requires f[..ETHERNET_HEADER_LENGTH + ip.totalLength] <= g
    ensures var p, q := Parse(f, Blank(time, |f|, wire)), Parse(g, Blank(time, |g|, wire));
            && q == p.(capturedLength := |g|, ethernet := q.ethernet)
            && p.ethernet.Some? && q.ethernet.Some? && SameEthernet(q.ethernet.value, p.ethernet.value)
  {
    NetworkIgnoresPadding(f, g, ip);
    assert forall i :: 0 <= i < ETHERNET_HEADER_LENGTH ==> f[..ETHERNET_HEADER_LENGTH + ip.totalLength][i] == g[i];
    assert f[..6] == g[..6] && f[6..12] == g[6..12];
  }
}
