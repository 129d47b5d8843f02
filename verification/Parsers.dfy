/** The protocol parsers: cursors move over the frame, and a layer is published
    in the shared result only once all of it has been read and checked. */
module Parsers {
  import opened Machine
  import opened PacketInfo
  import opened ByteReader
  import opened FrameFormat

  /** The bytes of a view, by cursor. */
  method ViewOf(frame: seq<U8>, offset: nat, length: nat) returns (code: Errno, payload: ByteCursor)
    ensures fresh(payload) && payload.Valid() && payload.offset == 0
    ensures code == OK <==> Window(frame, offset, length).Some?
    ensures code == OK ==> payload.data == Window(frame, offset, length).value
  {
    var cursor := new ByteCursor(frame);
    payload := cursor;
    code := cursor.Skip(offset);
    if code == OK {
      code, payload := cursor.ReadSlice(length);
    } else {
      payload := new ByteCursor([]);
    }
  }

  /** Publishes a view of a layer that is present and lies inside the frame; the
      payload views of all five layers differ only in the layer they look at. */
  method PayloadView(frame: seq<U8>, info: PacketInfo, present: bool, offset: nat, length: nat)
    returns (code: Errno, payload: ByteCursor)
    ensures fresh(payload) && payload.Valid() && payload.offset == 0
    ensures code == if info.initialized && present && |frame| == info.capturedLength
                       && Window(frame, offset, length).Some? then OK else EINVAL
    ensures code == OK ==> payload.data == Window(frame, offset, length).value
  {
    if !info.initialized || !present || |frame| != info.capturedLength
       || offset > |frame| || length > |frame| - offset {
      payload := new ByteCursor([]);
      return EINVAL, payload;
    }
    code, payload := ViewOf(frame, offset, length);
  }

  // ----- Ethernet ---------------------------------------------------------------------------

  predicate EthernetReady(frame: seq<U8>, info: PacketInfo) {
    info.initialized && info.status == NOT_STARTED && info.ethernet.None? && |frame| == info.capturedLength
  }

  method EthernetParse(frame: seq<U8>, result: PacketResult) returns (code: Errno)
    modifies result
    ensures var before := old(result.info);
            code == OK ==> before.status == NOT_STARTED && before.ethernet.None? && |frame| == before.capturedLength
    ensures !EthernetReady(frame, old(result.info)) ==> code == EINVAL && result.info == old(result.info)
    ensures EthernetReady(frame, old(result.info)) ==>
              match EthernetOf(frame)
              case Parsed(h) => code == OK && result.info == old(result.info).(ethernet := Some(h))
              case Bad(status, c, offset) =>
                code == c && result.info == Failed(old(result.info), status, LAYER_ETHERNET, c, offset)
  {
    var info := result.info;
    if !info.initialized || info.status != NOT_STARTED || info.ethernet.Some? || |frame| != info.capturedLength {
      return EINVAL;
    }
    var frameCursor := new ByteCursor(frame);
    var header;
    code, header := frameCursor.ReadSlice(ETHERNET_HEADER_LENGTH);
    if code == ENODATA {
      code := result.RecordError(TRUNCATED, LAYER_ETHERNET, ENODATA, |frame|);
      return;
    }
    var destination, source, etherType;
    code, destination := header.ReadBytes(6);
    if code != OK { return; }
    code, source := header.ReadBytes(6);
    if code != OK { return; }
    code, etherType := header.ReadBe16();
    if code != OK { return; }
    assert header.data[0..6] == frame[..6] && header.data[6..12] == frame[6..12];
    result.info := info.(ethernet := Some(EthernetHeader(
      destination, source, etherType, ETHERNET_HEADER_LENGTH, frameCursor.Remaining())));
  }

  // ----- IPv4 -------------------------------------------------------------------------------

  predicate Ipv4Ready(frame: seq<U8>, info: PacketInfo) {
    && info.initialized && info.ethernet.Some? && info.ipv4.None? && info.status == NOT_STARTED
    && info.ethernet.value.etherType == ETHERNET_TYPE_IPV4 && |frame| == info.capturedLength
  }

  /** The Ethernet payload as an earlier `EthernetParse` delimited it. */
  function NetworkWindow(frame: seq<U8>, info: PacketInfo): Option<seq<U8>>
    requires info.ethernet.Some?
  {
    Window(frame, info.ethernet.value.payloadOffset, info.ethernet.value.payloadLength)
  }

  /** The base header after its first byte; the slice holds all of it, so no read fails. */
  method ReadIpv4Fields(header: ByteCursor)
    returns (code: Errno, totalLength: U16, identification: U16, fragment: U16, ttl: U8, protocol: U8, checksum: U16,
             source: U32, destination: U32)
    requires header.Valid() && header.offset == 1 && |header.data| == IPV4_MIN_HEADER_LENGTH
    modifies header
    ensures code == OK
    ensures totalLength == Be16(header.data, 2) && identification == Be16(header.data, 4)
    ensures fragment == Be16(header.data, 6) && ttl == header.data[8] && protocol == header.data[9]
    ensures checksum == Be16(header.data, 10)
    ensures source == Be32(header.data, 12) && destination == Be32(header.data, 16)
  {
    code := header.Skip(1);
    code, totalLength := header.ReadBe16();
    code, identification := header.ReadBe16();
    code, fragment := header.ReadBe16();
    code, ttl := header.ReadU8();
    code, protocol := header.ReadU8();
    code, checksum := header.ReadBe16();
    code, source := header.ReadBe32();
    code, destination := header.ReadBe32();
  }

  method Ipv4Parse(frame: seq<U8>, result: PacketResult) returns (code: Errno)
    modifies result
    ensures var before := old(result.info);
            code == OK ==> before.status == NOT_STARTED && before.ethernet.Some? && before.ipv4.None?
                           && before.ethernet.value.etherType == 0x0800 && |frame| == before.capturedLength
    ensures !Ipv4Ready(frame, old(result.info)) ==> code == EINVAL && result.info == old(result.info)
    ensures Ipv4Ready(frame, old(result.info)) && NetworkWindow(frame, old(result.info)).Some? ==>
              match Ipv4Of(NetworkWindow(frame, old(result.info)).value, old(result.info).ethernet.value.payloadOffset)
              case Parsed(h) => code == OK && result.info == old(result.info).(ipv4 := Some(h))
              case Bad(status, c, offset) =>
                code == c && result.info == Failed(old(result.info), status, LAYER_IPV4, c, offset)
    ensures Ipv4Ready(frame, old(result.info)) && NetworkWindow(frame, old(result.info)).None? ==>
              code == EINVAL && result.info == old(result.info)
  {
    var info := result.info;
    if !info.initialized || info.ethernet.None? || info.ipv4.Some?
       || info.ethernet.value.etherType != ETHERNET_TYPE_IPV4 || info.status != NOT_STARTED
       || |frame| != info.capturedLength {
      return EINVAL;
    }
    var base, length := info.ethernet.value.payloadOffset, info.ethernet.value.payloadLength;
    var network;
    code, network := PayloadView(frame, info, true, base, length);
    if code != OK { return; }
    var layer := ReadIpv4(network, base);
    match layer {
      case Bad(status, original, offset) =>
        code := result.RecordError(status, LAYER_IPV4, original, offset);
      case Parsed(h) =>
        result.info := info.(ipv4 := Some(h));
    }
  }

  /** Reads and checks the header at the cursor. */
  method ReadIpv4(network: ByteCursor, base: nat) returns (layer: Layer<Ipv4Header>)
    requires network.Valid() && network.offset == 0
    modifies network
    ensures layer == Ipv4Of(network.data, base)
  {
    var length := network.Remaining();
    var code, header := network.ReadSlice(IPV4_MIN_HEADER_LENGTH);
    if code == ENODATA {
      return Bad(TRUNCATED, ENODATA, base + length);
    }
    var versionAndIhl;
    code, versionAndIhl := header.ReadU8();
    if versionAndIhl / 16 != 4 {
      return Bad(MALFORMED, EBADMSG, base);
    }
    if versionAndIhl % 16 < 5 {
      return Bad(MALFORMED, EBADMSG, base);
    }
    var headerLength := versionAndIhl as int % 16 * 4;
    var totalLength, identification, fragment, ttl, protocol, checksum, source, destination;
    code, totalLength, identification, fragment, ttl, protocol, checksum, source, destination := ReadIpv4Fields(header);
    if totalLength < headerLength {
      return Bad(MALFORMED, EBADMSG, base + 2);
    }
    code := network.Skip(headerLength - IPV4_MIN_HEADER_LENGTH);
    if code == ENODATA {
      return Bad(TRUNCATED, ENODATA, base + length);
    }
    var available := if totalLength < length then totalLength else length;
    return Parsed(Ipv4Header(
      headerLength, totalLength, identification,
      fragment / 0x4000 % 2 == 1, fragment / 0x2000 % 2 == 1, fragment % 0x2000,
      ttl, protocol, checksum, source, destination,
      base + headerLength, available - headerLength, length < totalLength));
  }

  // ----- TCP, UDP, ICMP -----------------------------------------------------------------------

  /** What all three upper-layer parsers demand of the result so far. */
  predicate UpperReady(frame: seq<U8>, info: PacketInfo, present: bool, protocol: U8) {
    && info.initialized && info.ipv4.Some? && !present && info.status == NOT_STARTED
    && info.ipv4.value.protocol == protocol && info.ipv4.value.totalLength >= info.ipv4.value.headerLength
    && |frame| == info.capturedLength
  }

  /** The captured IPv4 payload as an earlier `Ipv4Parse` delimited it. */
  function SegmentWindow(frame: seq<U8>, info: PacketInfo): Option<seq<U8>>
    requires info.ipv4.Some?
  {
    Window(frame, info.ipv4.value.payloadOffset, info.ipv4.value.payloadLength)
  }

  /** Segment window if the IPv4 result is in place. */
  predicate SegmentInFrame(frame: seq<U8>, info: PacketInfo) {
    info.ipv4.Some? && SegmentWindow(frame, info).Some?
  }

  /** The failure as far as it can be recorded. */
  function Recorded(info: PacketInfo, status: ParseStatus, layer: ParseLayer, code: Errno, offset: nat)
    : (PacketInfo, Errno)
  {
    if offset <= info.capturedLength then (Failed(info, status, layer, code, offset), code) else (info, EINVAL)
  }

  /** How an upper-layer parser ends when the IPv4 result does not describe this
      frame: only fragments and short payloads are noticed before the view fails. */
  function OutsideFrame(info: PacketInfo, layer: ParseLayer, minimum: nat): (PacketInfo, Errno)
    requires info.ipv4.Some?
  {
    var ip := info.ipv4.value;
    if IsFragment(ip) then Recorded(info, UNSUPPORTED, layer, ENOTSUP, ip.payloadOffset)
    else if Declared(ip) < minimum then Recorded(info, MALFORMED, layer, EBADMSG, ip.payloadOffset)
    else (info, EINVAL)
  }

  method ReadTcpFields(header: ByteCursor)
    returns (code: Errno, sourcePort: U16, destinationPort: U16, sequence: U32, acknowledgment: U32,
             dataOffsetAndNs: U8, control: U8, window: U16, checksum: U16, urgent: U16)
    requires header.Valid() && header.offset == 0 && |header.data| == TCP_MIN_HEADER_LENGTH
    modifies header
    ensures code == OK
    ensures sourcePort == Be16(header.data, 0) && destinationPort == Be16(header.data, 2)
    ensures sequence == Be32(header.data, 4) && acknowledgment == Be32(header.data, 8)
    ensures dataOffsetAndNs == header.data[12] && control == header.data[13]
    ensures window == Be16(header.data, 14) && checksum == Be16(header.data, 16) && urgent == Be16(header.data, 18)
  {
    code, sourcePort := header.ReadBe16();
    code, destinationPort := header.ReadBe16();
    code, sequence := header.ReadBe32();
    code, acknowledgment := header.ReadBe32();
    code, dataOffsetAndNs := header.ReadU8();
    code, control := header.ReadU8();
    code, window := header.ReadBe16();
    code, checksum := header.ReadBe16();
    code, urgent := header.ReadBe16();
  }

  method TcpParse(frame: seq<U8>, result: PacketResult) returns (code: Errno)
    modifies result
    ensures var before := old(result.info);
            code == OK ==> before.status == NOT_STARTED && before.ipv4.Some? && before.tcp.None?
                           && before.ipv4.value.protocol == 6 && |frame| == before.capturedLength
    ensures var before := old(result.info);
            !UpperReady(frame, before, before.tcp.Some?, PROTOCOL_TCP) ==> code == EINVAL && result.info == before
    ensures var before := old(result.info);
            UpperReady(frame, before, before.tcp.Some?, PROTOCOL_TCP) && SegmentInFrame(frame, before) ==>
              match TcpOf(SegmentWindow(frame, before).value, before.ipv4.value)
              case Parsed(h) => code == OK && result.info == before.(tcp := Some(h))
              case Bad(status, c, offset) => code == c && result.info == Failed(before, status, LAYER_TCP, c, offset)
    ensures var before := old(result.info);
            UpperReady(frame, before, before.tcp.Some?, PROTOCOL_TCP) && !SegmentInFrame(frame, before) ==>
              (result.info, code) == OutsideFrame(before, LAYER_TCP, TCP_MIN_HEADER_LENGTH)
  {
    var info := result.info;
    if !info.initialized || info.ipv4.None? || info.tcp.Some? || info.status != NOT_STARTED
       || info.ipv4.value.protocol != PROTOCOL_TCP || info.ipv4.value.totalLength < info.ipv4.value.headerLength
       || |frame| != info.capturedLength {
      return EINVAL;
    }
    var ip := info.ipv4.value;
    var base := ip.payloadOffset;
    if ip.moreFragments || ip.fragmentOffset != 0 {
      code := result.RecordError(UNSUPPORTED, LAYER_TCP, ENOTSUP, base);
      return;
    }
    var declared := ip.totalLength - ip.headerLength;
    if declared < TCP_MIN_HEADER_LENGTH {
      code := result.RecordError(MALFORMED, LAYER_TCP, EBADMSG, base);
      return;
    }
    var segment;
    code, segment := PayloadView(frame, info, true, base, ip.payloadLength);
    if code != OK { return; }
    var layer := ReadTcp(segment, ip);
    match layer {
      case Bad(status, original, offset) =>
        code := result.RecordError(status, LAYER_TCP, original, offset);
      case Parsed(h) =>
        result.info := info.(tcp := Some(h));
    }
  }

  method ReadTcp(segment: ByteCursor, ip: Ipv4Header) returns (layer: Layer<TcpHeader>)
    requires segment.Valid() && segment.offset == 0 && !IsFragment(ip) && Declared(ip) >= TCP_MIN_HEADER_LENGTH
    modifies segment
    ensures layer == TcpOf(segment.data, ip)
  {
    var base, captured := ip.payloadOffset, segment.Remaining();
    var code, header := segment.ReadSlice(TCP_MIN_HEADER_LENGTH);
    if code == ENODATA {
      return Bad(TRUNCATED, ENODATA, base + captured);
    }
    var sourcePort, destinationPort, sequence, acknowledgment, dataOffsetAndNs, control, window, checksum, urgent;
    code, sourcePort, destinationPort, sequence, acknowledgment, dataOffsetAndNs, control, window, checksum, urgent :=
      ReadTcpFields(header);
    var headerLength := dataOffsetAndNs as int / 16 * 4;
    if headerLength < TCP_MIN_HEADER_LENGTH || headerLength > TCP_MAX_HEADER_LENGTH {
      return Bad(MALFORMED, EBADMSG, base + 12);
    }
    if headerLength > ip.totalLength - ip.headerLength {
      return Bad(MALFORMED, EBADMSG, base + 12);
    }
    if segment.Remaining() < headerLength - TCP_MIN_HEADER_LENGTH {
      return Bad(TRUNCATED, ENODATA, base + captured);
    }
    code := segment.Skip(headerLength - TCP_MIN_HEADER_LENGTH);
    return Parsed(TcpHeader(
      sourcePort, destinationPort, sequence, acknowledgment, headerLength,
      dataOffsetAndNs as int % 2 * 0x100 + control, window, checksum, urgent,
      base + headerLength, segment.Remaining(), ip.payloadTruncated));
  }

  method UdpParse(frame: seq<U8>, result: PacketResult) returns (code: Errno)
    modifies result
    ensures var before := old(result.info);
            code == OK ==> before.status == NOT_STARTED && before.ipv4.Some? && before.udp.None?
                           && before.ipv4.value.protocol == 17 && |frame| == before.capturedLength
    ensures var before := old(result.info);
            !UpperReady(frame, before, before.udp.Some?, PROTOCOL_UDP) ==> code == EINVAL && result.info == before
    ensures var before := old(result.info);
            UpperReady(frame, before, before.udp.Some?, PROTOCOL_UDP) && SegmentInFrame(frame, before) ==>
              match UdpOf(SegmentWindow(frame, before).value, before.ipv4.value)
              case Parsed(h) => code == OK && result.info == before.(udp := Some(h))
              case Bad(status, c, offset) => code == c && result.info == Failed(before, status, LAYER_UDP, c, offset)
    ensures var before := old(result.info);
            UpperReady(frame, before, before.udp.Some?, PROTOCOL_UDP) && !SegmentInFrame(frame, before) ==>
              (result.info, code) == OutsideFrame(before, LAYER_UDP, UDP_HEADER_LENGTH)
  {
    var info := result.info;
    if !info.initialized || info.ipv4.None? || info.udp.Some? || info.status != NOT_STARTED
       || info.ipv4.value.protocol != PROTOCOL_UDP || info.ipv4.value.totalLength < info.ipv4.value.headerLength
       || |frame| != info.capturedLength {
      return EINVAL;
    }
    var ip := info.ipv4.value;
    var base := ip.payloadOffset;
    if ip.moreFragments || ip.fragmentOffset != 0 {
      code := result.RecordError(UNSUPPORTED, LAYER_UDP, ENOTSUP, base);
      return;
    }
    var declared := ip.totalLength - ip.headerLength;
    if declared < UDP_HEADER_LENGTH {
      code := result.RecordError(MALFORMED, LAYER_UDP, EBADMSG, base);
      return;
    }
    var datagram;
    code, datagram := PayloadView(frame, info, true, base, ip.payloadLength);
    if code != OK { return; }
    var layer := ReadUdp(datagram, ip);
    match layer {
      case Bad(status, original, offset) =>
        code := result.RecordError(status, LAYER_UDP, original, offset);
      case Parsed(h) =>
        result.info := info.(udp := Some(h));
    }
  }

  method ReadUdp(datagram: ByteCursor, ip: Ipv4Header) returns (layer: Layer<UdpHeader>)
    requires datagram.Valid() && datagram.offset == 0 && !IsFragment(ip) && Declared(ip) >= UDP_HEADER_LENGTH
    modifies datagram
    ensures layer == UdpOf(datagram.data, ip)
  {
    var base, captured := ip.payloadOffset, datagram.Remaining();
    var code, header := datagram.ReadSlice(UDP_HEADER_LENGTH);
    if code == ENODATA {
      return Bad(TRUNCATED, ENODATA, base + captured);
    }
    var sourcePort, destinationPort, length, checksum;
    code, sourcePort := header.ReadBe16();
    code, destinationPort := header.ReadBe16();
    code, length := header.ReadBe16();
    code, checksum := header.ReadBe16();
    if length < UDP_HEADER_LENGTH {
      return Bad(MALFORMED, EBADMSG, base + 4);
    }
    if length != ip.totalLength - ip.headerLength {
      return Bad(MALFORMED, EBADMSG, base + 4);
    }
    return Parsed(UdpHeader(
      sourcePort, destinationPort, length, checksum,
      base + UDP_HEADER_LENGTH, datagram.Remaining(), ip.payloadTruncated));
  }

  method IcmpParse(frame: seq<U8>, result: PacketResult) returns (code: Errno)
    modifies result
    ensures var before := old(result.info);
            code == OK ==> before.status == NOT_STARTED && before.ipv4.Some? && before.icmp.None?
                           && before.ipv4.value.protocol == 1 && |frame| == before.capturedLength
    ensures var before := old(result.info);
            !UpperReady(frame, before, before.icmp.Some?, PROTOCOL_ICMP) ==> code == EINVAL && result.info == before
    ensures var before := old(result.info);
            UpperReady(frame, before, before.icmp.Some?, PROTOCOL_ICMP) && SegmentInFrame(frame, before) ==>
              match IcmpOf(SegmentWindow(frame, before).value, before.ipv4.value)
              case Parsed(h) => code == OK && result.info == before.(icmp := Some(h))
              case Bad(status, c, offset) => code == c && result.info == Failed(before, status, LAYER_ICMP, c, offset)
    ensures var before := old(result.info);
            UpperReady(frame, before, before.icmp.Some?, PROTOCOL_ICMP) && !SegmentInFrame(frame, before) ==>
              (result.info, code) == OutsideFrame(before, LAYER_ICMP, ICMP_HEADER_LENGTH)
  {
    var info := result.info;
    if !info.initialized || info.ipv4.None? || info.icmp.Some? || info.status != NOT_STARTED
       || info.ipv4.value.protocol != PROTOCOL_ICMP || info.ipv4.value.totalLength < info.ipv4.value.headerLength
       || |frame| != info.capturedLength {
      return EINVAL;
    }
    var ip := info.ipv4.value;
    var base := ip.payloadOffset;
    if ip.moreFragments || ip.fragmentOffset != 0 {
      code := result.RecordError(UNSUPPORTED, LAYER_ICMP, ENOTSUP, base);
      return;
    }
    if ip.totalLength - ip.headerLength < ICMP_HEADER_LENGTH {
      code := result.RecordError(MALFORMED, LAYER_ICMP, EBADMSG, base);
      return;
    }
    var message;
    code, message := PayloadView(frame, info, true, base, ip.payloadLength);
    if code != OK { return; }
    var layer := ReadIcmp(message, ip);
    match layer {
      case Bad(status, original, offset) =>
        code := result.RecordError(status, LAYER_ICMP, original, offset);
      case Parsed(h) =>
        result.info := info.(icmp := Some(h));
    }
  }

  method ReadIcmp(message: ByteCursor, ip: Ipv4Header) returns (layer: Layer<IcmpHeader>)
    requires message.Valid() && message.offset == 0 && !IsFragment(ip) && Declared(ip) >= ICMP_HEADER_LENGTH
    modifies message
    ensures layer == IcmpOf(message.data, ip)
  {
    var base, captured := ip.payloadOffset, message.Remaining();
    var code, header := message.ReadSlice(ICMP_HEADER_LENGTH);
    if code == ENODATA {
      return Bad(TRUNCATED, ENODATA, base + captured);
    }
    var icmpType, icmpCode, checksum, rest;
    code, icmpType := header.ReadU8();
    code, icmpCode := header.ReadU8();
    code, checksum := header.ReadBe16();
    code, rest := header.ReadBe32();
    var hasEcho := icmpType == 8 || icmpType == 0;
    EchoHalves(header.data);
    return Parsed(IcmpHeader(
      icmpType, icmpCode, checksum, rest, hasEcho,
      (if hasEcho then rest / 0x1_0000 else 0), (if hasEcho then rest % 0x1_0000 else 0),
      base + ICMP_HEADER_LENGTH, message.Remaining(), ip.payloadTruncated));
  }

  lemma EchoHalves(w: seq<U8>)
    requires |w| >= 8
    ensures Be32(w, 4) / 0x1_0000 == Be16(w, 4) && Be32(w, 4) % 0x1_0000 == Be16(w, 6)
  {
    assert Be32(w, 4) == Be16(w, 4) as int * 0x1_0000 + Be16(w, 6);
  }

  // ----- the dispatcher ---------------------------------------------------------------------------

  predicate DispatchReady(frame: seq<U8>, info: PacketInfo) {
    && info.initialized && info.ethernet.Some? && info.ipv4.Some?
    && info.tcp.None? && info.udp.None? && info.icmp.None?
    && info.status == NOT_STARTED && |frame| == info.capturedLength
  }

  /** The layer that a protocol number announces, with the shortest header it has. */
  function LayerFor(protocol: U8): (ParseLayer, nat)
    requires IsKnown(protocol)
  {
    if protocol == PROTOCOL_TCP then (LAYER_TCP, TCP_MIN_HEADER_LENGTH)
    else if protocol == PROTOCOL_UDP then (LAYER_UDP, UDP_HEADER_LENGTH)
    else (LAYER_ICMP, ICMP_HEADER_LENGTH)
  }

  predicate IsKnown(protocol: U8) {
    protocol == PROTOCOL_TCP || protocol == PROTOCOL_UDP || protocol == PROTOCOL_ICMP
  }

  method DispatchPayload(frame: seq<U8>, result: PacketResult) returns (code: Errno)
    modifies result
    ensures !DispatchReady(frame, old(result.info)) ==> code == EINVAL && result.info == old(result.info)
    ensures var before := old(result.info);
            DispatchReady(frame, before) && SegmentInFrame(frame, before)
            && before.ipv4.value.totalLength >= before.ipv4.value.headerLength ==>
              var upper := UpperOf(SegmentWindow(frame, before).value, before.ipv4.value);
              result.info == WithUpper(before, upper) && code == if upper.NoUpper? then upper.code else OK
    ensures var before := old(result.info);
            DispatchReady(frame, before) && !IsKnown(before.ipv4.value.protocol) ==>
              (result.info, code) == Recorded(before, UNSUPPORTED, LAYER_IPV4, ENOTSUP, before.ipv4.value.payloadOffset)
    ensures var before := old(result.info);
            DispatchReady(frame, before) && IsKnown(before.ipv4.value.protocol)
            && before.ipv4.value.totalLength < before.ipv4.value.headerLength ==>
              code == EINVAL && result.info == before
    ensures var before := old(result.info);
            DispatchReady(frame, before) && IsKnown(before.ipv4.value.protocol)
            && before.ipv4.value.totalLength >= before.ipv4.value.headerLength && !SegmentInFrame(frame, before) ==>
              var (layer, minimum) := LayerFor(before.ipv4.value.protocol);
              (result.info, code) == OutsideFrame(before, layer, minimum)
  {
    var info := result.info;
    if !info.initialized || info.ethernet.None? || info.ipv4.None?
       || info.tcp.Some? || info.udp.Some? || info.icmp.Some?
       || info.status != NOT_STARTED || |frame| != info.capturedLength {
      return EINVAL;
    }
    var protocol := info.ipv4.value.protocol;
    if protocol == PROTOCOL_TCP {
      code := TcpParse(frame, result);
    } else if protocol == PROTOCOL_UDP {
      code := UdpParse(frame, result);
    } else if protocol == PROTOCOL_ICMP {
      code := IcmpParse(frame, result);
    } else {
      code := result.RecordError(UNSUPPORTED, LAYER_IPV4, ENOTSUP, info.ipv4.value.payloadOffset);
      return;
    }
    if code == OK {
      code := result.MarkComplete();
    }
  }
}
