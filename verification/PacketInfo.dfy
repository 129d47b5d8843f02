/** The per-packet result object filled in layer by layer by the parsers.  A
    layer's `has_x` flag and its fields are one `Option`: the fields are
    meaningful exactly when the flag is set. */
module PacketInfo {
  import opened Machine
  import opened Timestamps

  const PROTOCOL_ICMP: U8 := 1
  const PROTOCOL_TCP: U8 := 6
  const PROTOCOL_UDP: U8 := 17

  datatype EthernetHeader = EthernetHeader(
    destinationMac: seq<U8>, sourceMac: seq<U8>, etherType: U16,
    payloadOffset: nat, payloadLength: nat)

  datatype Ipv4Header = Ipv4Header(
    headerLength: U8, totalLength: U16, identification: U16,
    dontFragment: bool, moreFragments: bool, fragmentOffset: U16,
    ttl: U8, protocol: U8, checksum: U16,
    source: U32, destination: U32,
    payloadOffset: nat, payloadLength: nat, payloadTruncated: bool)

  datatype TcpHeader = TcpHeader(
    sourcePort: U16, destinationPort: U16, sequence: U32, acknowledgment: U32,
    headerLength: U8, flags: U16, window: U16, checksum: U16, urgent: U16,
    payloadOffset: nat, payloadLength: nat, payloadTruncated: bool)

  datatype UdpHeader = UdpHeader(
    sourcePort: U16, destinationPort: U16, length: U16, checksum: U16,
    payloadOffset: nat, payloadLength: nat, payloadTruncated: bool)

  datatype IcmpHeader = IcmpHeader(
    icmpType: U8, code: U8, checksum: U16, restOfHeader: U32,
    hasEcho: bool, identifier: U16, sequence: U16,
    payloadOffset: nat, payloadLength: nat, payloadTruncated: bool)

  datatype ParseStatus = NOT_STARTED | COMPLETE | TRUNCATED | MALFORMED | UNSUPPORTED

  datatype ParseLayer = LAYER_NONE | LAYER_ETHERNET | LAYER_IPV4 | LAYER_TCP | LAYER_UDP | LAYER_ICMP

  datatype PacketInfo = PacketInfo(
    time: Timestamp, capturedLength: U32, wireLength: U32,
    ethernet: Option<EthernetHeader>, ipv4: Option<Ipv4Header>,
    tcp: Option<TcpHeader>, udp: Option<UdpHeader>, icmp: Option<IcmpHeader>,
    status: ParseStatus, errorLayer: ParseLayer, errorCode: Errno, errorOffset: nat,
    initialized: bool)

  predicate IsErrorStatus(s: ParseStatus) {
    s.TRUNCATED? || s.MALFORMED? || s.UNSUPPORTED?
  }

  /** A fresh result: metadata only, no layer parsed. */
  function Blank(time: Timestamp, capturedLength: U32, wireLength: U32): PacketInfo {
    PacketInfo(time, capturedLength, wireLength, None, None, None, None, None,
               NOT_STARTED, LAYER_NONE, OK, 0, true)
  }

  function Failed(info: PacketInfo, status: ParseStatus, layer: ParseLayer, code: Errno, offset: nat): PacketInfo {
    info.(status := status, errorLayer := layer, errorCode := code, errorOffset := offset)
  }

  /** A failure that may be recorded: its arguments say so, and its offset lies in the capture. */
  predicate Recordable(info: PacketInfo, status: ParseStatus, layer: ParseLayer, code: Errno, offset: nat) {
    info.initialized && IsErrorStatus(status) && layer != LAYER_NONE && code != OK && offset <= info.capturedLength
  }

  function Completed(info: PacketInfo): PacketInfo {
    info.(status := COMPLETE, errorLayer := LAYER_NONE, errorCode := OK, errorOffset := 0)
  }

  /** The object a parser receives a pointer to. */
  class PacketResult {
    var info: PacketInfo

    /** The uninitialised stack object of a caller. */
    constructor ()
      ensures !info.initialized
    {
      info := Blank(Timestamp(0, 0), 0, 0).(initialized := false);
    }

    method Init(seconds: I64, microseconds: I32, capturedLength: U32, wireLength: U32) returns (code: Errno)
      modifies this
      ensures code == if 0 <= microseconds < MICROS_PER_SECOND then OK else EINVAL
      ensures code == OK ==> info == Blank(Timestamp(seconds, microseconds), capturedLength, wireLength)
      ensures code != OK ==> info == old(info)
    {
      if microseconds < 0 || microseconds >= MICROS_PER_SECOND {
        return EINVAL;
      }
      info := Blank(Timestamp(seconds, microseconds), capturedLength, wireLength);
      return OK;
    }

    /** Returns `original` once the failure is recorded, as the layers'
        `*_record_error` wrappers do. */
    method RecordError(status: ParseStatus, layer: ParseLayer, original: Errno, offset: nat) returns (code: Errno)
      modifies this
      ensures (info, code) == if Recordable(old(info), status, layer, original, offset)
                              then (Failed(old(info), status, layer, original, offset), original)
                              else (old(info), EINVAL)
    {
      if !info.initialized || !IsErrorStatus(status) || layer == LAYER_NONE || original == OK
         || offset > info.capturedLength {
        return EINVAL;
      }
      info := info.(status := status, errorLayer := layer, errorCode := original, errorOffset := offset);
      return original;
    }

    method MarkComplete() returns (code: Errno)
      modifies this
      ensures code == if old(info).initialized then OK else EINVAL
      ensures info == if code == OK then Completed(old(info)) else old(info)
    {
      if !info.initialized {
        return EINVAL;
      }
      info := info.(status := COMPLETE, errorLayer := LAYER_NONE, errorCode := OK, errorOffset := 0);
      return OK;
    }
  }
}
