/** Canonical bidirectional five-tuples. */
module FlowKey {
  import opened Machine
  import opened PacketInfo

  datatype Endpoint = Endpoint(address: U32, port: U16)

  datatype FlowKey = FlowKey(endpointA: Endpoint, endpointB: Endpoint, protocol: U8)

  datatype Direction = UNKNOWN | A_TO_B | B_TO_A {
    function Opposite(): Direction {
      match this
      case UNKNOWN => UNKNOWN
      case A_TO_B => B_TO_A
      case B_TO_A => A_TO_B
    }
  }

  datatype Keyed = Keyed(key: FlowKey, direction: Direction) | NoKey(error: Errno)

  function CompareEndpoints(left: Endpoint, right: Endpoint): (r: int)
    ensures r == 0 <==> left == right
  {
    if left.address < right.address then -1
    else if left.address > right.address then 1
    else if left.port < right.port then -1
    else if left.port > right.port then 1
    else 0
  }

  /** The two ports, or the error for a packet that cannot be keyed. */
  datatype Ports = Ports(source: U16, destination: U16) | NoPorts(error: Errno)

  function PortsOf(info: PacketInfo): Ports
    requires info.ipv4.Some?
  {
    var protocol := info.ipv4.value.protocol;
    if protocol == PROTOCOL_TCP then
      if info.tcp.None? || info.udp.Some? || info.icmp.Some? then NoPorts(EINVAL)
      else Ports(info.tcp.value.sourcePort, info.tcp.value.destinationPort)
    else if protocol == PROTOCOL_UDP then
      if info.tcp.Some? || info.udp.None? || info.icmp.Some? then NoPorts(EINVAL)
      else Ports(info.udp.value.sourcePort, info.udp.value.destinationPort)
    else if protocol == PROTOCOL_ICMP then
      if info.tcp.Some? || info.udp.Some? || info.icmp.None? then NoPorts(EINVAL)
      else Ports(0, 0)
    else NoPorts(ENOTSUP)
  }

  /** The layers of the packet are those its IPv4 protocol number announces, and no others. */
  predicate LayersMatch(info: PacketInfo)
    requires info.ipv4.Some?
  {
    var protocol := info.ipv4.value.protocol;
    && (info.tcp.Some? <==> protocol == PROTOCOL_TCP) && (info.udp.Some? <==> protocol == PROTOCOL_UDP)
    && (info.icmp.Some? <==> protocol == PROTOCOL_ICMP)
  }

  predicate IsKeyedProtocol(protocol: U8) {
    protocol in {PROTOCOL_TCP, PROTOCOL_UDP, PROTOCOL_ICMP}
  }

  function FromPacket(info: PacketInfo): (r: Keyed)
    ensures r.Keyed? <==>
      && info.initialized && info.status == COMPLETE && info.ipv4.Some?
      && IsKeyedProtocol(info.ipv4.value.protocol) && LayersMatch(info)
    ensures r.NoKey? ==>
      r.error == if info.initialized && info.status == COMPLETE && info.ipv4.Some?
                    && !IsKeyedProtocol(info.ipv4.value.protocol) then ENOTSUP else EINVAL
    ensures r.Keyed? ==>
      && r.key.protocol == info.ipv4.value.protocol && r.direction != UNKNOWN
      && (info.tcp.Some? <==> r.key.protocol == 6) && (info.udp.Some? <==> r.key.protocol == 17)
      && (info.icmp.Some? <==> r.key.protocol == 1) && r.key.protocol in {1, 6, 17}
    ensures r.Keyed? ==>
      var ip, a, b := info.ipv4.value, r.key.endpointA, r.key.endpointB;
      var source := Endpoint(ip.source, if info.tcp.Some? then info.tcp.value.sourcePort
                                        else if info.udp.Some? then info.udp.value.sourcePort else 0);
      var destination := Endpoint(ip.destination, if info.tcp.Some? then info.tcp.value.destinationPort
                                                  else if info.udp.Some? then info.udp.value.destinationPort else 0);
      && (if a == source then b == destination && r.direction == A_TO_B
          else a == destination && b == source && r.direction == B_TO_A)
      && (a.address < b.address || (a.address == b.address && a.port <= b.port))
  {
    if !info.initialized || info.ipv4.None? || info.status != COMPLETE then NoKey(EINVAL)
    else
      match PortsOf(info)
      case NoPorts(error) => NoKey(error)
      case Ports(sourcePort, destinationPort) =>
        var ip := info.ipv4.value;
        var source := Endpoint(ip.source, sourcePort);
        var destination := Endpoint(ip.destination, destinationPort);
        if CompareEndpoints(source, destination) <= 0
        then Keyed(FlowKey(source, destination, ip.protocol), A_TO_B)
        else Keyed(FlowKey(destination, source, ip.protocol), B_TO_A)
  }

  function Source(info: PacketInfo): Endpoint
    requires FromPacket(info).Keyed?
  {
    Endpoint(info.ipv4.value.source, PortsOf(info).source)
  }

  function Destination(info: PacketInfo): Endpoint
    requires FromPacket(info).Keyed?
  {
    Endpoint(info.ipv4.value.destination, PortsOf(info).destination)
  }

  /** Two packets get the same key exactly when they have the same protocol and
      the same unordered pair of endpoints; with distinct endpoints the
      directions agree exactly when the sources do. */
  lemma KeyIsUnorderedPair(p: PacketInfo, q: PacketInfo)
    requires FromPacket(p).Keyed? && FromPacket(q).Keyed?
    ensures FromPacket(p).key == FromPacket(q).key <==>
            && p.ipv4.value.protocol == q.ipv4.value.protocol
            && {Source(p), Destination(p)} == {Source(q), Destination(q)}
    ensures FromPacket(p).key == FromPacket(q).key && Source(p) != Destination(p) ==>
            (FromPacket(p).direction == FromPacket(q).direction <==> Source(p) == Source(q))
  {
    var sp, dp, sq, dq := Source(p), Destination(p), Source(q), Destination(q);
    if {sp, dp} == {sq, dq} {
      assert sp in {sq, dq} && dp in {sq, dq} && sq in {sp, dp} && dq in {sp, dp};
    }
    var kp, kq := FromPacket(p).key, FromPacket(q).key;
    assert {kp.endpointA, kp.endpointB} == {sp, dp};
    assert {kq.endpointA, kq.endpointB} == {sq, dq};
  }
}
