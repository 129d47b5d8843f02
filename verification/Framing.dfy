/** Length-prefixed messages over a byte stream that transfers as much or as
    little per call as it likes. */
module Framing {
  import opened Machine
  import opened ByteReader
  import opened WireFormat

  const MAGIC: U32 := 0x4E46414E
  const PROTOCOL_VERSION: U8 := 1
  const HEADER_SIZE := 12
  const MAX_PAYLOAD_SIZE := 4096
  const TYPE_TEXT := 1
  const TYPE_PING := 2

  // ----- the header ---------------------------------------------------------------------------------

  datatype Header = Header(version: U8, messageType: int, payloadLength: U32)

  predicate TypeIsValid(t: int) {
    t == TYPE_TEXT || t == TYPE_PING
  }

  predicate ValidHeader(h: Header) {
    h.version == PROTOCOL_VERSION && TypeIsValid(h.messageType) && h.payloadLength <= MAX_PAYLOAD_SIZE
  }

  /** The twelve bytes of a header. */
  function HeaderBytes(h: Header): (b: seq<U8>)
    requires ValidHeader(h)
    ensures |b| == HEADER_SIZE
  {
    Bytes32(MAGIC) + [h.version, h.messageType] + Bytes16(0) + Bytes32(h.payloadLength)
  }

  /** These are the twelve bytes "NFAN", version 1, the type (1 for a text, 2 for a
      ping), two zeros, and the payload length in base 256, most significant digit first. */
  predicate IsLayout(b: seq<U8>, messageType: int, payloadLength: U32) {
    && |b| == 12 && b[0] == 0x4E && b[1] == 0x46 && b[2] == 0x41 && b[3] == 0x4E
    && b[4] == 1 && b[5] == messageType && 1 <= messageType <= 2 && b[6] == 0 && b[7] == 0
    && payloadLength == ((b[8] as int * 256 + b[9]) * 256 + b[10]) * 256 + b[11]
  }

  /** A header is encoded as these twelve bytes and no others. */
  lemma HeaderLayout(h: Header)
    requires ValidHeader(h)
    ensures IsLayout(HeaderBytes(h), h.messageType, h.payloadLength)
    ensures forall b :: IsLayout(b, h.messageType, h.payloadLength) ==> b == HeaderBytes(h)
  {
    assert Be32(Bytes32(h.payloadLength), 0) == h.payloadLength;
    forall b | IsLayout(b, h.messageType, h.payloadLength)
      ensures b == HeaderBytes(h)
    {
      SameDigits(b[8..12], Bytes32(h.payloadLength));
    }
  }

  lemma SameDigits(b: seq<U8>, c: seq<U8>)
    requires |b| == |c| == 4 && Be32(b, 0) == Be32(c, 0)
    ensures b == c
  {
    Split32(b, 0);
    Split32(c, 0);
    assert b[0..4] == b && c[0..4] == c;
  }

  /** Encodes in place; the caller's buffer may be longer than a header. */
  method EncodeHeader(h: Header, buffer: array<U8>) returns (code: Errno)
    modifies buffer
    ensures code == if buffer.Length < 12 then EMSGSIZE
                    else if h.version != 1 then EPROTONOSUPPORT
                    else if h.messageType != 1 && h.messageType != 2 then EINVAL
                    else if h.payloadLength > 4096 then EMSGSIZE
                    else OK
    ensures code == OK ==>
              && buffer[0] == 0x4E && buffer[1] == 0x46 && buffer[2] == 0x41 && buffer[3] == 0x4E && buffer[4] == 1
              && (h.messageType == TYPE_TEXT ==> buffer[5] == 1) && (h.messageType == TYPE_PING ==> buffer[5] == 2)
              && buffer[6] == 0 && buffer[7] == 0
              && h.payloadLength == ((buffer[8] as int * 256 + buffer[9]) * 256 + buffer[10]) * 256 + buffer[11]
    ensures code == OK ==>
            buffer[..HEADER_SIZE] == HeaderBytes(h) && buffer[HEADER_SIZE..] == old(buffer[HEADER_SIZE..])
    ensures code != OK ==> buffer[..] == old(buffer[..])
  {
    if buffer.Length < HEADER_SIZE {
      return EMSGSIZE;
    }
    if h.version != PROTOCOL_VERSION {
      return EPROTONOSUPPORT;
    }
    if !TypeIsValid(h.messageType) {
      return EINVAL;
    }
    if h.payloadLength > MAX_PAYLOAD_SIZE {
      return EMSGSIZE;
    }
    PutBytes(buffer, 0, Bytes32(MAGIC));
    buffer[4] := h.version;
    buffer[5] := h.messageType;
    PutBytes(buffer, 6, Bytes16(0));
    PutBytes(buffer, 8, Bytes32(h.payloadLength));
    HeaderLayout(h);
    assert forall j :: 0 <= j < HEADER_SIZE ==> buffer[j] == HeaderBytes(h)[j];
    return OK;
  }

  /** `memcpy` of a few bytes. */
  method PutBytes(buffer: array<U8>, at: nat, bytes: seq<U8>)
    requires at + |bytes| <= buffer.Length
    modifies buffer
    ensures forall j :: 0 <= j < buffer.Length ==>
              buffer[j] == if at <= j < at + |bytes| then bytes[j - at] else old(buffer[j])
  {
    var i := 0;
    while i < |bytes|
      invariant 0 <= i <= |bytes|
      invariant forall j :: 0 <= j < buffer.Length ==>
                  buffer[j] == if at <= j < at + i then bytes[j - at] else old(buffer[j])
    {
      buffer[at + i] := bytes[i];
      i := i + 1;
    }
  }

  datatype Decoded = Accepted(header: Header) | Rejected(code: Errno)

  function Decode(b: seq<U8>): Decoded {
    if |b| < HEADER_SIZE then Rejected(EMSGSIZE)
    else if Be32(b, 0) != MAGIC then Rejected(EBADMSG)
    else if b[4] != PROTOCOL_VERSION then Rejected(EPROTONOSUPPORT)
    else if !TypeIsValid(b[5]) then Rejected(EBADMSG)
    else if Be16(b, 6) != 0 then Rejected(EBADMSG)
    else if Be32(b, 8) > MAX_PAYLOAD_SIZE then Rejected(EMSGSIZE)
    else Accepted(Header(b[4], b[5], Be32(b, 8)))
  }

  method DecodeHeader(buffer: array<U8>) returns (code: Errno, h: Header)
    ensures Decode(buffer[..]) == if code == OK then Accepted(h) else Rejected(code)
    ensures buffer.Length < 12 ==> code == EMSGSIZE
    ensures buffer.Length >= 12 ==>
              var length := ((buffer[8] as int * 256 + buffer[9]) * 256 + buffer[10]) * 256 + buffer[11];
              && code == (if !(buffer[0] == 0x4E && buffer[1] == 0x46 && buffer[2] == 0x41 && buffer[3] == 0x4E)
                          then EBADMSG
                          else if buffer[4] != 1 then EPROTONOSUPPORT
                          else if !(1 <= buffer[5] <= 2 && buffer[6] == 0 && buffer[7] == 0) then EBADMSG
                          else if length > 4096 then EMSGSIZE
                          else OK)
              && (code == OK ==> h == Header(1, buffer[5], length))
  {
    h := Header(0, 0, 0);
    if buffer.Length < HEADER_SIZE {
      return EMSGSIZE, h;
    }
    var magic := Be32(buffer[0..4], 0);
    var reserved := Be16(buffer[6..8], 0);
    var payloadLength := Be32(buffer[8..12], 0);
    var messageType := buffer[5];
    if magic != MAGIC {
      return EBADMSG, h;
    }
    if buffer[4] != PROTOCOL_VERSION {
      return EPROTONOSUPPORT, h;
    }
    if !TypeIsValid(messageType) {
      return EBADMSG, h;
    }
    if reserved != 0 {
      return EBADMSG, h;
    }
    if payloadLength > MAX_PAYLOAD_SIZE {
      return EMSGSIZE, h;
    }
    return OK, Header(buffer[4], messageType, payloadLength);
  }

  /** Twelve bytes are accepted exactly if they are the encoding of the header returned. */
  lemma DecodeAcceptsEncodings(b: seq<U8>, h: Header)
    requires |b| == HEADER_SIZE
    ensures Decode(b) == Accepted(h) <==> ValidHeader(h) && b == HeaderBytes(h)
  {
    if Decode(b) == Accepted(h) {
      Split32(b, 0);
      Split16(b, 6);
      Split32(b, 8);
      assert b == b[0..4] + [b[4], b[5]] + b[6..8] + b[8..12];
    }
    if ValidHeader(h) && b == HeaderBytes(h) {
      Field32(b, 0, MAGIC);
      Field16(b, 6, 0);
      Field32(b, 8, h.payloadLength);
    }
  }

  // ----- the socket ------------------------------------------------------------------------------------

  type Failure = e: Errno | e != OK witness EIO

  /** What one `send` or `recv` does: move at least one byte, return zero, or fail. */
  datatype Io = Moved(n: nat) | Zero | Failed(error: Failure)

  /** Bytes a call that wants up to `most` moves. */
  function Clamp(n: nat, most: nat): (m: nat)
    requires most > 0
    ensures 1 <= m <= most
  {
    if n == 0 then 1 else if n > most then most else n
  }

  /** Nothing new is in the script. */
  predicate DrawnFrom(after: seq<Io>, before: seq<Io>) {
    forall io :: io in after ==> io in before
  }

  /** Nothing but transfers and interruptions. */
  predicate Calm(script: seq<Io>) {
    forall io :: io in script ==> io.Moved? || io == Failed(EINTR)
  }

  function Transfers(script: seq<Io>): nat {
    if script == [] then 0 else (if script[0].Moved? then 1 else 0) + Transfers(script[1..])
  }

  /** Each transfer moves at least one byte, so this moves `n`. */
  predicate Enough(script: seq<Io>, n: nat) {
    Calm(script) && Transfers(script) >= n
  }

  /** At most `n` transfers of `before` have been used. */
  predicate StillEnough(before: seq<Io>, after: seq<Io>, n: nat) {
    Calm(after) && Transfers(after) + n >= Transfers(before)
  }

  /** Entry `j` of the script ended a call with error `e`, after transfers and
      interruptions only; `closed` is the error for a transfer of nothing. */
  predicate BrokeAt(script: seq<Io>, j: nat, after: seq<Io>, closed: Errno, e: Errno) {
    && j < |script| && Calm(script[..j]) && after == script[j + 1..]
    && e == match script[j] { case Moved(_) => OK case Zero => closed case Failed(error) => error }
    && e != OK && e != EINTR
  }

  ghost predicate Broke(script: seq<Io>, after: seq<Io>, closed: Errno, e: Errno) {
    exists j: nat :: BrokeAt(script, j, after, closed, e)
  }

  /** A call used up `k` transfers and interruptions and nothing else. */
  predicate WentOnTo(script: seq<Io>, k: nat, after: seq<Io>) {
    k <= |script| && Calm(script[..k]) && after == script[k..]
  }

  ghost predicate WentOn(script: seq<Io>, after: seq<Io>) {
    exists k: nat :: WentOnTo(script, k, after)
  }

  /** The same error seen from before those. */
  lemma BrokeLater(script: seq<Io>, mid: seq<Io>, after: seq<Io>, closed: Errno, e: Errno)
    requires WentOn(script, mid) && Broke(mid, after, closed, e)
    ensures Broke(script, after, closed, e)
  {
    var k: nat :| WentOnTo(script, k, mid);
    var j: nat :| BrokeAt(mid, j, after, closed, e);
    assert script[..k + j] == script[..k] + mid[..j];
    assert BrokeAt(script, k + j, after, closed, e);
  }

  lemma CalmGoesOn(script: seq<Io>, j: nat)
    requires j < |script| && Calm(script[..j]) && (script[j].Moved? || script[j] == Failed(EINTR))
    ensures Calm(script[..j + 1])
  {
    assert script[..j + 1] == script[..j] + [script[j]];
  }

  /** One direction of a connection with the scripts of its two ends. */
  class Connection {
    /** Bytes sent and not yet received. */
    var wire: seq<U8>
    var sends: seq<Io>
    var receives: seq<Io>

    constructor (sends: seq<Io>, receives: seq<Io>)
      ensures wire == [] && this.sends == sends && this.receives == receives
    {
      wire := [];
      this.sends, this.receives := sends, receives;
    }

    /** `send(2)`; None if it blocks for good. */
    method SendSome(bytes: seq<U8>) returns (io: Option<Io>)
      requires bytes != []
      modifies this`wire, this`sends
      ensures if old(sends) == [] then io.None? && sends == [] && wire == old(wire)
              else
                && sends == old(sends)[1..]
                && match old(sends)[0]
                   case Moved(n) =>
                     io == Some(Moved(Clamp(n, |bytes|))) && wire == old(wire) + bytes[..Clamp(n, |bytes|)]
                   case Zero => io == Some(Zero) && wire == old(wire)
                   case Failed(e) => io == Some(Failed(e)) && wire == old(wire)
    {
      if sends == [] {
        return None;
      }
      var next := sends[0];
      sends := sends[1..];
      match next {
        case Moved(n) =>
          var m := Clamp(n, |bytes|);
          wire := wire + bytes[..m];
          return Some(Moved(m));
        case _ =>
          return Some(next);
      }
    }

    /** `recv(2)` of up to `most` bytes into `buffer` at `at`. */
    method ReceiveSome(buffer: array<U8>, at: nat, most: nat) returns (io: Option<Io>)
      requires 0 < most && at + most <= buffer.Length
      modifies this`wire, this`receives, buffer
      ensures sends == old(sends)
      ensures io.None? || io.value == Zero || io.value.Failed? ==> buffer[..] == old(buffer[..]) && wire == old(wire)
      ensures io.None? ==> receives == old(receives) && (receives == [] || (receives[0].Moved? && wire == []))
      ensures io.Some? ==> old(receives) != [] && receives == old(receives)[1..]
      ensures io.Some? && !io.value.Moved? ==> io.value == old(receives)[0]
      ensures io.Some? && io.value.Moved? ==>
                var m := io.value.n;
                && old(receives)[0].Moved? && 1 <= m <= most && m <= |old(wire)| && wire == old(wire)[m..]
                && buffer[..] == old(buffer[..at]) + old(wire)[..m] + old(buffer[at + m..])
    {
      if receives == [] {
        return None;
      }
      match receives[0] {
        case Moved(n) =>
          if wire == [] {
            return None;
          }
          var m := Clamp(n, if most < |wire| then most else |wire|);
          PutBytes(buffer, at, wire[..m]);
          assert buffer[..] == old(buffer[..at]) + old(wire)[..m] + old(buffer[at + m..]);
          wire, receives := wire[m..], receives[1..];
          return Some(Moved(m));
        case other =>
          receives := receives[1..];
          return Some(other);
      }
    }

    /** Sends all of `bytes` or stops with an error; None means still blocked.  With
        enough transfers and nothing but interruptions between them it succeeds. */
    method SendAll(bytes: seq<U8>) returns (result: Option<Errno>, ghost sent: nat)
      modifies this`wire, this`sends
      ensures sent <= |bytes| && wire == old(wire) + bytes[..sent]
      ensures result == Some(OK) <==> sent == |bytes|
      ensures result.Some? && result.value != OK ==> Broke(old(sends), sends, EPIPE, result.value)
      ensures result == Some(OK) ==> WentOn(old(sends), sends)
      ensures receives == old(receives)
      ensures Enough(old(sends), |bytes|) ==> result == Some(OK) && StillEnough(old(sends), sends, |bytes|)
    {
      var total := 0;
      ghost var used := 0;
      while total < |bytes|
        invariant 0 <= total <= |bytes| && wire == old(wire) + bytes[..total]
        invariant 0 <= used <= |old(sends)| && sends == old(sends)[used..] && Calm(old(sends)[..used])
        invariant Calm(old(sends)) ==> StillEnough(old(sends), sends, total)
        decreases |sends|
      {
        var io := SendSome(bytes[total..]);
        match io {
          case None => return None, total;
          case Some(Moved(m)) =>
            assert bytes[..total] + bytes[total..][..m] == bytes[..total + m];
            total := total + m;
          case Some(Zero) =>
            assert BrokeAt(old(sends), used, sends, EPIPE, EPIPE);
            return Some(EPIPE), total;
          case Some(Failed(e)) =>
            if e != EINTR {
              assert BrokeAt(old(sends), used, sends, EPIPE, e);
              return Some(e), total;
            }
        }
        CalmGoesOn(old(sends), used);
        used := used + 1;
      }
      assert bytes[..total] == bytes;
      assert WentOnTo(old(sends), used, sends);
      return Some(OK), total;
    }

    /** Receives exactly `length` bytes into the start of `buffer`. */
    method ReceiveExact(buffer: array<U8>, length: nat) returns (result: Option<Errno>, ghost received: nat)
      requires length <= buffer.Length
      modifies this`wire, this`receives, buffer
      ensures received <= length && received <= |old(wire)|
      ensures wire == old(wire)[received..] && buffer[..received] == old(wire)[..received]
      ensures result == Some(OK) <==> received == length
      ensures result.Some? && result.value != OK ==> Broke(old(receives), receives, ECONNRESET, result.value)
      ensures DrawnFrom(receives, old(receives))
      ensures result.None? ==> receives == [] || wire == []
      ensures Enough(old(receives), length) && |old(wire)| >= length ==>
                result == Some(OK) && StillEnough(old(receives), receives, length)
    {
      var total := 0;
      ghost var used := 0;
      while total < length
        invariant 0 <= total <= length && total <= |old(wire)|
        invariant wire == old(wire)[total..] && buffer[..total] == old(wire)[..total]
        invariant 0 <= used <= |old(receives)| && receives == old(receives)[used..]
        invariant Calm(old(receives)[..used])
        invariant Calm(old(receives)) ==> StillEnough(old(receives), receives, total)
        decreases |receives|
      {
        var io := ReceiveSome(buffer, total, length - total);
        match io {
          case None => return None, total;
          case Some(Moved(m)) =>
            assert buffer[..total + m] == old(wire)[..total + m];
            total := total + m;
          case Some(Zero) =>
            assert BrokeAt(old(receives), used, receives, ECONNRESET, ECONNRESET);
            return Some(ECONNRESET), total;
          case Some(Failed(e)) =>
            assert old(receives)[used] == Failed(e);
            if e != EINTR {
              assert BrokeAt(old(receives), used, receives, ECONNRESET, e);
              return Some(e), total;
            }
        }
        CalmGoesOn(old(receives), used);
        used := used + 1;
      }
      return Some(OK), total;
    }
  }

  /** An error that the socket, not the data, is to blame for; an interrupted
      call is never one. */
  predicate CausedBy(e: Errno, script: seq<Io>) {
    (e == ECONNRESET && Zero in script) || (e != OK && e != EINTR && Failed(e) in script)
  }

  // ----- messages ---------------------------------------------------------------------------------------

  datatype Message = Message(messageType: int, payload: seq<U8>)

  predicate ValidMessage(m: Message) {
    TypeIsValid(m.messageType) && |m.payload| <= MAX_PAYLOAD_SIZE
  }

  function HeaderOf(m: Message): Header
    requires ValidMessage(m)
  {
    Header(PROTOCOL_VERSION, m.messageType, |m.payload|)
  }

  /** A message on the wire. */
  function Frame(m: Message): (f: seq<U8>)
    requires ValidMessage(m)
    ensures |f| == HEADER_SIZE + |m.payload|
  {
    HeaderBytes(HeaderOf(m)) + m.payload
  }

  /** A frame is the header's twelve bytes and then the payload. */
  lemma FrameLayout(m: Message)
    requires ValidMessage(m)
    ensures |m.payload| <= 4096 && IsLayout(Frame(m)[..12], m.messageType, |m.payload|) && Frame(m)[12..] == m.payload
  {
    HeaderLayout(HeaderOf(m));
    assert Frame(m)[..12] == HeaderBytes(HeaderOf(m));
  }

  /** Sends one message; an invalid one sends nothing. */
  method SendMessage(c: Connection, m: Message) returns (result: Option<Errno>, ghost sent: nat)
    modifies c`wire, c`sends
    ensures c.receives == old(c.receives)
    ensures !ValidMessage(m) ==>
              && result == Some(if |m.payload| > MAX_PAYLOAD_SIZE then EMSGSIZE else EINVAL)
              && c.wire == old(c.wire) && c.sends == old(c.sends)
    ensures ValidMessage(m) && result.Some? && result.value != OK ==>
              Broke(old(c.sends), c.sends, EPIPE, result.value)
    ensures ValidMessage(m) ==>
              && sent <= |Frame(m)| && c.wire == old(c.wire) + Frame(m)[..sent]
              && (result == Some(OK) <==> sent == |Frame(m)|)
              && (Enough(old(c.sends), |Frame(m)|) ==>
                  result == Some(OK) && StillEnough(old(c.sends), c.sends, |Frame(m)|))
  {
    sent := 0;
    if |m.payload| > MAX_PAYLOAD_SIZE {
      return Some(EMSGSIZE), 0;
    }
    var encoded := new U8[HEADER_SIZE](_ => 0);
    var code := EncodeHeader(Header(PROTOCOL_VERSION, m.messageType, |m.payload|), encoded);
    if code != OK {
      return Some(code), 0;
    }
    assert encoded[..] == HeaderBytes(HeaderOf(m));
    result, sent := c.SendAll(encoded[..]);
    assert HeaderBytes(HeaderOf(m))[..sent] == Frame(m)[..sent];
    if result != Some(OK) {
      return;
    }
    ghost var mid := c.sends;
    ghost var more;
    result, more := SendPayload(c, m, old(c.wire));
    sent := sent + more;
    if result.Some? && result.value != OK {
      BrokeLater(old(c.sends), mid, c.sends, EPIPE, result.value);
    }
  }

  /** Sends the payload after its header; `before` is the stream before the header. */
  method SendPayload(c: Connection, m: Message, ghost before: seq<U8>) returns (result: Option<Errno>, ghost sent: nat)
    requires ValidMessage(m) && c.wire == before + HeaderBytes(HeaderOf(m))
    modifies c`wire, c`sends
    ensures c.receives == old(c.receives)
    ensures sent <= |m.payload| && c.wire == before + Frame(m)[..HEADER_SIZE + sent]
    ensures result == Some(OK) <==> sent == |m.payload|
    ensures result.Some? && result.value != OK ==> Broke(old(c.sends), c.sends, EPIPE, result.value)
    ensures Enough(old(c.sends), |m.payload|) ==>
              result == Some(OK) && StillEnough(old(c.sends), c.sends, |m.payload|)
  {
    result, sent := Some(OK), 0;
    if m.payload != [] {
      result, sent := c.SendAll(m.payload);
    }
    assert HeaderBytes(HeaderOf(m)) + m.payload[..sent] == Frame(m)[..HEADER_SIZE + sent];
  }

  /** The stream starts with a whole frame of a message that fits the buffer. */
  ghost predicate Arriving(wire: seq<U8>, m: Message, space: nat) {
    ValidMessage(m) && Frame(m) <= wire && |m.payload| <= space
  }

  /** Receives and decodes twelve bytes. */
  method ReceiveHeader(c: Connection) returns (result: Option<Errno>, h: Header)
    modifies c`wire, c`receives
    ensures DrawnFrom(c.receives, old(c.receives))
    ensures result == Some(OK) ==>
              && |old(c.wire)| >= HEADER_SIZE && Decode(old(c.wire)[..HEADER_SIZE]) == Accepted(h)
              && c.wire == old(c.wire)[HEADER_SIZE..]
    ensures result.Some? && result.value != OK ==>
              || CausedBy(result.value, old(c.receives))
              || (|old(c.wire)| >= HEADER_SIZE && Decode(old(c.wire)[..HEADER_SIZE]) == Rejected(result.value))
    ensures Enough(old(c.receives), HEADER_SIZE) && |old(c.wire)| >= HEADER_SIZE ==>
              && StillEnough(old(c.receives), c.receives, HEADER_SIZE) && result.Some?
              && (Decode(old(c.wire)[..HEADER_SIZE]).Accepted? ==> result == Some(OK))
  {
    h := Header(0, 0, 0);
    var encoded := new U8[HEADER_SIZE](_ => 0);
    ghost var got;
    result, got := c.ReceiveExact(encoded, HEADER_SIZE);
    if result != Some(OK) {
      return;
    }
    assert encoded[..] == old(c.wire)[..HEADER_SIZE];
    var code;
    code, h := DecodeHeader(encoded);
    result := Some(code);
  }

  /** Receives one message.  Success takes exactly one frame off the stream; if
      a whole frame is there, nothing but the socket can make it fail, and enough
      transfers make it succeed.  A failed call leaves the caller's `header` alone. */
  method ReceiveMessage(c: Connection, header: Header, buffer: array<U8>, ghost expected: Option<Message>)
    returns (result: Option<Errno>, h: Header)
    modifies c`wire, c`receives, buffer
    ensures DrawnFrom(c.receives, old(c.receives)) && (result != Some(OK) ==> h == header)
    ensures result == Some(OK) ==>
              && ValidHeader(h) && h.payloadLength <= buffer.Length
              && var m := Message(h.messageType, buffer[..h.payloadLength]); old(c.wire) == Frame(m) + c.wire
    ensures expected.Some? && Arriving(old(c.wire), expected.value, buffer.Length)
            && result.Some? && result.value != OK ==>
              CausedBy(result.value, old(c.receives))
    ensures expected.Some? && Arriving(old(c.wire), expected.value, buffer.Length) && result == Some(OK) ==>
              && Message(h.messageType, buffer[..h.payloadLength]) == expected.value
              && old(c.wire) == Frame(expected.value) + c.wire
    ensures expected.Some? && Arriving(old(c.wire), expected.value, buffer.Length)
            && Enough(old(c.receives), |Frame(expected.value)|) ==>
              result == Some(OK) && StillEnough(old(c.receives), c.receives, |Frame(expected.value)|)
  {
    ghost var before := c.wire;
    h := header;
    var decoded;
    result, decoded := ReceiveHeader(c);
    if expected.Some? && Arriving(before, expected.value, buffer.Length) {
      ExpectedArrives(before, expected.value, buffer.Length);
    }
    if result != Some(OK) {
      return;
    }
    DecodeAcceptsEncodings(before[..HEADER_SIZE], decoded);
    if decoded.payloadLength > buffer.Length {
      return Some(EMSGSIZE), h;
    }
    result := ReceivePayload(c, decoded, buffer, before);
    if result == Some(OK) {
      h := decoded;
    }
  }

  /** Receives the payload that a header announces; `all` is the stream before the header. */
  method ReceivePayload(c: Connection, h: Header, buffer: array<U8>, ghost all: seq<U8>) returns (result: Option<Errno>)
    requires ValidHeader(h) && h.payloadLength <= buffer.Length
    requires |all| >= HEADER_SIZE && all[..HEADER_SIZE] == HeaderBytes(h) && c.wire == all[HEADER_SIZE..]
    modifies c`wire, c`receives, buffer
    ensures DrawnFrom(c.receives, old(c.receives))
    ensures result == Some(OK) ==> all == Frame(Message(h.messageType, buffer[..h.payloadLength])) + c.wire
    ensures result.Some? && result.value != OK ==> CausedBy(result.value, old(c.receives))
    ensures Enough(old(c.receives), h.payloadLength) && |old(c.wire)| >= h.payloadLength ==>
              result == Some(OK) && StillEnough(old(c.receives), c.receives, h.payloadLength)
  {
    result := Some(OK);
    if h.payloadLength > 0 {
      ghost var got;
      result, got := c.ReceiveExact(buffer, h.payloadLength);
      if result != Some(OK) {
        return;
      }
    }
    FrameArrived(all, h, buffer[..h.payloadLength], c.wire);
  }

  lemma ExpectedArrives(wire: seq<U8>, m: Message, space: nat)
    requires Arriving(wire, m, space)
    ensures Decode(wire[..HEADER_SIZE]) == Accepted(HeaderOf(m))
            && wire[HEADER_SIZE..HEADER_SIZE + |m.payload|] == m.payload
    ensures wire == Frame(m) + wire[HEADER_SIZE + |m.payload|..]
  {
    assert forall i :: 0 <= i < |Frame(m)| ==> Frame(m)[i] == wire[i];
    assert wire[..HEADER_SIZE] == HeaderBytes(HeaderOf(m));
    DecodeAcceptsEncodings(wire[..HEADER_SIZE], HeaderOf(m));
  }

  lemma FrameArrived(wire: seq<U8>, h: Header, payload: seq<U8>, rest: seq<U8>)
    requires ValidHeader(h) && |wire| >= HEADER_SIZE + h.payloadLength && wire[..HEADER_SIZE] == HeaderBytes(h)
    requires payload == wire[HEADER_SIZE..][..h.payloadLength] && rest == wire[HEADER_SIZE..][h.payloadLength..]
    ensures wire == Frame(Message(h.messageType, payload)) + rest
  {
    assert HeaderOf(Message(h.messageType, payload)) == h;
    assert wire == wire[..HEADER_SIZE] + (payload + rest);
  }

  // ----- whole conversations ------------------------------------------------------------------------------

  predicate AllValid(ms: seq<Message>) {
    forall i :: 0 <= i < |ms| ==> ValidMessage(ms[i])
  }

  /** The messages back to back. */
  function Stream(ms: seq<Message>): seq<U8>
    requires AllValid(ms)
  {
    if ms == [] then [] else Frame(ms[0]) + Stream(ms[1..])
  }

  lemma {:induction false} StreamAppends(ms: seq<Message>, m: Message)
    requires AllValid(ms) && ValidMessage(m)
    ensures Stream(ms + [m]) == Stream(ms) + Frame(m)
  {
    if ms == [] {
      assert [m][1..] == [];
    } else {
      assert (ms + [m])[1..] == ms[1..] + [m];
      StreamAppends(ms[1..], m);
      assert Frame(ms[0]) + (Stream(ms[1..]) + Frame(m)) == Frame(ms[0]) + Stream(ms[1..]) + Frame(m);
    }
  }

  /** No frame is the beginning of another message's frame. */
  lemma FramesAreSelfDelimiting(m: Message, m': Message, rest: seq<U8>, rest': seq<U8>)
    requires ValidMessage(m) && ValidMessage(m') && Frame(m) + rest == Frame(m') + rest'
    ensures m == m' && rest == rest'
  {
    var all := Frame(m) + rest;
    assert all[..HEADER_SIZE] == HeaderBytes(HeaderOf(m));
    assert (Frame(m') + rest')[..HEADER_SIZE] == HeaderBytes(HeaderOf(m'));
    DecodeAcceptsEncodings(all[..HEADER_SIZE], HeaderOf(m));
    DecodeAcceptsEncodings(all[..HEADER_SIZE], HeaderOf(m'));
    assert all[HEADER_SIZE..|Frame(m)|] == m.payload;
    assert (Frame(m') + rest')[HEADER_SIZE..|Frame(m)|] == m'.payload;
    assert all[|Frame(m)|..] == rest;
    assert (Frame(m') + rest')[|Frame(m)|..] == rest';
  }

  /** So a byte stream is the stream of at most one list of messages. */
  lemma {:induction false} StreamIsUnambiguous(ms: seq<Message>, ms': seq<Message>)
    requires AllValid(ms) && AllValid(ms') && Stream(ms) == Stream(ms')
    ensures ms == ms'
    decreases |ms|
  {
    if ms != [] && ms' != [] {
      FramesAreSelfDelimiting(ms[0], ms'[0], Stream(ms[1..]), Stream(ms'[1..]));
      StreamIsUnambiguous(ms[1..], ms'[1..]);
      assert ms == [ms[0]] + ms[1..] && ms' == [ms'[0]] + ms'[1..];
    }
  }

  lemma Cancel(a: seq<U8>, x: seq<U8>, y: seq<U8>)
    requires a + x == a + y
    ensures x == y
  {
    assert (a + x)[|a|..] == x && (a + y)[|a|..] == y;
  }

  /** Receives as many messages as were sent. */
  method ReceiveMessages(c: Connection, count: nat, ghost ms: seq<Message>)
    returns (result: Option<Errno>, received: seq<Message>)
    requires AllValid(ms) && |ms| == count && c.wire == Stream(ms)
    modifies c`wire, c`receives
    ensures result == Some(OK) ==> received == ms && c.wire == []
    ensures result.Some? && result.value != OK ==> CausedBy(result.value, old(c.receives))
  {
    var buffer := new U8[MAX_PAYLOAD_SIZE](_ => 0);
    result, received := Some(OK), [];
    var i := 0;
    while i < count
      invariant 0 <= i <= count && result == Some(OK) && received == ms[..i]
      invariant c.wire == Stream(ms[i..])
      invariant DrawnFrom(c.receives, old(c.receives))
    {
      assert ms[i..][1..] == ms[i + 1..] && c.wire == Frame(ms[i]) + Stream(ms[i + 1..]);
      assert Frame(ms[i]) <= c.wire;
      var h := Header(0, 0, 0);
      result, h := ReceiveMessage(c, h, buffer, Some(ms[i]));
      if result != Some(OK) {
        return;
      }
      received := received + [Message(h.messageType, buffer[..h.payloadLength])];
      Cancel(Frame(ms[i]), c.wire, Stream(ms[i + 1..]));
      i := i + 1;
    }
  }

  // ----- two ends taking turns --------------------------------------------------------------------------

  datatype Turn = SENDING | RECEIVING

  function CountTurns(turns: seq<Turn>, t: Turn): nat {
    if turns == [] then 0 else CountTurns(turns[..|turns| - 1], t) + if turns[|turns| - 1] == t then 1 else 0
  }

  function Least(x: nat, y: nat): nat {
    if x < y then x else y
  }

  /** No receive comes before its send. */
  predicate Ordered(turns: seq<Turn>) {
    forall k :: 0 <= k <= |turns| ==> CountTurns(turns[..k], RECEIVING) <= CountTurns(turns[..k], SENDING)
  }

  lemma OneTurnMore(turns: seq<Turn>, turn: Turn)
    ensures forall t :: CountTurns(turns + [turn], t) == CountTurns(turns, t) + if turn == t then 1 else 0
  {
    assert (turns + [turn])[..|turns|] == turns;
  }

  /** The messages that are under way: all but the first `received` of the first `sent`. */
  function UnderWay(ms: seq<Message>, received: nat, sent: nat): seq<U8>
    requires AllValid(ms) && received <= sent <= |ms|
  {
    Stream(ms[received..sent])
  }

  lemma SentOneMore(ms: seq<Message>, received: nat, sent: nat)
    requires AllValid(ms) && received <= sent < |ms|
    ensures UnderWay(ms, received, sent + 1) == UnderWay(ms, received, sent) + Frame(ms[sent])
  {
    assert ms[received..sent + 1] == ms[received..sent] + [ms[sent]];
    StreamAppends(ms[received..sent], ms[sent]);
  }

  lemma ReceivedOneMore(ms: seq<Message>, received: nat, sent: nat)
    requires AllValid(ms) && received < sent <= |ms|
    ensures UnderWay(ms, received, sent) == Frame(ms[received]) + UnderWay(ms, received + 1, sent)
  {
    assert ms[received..sent][1..] == ms[received + 1..sent];
  }

  /** One end sends the next message, if there is one. */
  method SendNext(c: Connection, ms: seq<Message>, sent: nat, ghost received: nat)
    returns (result: Option<Errno>, sent': nat)
    requires AllValid(ms) && received <= sent <= |ms| && c.wire == UnderWay(ms, received, sent)
    modifies c`wire, c`sends
    ensures c.receives == old(c.receives)
    ensures result == Some(OK) ==> sent' == Least(sent + 1, |ms|) && c.wire == UnderWay(ms, received, sent')
    ensures Enough(old(c.sends), |UnderWay(ms, sent, |ms|)|) ==>
              result == Some(OK) && Enough(c.sends, |UnderWay(ms, sent', |ms|)|)
  {
    result, sent' := Some(OK), sent;
    if sent < |ms| {
      SentOneMore(ms, received, sent);
      ReceivedOneMore(ms, sent, |ms|);
      ghost var moved;
      result, moved := SendMessage(c, ms[sent]);
      if result == Some(OK) {
        sent' := sent + 1;
      }
    }
  }

  /** The other end receives one, if it does not have all. */
  method ReceiveNext(c: Connection, buffer: array<U8>, ghost ms: seq<Message>, count: nat, received: seq<Message>,
                     ghost sent: nat)
    returns (result: Option<Errno>, received': seq<Message>)
    requires AllValid(ms) && count == |ms| && |received| <= sent <= |ms| && received == ms[..|received|]
    requires c.wire == UnderWay(ms, |received|, sent) && buffer.Length == MAX_PAYLOAD_SIZE
    modifies c`wire, c`receives, buffer
    ensures c.sends == old(c.sends)
    ensures result == Some(OK) ==>
              && |received'| == Least(|received| + 1, |ms|) && |received'| <= sent
              && received' == ms[..|received'|] && c.wire == UnderWay(ms, |received'|, sent)
    ensures Enough(old(c.receives), |UnderWay(ms, |received|, |ms|)|) && (|received| < sent || sent == |ms|) ==>
              result == Some(OK) && Enough(c.receives, |UnderWay(ms, |received'|, |ms|)|)
  {
    result, received' := Some(OK), received;
    if |received| < count {
      ghost var r := |received|;
      if r < sent {
        ReceivedOneMore(ms, r, sent);
        ReceivedOneMore(ms, r, |ms|);
      }
      var h := Header(0, 0, 0);
      result, h := ReceiveMessage(c, h, buffer, if r < sent then Some(ms[r]) else None);
      if result == Some(OK) {
        received' := received + [Message(h.messageType, buffer[..h.payloadLength])];
        if r < sent {
          Cancel(Frame(ms[r]), c.wire, UnderWay(ms, r + 1, sent));
        }
      }
    }
  }

  /** Where a conversation stands after some turns. */
  ghost predicate Flowing(ms: seq<Message>, turns: seq<Turn>, sent: nat, received: seq<Message>, wire: seq<U8>) {
    && AllValid(ms) && sent == Least(CountTurns(turns, SENDING), |ms|)
    && |received| == Least(CountTurns(turns, RECEIVING), |ms|)
    && |received| <= sent && received == ms[..|received|] && wire == UnderWay(ms, |received|, sent)
  }

  /** What is left of the scripts is enough for what is left to send and receive. */
  ghost predicate WellSupplied(ms: seq<Message>, sends: seq<Io>, receives: seq<Io>, sent: nat, received: nat)
    requires AllValid(ms) && received <= sent <= |ms|
  {
    Enough(sends, |UnderWay(ms, sent, |ms|)|) && Enough(receives, |UnderWay(ms, received, |ms|)|)
  }

  method TakeTurn(c: Connection, buffer: array<U8>, ms: seq<Message>, turn: Turn, ghost turns: seq<Turn>,
                  sent: nat, received: seq<Message>)
    returns (result: Option<Errno>, sent': nat, received': seq<Message>)
    requires Flowing(ms, turns, sent, received, c.wire) && buffer.Length == MAX_PAYLOAD_SIZE
    modifies c, buffer
    ensures result == Some(OK) ==> Flowing(ms, turns + [turn], sent', received', c.wire)
    ensures WellSupplied(ms, old(c.sends), old(c.receives), sent, |received|)
            && CountTurns(turns + [turn], RECEIVING) <= CountTurns(turns + [turn], SENDING) ==>
              result == Some(OK) && WellSupplied(ms, c.sends, c.receives, sent', |received'|)
  {
    OneTurnMore(turns, turn);
    sent', received' := sent, received;
    if turn == SENDING {
      result, sent' := SendNext(c, ms, sent, |received|);
    } else {
      result, received' := ReceiveNext(c, buffer, ms, |ms|, received, sent);
    }
  }

  /** However sends and receives take turns and the two scripts cut up the transfers,
      what has been received is the beginning of what was sent, and the stream holds
      exactly the rest.  If no receive comes before its send and the scripts only
      interrupt, the conversation succeeds. */
  method Converse(c: Connection, ms: seq<Message>, turns: seq<Turn>)
    returns (result: Option<Errno>, sent: nat, received: seq<Message>)
    requires AllValid(ms) && c.wire == []
    modifies c
    ensures result == Some(OK) ==> Flowing(ms, turns, sent, received, c.wire)
    ensures Ordered(turns) && Enough(old(c.sends), |Stream(ms)|) && Enough(old(c.receives), |Stream(ms)|) ==>
              result == Some(OK)
  {
    var buffer := new U8[MAX_PAYLOAD_SIZE](_ => 0);
    result, sent, received := Some(OK), 0, [];
    ghost var supplied := Enough(c.sends, |Stream(ms)|) && Enough(c.receives, |Stream(ms)|);
    var k := 0;
    assert ms[0..|ms|] == ms && ms[0..0] == [] && turns[..0] == [];
    while k < |turns|
      invariant 0 <= k <= |turns| && result == Some(OK)
      invariant Flowing(ms, turns[..k], sent, received, c.wire)
      invariant supplied && Ordered(turns) ==> WellSupplied(ms, c.sends, c.receives, sent, |received|)
    {
      assert turns[..k + 1] == turns[..k] + [turns[k]];
      result, sent, received := TakeTurn(c, buffer, ms, turns[k], turns[..k], sent, received);
      if result != Some(OK) {
        return;
      }
      k := k + 1;
    }
    assert turns[..k] == turns;
  }
}
