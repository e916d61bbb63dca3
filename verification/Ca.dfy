/** EPICS Channel Access messages (internal/epics/ca/ca.go): parsing, interpretation and building. */
module Ca {
  import opened Bytes
  import opened NetIp
  import opened Wrappers
  import opened Stream

  const DEFAULT_SERVER_PORT: u16 := 5064
  const DEFAULT_REPEATER_PORT: u16 := 5065
  const HEADER_LEN := 16
  const EXTENDED_HEADER_LEN := 24
  const EXTENDED_MARKER: u16 := 0xffff
  const PAYLOAD_ALIGN := 8
  const MAX_PV_NAME_LEN := 512
  const MINOR_REVISION: u16 := 13
  const ANY_SENDER: u32 := 0xffff_ffff

  const CMD_VERSION: u16 := 0
  const CMD_SEARCH: u16 := 6
  const CMD_ERROR: u16 := 11
  const CMD_BEACON: u16 := 13
  const CMD_NOT_FOUND: u16 := 14
  const CMD_REPEATER_CONFIRM: u16 := 17
  const CMD_CREATE_CHAN: u16 := 18
  const CMD_CLIENT_NAME: u16 := 20
  const CMD_HOST_NAME: u16 := 21
  const CMD_ACCESS_RIGHTS: u16 := 22
  const CMD_ECHO: u16 := 23
  const CMD_REPEATER_REG: u16 := 24
  const CMD_CREATE_CHAN_FAIL: u16 := 26
  const CMD_SERVER_DISCONN: u16 := 27
  const LAST_COMMAND: u16 := 27

  const DO_REPLY: u16 := 10
  const DONT_REPLY: u16 := 5

  const UDP_COMMANDS: set<u16> := {CMD_VERSION, CMD_SEARCH, CMD_NOT_FOUND, CMD_BEACON, CMD_REPEATER_REG, CMD_REPEATER_CONFIRM, CMD_ECHO}

  datatype Error = Truncated | UnknownCommand | PayloadOverrun | NotCa

  datatype Header = Header(command: u16, payloadSize: u32, dataType: u16, count: u32, cid: u32, available: u32, headerLen: nat)

  datatype Message = Message(h: Header, payload: seq<byte>)

  // ---------------------------------------------------------------- parsing

  function ParseHeader(b: seq<byte>): Result<Header, Error> {
    if |b| < HEADER_LEN then Err(Truncated)
    else
      var h := Header(U16(b, 0), U16(b, 2), U16(b, 4), U16(b, 6), U32(b, 8), U32(b, 12), HEADER_LEN);
      if h.payloadSize == EXTENDED_MARKER && h.count == 0 && |b| < EXTENDED_HEADER_LEN then Err(Truncated)
      else
        var h := if h.payloadSize == EXTENDED_MARKER && h.count == 0
                 then h.(payloadSize := U32(b, 16), count := U32(b, 20), headerLen := EXTENDED_HEADER_LEN)
                 else h;
        if h.command > LAST_COMMAND then Err(UnknownCommand) else Ok(h)
  }

  /** The message at the start of the buffer. */
  function ParseOne(b: seq<byte>, udp: bool): Result<Message, Error> {
    match ParseHeader(b)
    case Err(e) => Err(e)
    case Ok(h) =>
      if udp && h.command !in UDP_COMMANDS then Err(NotCa)
      else if h.headerLen + h.payloadSize > |b| then Err(PayloadOverrun)
      else Ok(Message(h, b[h.headerLen..h.headerLen + h.payloadSize]))
  }

  function EncodeHeader(h: Header): seq<byte>
    requires ValidHeader(h)
  {
    if h.headerLen == HEADER_LEN
    then HeaderBytes(h.command, h.payloadSize, h.dataType, h.count, h.cid, h.available)
    else HeaderBytes(h.command, EXTENDED_MARKER, h.dataType, 0, h.cid, h.available) + Put32(h.payloadSize) + Put32(h.count)
  }

  function HeaderBytes(command: u16, size: u16, dataType: u16, count: u16, cid: u32, available: u32): (r: seq<byte>)
    ensures |r| == HEADER_LEN
  {
    Put16(command) + Put16(size) + Put16(dataType) + Put16(count) + Put32(cid) + Put32(available)
  }

  /** A header in standard form never looks extended. */
  predicate ValidHeader(h: Header) {
    && h.command <= LAST_COMMAND
    && (h.headerLen == HEADER_LEN || h.headerLen == EXTENDED_HEADER_LEN)
    && (h.headerLen == HEADER_LEN ==>
          h.payloadSize < 0x1_0000 && h.count < 0x1_0000 && !(h.payloadSize == EXTENDED_MARKER && h.count == 0))
  }

  predicate ValidMessage(m: Message, udp: bool) {
    ValidHeader(m.h) && |m.payload| == m.h.payloadSize && (udp ==> m.h.command in UDP_COMMANDS)
  }

  function Encode(m: Message): seq<byte> {
    if ValidHeader(m.h) then EncodeHeader(m.h) + m.payload else []
  }

  function MessageCodec(udp: bool): Codec<Message, Error> {
    Codec(b => ParseOne(b, udp), Encode, m => ValidMessage(m, udp))
  }

  /** The six fixed fields of a header are what its sixteen bytes say. */
  lemma HeaderFields(b: seq<byte>, command: u16, size: u16, dataType: u16, count: u16, cid: u32, available: u32)
    requires |b| >= HEADER_LEN
    ensures HeaderBytes(command, size, dataType, count, cid, available) <= b <==>
            && U16(b, 0) == command && U16(b, 2) == size && U16(b, 4) == dataType && U16(b, 6) == count
            && U32(b, 8) == cid && U32(b, 12) == available
  {
    U16Within(b, 0, command);
    U16Within(b, 2, size);
    U16Within(b, 4, dataType);
    U16Within(b, 6, count);
    U32Within(b, 8, cid);
    U32Within(b, 12, available);
    HeaderPieces(command, size, dataType, count, cid, available);
    var e := HeaderBytes(command, size, dataType, count, cid, available);
    assert e == e[0..2] + e[2..4] + e[4..6] + e[6..8] + e[8..12] + e[12..16];
    assert b[..16] == b[0..2] + b[2..4] + b[4..6] + b[6..8] + b[8..12] + b[12..16];
    if e <= b {
      assert forall i, j :: 0 <= i <= j <= 16 ==> e[i..j] == b[i..j];
    }
  }

  lemma HeaderPieces(command: u16, size: u16, dataType: u16, count: u16, cid: u32, available: u32)
    ensures var e := HeaderBytes(command, size, dataType, count, cid, available);
            && e[0..2] == Put16(command) && e[2..4] == Put16(size) && e[4..6] == Put16(dataType)
            && e[6..8] == Put16(count) && e[8..12] == Put32(cid) && e[12..16] == Put32(available)
  {
    var e := HeaderBytes(command, size, dataType, count, cid, available);
    var p2 := Put16(command) + Put16(size);
    var p3 := p2 + Put16(dataType);
    var p4 := p3 + Put16(count);
    var p5 := p4 + Put32(cid);
    assert e == p5 + Put32(available);
    assert e[..12] == p5 && e[..8] == p4 && e[..6] == p3 && e[..4] == p2;
    assert e[12..16] == Put32(available) && p5[8..] == Put32(cid) && p4[6..] == Put16(count) && p3[4..] == Put16(dataType);
    assert e[8..12] == p5[8..] && e[6..8] == p4[6..] && e[4..6] == p3[4..] && e[2..4] == p2[2..];
  }

  /** A header is read exactly where its encoding stands. */
  lemma HeaderReads(b: seq<byte>, h: Header)
    ensures ParseHeader(b) == Ok(h) <==> ValidHeader(h) && EncodeHeader(h) <= b
  {
    if |b| >= HEADER_LEN {
      HeaderFields(b, U16(b, 0), U16(b, 2), U16(b, 4), U16(b, 6), U32(b, 8), U32(b, 12));
      if ValidHeader(h) {
        if h.headerLen == HEADER_LEN {
          HeaderFields(b, h.command, h.payloadSize, h.dataType, h.count, h.cid, h.available);
        } else if |b| >= EXTENDED_HEADER_LEN {
          HeaderFields(b, h.command, EXTENDED_MARKER, h.dataType, 0, h.cid, h.available);
          ExtendedFields(b, HeaderBytes(h.command, EXTENDED_MARKER, h.dataType, 0, h.cid, h.available), h.payloadSize, h.count);
        }
      }
    }
  }

  lemma ExtendedFields(b: seq<byte>, fixed: seq<byte>, size: u32, count: u32)
    requires |b| >= EXTENDED_HEADER_LEN && |fixed| == HEADER_LEN
    ensures fixed + Put32(size) + Put32(count) <= b <==> fixed <= b && U32(b, 16) == size && U32(b, 20) == count
  {
    U32Within(b, 16, size);
    U32Within(b, 20, count);
    var e := fixed + Put32(size) + Put32(count);
    assert e[..16] == fixed && e[16..20] == Put32(size) && e[20..24] == Put32(count);
    assert b[..24] == b[..16] + b[16..20] + b[20..24];
    if e <= b {
      assert e == b[..24];
    }
  }

  /** One message is read exactly where the encoding of a valid message stands. */
  lemma MessageReads(b: seq<byte>, udp: bool, m: Message)
    ensures ParseOne(b, udp) == Ok(m) <==> ValidMessage(m, udp) && Encode(m) <= b
  {
    HeaderReads(b, m.h);
    if ValidMessage(m, udp) {
      var e := EncodeHeader(m.h);
      assert |e| == m.h.headerLen;
      ConcatPrefix(e, m.payload, b);
    }
  }

  /** The CA framing satisfies the stream laws. */
  lemma CodecSound(udp: bool)
    ensures Sound(MessageCodec(udp))
  {
    var c := MessageCodec(udp);
    forall b, m ensures Reads(c, b, m) {
      MessageReads(b, udp, m);
    }
  }

  /** What the bytes of a datagram or segment parse to. */
  ghost function ParseSpec(b: seq<byte>, udp: bool): Parsed<Message, Error> {
    CodecSound(udp);
    Stream.Parse(MessageCodec(udp), b, Truncated)
  }

  lemma EncodedSize(m: Message)
    requires ValidHeader(m.h)
    ensures |Encode(m)| == m.h.headerLen + |m.payload|
  {
  }

  method Parse(b: seq<byte>, udp: bool) returns (out: seq<Message>, err: Option<Error>)
    ensures Parsed(out, err) == ParseSpec(b, udp)
  {
    CodecSound(udp);
    ghost var c := MessageCodec(udp);
    out := [];
    var off := 0;
    LoopStarts(c, b);
    while off < |b|
      invariant 0 <= off && ParsedTo(c, b, off, out)
    {
      LoopStops(c, b, off, out, Truncated);
      match ParseOne(b[off..], udp)
      case Err(e) =>
        return out, Some(e);
      case Ok(m) =>
        MessageReads(b[off..], udp, m);
        EncodedSize(m);
        var end := off + m.h.headerLen + |m.payload|;
        LoopAdvances(c, b, off, out, m, end);
        out := out + [m];
        off := end;
    }
    LoopStops(c, b, off, out, Truncated);
    if |out| == 0 {
      return [], Some(Truncated);
    }
    err := None;
  }

  // ---------------------------------------------------------------- interpretation

  datatype Transport = Udp | Tcp
  datatype Direction = ToServer | FromServer

  /** Fields not applicable to the command keep their zero. */
  datatype Observation = Observation(
    msg: Message,
    transport: Transport,
    src: Addr,
    dst: Addr,
    srcPort: u16,
    dstPort: u16,
    direction: Direction,
    pvName: seq<byte>,
    searchId: u32,
    replyWanted: bool,
    minorVersion: u16,
    serverPort: u16,
    serverIp: Addr,
    beaconId: u32,
    text: seq<byte>,
    rights: u32,
    sid: u32)

  datatype Kind = Search | SearchResponse | NotFound | Beacon | CreateChannel | CreateChannelResponse | AccessRights | OtherKind(command: u16)

  function KindOf(o: Observation): Kind {
    var c := o.msg.h.command;
    if c == CMD_SEARCH then (if o.direction == FromServer then SearchResponse else Search)
    else if c == CMD_CREATE_CHAN then (if o.direction == FromServer then CreateChannelResponse else CreateChannel)
    else if c == CMD_NOT_FOUND then NotFound
    else if c == CMD_BEACON then Beacon
    else if c == CMD_ACCESS_RIGHTS then AccessRights
    else OtherKind(c)
  }

  /** A request carries a payload and repeats its id in both id fields under a reply flag. */
  predicate IsSearchResponse(m: Message) {
    if |m.payload| > 0 && m.h.cid == m.h.available && (m.h.dataType == DO_REPLY || m.h.dataType == DONT_REPLY) then false
    else m.h.count == 0 && (|m.payload| == 0 || |m.payload| == PAYLOAD_ALIGN)
  }

  function DirectionByPort(dstPort: u16, serverPort: u16): Direction {
    if dstPort == serverPort then ToServer else FromServer
  }

  function UntilNul(b: seq<byte>): (r: seq<byte>)
    ensures r <= b && 0 !in r
  {
    if b == [] || b[0] == 0 then [] else [b[0]] + UntilNul(b[1..])
  }

  predicate Printable(b: seq<byte>) {
    forall c :: c in b ==> 0x20 <= c <= 0x7e
  }

  /** What a name field says: its bytes before any NUL, unless there are too many or one cannot be printed. */
  function CString(b: seq<byte>): seq<byte> {
    var s := UntilNul(b);
    if |s| > MAX_PV_NAME_LEN || !Printable(s) then [] else s
  }

  function Low16(v: u32): u16 {
    v % 0x1_0000
  }

  function Interpret(m: Message, transport: Transport, src: Addr, dst: Addr, srcPort: u16, dstPort: u16, serverPort: u16): Observation {
    var o := Observation(m, transport, src, dst, srcPort, dstPort, ToServer, [], 0, false, 0, 0, Invalid, 0, [], 0, 0);
    var h := m.h;
    if h.command == CMD_SEARCH then
      if IsSearchResponse(m) then
        o.(direction := FromServer, searchId := h.available, serverPort := h.dataType,
           serverIp := if h.cid != ANY_SENDER then V4(h.cid) else src,
           minorVersion := if |m.payload| >= 2 then U16(m.payload, 0) else 0)
      else
        o.(direction := ToServer, searchId := h.cid, pvName := CString(m.payload),
           replyWanted := h.dataType == DO_REPLY, minorVersion := Low16(h.count))
    else if h.command == CMD_NOT_FOUND then
      o.(direction := FromServer, searchId := h.available, serverIp := src)
    else if h.command == CMD_BEACON then
      o.(direction := FromServer, minorVersion := h.dataType, serverPort := Low16(h.count), beaconId := h.cid,
         serverIp := if h.available != 0 then V4(h.available) else src)
    else if h.command == CMD_VERSION then
      o.(minorVersion := Low16(h.count), direction := DirectionByPort(dstPort, serverPort))
    else if h.command == CMD_REPEATER_REG || h.command == CMD_REPEATER_CONFIRM then
      o.(direction := if h.command == CMD_REPEATER_CONFIRM then FromServer else ToServer,
         serverIp := if h.available != 0 then V4(h.available) else Invalid)
    else if h.command == CMD_CREATE_CHAN then
      if |m.payload| > 0 then
        o.(direction := ToServer, pvName := CString(m.payload), minorVersion := Low16(h.available))
      else o.(direction := FromServer, sid := h.available)
    else if h.command == CMD_CLIENT_NAME || h.command == CMD_HOST_NAME then
      o.(direction := ToServer, text := CString(m.payload))
    else if h.command == CMD_ACCESS_RIGHTS then o.(direction := FromServer, rights := h.available)
    else if h.command == CMD_CREATE_CHAN_FAIL || h.command == CMD_SERVER_DISCONN || h.command == CMD_ERROR then
      o.(direction := FromServer)
    else o.(direction := DirectionByPort(dstPort, serverPort))
  }

  /** A first header that only Channel Access sends. */
  predicate Probable(b: seq<byte>) {
    match ParseHeader(b)
    case Err(_) => false
    case Ok(h) =>
      if h.command == CMD_SEARCH then
        (h.dataType == DO_REPLY || h.dataType == DONT_REPLY || h.cid == ANY_SENDER) && h.payloadSize % PAYLOAD_ALIGN == 0
      else if h.command == CMD_BEACON then h.payloadSize == 0 && h.count != 0 && h.count < 65536
      else h.command == CMD_VERSION && h.payloadSize == 0 && h.count <= 64
  }

  /** No message decodes to a longer or unprintable name, so one that was sent never comes back. */
  lemma NamesAreShort(m: Message, t: Transport, src: Addr, dst: Addr, sp: u16, dp: u16, port: u16)
    ensures var name := Interpret(m, t, src, dst, sp, dp, port).pvName; |name| <= MAX_PV_NAME_LEN && Printable(name)
  {
  }

  // ---------------------------------------------------------------- building

  function Zeros(n: nat): (r: seq<byte>)
    ensures |r| == n
  {
    seq(n, _ => 0)
  }

  /** The name with one to eight NULs, up to a multiple of eight. */
  function Padded(pv: seq<byte>): (r: seq<byte>)
    ensures |r| % PAYLOAD_ALIGN == 0 && |pv| < |r| <= |pv| + PAYLOAD_ALIGN
  {
    pv + Zeros(PAYLOAD_ALIGN - |pv| % PAYLOAD_ALIGN)
  }

  function SearchBytes(id: u32, pv: seq<byte>, replyWanted: bool): seq<byte> {
    var name := Padded(pv);
    HeaderBytes(CMD_VERSION, 0, 1, MINOR_REVISION, id, 0)
    + HeaderBytes(CMD_SEARCH, |name| % 0x1_0000, if replyWanted then DO_REPLY else DONT_REPLY, MINOR_REVISION, id, id)
    + name
  }

  function SearchReplyBytes(id: u32, serverPort: u16): seq<byte> {
    HeaderBytes(CMD_SEARCH, PAYLOAD_ALIGN, serverPort, 0, ANY_SENDER, id) + Put16(MINOR_REVISION) + Zeros(6)
  }

  /** The server as a big-endian integer, zero when absent; Go has no IPv4 form of an IPv6 address that is not mapped. */
  function ServerField(server: Addr): u32
    requires !server.Unmap().V6?
  {
    if server.IsValid() then server.Unmap().v else 0
  }

  function BeaconBytes(serverPort: u16, beaconId: u32, server: Addr): seq<byte>
    requires !server.Unmap().V6?
  {
    HeaderBytes(CMD_BEACON, 0, MINOR_REVISION, serverPort, beaconId, ServerField(server))
  }

  method PutUint16(a: array<byte>, off: nat, v: u16)
    requires off + 2 <= a.Length
    modifies a
    ensures a[..] == old(a[..off]) + Put16(v) + old(a[off + 2..])
  {
    a[off], a[off + 1] := v / 0x100, v % 0x100;
  }

  method PutUint32(a: array<byte>, off: nat, v: u32)
    requires off + 4 <= a.Length
    modifies a
    ensures a[..] == old(a[..off]) + Put32(v) + old(a[off + 4..])
  {
    PutUint16(a, off, v / 0x1_0000);
    PutUint16(a, off + 2, v % 0x1_0000);
  }

  method HeaderArray(n: nat, command: u16, size: u16, dataType: u16, count: u16, cid: u32, available: u32) returns (h: array<byte>)
    requires n >= HEADER_LEN
    ensures fresh(h) && h[..] == HeaderBytes(command, size, dataType, count, cid, available) + Zeros(n - HEADER_LEN)
  {
    h := new byte[n](_ => 0);
    assert h[..] == Zeros(n);
    PutUint16(h, 0, command);
    assert h[..] == Put16(command) + Zeros(n - 2);
    PutUint16(h, 2, size);
    assert h[..] == Put16(command) + Put16(size) + Zeros(n - 4);
    PutUint16(h, 4, dataType);
    ghost var three := Put16(command) + Put16(size) + Put16(dataType);
    assert h[..] == three + Zeros(n - 6);
    PutUint16(h, 6, count);
    ghost var four := three + Put16(count);
    assert h[..] == four + Zeros(n - 8);
    PutUint32(h, 8, cid);
    assert h[..] == four + Put32(cid) + Zeros(n - 12);
    PutUint32(h, 12, available);
  }

  /** Appends a NUL and pads with NULs to the payload alignment. */
  method PadName(pv: seq<byte>) returns (name: seq<byte>)
    ensures name == Padded(pv)
  {
    name := pv + [0];
    while |name| % PAYLOAD_ALIGN != 0
      invariant |pv| < |name| <= |Padded(pv)| && name == pv + Zeros(|name| - |pv|)
      decreases |Padded(pv)| - |name|
    {
      name := name + [0];
    }
  }

  method SearchDatagram(id: u32, pv: seq<byte>, replyWanted: bool) returns (r: seq<byte>)
    ensures r == SearchBytes(id, pv, replyWanted)
  {
    var b := HeaderArray(HEADER_LEN, CMD_VERSION, 0, 1, MINOR_REVISION, id, 0);
    var name := PadName(pv);
    var h := HeaderArray(HEADER_LEN, CMD_SEARCH, |name| % 0x1_0000, if replyWanted then DO_REPLY else DONT_REPLY, MINOR_REVISION, id, id);
    assert Zeros(0) == [];
    r := b[..] + h[..] + name;
  }

  method SearchReplyDatagram(id: u32, serverPort: u16) returns (r: seq<byte>)
    ensures r == SearchReplyBytes(id, serverPort)
  {
    var h := HeaderArray(HEADER_LEN + PAYLOAD_ALIGN, CMD_SEARCH, PAYLOAD_ALIGN, serverPort, 0, ANY_SENDER, id);
    PutUint16(h, 16, MINOR_REVISION);
    r := h[..];
    assert Zeros(8)[2..] == Zeros(6);
  }

  method BeaconDatagram(serverPort: u16, beaconId: u32, server: Addr) returns (r: seq<byte>)
    requires !server.Unmap().V6?
    ensures r == BeaconBytes(serverPort, beaconId, server)
  {
    var h := HeaderArray(HEADER_LEN, CMD_BEACON, 0, MINOR_REVISION, serverPort, beaconId, 0);
    if server.IsValid() {
      PutUint32(h, 12, server.Unmap().v);
    }
    r := h[..];
    assert Zeros(0) == [];
  }

  // ---------------------------------------------------------------- round trips

  function VersionMessage(id: u32): Message {
    Message(Header(CMD_VERSION, 0, 1, MINOR_REVISION, id, 0, HEADER_LEN), [])
  }

  /** How many bytes of the padded name the 16-bit size field of a search claims. */
  function ClaimedSize(pv: seq<byte>): (r: u16)
    ensures r <= |Padded(pv)| && (|Padded(pv)| < 0x1_0000 ==> r == |Padded(pv)|)
  {
    RemainderBounds(|Padded(pv)|, 0x1_0000);
    |Padded(pv)| % 0x1_0000
  }

  /** The search message a parser finds; of a name too long for the size field it gets only a part. */
  function SearchMessage(id: u32, pv: seq<byte>, replyWanted: bool): Message {
    var size := ClaimedSize(pv);
    Message(Header(CMD_SEARCH, size, if replyWanted then DO_REPLY else DONT_REPLY, MINOR_REVISION, id, id, HEADER_LEN), Padded(pv)[..size])
  }

  function ReplyMessage(id: u32, serverPort: u16): Message {
    Message(Header(CMD_SEARCH, PAYLOAD_ALIGN, serverPort, 0, ANY_SENDER, id, HEADER_LEN), Put16(MINOR_REVISION) + Zeros(6))
  }

  lemma PaddedUntilNul(pv: seq<byte>, n: nat)
    requires n > 0
    ensures UntilNul(pv + Zeros(n)) == UntilNul(pv)
  {
    if pv == [] {
      assert pv + Zeros(n) == Zeros(n);
    } else if pv[0] != 0 {
      assert (pv + Zeros(n))[1..] == pv[1..] + Zeros(n);
      PaddedUntilNul(pv[1..], n);
    }
  }

  lemma {:induction false} NulFree(pv: seq<byte>)
    ensures UntilNul(pv) == pv <==> 0 !in pv
  {
    if pv == [] {
    } else {
      NulFree(pv[1..]);
    }
  }

  /** Exactly the names a search carries unchanged: printable ASCII of at most 512 bytes. */
  lemma NameSurvives(pv: seq<byte>)
    ensures CString(Padded(pv)) == pv <==> Printable(pv) && |pv| <= MAX_PV_NAME_LEN
  {
    PaddedUntilNul(pv, PAYLOAD_ALIGN - |pv| % PAYLOAD_ALIGN);
    NulFree(pv);
  }

  /** The built datagram is the encoding of its two messages, and what the size field does not cover. */
  lemma SearchEncodes(id: u32, pv: seq<byte>, replyWanted: bool)
    ensures EncodeAll(MessageCodec(true), [VersionMessage(id), SearchMessage(id, pv, replyWanted)]) + Padded(pv)[ClaimedSize(pv)..]
         == SearchBytes(id, pv, replyWanted)
  {
    var c, v, s := MessageCodec(true), VersionMessage(id), SearchMessage(id, pv, replyWanted);
    var name, size := Padded(pv), ClaimedSize(pv);
    EncodeTwo(c, v, s);
    assert c.encode(v) == EncodeHeader(v.h) && c.encode(s) == EncodeHeader(s.h) + name[..size];
    assert name[..size] + name[size..] == name;
  }

  lemma SearchMessagesValid(id: u32, pv: seq<byte>, replyWanted: bool)
    ensures AllValid(MessageCodec(true), [VersionMessage(id), SearchMessage(id, pv, replyWanted)])
  {
    var c, v, s := MessageCodec(true), VersionMessage(id), SearchMessage(id, pv, replyWanted);
    assert c.valid(v) && c.valid(s);
  }

  /** What a parser makes of the bytes after some messages. */
  ghost function RestSpec(b: seq<byte>, udp: bool): Parsed<Message, Error> {
    CodecSound(udp);
    ParseAll(MessageCodec(udp), b)
  }

  lemma SearchParses(id: u32, pv: seq<byte>, replyWanted: bool)
    ensures ParseSpec(SearchBytes(id, pv, replyWanted), true)
         == Prepend([VersionMessage(id), SearchMessage(id, pv, replyWanted)], RestSpec(Padded(pv)[ClaimedSize(pv)..], true))
  {
    CodecSound(true);
    SearchMessagesValid(id, pv, replyWanted);
    SearchEncodes(id, pv, replyWanted);
    EncodedParses(MessageCodec(true), [VersionMessage(id), SearchMessage(id, pv, replyWanted)], Padded(pv)[ClaimedSize(pv)..]);
  }

  /**
    Search round trip: a built search starts with a version message and a request whose id and reply
    flag come back for every name, and whose name comes back exactly when it is printable ASCII of at
    most 512 bytes. Nothing else follows unless the name is too long for the 16-bit size field.
   */
  lemma SearchRoundTrip(id: u32, pv: seq<byte>, replyWanted: bool, t: Transport, src: Addr, dst: Addr, sp: u16, dp: u16, port: u16)
    ensures var p := ParseSpec(SearchBytes(id, pv, replyWanted), true);
            && |p.msgs| >= 2 && p.msgs[0].h.command == CMD_VERSION
            && (|Padded(pv)| < 0x1_0000 ==> p.err.None? && |p.msgs| == 2)
            && var o := Interpret(p.msgs[1], t, src, dst, sp, dp, port);
            && KindOf(o) == Search && o.searchId == id && o.replyWanted == replyWanted
            && (o.pvName == pv <==> Printable(pv) && |pv| <= MAX_PV_NAME_LEN)
  {
    SearchParses(id, pv, replyWanted);
    if |Padded(pv)| < 0x1_0000 {
      assert Padded(pv)[..ClaimedSize(pv)] == Padded(pv);
      NameSurvives(pv);
    } else {
      NamesAreShort(SearchMessage(id, pv, replyWanted), t, src, dst, sp, dp, port);
    }
  }

  /**
    Reply round trip: a built reply decodes as a response with its id and port exactly when it is
    not the one overlap of the classifier, id 0xffffffff with a port equal to a reply flag.
   */
  lemma ReplyRoundTrip(id: u32, serverPort: u16, t: Transport, src: Addr, dst: Addr, sp: u16, dp: u16, port: u16)
    ensures var p := ParseSpec(SearchReplyBytes(id, serverPort), true);
            && p.err.None? && |p.msgs| == 1
            && var o := Interpret(p.msgs[0], t, src, dst, sp, dp, port);
            && (KindOf(o) == SearchResponse && o.searchId == id && o.serverPort == serverPort && o.serverIp == src
                && o.minorVersion == MINOR_REVISION
                <==> !(id == ANY_SENDER && (serverPort == DO_REPLY || serverPort == DONT_REPLY)))
  {
    CodecSound(true);
    var c, m := MessageCodec(true), ReplyMessage(id, serverPort);
    assert c.valid(m);
    EncodeSingle(c, m);
    assert c.encode(m) == SearchReplyBytes(id, serverPort);
    ParsesExactly(c, SearchReplyBytes(id, serverPort), Truncated, [m]);
    Put16Reads(MINOR_REVISION);
  }

  /** The server a beacon stands for: the one it names, or the sender. */
  function BeaconServer(server: Addr, src: Addr): Addr {
    if server.IsValid() && !server.Unmap().IsUnspecified() then server.Unmap() else src
  }

  /** A built beacon announces its port and id, and the sender when it names no server. */
  lemma BeaconRoundTrip(serverPort: u16, beaconId: u32, server: Addr, t: Transport, src: Addr, dst: Addr, sp: u16, dp: u16, port: u16)
    requires !server.Unmap().V6?
    ensures var p := ParseSpec(BeaconBytes(serverPort, beaconId, server), true);
            && p.err.None? && |p.msgs| == 1
            && var o := Interpret(p.msgs[0], t, src, dst, sp, dp, port);
            && KindOf(o) == Beacon && o.serverPort == serverPort && o.beaconId == beaconId
            && o.serverIp == BeaconServer(server, src)
  {
    CodecSound(true);
    var b := BeaconBytes(serverPort, beaconId, server);
    var c, m := MessageCodec(true), Message(Header(CMD_BEACON, 0, MINOR_REVISION, serverPort, beaconId, ServerField(server), HEADER_LEN), []);
    assert c.valid(m);
    EncodeSingle(c, m);
    assert c.encode(m) == b;
    ParsesExactly(c, b, Truncated, [m]);
  }

  /**
    The messages of a channel, as clients and servers write them: a request names its channel and the
    client's revision, the response brings the server's id, and the access rights follow.
   */
  lemma ChannelMessagesTell(cid: u32, sid: u32, rights: u32, name: seq<byte>, minor: u16, t: Transport, src: Addr, dst: Addr, sp: u16, dp: u16,
                            port: u16)
    requires |Padded(name)| < 0x1_0000
    ensures var m := Message(Header(CMD_CREATE_CHAN, |Padded(name)|, 0, 0, cid, minor, HEADER_LEN), Padded(name));
            var o := Interpret(m, t, src, dst, sp, dp, port);
            && KindOf(o) == CreateChannel && o.minorVersion == minor
            && (o.pvName == name <==> Printable(name) && |name| <= MAX_PV_NAME_LEN)
    ensures var o := Interpret(Message(Header(CMD_CREATE_CHAN, 0, 0, 0, cid, sid, HEADER_LEN), []), t, src, dst, sp, dp, port);
            KindOf(o) == CreateChannelResponse && o.sid == sid
    ensures var o := Interpret(Message(Header(CMD_ACCESS_RIGHTS, 0, 0, 0, cid, rights, HEADER_LEN), []), t, src, dst, sp, dp, port);
            KindOf(o) == AccessRights && o.rights == rights && o.direction == FromServer
  {
    NameSurvives(name);
  }
}
